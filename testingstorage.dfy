/**
 * The in-memory store (internal/store/testingstorage): a Store that creates
 * its ReviewRepository on first use, and a repository that keeps the
 * reviews in a map from id to record.
 *
 * Each repository operation is specified by a pure step function over the
 * map (CreateStep, UpdateStep, DeleteStep, Lookup); the lemmas below are
 * about those functions, and the methods of the classes are proved to
 * perform them on their fields.
 */
module TestingStorage {
  import opened Wrappers
  import opened ReviewModel
  import opened StoreErrors

  // ---------------------------------------------------------------------------
  // fmt.Sprint of an id

  function DigitChar(d: nat): char
    requires d < 10
  {
    ('0' as int + d) as char
  }

  function Digits(n: nat): (s: string)
    ensures |s| >= 1
    ensures forall k :: 0 <= k < |s| ==> '0' <= s[k] <= '9'
  {
    if n < 10 then [DigitChar(n)] else Digits(n / 10) + [DigitChar(n % 10)]
  }

  /** The number a string of decimal digits stands for. */
  function DigitsValue(s: string): nat
  {
    if s == [] then 0
    else
      var c := s[|s| - 1];
      DigitsValue(s[..|s| - 1]) * 10 + (if '0' <= c <= '9' then c as int - '0' as int else 0)
  }

  /** The digits of n stand for n. */
  lemma {:induction false} DigitsDenote(n: nat)
    ensures DigitsValue(Digits(n)) == n
  {
    if n >= 10 {
      DigitsDenote(n / 10);
      var s := Digits(n);
      assert s[..|s| - 1] == Digits(n / 10);
    }
  }

  /** The decimal text of an int, with a leading '-' when it is negative. */
  function Decimal(i: int): (s: string)
    ensures s != [] && (s[0] == '-' <==> i < 0)
  {
    if i < 0 then "-" + Digits(-i) else Digits(i)
  }

  /** The decimal text determines the number: distinct ids print differently. */
  lemma DecimalInjective(a: int, b: int)
    requires Decimal(a) == Decimal(b)
    ensures a == b
  {
    if a < 0 {
      assert Decimal(a)[1..] == Digits(-a);
      assert Decimal(b)[1..] == Digits(-b);
      DigitsDenote(-a);
      DigitsDenote(-b);
    } else {
      DigitsDenote(a);
      DigitsDenote(b);
    }
  }

  /** The not-found message written by FindOne and Delete names the id it was given. */
  lemma NotFoundNamesId(a: int, b: int)
    requires NotFoundText(Decimal(a)) == NotFoundText(Decimal(b))
    ensures a == b
  {
    NotFoundTextInjective(Decimal(a), Decimal(b));
    DecimalInjective(a, b);
  }

  // ---------------------------------------------------------------------------
  // Properties of the reviews map

  /** Every stored record carries its key as its id. */
  ghost predicate KeysAreIds(m: map<int, Review>)
  {
    forall k :: k in m ==> m[k].id == k
  }

  /** The keys are exactly 1..|m|: what Create's id assignment and FindAll's indexing rely on. */
  ghost predicate Dense(m: map<int, Review>)
  {
    forall k :: k in m <==> 1 <= k <= |m|
  }

  /** The ids 1..n. */
  function Ids(n: nat): (s: set<int>)
    ensures forall k :: k in s <==> 1 <= k <= n
  {
    if n == 0 then {} else Ids(n - 1) + {n}
  }

  lemma {:induction false} IdsCard(n: nat)
    ensures |Ids(n)| == n
  {
    if n > 0 {
      var below := Ids(n - 1);
      IdsCard(n - 1);
      assert n !in below;
      assert |below + {n}| == |below| + 1;
    }
  }

  /** A set inside another of the same size is that set. */
  lemma SameSizeSubset(a: set<int>, b: set<int>)
    requires a <= b && |a| == |b|
    ensures a == b
  {
    assert b == a + (b - a);
    assert a * (b - a) == {};
  }

  /** n keys that all lie in 1..n are exactly 1..n. */
  lemma BoundedKeysAreDense(m: map<int, Review>)
    requires forall k :: k in m ==> 1 <= k <= |m|
    ensures Dense(m)
  {
    IdsCard(|m|);
    assert m.Keys <= Ids(|m|);
    SameSizeSubset(m.Keys, Ids(|m|));
  }

  // ---------------------------------------------------------------------------
  // The operations as functions of the map

  /** The map, the caller's record and the error after a Create or an Update. */
  datatype Step = Step(reviews: map<int, Review>, request: Review, err: Option<StoreError>)

  /** The map and the error after a Delete. */
  datatype Removal = Removal(reviews: map<int, Review>, err: Option<StoreError>)

  /**
   * Create: a record that fails validation is refused and the map is kept;
   * otherwise it gets the id |m| + 1 and is stored under that key, over
   * whatever was stored there before.
   */
  function CreateStep(m: map<int, Review>, review: Review): (s: Step)
    ensures s.err == None <==> Validate(review).errors == []
    ensures s.err != None ==>
      (s.err == Some(Invalid(Validate(review).errors)) && s.reviews == m && s.request == Validate(review).trimmed)
    ensures s.err == None ==>
      (s.request == Validate(review).trimmed.(id := |m| + 1) && s.reviews == m[|m| + 1 := s.request])
  {
    var v := Validate(review);
    if v.errors != [] then Step(m, v.trimmed, Some(Invalid(v.errors)))
    else
      var id := |m| + 1;
      var stored := v.trimmed.(id := id);
      Step(m[id := stored], stored, None)
  }

  /** Update's merge: a present field of the request replaces the stored one, an empty one keeps it. */
  function Patch(stored: Review, request: Review): (p: Review)
    ensures p.id == stored.id
    ensures request.author == "" && request.rating == 0 && request.title == "" && request.description == ""
      ==> p == stored
    ensures request.author != "" && request.rating != 0 && request.title != "" && request.description != ""
      ==> p == request.(id := stored.id)
  {
    Review(
      stored.id,
      if request.author != "" then request.author else stored.author,
      if request.rating != 0 then request.rating else stored.rating,
      if request.title != "" then request.title else stored.title,
      if request.description != "" then request.description else stored.description)
  }

  /**
   * Update: id 0, a failed validation and an absent id are refused in that
   * order and leave the map as it is; otherwise the stored record and the
   * caller's record both become the merge of the two.
   */
  function UpdateStep(m: map<int, Review>, request: Review): (s: Step)
    ensures s.reviews.Keys == m.Keys
    ensures s.err == None <==> request.id != 0 && Validate(request).errors == [] && request.id in m
    ensures s.err != None ==> s.reviews == m
    ensures s.err == None ==> s.reviews == m[request.id := s.request]
    ensures request.id == 0 ==> s == Step(m, request, Some(FieldMissing))
    ensures request.id != 0 && s.err != None ==> s.request == Validate(request).trimmed
    ensures request.id != 0 && Validate(request).errors != [] ==>
      s.err == Some(Invalid(Validate(request).errors))
    ensures request.id != 0 && Validate(request).errors == [] && request.id !in m ==>
      s.err == Some(RecordNotFound)
  {
    if request.id == 0 then Step(m, request, Some(FieldMissing))
    else
      var v := Validate(request);
      if v.errors != [] then Step(m, v.trimmed, Some(Invalid(v.errors)))
      else if request.id !in m then Step(m, v.trimmed, Some(RecordNotFound))
      else
        var merged := Patch(m[request.id], v.trimmed);
        Step(m[request.id := merged], merged, None)
  }

  /** Delete: id 0 and an absent id are refused; otherwise exactly that key is removed. */
  function DeleteStep(m: map<int, Review>, id: int): (r: Removal)
    ensures r.err == None <==> id != 0 && id in m
    ensures r.err == None ==> r.reviews == m - {id}
    ensures r.err != None ==> r.reviews == m
    ensures id == 0 ==> r.err == Some(FieldMissing)
    ensures id != 0 && id !in m ==> r.err == Some(RecordNotFound)
  {
    if id == 0 then Removal(m, Some(FieldMissing))
    else if id !in m then Removal(m, Some(RecordNotFound))
    else Removal(m - {id}, None)
  }

  /** FindOne: id 0 is a missing field, an absent id is not found, a present id yields its record. */
  function Lookup(m: map<int, Review>, id: int): (r: Result<Review, StoreError>)
    ensures r.Success? <==> id != 0 && id in m
    ensures r.Success? ==> r.value == m[id]
    ensures id == 0 ==> r == Failure(FieldMissing)
    ensures id != 0 && id !in m ==> r == Failure(RecordNotFound)
  {
    if id == 0 then Failure(FieldMissing)
    else if id !in m then Failure(RecordNotFound)
    else Success(m[id])
  }

  /** Creating each record of rs in turn. */
  function CreateAll(m: map<int, Review>, rs: seq<Review>): map<int, Review>
    decreases |rs|
  {
    if rs == [] then m else CreateAll(CreateStep(m, rs[0]).reviews, rs[1..])
  }

  // ---------------------------------------------------------------------------
  // Lemmas about the operations

  /** Create keeps the keys 1..n: the new id is n + 1. */
  lemma CreateKeepsDense(m: map<int, Review>, review: Review)
    requires Dense(m)
    ensures Dense(CreateStep(m, review).reviews)
    ensures CreateStep(m, review).err == None ==> |CreateStep(m, review).reviews| == |m| + 1
  {
    var s := CreateStep(m, review);
    if s.err == None {
      var n := |m| + 1;
      assert n !in m;
      assert s.reviews.Keys == m.Keys + {n};
      assert |s.reviews| == n;
      forall k
        ensures k in s.reviews <==> 1 <= k <= n
      {
        assert k in s.reviews <==> k in m || k == n;
      }
    }
  }

  /** Update never adds or removes a key, so it keeps the keys 1..n. */
  lemma UpdateKeepsDense(m: map<int, Review>, request: Review)
    requires Dense(m)
    ensures Dense(UpdateStep(m, request).reviews)
  {
    var s := UpdateStep(m, request);
    assert |s.reviews| == |s.reviews.Keys| == |m.Keys| == |m|;
  }

  /** Create and Update keep every record's id equal to its key. */
  lemma StepsKeepIds(m: map<int, Review>, review: Review)
    requires KeysAreIds(m)
    ensures KeysAreIds(CreateStep(m, review).reviews)
    ensures KeysAreIds(UpdateStep(m, review).reviews)
  {
    var c := CreateStep(m, review);
    forall k | k in c.reviews
      ensures c.reviews[k].id == k
    {
      if k != |m| + 1 {
        assert c.reviews[k] == m[k];
      }
    }
    var u := UpdateStep(m, review);
    forall k | k in u.reviews
      ensures u.reviews[k].id == k
    {
      if u.err != None || k != review.id {
        assert u.reviews[k] == m[k];
      }
    }
  }

  /** n valid creates on 1..k give 1..k + n. */
  lemma {:induction false} CreatesStayDense(m: map<int, Review>, rs: seq<Review>)
    requires Dense(m)
    requires forall i :: 0 <= i < |rs| ==> Validate(rs[i]).errors == []
    ensures Dense(CreateAll(m, rs))
    ensures |CreateAll(m, rs)| == |m| + |rs|
    decreases |rs|
  {
    if rs != [] {
      var m' := CreateStep(m, rs[0]).reviews;
      CreateKeepsDense(m, rs[0]);
      assert |m| + 1 !in m;
      assert |m'| == |m| + 1;
      CreatesStayDense(m', rs[1..]);
    }
  }

  /**
   * Update merges field by field: a field left empty (after trimming) in the
   * request is taken from the stored record, any other overwrites it; the
   * stored record and the caller's record end up equal.
   */
  lemma UpdateMerges(m: map<int, Review>, request: Review)
    requires KeysAreIds(m)
    requires UpdateStep(m, request).err == None
    ensures var s := UpdateStep(m, request); var old_ := m[request.id]; var t := Validate(request).trimmed;
      && s.reviews[request.id] == s.request
      && s.request.id == request.id
      && s.request.author == (if t.author != "" then t.author else old_.author)
      && s.request.rating == (if t.rating != 0 then t.rating else old_.rating)
      && s.request.title == (if t.title != "" then t.title else old_.title)
      && s.request.description == (if t.description != "" then t.description else old_.description)
  {
  }

  /** An update with every field empty changes nothing and hands back the stored record. */
  lemma EmptyUpdateIsNoop(m: map<int, Review>, id: int)
    requires KeysAreIds(m) && id != 0 && id in m
    ensures UpdateStep(m, EmptyReview().(id := id)) == Step(m, m[id], None)
  {
    var q := EmptyReview().(id := id);
    assert Trim("") == "";
    assert Validate(q).trimmed == q;
    assert Patch(m[id], q) == m[id];
    assert m[id := m[id]] == m;
  }

  /** Applying the same update twice has the effect of applying it once. */
  lemma UpdateIdempotent(m: map<int, Review>, request: Review)
    requires KeysAreIds(m)
    ensures UpdateStep(UpdateStep(m, request).reviews, request) == UpdateStep(m, request)
  {
    var s := UpdateStep(m, request);
    if s.err == None {
      var t := Validate(request).trimmed;
      assert s.reviews[request.id] == Patch(m[request.id], t);
      assert Patch(Patch(m[request.id], t), t) == Patch(m[request.id], t);
      assert s.reviews[request.id := s.request] == s.reviews;
    }
  }

  /** Round trip: a created record is found under its new id, equal to the input but for the id. */
  lemma CreateThenLookup(m: map<int, Review>, review: Review)
    requires Validate(review).errors == []
    ensures var s := CreateStep(m, review);
      && Lookup(s.reviews, |m| + 1) == Success(s.request)
      && s.request == Validate(review).trimmed.(id := |m| + 1)
  {
  }

  /** After a Delete the id is no longer found; Delete(0) leaves every record readable. */
  lemma DeleteThenLookup(m: map<int, Review>, id: int)
    ensures Lookup(DeleteStep(m, id).reviews, id).Failure?
    ensures forall k :: k in m && k != 0 ==> Lookup(DeleteStep(m, 0).reviews, k) == Success(m[k])
  {
  }

  /** Deleting any key but the last breaks 1..n: {1, 2} less 1 is {2}. */
  lemma DeleteCanBreakDense(a: Review, b: Review)
    ensures var m := map[1 := a, 2 := b];
      Dense(m) && !Dense(DeleteStep(m, 1).reviews)
  {
    var m := map[1 := a, 2 := b];
    var m' := DeleteStep(m, 1).reviews;
    assert m' == map[2 := b];
    assert 2 in m' && |m'| == 1;
  }

  /**
   * When the id |m| + 1 is already taken (as after deleting any record but
   * the last), a valid Create replaces the record stored under it: the keys
   * stay the same and the map does not grow.
   */
  lemma CreateOverwritesTakenId(m: map<int, Review>, r: Review)
    requires Validate(r).errors == [] && |m| + 1 in m
    ensures var s := CreateStep(m, r);
      && s.err == None && s.reviews.Keys == m.Keys && |s.reviews| == |m|
      && s.reviews[|m| + 1] == s.request && s.request.id == |m| + 1
  {
  }

  /** Deleting key 1 of {1, 2} leaves one record, under key 2. */
  lemma DeleteFirstOfTwo(a: Review, b: Review)
    ensures var m' := DeleteStep(map[1 := a, 2 := b], 1).reviews;
      m' == map[2 := b] && |m'| == 1
  {
    var m' := DeleteStep(map[1 := a, 2 := b], 1).reviews;
    assert m' == map[2 := b];
    assert m'.Keys == {2};
  }

  /**
   * After that Delete, the next valid Create is given id 2 again and
   * overwrites the record stored there: b is lost and only one record is left.
   */
  lemma CreateAfterDeleteOverwrites(a: Review, b: Review, r: Review)
    requires Validate(r).errors == []
    ensures var m' := DeleteStep(map[1 := a, 2 := b], 1).reviews;
      var s := CreateStep(m', r);
      s.err == None && s.request.id == 2 && s.reviews.Keys == {2} && s.reviews[2] == s.request
  {
    DeleteFirstOfTwo(a, b);
    CreateOverwritesTakenId(map[2 := b], r);
  }

  /** rs lists the records of m by id: the record with id k at position k - 1. */
  ghost predicate InOrder(m: map<int, Review>, rs: seq<Review>)
  {
    |rs| == |m| && forall i :: 0 <= i < |rs| ==> i + 1 in m && rs[i] == m[i + 1]
  }

  /** Slots filled from every key of m, all keys within 1..n, give the keys 1..n in order. */
  lemma CollectedInOrder(m: map<int, Review>, rs: seq<Review>)
    requires |rs| == |m|
    requires forall k :: k in m ==> 1 <= k <= |m| && rs[k - 1] == m[k]
    ensures Dense(m) && InOrder(m, rs)
  {
    BoundedKeysAreDense(m);
  }

  /** A key outside 1..n rules the keys 1..n out. */
  lemma OutOfRangeKey(m: map<int, Review>, k: int)
    requires k in m && !(1 <= k <= |m|)
    ensures !Dense(m)
  {
  }

  /** A set that is not empty has an element to pick. */
  lemma Inhabited(s: set<int>)
    requires s != {}
    ensures exists x :: x in s
  {
    if forall x :: x !in s {
      assert false;
    }
  }

  /**
   * The loop of FindAll: copies every record into slot id - 1 of a list as
   * long as the map, visiting the keys in an unspecified order; a key
   * outside 1..n is an index out of range.
   */

  method ListByKey(m: map<int, Review>) returns (res: Listing)
    ensures res.Listed? <==> Dense(m)
    ensures res.Listed? ==> InOrder(m, res.records)
    ensures res.IndexPanic? ==> res.key in m && !(1 <= res.key <= |m|)
  {
    var n := |m|;
    var result := new Review[n];
    var todo := m.Keys;
    while todo != {}
      invariant todo <= m.Keys
      invariant forall k :: k in m && k !in todo ==> 1 <= k <= n && result[k - 1] == m[k]
      decreases |todo|
    {
      Inhabited(todo);
      var k :| k in todo;
      if !(1 <= k <= n) {
        OutOfRangeKey(m, k);
        return IndexPanic(k);
      }
      result[k - 1] := m[k];
      todo := todo - {k};
    }
    CollectedInOrder(m, result[..]);
    return Listed(result[..]);
  }

  /** When the ids are the keys, a listing in order has record i + 1 at position i. */
  lemma InOrderIds(m: map<int, Review>, rs: seq<Review>)
    requires KeysAreIds(m) && InOrder(m, rs)
    ensures forall i :: 0 <= i < |rs| ==> rs[i].id == i + 1
  {
  }

  /**
   * The body of Update's merge: each field present in the request is copied
   * into the stored record, each empty one is copied back into the request;
   * both come out as Patch(stored, request).
   */
  method MergeFields(stored: Review, updated: Review) returns (review: Review, request: Review)
    requires stored.id == updated.id
    ensures review == Patch(stored, updated) && request == review
  {
    review, request := stored, updated;
    if request.author != "" {
      review := review.(author := request.author);
    } else {
      request := request.(author := review.author);
    }
    if request.rating != 0 {
      review := review.(rating := request.rating);
    } else {
      request := request.(rating := review.rating);
    }
    if request.title != "" {
      review := review.(title := request.title);
    } else {
      request := request.(title := review.title);
    }
    if request.description != "" {
      review := review.(description := request.description);
    } else {
      request := request.(description := review.description);
    }
  }

  // ---------------------------------------------------------------------------
  // The objects

  /** What FindAll produces: the records by id, or the panic of an index out of range. */
  datatype Listing = Listed(records: seq<Review>) | IndexPanic(key: int)

  class ReviewRepository {
    const store: Store
    const errs: ErrorValues
    var reviews: map<int, Review>

    ghost predicate Valid()
      reads this
    {
      KeysAreIds(reviews)
    }

    constructor (store: Store, errs: ErrorValues)
      ensures this.store == store && this.errs == errs
      ensures reviews == map[] && Valid()
    {
      this.store := store;
      this.errs := errs;
      reviews := map[];
    }

    method Create(review: Review) returns (id: int, request: Review, err: Option<StoreError>)
      requires Valid()
      modifies this
      ensures Valid()
      ensures Step(reviews, request, err) == CreateStep(old(reviews), review)
      ensures id == if err == None then request.id else 0
    {
      var v := Validate(review);
      if v.errors != [] {
        return 0, v.trimmed, Some(Invalid(v.errors));
      }
      request := v.trimmed.(id := |reviews| + 1);
      reviews := reviews[request.id := request];
      return request.id, request, None;
    }

    /** FindAll: the records by id, or the panic of a key outside 1..n. */
    method FindAll() returns (res: Listing)
      ensures res.Listed? <==> Dense(reviews)
      ensures res.Listed? ==> InOrder(reviews, res.records)
      ensures res.IndexPanic? ==> res.key in reviews && !(1 <= res.key <= |reviews|)
    {
      res := ListByKey(reviews);
    }

    method FindOne(id: int) returns (res: Result<Review, StoreError>)
      modifies errs.fieldMissing, errs.recordNotFound
      ensures res == Lookup(reviews, id)
      ensures errs.fieldMissing.fields == old(errs.fieldMissing.fields) + (if id == 0 then ["id"] else [])
      ensures errs.recordNotFound.record ==
        if id != 0 && id !in reviews then Decimal(id) else old(errs.recordNotFound.record)
    {
      if id == 0 {
        var _ := errs.fieldMissing.AddFields(["id"]);
        return Failure(FieldMissing);
      }
      if id !in reviews {
        var _ := errs.recordNotFound.Record(Decimal(id));
        return Failure(RecordNotFound);
      }
      return Success(reviews[id]);
    }

    /** Merges field by field into the stored record and into the caller's record. */
    method Update(updated: Review) returns (request: Review, err: Option<StoreError>)
      requires Valid()
      modifies this, errs.fieldMissing
      ensures Valid()
      ensures Step(reviews, request, err) == UpdateStep(old(reviews), updated)
      ensures errs.fieldMissing.fields == old(errs.fieldMissing.fields) + (if updated.id == 0 then ["id"] else [])
    {
      if updated.id == 0 {
        var _ := errs.fieldMissing.AddFields(["id"]);
        return updated, Some(FieldMissing);
      }
      var v := Validate(updated);
      request := v.trimmed;
      if v.errors != [] {
        return request, Some(Invalid(v.errors));
      }
      if request.id !in reviews {
        return request, Some(RecordNotFound);
      }
      var review;
      review, request := MergeFields(reviews[request.id], request);
      reviews := reviews[request.id := review];
      return request, None;
    }

    method Delete(id: int) returns (err: Option<StoreError>)
      modifies this, errs.fieldMissing, errs.recordNotFound
      ensures Removal(reviews, err) == DeleteStep(old(reviews), id)
      ensures old(Valid()) ==> Valid()
      ensures errs.fieldMissing.fields == old(errs.fieldMissing.fields) + (if id == 0 then ["id"] else [])
      ensures errs.recordNotFound.record ==
        if id != 0 && id !in old(reviews) then Decimal(id) else old(errs.recordNotFound.record)
    {
      if id == 0 {
        var _ := errs.fieldMissing.AddFields(["id"]);
        return Some(FieldMissing);
      }
      if id !in reviews {
        var _ := errs.recordNotFound.Record(Decimal(id));
        return Some(RecordNotFound);
      }
      reviews := reviews - {id};
      return None;
    }
  }

  class Store {
    const errs: ErrorValues
    var reviewRepository: ReviewRepository?

    /** The repository, once created, points back to this store, shares its error values and is valid. */
    ghost predicate Valid()
      reads this, reviewRepository
    {
      reviewRepository != null ==>
        reviewRepository.store == this && reviewRepository.errs == errs && reviewRepository.Valid()
    }

    /** The records the store holds: none before its repository exists. */
    ghost function Records(): map<int, Review>
      reads this, reviewRepository
    {
      if reviewRepository == null then map[] else reviewRepository.reviews
    }

    /** New: a store with no repository yet. */
    constructor New(errs: ErrorValues)
      ensures this.errs == errs && reviewRepository == null
      ensures Valid() && Records() == map[]
    {
      this.errs := errs;
      reviewRepository := null;
    }

    /** The repository, created empty on the first call and the same object on every later one. */
    method Review() returns (repo: ReviewRepository)
      requires Valid()
      modifies this
      ensures Valid() && reviewRepository == repo
      ensures old(reviewRepository) == null ==> fresh(repo) && repo.reviews == map[]
      ensures old(reviewRepository) != null ==> repo == old(reviewRepository)
      ensures Records() == old(Records())
    {
      if reviewRepository == null {
        reviewRepository := new ReviewRepository(this, errs);
      }
      repo := reviewRepository;
    }
  }
}
