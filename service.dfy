/**
 * The service layer (internal/messagehandler/service.go): a thin wrapper
 * that asks the store for its repository on every call and forwards to it.
 *
 * Update and Delete add one rule of their own: a repository that reports
 * zero affected rows without an error is turned into a "record not found"
 * error. The in-memory repository reports an error instead of zero rows,
 * so there the rule never fires; it is kept as a function over an
 * abstract (rows, error) pair.
 */
module MessageService {
  import opened Wrappers
  import opened ReviewModel
  import opened StoreErrors
  import opened TestingStorage

  /** The text of the service's own not-found error. */
  const NotFoundRowsText: string := "record not found"

  /**
   * The zero-row rule: no error and no affected row becomes "record not
   * found"; an error from the repository is passed on as it is.
   */
  function ZeroRowRule(rows: nat, err: Option<StoreError>): (r: Option<StoreError>)
    ensures r == None <==> rows != 0 && err == None
    ensures err != None ==> r == err
    ensures rows == 0 && err == None ==> r == Some(Plain(NotFoundRowsText))
  {
    if rows == 0 && err == None then Some(Plain(NotFoundRowsText)) else err
  }

  /** What the in-memory repository would count as affected rows: one on success, none on an error. */
  function RowsAffected(err: Option<StoreError>): (rows: nat)
    ensures rows == 0 <==> err != None
  {
    if err == None then 1 else 0
  }

  /** Over the in-memory repository the zero-row rule never changes the error. */
  lemma ZeroRowRuleKeepsRepositoryError(err: Option<StoreError>)
    ensures ZeroRowRule(RowsAffected(err), err) == err
  {
  }

  class Service {
    const store: Store

    /** NewService */
    constructor (store: Store)
      ensures this.store == store
    {
      this.store := store;
    }

    /** Create: forwards to the repository, drops the id and passes its error on unchanged. */
    method Create(data: Review) returns (request: Review, err: Option<StoreError>)
      requires store.Valid()
      modifies store, store.reviewRepository
      ensures store.reviewRepository != null
      ensures old(store.reviewRepository) == null ==> fresh(store.reviewRepository)
      ensures old(store.reviewRepository) != null ==> store.reviewRepository == old(store.reviewRepository)
      ensures store.Valid()
      ensures Step(store.Records(), request, err) == CreateStep(old(store.Records()), data)
    {
      var repo := store.Review();
      var _, r, e := repo.Create(data);
      request, err := r, e;
    }

    /** Update: forwards to the repository and applies the zero-row rule to what it reports. */
    method Update(data: Review) returns (request: Review, err: Option<StoreError>)
      requires store.Valid()
      modifies store, store.reviewRepository, store.errs.fieldMissing
      ensures store.reviewRepository != null
      ensures old(store.reviewRepository) == null ==> fresh(store.reviewRepository)
      ensures old(store.reviewRepository) != null ==> store.reviewRepository == old(store.reviewRepository)
      ensures store.Valid()
      ensures Step(store.Records(), request, err) == UpdateStep(old(store.Records()), data)
      ensures store.errs.fieldMissing.fields ==
        old(store.errs.fieldMissing.fields) + (if data.id == 0 then ["id"] else [])
    {
      var repo := store.Review();
      var r, e := repo.Update(data);
      ZeroRowRuleKeepsRepositoryError(e);
      request, err := r, ZeroRowRule(RowsAffected(e), e);
    }

    /** Delete: forwards to the repository and applies the zero-row rule to what it reports. */
    method Delete(id: int) returns (err: Option<StoreError>)
      requires store.Valid()
      modifies store, store.reviewRepository, store.errs.fieldMissing, store.errs.recordNotFound
      ensures store.reviewRepository != null
      ensures old(store.reviewRepository) == null ==> fresh(store.reviewRepository)
      ensures old(store.reviewRepository) != null ==> store.reviewRepository == old(store.reviewRepository)
      ensures store.Valid()
      ensures Removal(store.Records(), err) == DeleteStep(old(store.Records()), id)
      ensures store.errs.fieldMissing.fields ==
        old(store.errs.fieldMissing.fields) + (if id == 0 then ["id"] else [])
      ensures store.errs.recordNotFound.record ==
        if id != 0 && id !in old(store.Records()) then Decimal(id) else old(store.errs.recordNotFound.record)
    {
      var repo := store.Review();
      var e := repo.Delete(id);
      ZeroRowRuleKeepsRepositoryError(e);
      err := ZeroRowRule(RowsAffected(e), e);
    }

    /** ReadOne: the repository's FindOne, unchanged. */
    method ReadOne(id: int) returns (res: Result<Review, StoreError>)
      requires store.Valid()
      modifies store, store.errs.fieldMissing, store.errs.recordNotFound
      ensures store.reviewRepository != null
      ensures old(store.reviewRepository) == null ==> fresh(store.reviewRepository)
      ensures old(store.reviewRepository) != null ==> store.reviewRepository == old(store.reviewRepository)
      ensures store.Valid() && store.Records() == old(store.Records())
      ensures res == Lookup(store.Records(), id)
      ensures store.errs.fieldMissing.fields ==
        old(store.errs.fieldMissing.fields) + (if id == 0 then ["id"] else [])
      ensures store.errs.recordNotFound.record ==
        if id != 0 && id !in store.Records() then Decimal(id) else old(store.errs.recordNotFound.record)
    {
      var repo := store.Review();
      res := repo.FindOne(id);
    }

    /** ReadAll: the repository's FindAll, unchanged. */
    method ReadAll() returns (res: Listing)
      requires store.Valid()
      modifies store
      ensures store.reviewRepository != null
      ensures old(store.reviewRepository) == null ==> fresh(store.reviewRepository)
      ensures old(store.reviewRepository) != null ==> store.reviewRepository == old(store.reviewRepository)
      ensures store.Valid() && store.Records() == old(store.Records())
      ensures res.Listed? <==> Dense(store.Records())
      ensures res.Listed? ==> InOrder(store.Records(), res.records)
      ensures res.IndexPanic? ==> res.key in store.Records() && !(1 <= res.key <= |store.Records()|)
    {
      var repo := store.Review();
      res := repo.FindAll();
    }
  }

  /**
   * A service over a fresh in-memory store, as the tests set one up. The
   * store is new, but the error values are the process's singletons: they
   * keep whatever earlier services wrote into them.
   */
  method NewTestService(errs: ErrorValues) returns (s: Service)
    ensures fresh(s) && fresh(s.store) && s.store.errs == errs
    ensures s.store.Valid() && s.store.Records() == map[]
  {
    var store := new Store.New(errs);
    s := new Service(store);
  }

  // ---------------------------------------------------------------------------
  // The service's tests, as scenarios on a fresh store

  /** On a fresh store a valid review is created with id 1 and its trimmed fields; an invalid one is refused. */
  method CreateOnFreshStore(errs: ErrorValues, data: Review) returns (request: Review, err: Option<StoreError>)
    ensures err == None <==> Validate(data).errors == []
    ensures err == None ==> request == Validate(data).trimmed.(id := 1)
    ensures err != None ==> err == Some(Invalid(Validate(data).errors)) && request.id == data.id
  {
    var s := NewTestService(errs);
    request, err := s.Create(data);
  }

  /** The fixture is created with id 1 and otherwise unchanged. */
  method CreateFixtureOnFreshStore(errs: ErrorValues) returns (request: Review, err: Option<StoreError>)
    ensures err == None && request == Fixture().(id := 1)
  {
    FixtureValid();
    request, err := CreateOnFreshStore(errs, Fixture());
  }

  /** A valid create on an empty store stores the trimmed record under id 1 and nothing else. */
  lemma CreateOnEmpty(data: Review)
    requires Validate(data).errors == []
    ensures var one := Validate(data).trimmed.(id := 1);
      CreateStep(map[], data) == Step(map[1 := one], one, None)
  {
  }

  /**
   * Update with id 0 fails with the field-missing error, which gains one
   * more "id"; an update with every field empty then leaves the stored
   * record as it was and hands it back.
   */
  method UpdateScenarios(errs: ErrorValues, data: Review) returns (zeroErr: Option<StoreError>, request: Review, stored: Review)
    requires Validate(data).errors == []
    modifies errs.fieldMissing, errs.recordNotFound
    ensures zeroErr == Some(FieldMissing)
    ensures stored == Validate(data).trimmed.(id := 1) && request == stored
    ensures errs.fieldMissing.fields == old(errs.fieldMissing.fields) + ["id"]
  {
    var s := NewTestService(errs);
    ghost var one := Validate(data).trimmed.(id := 1);
    CreateOnEmpty(data);
    var created, _ := s.Create(data);
    assert s.store.Records() == map[1 := one];
    var _, e := s.Update(data.(id := 0));
    zeroErr := e;
    assert s.store.Records() == map[1 := one];
    assert errs.fieldMissing.fields == old(errs.fieldMissing.fields) + ["id"];
    EmptyUpdateIsNoop(s.store.Records(), 1);
    var err;
    request, err := s.Update(EmptyReview().(id := 1));
    assert s.store.Records() == map[1 := one] && request == one;
    assert errs.fieldMissing.fields == old(errs.fieldMissing.fields) + ["id"];
    var found := s.ReadOne(1);
    stored := found.value;
  }

  /**
   * After Delete(id), ReadOne(id) fails with not-found; Delete(0) fails with
   * field-missing and the record stays readable.
   */
  method DeleteScenarios(errs: ErrorValues, data: Review)
    returns (zeroErr: Option<StoreError>, kept: Result<Review, StoreError>,
             deleteErr: Option<StoreError>, gone: Result<Review, StoreError>)
    requires Validate(data).errors == []
    modifies errs.fieldMissing, errs.recordNotFound
    ensures zeroErr == Some(FieldMissing) && kept == Success(Validate(data).trimmed.(id := 1))
    ensures deleteErr == None && gone == Failure(RecordNotFound)
    ensures errs.fieldMissing.fields == old(errs.fieldMissing.fields) + ["id"]
    ensures errs.recordNotFound.record == Decimal(1)
  {
    var s := NewTestService(errs);
    ghost var one := Validate(data).trimmed.(id := 1);
    CreateOnEmpty(data);
    var created, _ := s.Create(data);
    assert s.store.Records() == map[1 := one];
    zeroErr := s.Delete(0);
    assert s.store.Records() == map[1 := one];
    assert errs.fieldMissing.fields == old(errs.fieldMissing.fields) + ["id"];
    kept := s.ReadOne(1);
    assert kept == Success(one);
    assert errs.fieldMissing.fields == old(errs.fieldMissing.fields) + ["id"];
    deleteErr := s.Delete(1);
    assert s.store.Records() == map[] && deleteErr == None;
    assert errs.fieldMissing.fields == old(errs.fieldMissing.fields) + ["id"];
    gone := s.ReadOne(1);
  }

  /** m holds the records of rs under the ids 1..|rs|. */
  ghost predicate KeyedBy(m: map<int, Review>, rs: seq<Review>)
  {
    forall k :: 1 <= k <= |rs| ==> k in m && m[k] == rs[k - 1]
  }

  /** Storing one more record under the next id extends the listing by that record. */
  lemma KeyedByExtends(m: map<int, Review>, rs: seq<Review>, x: Review)
    requires KeyedBy(m, rs)
    ensures KeyedBy(m[|rs| + 1 := x], rs + [x])
  {
    var m' := m[|rs| + 1 := x];
    var rs' := rs + [x];
    forall k | 1 <= k <= |rs'|
      ensures k in m' && m'[k] == rs'[k - 1]
    {
      if k <= |rs| {
        assert m'[k] == m[k];
      }
    }
  }

  /** The first n records of rs as Create stores them: trimmed, the k-th given id k. */
  function AsCreated(rs: seq<Review>, n: nat): (out: seq<Review>)
    requires n <= |rs|
    ensures |out| == n
  {
    if n == 0 then [] else AsCreated(rs, n - 1) + [Validate(rs[n - 1]).trimmed.(id := n)]
  }

  /** Record i of AsCreated(rs, n) is rs[i] trimmed and given id i + 1. */
  lemma {:induction false} AsCreatedAt(rs: seq<Review>, n: nat, i: nat)
    requires i < n <= |rs|
    ensures AsCreated(rs, n)[i] == Validate(rs[i]).trimmed.(id := i + 1)
    decreases n
  {
    var prefix := AsCreated(rs, n - 1);
    assert AsCreated(rs, n) == prefix + [Validate(rs[n - 1]).trimmed.(id := n)];
    if i < n - 1 {
      AsCreatedAt(rs, n - 1, i);
      assert AsCreated(rs, n)[i] == prefix[i];
    }
  }

  /** A valid create on dense records keyed by ids 1..n appends its record as number n + 1. */
  lemma CreateAppends(m: map<int, Review>, created: seq<Review>, r: Review)
    requires Validate(r).errors == []
    requires Dense(m) && |m| == |created| && KeyedBy(m, created)
    ensures var st := CreateStep(m, r);
      && st.request == Validate(r).trimmed.(id := |m| + 1)
      && Dense(st.reviews) && |st.reviews| == |m| + 1 && KeyedBy(st.reviews, created + [st.request])
  {
    CreateKeepsDense(m, r);
    KeyedByExtends(m, created, Validate(r).trimmed.(id := |m| + 1));
  }

  /** A listing in id order of records keyed by ids 1..n is that sequence of records. */
  lemma InOrderOfKeyed(m: map<int, Review>, created: seq<Review>, records: seq<Review>)
    requires |created| == |m| && KeyedBy(m, created) && InOrder(m, records)
    ensures records == created
  {
  }

  /** Creates each record of rs in turn; all valid, so the records become rs trimmed, with ids 1..|rs|. */
  method CreateEach(s: Service, rs: seq<Review>) returns (ghost created: seq<Review>)
    requires forall i :: 0 <= i < |rs| ==> Validate(rs[i]).errors == []
    requires s.store.Valid() && s.store.Records() == map[]
    modifies s.store, s.store.reviewRepository
    ensures s.store.Valid() && |s.store.Records()| == |rs| && Dense(s.store.Records())
    ensures created == AsCreated(rs, |rs|) && KeyedBy(s.store.Records(), created)
  {
    created := [];
    for n := 0 to |rs|
      invariant s.store.reviewRepository == old(s.store.reviewRepository) || fresh(s.store.reviewRepository)
      invariant s.store.Valid() && |s.store.Records()| == n && Dense(s.store.Records())
      invariant created == AsCreated(rs, n) && KeyedBy(s.store.Records(), created)
    {
      CreateAppends(s.store.Records(), created, rs[n]);
      var request, _ := s.Create(rs[n]);
      created := created + [request];
    }
  }

  /** After n valid creates on a fresh store, ReadAll lists n records, record k with id k + 1. */
  method ReadAllAfterCreates(errs: ErrorValues, rs: seq<Review>) returns (res: Listing)
    requires forall i :: 0 <= i < |rs| ==> Validate(rs[i]).errors == []
    ensures res.Listed? && |res.records| == |rs|
    ensures forall i :: 0 <= i < |rs| ==> res.records[i] == Validate(rs[i]).trimmed.(id := i + 1)
  {
    var s := NewTestService(errs);
    ghost var created := CreateEach(s, rs);
    res := s.ReadAll();
    InOrderOfKeyed(s.store.Records(), created, res.records);
    forall i | 0 <= i < |rs|
      ensures res.records[i] == Validate(rs[i]).trimmed.(id := i + 1)
    {
      AsCreatedAt(rs, |rs|, i);
    }
  }

  /**
   * The field-missing error is one object shared by the whole process: when
   * k + 1 services, each over its own fresh store, read id 0 once, its list
   * gains "id" k + 1 times, after whatever it held before. In a process
   * where nothing has used it yet, the message lists "id" k + 1 times.
   */
  method RepeatedMissingId(errs: ErrorValues, k: nat) returns (text: string)
    modifies errs.fieldMissing, errs.recordNotFound
    ensures errs.fieldMissing.fields == old(errs.fieldMissing.fields) + Names("id", k + 1)
    ensures text == FieldsMissingText(old(errs.fieldMissing.fields) + Names("id", k + 1))
    ensures old(errs.fieldMissing.fields) == [] ==> text == "fields missing: id" + Repeat(", id", k)
  {
    ghost var before := errs.fieldMissing.fields;
    for i := 0 to k + 1
      invariant errs.fieldMissing.fields == before + Names("id", i)
    {
      var s := NewTestService(errs);
      var _ := s.ReadOne(0);
      assert before + Names("id", i) + ["id"] == before + Names("id", i + 1);
    }
    text := errs.fieldMissing.Error();
    RepeatedIdText(k);
    assert [] + Names("id", k + 1) == Names("id", k + 1);
  }
}
