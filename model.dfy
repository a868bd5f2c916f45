/**
 * The review record and its validation (internal/model/review.go).
 *
 * Validate first trims the three string fields in place and then checks the
 * struct-tag rules: every field is required while the id is zero and
 * optional once an id is present; a present field must meet its bounds.
 */
module ReviewModel {
  import opened Wrappers

  /** Go's int8, the type of the rating. */
  type Int8 = x: int | -128 <= x < 128

  datatype Review = Review(
    id: int,
    author: string,
    rating: Int8,
    title: string,
    description: string)

  /** The zero value of a review. */
  function EmptyReview(): Review
  {
    Review(0, "", 0, "", "")
  }

  /** The record the tests use as a valid review (internal/model/testing.go). */
  function Fixture(): (r: Review)
    ensures r.id == 0 && 1 <= r.rating <= 10
    ensures 3 <= |r.title| <= 50 && 3 <= |r.description| <= 500 && r.author != ""
  {
    Review(0, "example_mail@example.com", 3, "Title", "Description of the review")
  }

  // ---------------------------------------------------------------------------
  // Trimming

  /** White space as Go's unicode.IsSpace defines it (the Unicode White_Space property). */
  predicate IsSpace(c: char)
    ensures IsSpace(c) ==> !('0' <= c <= '9') && !('a' <= c <= 'z') && !('A' <= c <= 'Z')
    ensures IsSpace(c) ==> c != '@' && c != '.' && c != '_' && c != '-'
  {
    c == ' ' || c == '\t' || c == '\n' || c == '\r' || c == '\U{0B}' || c == '\U{0C}'
    || c == '\U{85}' || c == '\U{A0}' || c == '\U{1680}'
    || ('\U{2000}' <= c <= '\U{200A}')
    || c == '\U{2028}' || c == '\U{2029}' || c == '\U{202F}' || c == '\U{205F}' || c == '\U{3000}'
  }

  /** The first position at or after i that does not hold white space (|s| if there is none). */
  function SkipSpace(s: string, i: nat): (j: nat)
    requires i <= |s|
    ensures i <= j <= |s|
    ensures j < |s| ==> !IsSpace(s[j])
    ensures forall k :: i <= k < j ==> IsSpace(s[k])
    decreases |s| - i
  {
    if i < |s| && IsSpace(s[i]) then SkipSpace(s, i + 1) else i
  }

  /** The end of s[lo..j] once its trailing white space is dropped. */
  function BackSpace(s: string, lo: nat, j: nat): (e: nat)
    requires lo <= j <= |s|
    ensures lo <= e <= j
    ensures e > lo ==> !IsSpace(s[e - 1])
    ensures forall k :: e <= k < j ==> IsSpace(s[k])
    decreases j - lo
  {
    if lo < j && IsSpace(s[j - 1]) then BackSpace(s, lo, j - 1) else j
  }

  /** strings.TrimSpace: drops the white space at both ends. */
  function Trim(s: string): (r: string)
    ensures |r| <= |s|
    ensures r != [] ==> !IsSpace(r[0]) && !IsSpace(r[|r| - 1])
  {
    var b := SkipSpace(s, 0);
    s[b..BackSpace(s, b, |s|)]
  }

  /** A string made only of white space. */
  predicate Blank(t: string)
  {
    forall k :: 0 <= k < |t| ==> IsSpace(t[k])
  }

  /** s is the white space Trim drops in front, then Trim(s), then the white space it drops behind. */
  lemma TrimIsInfix(s: string)
    ensures var b := SkipSpace(s, 0); var e := b + |Trim(s)|;
      (&& e <= |s| && s == s[..b] + Trim(s) + s[e..]
       && Blank(s[..b]) && Blank(s[e..]))
  {
    var b := SkipSpace(s, 0);
    var e := BackSpace(s, b, |s|);
    assert s == s[..b] + s[b..e] + s[e..];
  }

  /** A string made only of white space trims to the empty string. */
  lemma BlankTrimsToEmpty(s: string)
    requires Blank(s)
    ensures Trim(s) == ""
  {
    assert SkipSpace(s, 0) == |s|;
  }

  /** A string with no white space at either end is left as it is by trimming. */
  lemma TrimKeeps(s: string)
    requires s != [] && !IsSpace(s[0]) && !IsSpace(s[|s| - 1])
    ensures Trim(s) == s
  {
    assert SkipSpace(s, 0) == 0;
    assert BackSpace(s, 0, |s|) == |s|;
  }

  /** Trimming twice is trimming once. */
  lemma TrimIdempotent(s: string)
    ensures Trim(Trim(s)) == Trim(s)
  {
    var r := Trim(s);
    if r != [] {
      TrimKeeps(r);
    }
  }

  /** conform.Strings on a review: the three tagged string fields are trimmed. */
  function Conform(r: Review): (c: Review)
    ensures c.id == r.id && c.rating == r.rating
  {
    r.(author := Trim(r.author), title := Trim(r.title), description := Trim(r.description))
  }

  /** conform.Strings a second time changes nothing: the fields it trimmed are left as they are. */
  lemma ConformIdempotent(r: Review)
    ensures Conform(Conform(r)) == Conform(r)
  {
    TrimIdempotent(r.author);
    TrimIdempotent(r.title);
    TrimIdempotent(r.description);
  }

  // ---------------------------------------------------------------------------
  // The email check

  /** The position of the first c in s at or after position from. */
  function IndexFrom(s: string, c: char, from: nat): (r: Option<nat>)
    requires from <= |s|
    ensures r.Some? ==>
      (from <= r.value < |s| && s[r.value] == c && forall k :: from <= k < r.value ==> s[k] != c)
    ensures r.None? ==> forall k :: from <= k < |s| ==> s[k] != c
    decreases |s| - from
  {
    if from == |s| then None
    else if s[from] == c then Some(from)
    else IndexFrom(s, c, from + 1)
  }

  /** IndexFrom finds exactly the first occurrence: its result is determined by where c occurs. */
  lemma {:induction false} IndexFromFirst(s: string, c: char, from: nat, i: nat)
    requires from <= i < |s| && s[i] == c
    requires forall k :: from <= k < i ==> s[k] != c
    ensures IndexFrom(s, c, from) == Some(i)
    decreases i - from
  {
    if from < i {
      IndexFromFirst(s, c, from + 1, i);
    }
  }

  lemma {:induction false} IndexFromAbsent(s: string, c: char, from: nat)
    requires from <= |s|
    requires forall k :: from <= k < |s| ==> s[k] != c
    ensures IndexFrom(s, c, from) == None
    decreases |s| - from
  {
    if from < |s| {
      IndexFromAbsent(s, c, from + 1);
    }
  }

  /** The position of the first c in s. */
  function IndexOf(s: string, c: char): Option<nat>
  {
    IndexFrom(s, c, 0)
  }

  /**
   * An email address: a non-empty local part, a single '@', and a domain
   * with a dot that is neither its first nor its last character.
   */
  predicate IsEmail(s: string)
    ensures IsEmail(s) ==> |s| >= 5 && '@' in s && s[0] != '@' && s[|s| - 1] != '@'
  {
    match IndexOf(s, '@')
    case None => false
    case Some(at) =>
      var domain := s[at + 1..];
      at > 0 && IndexOf(domain, '@').None? && |domain| >= 3
      && IndexOf(domain[1..|domain| - 1], '.').Some?
  }

  // ---------------------------------------------------------------------------
  // The struct-tag rules

  /** One entry of the validator's error list: the field's name and the tag that failed. */
  datatype FieldError = FieldError(field: string, tag: string)

  /** The tag rules of internal/model/review.go:13-17, stated as one formula. */
  predicate Acceptable(r: Review)
    ensures Acceptable(r) ==> 0 <= r.rating <= 10 && |r.title| <= 50 && |r.description| <= 500
    ensures Acceptable(r) && r.id == 0 ==> 3 <= |r.title| && 3 <= |r.description| && 1 <= r.rating
  {
    && (r.id == 0 ==> r.author != "" && r.rating != 0 && r.title != "" && r.description != "")
    && (r.author != "" ==> IsEmail(r.author))
    && (r.rating != 0 ==> 1 <= r.rating <= 10)
    && (r.title != "" ==> 3 <= |r.title| <= 50)
    && (r.description != "" ==> 3 <= |r.description| <= 500)
  }

  /** required_without=ID,omitempty,gte=lo,lte=hi on a string field. */
  function LengthError(name: string, v: string, id: int, lo: nat, hi: nat): (e: seq<FieldError>)
    ensures |e| <= 1 && (e != [] ==> e[0].field == name)
    ensures e == [] <==> (v == "" ==> id != 0) && (v != "" ==> lo <= |v| <= hi)
    ensures e == [FieldError(name, "required_without")] <==> v == "" && id == 0
  {
    if v == "" then (if id == 0 then [FieldError(name, "required_without")] else [])
    else if |v| < lo then [FieldError(name, "gte")]
    else if |v| > hi then [FieldError(name, "lte")]
    else []
  }

  /** required_without=ID,omitempty,email on the author. */
  function AuthorError(r: Review): (e: seq<FieldError>)
    ensures |e| <= 1 && (e != [] ==> e[0].field == "Author")
    ensures e == [] <==> (r.author == "" ==> r.id != 0) && (r.author != "" ==> IsEmail(r.author))
    ensures e == [FieldError("Author", "required_without")] <==> r.author == "" && r.id == 0
  {
    if r.author == "" then (if r.id == 0 then [FieldError("Author", "required_without")] else [])
    else if !IsEmail(r.author) then [FieldError("Author", "email")]
    else []
  }

  /** required_without=ID,omitempty,gte=1,lte=10 on the rating. */
  function RatingError(r: Review): (e: seq<FieldError>)
    ensures |e| <= 1 && (e != [] ==> e[0].field == "Rating")
    ensures e == [] <==> (r.rating == 0 ==> r.id != 0) && (r.rating != 0 ==> 1 <= r.rating <= 10)
    ensures e == [FieldError("Rating", "required_without")] <==> r.rating == 0 && r.id == 0
  {
    if r.rating == 0 then (if r.id == 0 then [FieldError("Rating", "required_without")] else [])
    else if r.rating < 1 then [FieldError("Rating", "gte")]
    else if r.rating > 10 then [FieldError("Rating", "lte")]
    else []
  }

  /** The position of a tagged field in the declaration of Review (Author first). */
  function FieldRank(field: string): nat
  {
    if field == "Author" then 0
    else if field == "Rating" then 1
    else if field == "Title" then 2
    else 3
  }

  /**
   * The validator's error list: at most one entry per field, in the order
   * the fields are declared; empty exactly when the tag rules hold.
   */
  function Violations(r: Review): (errs: seq<FieldError>)
    ensures errs == [] <==> Acceptable(r)
    ensures |errs| <= 4
    ensures forall e :: e in errs ==> e.field in ["Author", "Rating", "Title", "Description"]
  {
    AuthorError(r) + RatingError(r)
      + LengthError("Title", r.title, r.id, 3, 50)
      + LengthError("Description", r.description, r.id, 3, 500)
  }

  /** The error list names each field at most once, in the order the fields are declared. */
  lemma ViolationsInFieldOrder(r: Review)
    ensures var errs := Violations(r);
      forall i, j :: 0 <= i < j < |errs| ==> FieldRank(errs[i].field) < FieldRank(errs[j].field)
  {
    RanksInOrder(AuthorError(r), RatingError(r),
      LengthError("Title", r.title, r.id, 3, 50), LengthError("Description", r.description, r.id, 3, 500));
  }

  /** Entries of at most one per field, concatenated in field order, are in strictly increasing field order. */
  lemma RanksInOrder(a: seq<FieldError>, b: seq<FieldError>, c: seq<FieldError>, d: seq<FieldError>)
    requires |a| <= 1 && |b| <= 1 && |c| <= 1 && |d| <= 1
    requires forall e :: e in a ==> FieldRank(e.field) == 0
    requires forall e :: e in b ==> FieldRank(e.field) == 1
    requires forall e :: e in c ==> FieldRank(e.field) == 2
    requires forall e :: e in d ==> FieldRank(e.field) == 3
    ensures var s := a + b + c + d;
      forall i, j :: 0 <= i < j < |s| ==> FieldRank(s[i].field) < FieldRank(s[j].field)
  {
    var s := a + b + c + d;
    var p, q, t := |a|, |a| + |b|, |a| + |b| + |c|;
    forall k | 0 <= k < |s|
      ensures FieldRank(s[k].field) == if k < p then 0 else if k < q then 1 else if k < t then 2 else 3
    {
      if k < p { assert s[k] == a[k]; }
      else if k < q { assert s[k] == b[k - p]; }
      else if k < t { assert s[k] == c[k - q]; }
      else { assert s[k] == d[k - t]; }
    }
  }

  /** The outcome of Validate: the review as trimmed in place, and the errors found. */
  datatype Validation = Validation(trimmed: Review, errors: seq<FieldError>)

  /** Review.Validate: trim the string fields, then check the tags on the trimmed record. */
  function Validate(r: Review): (v: Validation)
    ensures v.trimmed.id == r.id && v.trimmed.rating == r.rating
    ensures v.errors == [] <==> Acceptable(v.trimmed)
  {
    var t := Conform(r);
    Validation(t, Violations(t))
  }

  /** Validating a record that has already been trimmed changes nothing further. */
  lemma ValidateIdempotent(r: Review)
    ensures Validate(Validate(r).trimmed) == Validate(r)
  {
    TrimIdempotent(r.author);
    TrimIdempotent(r.title);
    TrimIdempotent(r.description);
  }

  // ---------------------------------------------------------------------------
  // Properties of validation

  /** Without an id, a field that is empty after trimming is reported as required. */
  lemma RequiredWithoutId(r: Review)
    requires r.id == 0
    ensures Trim(r.author) == "" ==> FieldError("Author", "required_without") in Validate(r).errors
    ensures r.rating == 0 ==> FieldError("Rating", "required_without") in Validate(r).errors
    ensures Trim(r.title) == "" ==> FieldError("Title", "required_without") in Validate(r).errors
    ensures Trim(r.description) == "" ==> FieldError("Description", "required_without") in Validate(r).errors
  {
  }

  /** With an id, every field may be left empty: the empty patch passes. */
  lemma OptionalWithId(r: Review)
    requires r.id != 0
    requires Trim(r.author) == "" && r.rating == 0 && Trim(r.title) == "" && Trim(r.description) == ""
    ensures Validate(r).errors == []
  {
  }

  /** A whitespace-only title or description counts as empty. */
  lemma BlankTitleIsEmpty(r: Review)
    requires forall k :: 0 <= k < |r.title| ==> IsSpace(r.title[k])
    ensures Validate(r).trimmed.title == ""
    ensures r.id == 0 ==> FieldError("Title", "required_without") in Validate(r).errors
  {
    BlankTrimsToEmpty(r.title);
  }

  lemma BlankDescriptionIsEmpty(r: Review)
    requires forall k :: 0 <= k < |r.description| ==> IsSpace(r.description[k])
    ensures Validate(r).trimmed.description == ""
    ensures r.id == 0 ==> FieldError("Description", "required_without") in Validate(r).errors
  {
    BlankTrimsToEmpty(r.description);
  }

  /** The bounds on present fields, after trimming. */
  lemma PresentFieldBounds(r: Review)
    requires Validate(r).errors == []
    ensures r.rating != 0 ==> 1 <= r.rating <= 10
    ensures Trim(r.title) != "" ==> 3 <= |Trim(r.title)| <= 50
    ensures Trim(r.description) != "" ==> 3 <= |Trim(r.description)| <= 500
    ensures Trim(r.author) != "" ==> IsEmail(Trim(r.author))
  {
  }

  /** IndexFrom finds some occurrence whenever c occurs at or after from. */
  lemma {:induction false} IndexFromPresent(s: string, c: char, from: nat, i: nat)
    requires from <= i < |s| && s[i] == c
    ensures IndexFrom(s, c, from).Some?
    decreases i - from
  {
    if from < i && s[from] != c {
      IndexFromPresent(s, c, from + 1, i);
    }
  }

  /** Every address of the shape local@host.tld, with no other '@', passes the email check. */
  lemma AddressIsEmail(local: string, host: string, tld: string)
    requires local != [] && host != [] && tld != []
    requires '@' !in local && '@' !in host && '@' !in tld
    ensures IsEmail(local + "@" + host + "." + tld)
  {
    var s := local + "@" + host + "." + tld;
    var at := |local|;
    assert s[at] == '@';
    IndexFromFirst(s, '@', 0, at);
    var domain := s[at + 1..];
    assert domain == host + "." + tld;
    IndexFromAbsent(domain, '@', 0);
    var inner := domain[1..|domain| - 1];
    assert inner[|host| - 1] == '.';
    IndexFromPresent(inner, '.', 0, |host| - 1);
  }

  lemma FixtureAuthorIsEmail()
    ensures IsEmail(Fixture().author)
  {
    assert Fixture().author == "example_mail" + "@" + "example" + "." + "com";
    AddressIsEmail("example_mail", "example", "com");
  }

  /** A review whose string fields have no white space at their ends is left as it is by conform. */
  lemma ConformKeeps(r: Review)
    requires r.author != [] && !IsSpace(r.author[0]) && !IsSpace(r.author[|r.author| - 1])
    requires r.title != [] && !IsSpace(r.title[0]) && !IsSpace(r.title[|r.title| - 1])
    requires r.description != [] && !IsSpace(r.description[0])
    requires !IsSpace(r.description[|r.description| - 1])
    ensures Conform(r) == r
  {
    TrimKeeps(r.author);
    TrimKeeps(r.title);
    TrimKeeps(r.description);
  }

  /** The fixture passes validation. */
  lemma FixtureValid()
    ensures Validate(Fixture()).errors == []
    ensures Validate(Fixture()).trimmed == Fixture()
  {
    ConformKeeps(Fixture());
    FixtureAuthorIsEmail();
  }

  /** A string with no '@' in it is not an email address. */
  lemma NoAtIsNotEmail(s: string)
    requires '@' !in s
    ensures !IsEmail(s)
  {
    IndexFromAbsent(s, '@', 0);
  }

  /**
   * Replacing the author of a valid review by one with no '@' makes
   * validation fail with exactly one error, the email tag on Author.
   */
  lemma AuthorWithoutAtRejected(r: Review, author: string)
    requires Validate(r).errors == []
    requires Trim(author) != "" && '@' !in Trim(author)
    ensures Validate(r.(author := author)).errors == [FieldError("Author", "email")]
  {
    var t := Conform(r);
    assert Conform(r.(author := author)) == t.(author := Trim(author));
    NoAtIsNotEmail(Trim(author));
    NonEmailAuthorAlone(t, Trim(author));
  }

  /** On an otherwise acceptable record, an author that is present but not an address is the only error. */
  lemma NonEmailAuthorAlone(t: Review, author: string)
    requires Acceptable(t) && author != "" && !IsEmail(author)
    ensures Violations(t.(author := author)) == [FieldError("Author", "email")]
  {
    var u := t.(author := author);
    assert RatingError(u) == [] && LengthError("Title", u.title, u.id, 3, 50) == [];
    assert LengthError("Description", u.description, u.id, 3, 500) == [];
    assert AuthorError(u) == [FieldError("Author", "email")];
  }

  /** "invalid" trims to itself and has no '@'. */
  lemma InvalidIsBareWord()
    ensures Trim("invalid") == "invalid" && '@' !in Trim("invalid")
  {
    TrimKeeps("invalid");
  }

  /** "invalid" is rejected as the fixture's author: it is not an email address. */
  lemma InvalidAuthorRejected()
    ensures Validate(Fixture().(author := "invalid")).errors == [FieldError("Author", "email")]
  {
    InvalidIsBareWord();
    FixtureValid();
    AuthorWithoutAtRejected(Fixture(), "invalid");
  }
}
