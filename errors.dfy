/**
 * The store's error values (internal/store/errors.go).
 *
 * Both errors are package-level singletons whose fields the callers
 * overwrite or extend: every repository reports "field missing" and
 * "record not found" through the same two objects, so what an error says
 * when it is finally printed depends on every call made since.
 */
module StoreErrors {
  import opened ReviewModel

  /** The total length of the strings in xs. */
  function TotalLength(xs: seq<string>): nat
  {
    if xs == [] then 0 else |xs[0]| + TotalLength(xs[1..])
  }

  /** strings.Join: every element once, with one separator between each two neighbours. */
  function Join(xs: seq<string>, sep: string): (r: string)
    ensures xs != [] ==> |r| == TotalLength(xs) + (|xs| - 1) * |sep|
    ensures xs == [] ==> r == ""
  {
    if |xs| == 0 then ""
    else if |xs| == 1 then xs[0]
    else xs[0] + sep + Join(xs[1..], sep)
  }

  /** Joining one more element puts the separator and the element at the end. */
  lemma {:induction false} JoinSnoc(xs: seq<string>, x: string, sep: string)
    requires xs != []
    ensures Join(xs + [x], sep) == Join(xs, sep) + sep + x
    decreases |xs|
  {
    if |xs| > 1 {
      assert (xs + [x])[1..] == xs[1..] + [x];
      JoinSnoc(xs[1..], x, sep);
    }
  }

  /** The text of a RequiredFieldMissing error listing the given fields. */
  function FieldsMissingText(fields: seq<string>): (r: string)
    ensures |r| >= 16 && r[..16] == "fields missing: "
    ensures fields == [] ==> r == "fields missing: "
    ensures |fields| == 1 ==> r == "fields missing: " + fields[0]
  {
    "fields missing: " + Join(fields, ", ")
  }

  /** The text of a RecordNotFound error naming the given record. */
  function NotFoundText(record: string): (r: string)
    ensures |r| == |record| + 17 && r[..7] == "record " && r[|r| - 10..] == " not found"
    ensures r[7..7 + |record|] == record
  {
    "record " + record + " not found"
  }

  /** The not-found message determines the record it names. */
  lemma NotFoundTextInjective(a: string, b: string)
    requires NotFoundText(a) == NotFoundText(b)
    ensures a == b
  {
    assert |a| == |b|;
    assert a == NotFoundText(a)[7..7 + |a|];
  }

  /** k copies of s, one after the other. */
  function Repeat(s: string, k: nat): string
  {
    if k == 0 then "" else Repeat(s, k - 1) + s
  }

  /** k names in a row, all equal to name. */
  function Names(name: string, k: nat): (r: seq<string>)
    ensures |r| == k
  {
    if k == 0 then [] else Names(name, k - 1) + [name]
  }

  lemma {:induction false} RepeatedNameJoin(name: string, k: nat)
    ensures Join(Names(name, k + 1), ", ") == name + Repeat(", " + name, k)
  {
    if k > 0 {
      RepeatedNameJoin(name, k - 1);
      JoinSnoc(Names(name, k), name, ", ");
    }
  }

  /**
   * After k + 1 "id"s have accumulated, the message lists "id" k + 1 times:
   * "fields missing: id, id, ..., id".
   */
  lemma RepeatedIdText(k: nat)
    ensures FieldsMissingText(Names("id", k + 1)) == "fields missing: id" + Repeat(", id", k)
  {
    RepeatedNameJoin("id", k);
    assert ", " + "id" == ", id";
    assert FieldsMissingText(Names("id", k + 1)) == "fields missing: " + ("id" + Repeat(", id", k));
  }

  class RequiredFieldMissing {
    var fields: seq<string>

    constructor ()
      ensures fields == []
    {
      fields := [];
    }

    /** Appends the names in order and hands back the same instance. */
    method AddFields(names: seq<string>) returns (e: RequiredFieldMissing)
      modifies this
      ensures e == this
      ensures fields == old(fields) + names
    {
      fields := fields + names;
      e := this;
    }

    function Error(): string
      reads this
    {
      FieldsMissingText(fields)
    }
  }

  class RecordNotFound {
    var record: string

    constructor ()
      ensures record == ""
    {
      record := "";
    }

    /** Overwrites the record name and hands back the same instance. */
    method Record(name: string) returns (e: RecordNotFound)
      modifies this
      ensures e == this
      ensures record == name
    {
      record := name;
      e := this;
    }

    function Error(): string
      reads this
    {
      NotFoundText(record)
    }
  }

  /** The two package-level singletons, ErrRecordNotFound and ErrFieldMissing. */
  class ErrorValues {
    const recordNotFound: RecordNotFound
    const fieldMissing: RequiredFieldMissing

    constructor ()
      ensures fresh(recordNotFound) && fresh(fieldMissing)
      ensures recordNotFound.record == "" && fieldMissing.fields == []
    {
      recordNotFound := new RecordNotFound();
      fieldMissing := new RequiredFieldMissing();
    }
  }

  /**
   * An error a repository or the service returns. FieldMissing and
   * RecordNotFound stand for the shared singletons themselves, not for a
   * copy of their text.
   */
  datatype StoreError =
    | FieldMissing
    | RecordNotFound
    | Invalid(errors: seq<FieldError>)
    | Plain(text: string)

  /** The validator's line for one failed tag. */
  function ValidationLine(e: FieldError): string
  {
    "Key: 'Review." + e.field + "' Error:Field validation for '" + e.field
      + "' failed on the '" + e.tag + "' tag"
  }

  /** The validator's text for each entry of its error list, line by line. */
  function ValidationTexts(errs: seq<FieldError>): (r: seq<string>)
    ensures |r| == |errs|
    ensures forall i :: 0 <= i < |errs| ==> r[i] == ValidationLine(errs[i])
  {
    if errs == [] then []
    else [ValidationLine(errs[0])] + ValidationTexts(errs[1..])
  }

  /** A joined list starts with its first element. */
  lemma JoinStartsWithFirst(xs: seq<string>, sep: string)
    requires xs != []
    ensures |xs[0]| <= |Join(xs, sep)| && Join(xs, sep)[..|xs[0]|] == xs[0]
  {
    if |xs| > 1 {
      assert Join(xs, sep) == xs[0] + (sep + Join(xs[1..], sep));
    }
  }

  /** The text an error prints, read from the singletons at the time it is printed. */
  function Text(e: StoreError, values: ErrorValues): string
    reads values, values.recordNotFound, values.fieldMissing
  {
    match e
    case FieldMissing => values.fieldMissing.Error()
    case RecordNotFound => values.recordNotFound.Error()
    case Invalid(errs) => Join(ValidationTexts(errs), "\n")
    case Plain(t) => t
  }

  /**
   * The text of a validation error is empty exactly when there is nothing
   * to report; otherwise it opens with the line for the first failed tag,
   * which names the field and the tag.
   */
  lemma InvalidText(errs: seq<FieldError>, values: ErrorValues)
    ensures Text(Invalid(errs), values) == "" <==> errs == []
    ensures errs != [] ==>
      var line := ValidationLine(errs[0]);
      |line| <= |Text(Invalid(errs), values)| && Text(Invalid(errs), values)[..|line|] == line
  {
    if errs != [] {
      var lines := ValidationTexts(errs);
      JoinStartsWithFirst(lines, "\n");
      assert |lines[0]| > 0;
    }
  }
}
