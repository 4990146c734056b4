/** The record codes, the fixed Email and URL patterns, and the validator
    that hands one shared sink to every checker it creates (valider.go). */
module Valider {
  import opened Sink
  import opened Dyn

  /** The machine-readable code carried by a record of each kind. */
  function Code(k: Kind): (c: string)
    ensures c != []
    ensures forall i :: 0 <= i < |c| ==> 'a' <= c[i] <= 'z' || c[i] == '_'
  {
    match k
    case Required => "required"
    case NotMatched => "not_matched"
    case NotEqual => "not_equal"
    case Equal => "equal"
    case OutRange => "out_range"
    case In => "in"
    case Len => "length"
    case Date => "not_date"
    case NotFound => "not_found"
    case Exists => "exists"
    case Unsupported => "unsopported_type"
    case BadParameter => "bad_parameter"
  }

  /** The kind a code names, if any: the reading a client of the sink makes. */
  function KindOfCode(c: string): Option<Kind>
  {
    if c == "required" then Some(Required)
    else if c == "not_matched" then Some(NotMatched)
    else if c == "not_equal" then Some(NotEqual)
    else if c == "equal" then Some(Equal)
    else if c == "out_range" then Some(OutRange)
    else if c == "in" then Some(In)
    else if c == "length" then Some(Len)
    else if c == "not_date" then Some(Date)
    else if c == "not_found" then Some(NotFound)
    else if c == "exists" then Some(Exists)
    else if c == "unsopported_type" then Some(Unsupported)
    else if c == "bad_parameter" then Some(BadParameter)
    else None
  }

  /** Every code reads back as its own kind. */
  lemma CodeRoundTrip(k: Kind)
    ensures KindOfCode(Code(k)) == Some(k)
  {
  }

  /** Distinct kinds carry distinct codes, so a code identifies its failure. */
  lemma CodesDistinct(a: Kind, b: Kind)
    ensures Code(a) == Code(b) <==> a == b
  {
    CodeRoundTrip(a);
    CodeRoundTrip(b);
  }

  /** Strings that are not codes read back as no kind. */
  lemma KindOfCodeOnlyCodes(c: string)
    ensures KindOfCode(c).Some? <==> exists k :: Code(k) == c
  {
    if KindOfCode(c).Some? {
      assert Code(KindOfCode(c).value) == c;
    } else {
      forall k
        ensures Code(k) != c
      {
        CodeRoundTrip(k);
      }
    }
  }

  /** The pattern `Str.Email` matches against; regular expressions are not
      interpreted here. */
  const PatternEmail: string := "[a-z0-9!#$%&'*+/=?^_`{|}~-]+(?:\\.[a-z0-9!#$%&'*+/=?^_`{|}~-]+)*@(?:[a-z0-9](?:[a-z0-9-]*[a-z0-9])?\\.)+[a-z0-9](?:[a-z0-9-]*[a-z0-9])?"

  /** The pattern `Str.URL` matches against. */
  const PatternURL: string := @"^((ftp|http|https):\/\/)?(\S+(:\S*)?@)?((([1-9]\d?|1\d\d|2[01]\d|22[0-3])(\.(1?\d{1,2}|2[0-4]\d|25[0-5])){2}(?:\.([0-9]\d?|1\d\d|2[0-4]\d|25[0-4]))|((www\.)?)?(([a-z\x{00a1}-\x{ffff}0-9]+-?-?_?)*[a-z\x{00a1}-\x{ffff}0-9]+)(?:\.([a-z\x{00a1}-\x{ffff}]{2,}))?)|localhost)(:(\d{1,5}))?((\/|\?|#)[^\s]*)?$"

  /** `Validator`: holds the sink every checker it creates appends to. */
  class Validator {
    const Errors: Sink.Errors

    /** `New` wraps the given sink without copying it. */
    constructor New(errs: Sink.Errors)
      ensures Errors == errs
    {
      Errors := errs;
    }
  }
}
