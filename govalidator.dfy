/** The `govalidator` variant (validator.go): string and integer checks in
    early-return style, each record carrying its kind only, and `Slice` and
    `Map` checkers that are stubs. */
module Govalidator {
  import opened Sink
  import opened Foreign
  import StrCheck
  import IntCheck
  import Decimal
  import Dyn

  /** Placeholder pattern texts, not regular expressions for e-mail
      addresses or URLs. */
  const PatternEmail: string := "pattern_email"
  const PatternURL: string := "pattern_url"

  /** `Range` here is bracketed: the empty value never fails. */
  predicate RangeFails(value: string, min: int, max: int)
  {
    value != "" && (|value| < min || |value| > max)
  }

  /** `Regexp` here reports a pattern that does not compile only on the
      console: the sink gets a NotMatched record on a non-match and nothing
      otherwise. */
  function RegexpRecords(value: string, pattern: string, matcher: MatchString): (rs: seq<Record>)
    ensures |rs| <= 1
    ensures rs == [Record(NotMatched, NoDetail)] <==> value != "" && matcher(pattern, value) == NoMatch
    ensures rs == [] <==> value == "" || matcher(pattern, value) != NoMatch
  {
    if value == "" then []
    else if matcher(pattern, value) == NoMatch then [Record(NotMatched, NoDetail)]
    else []
  }

  /** The two `Range` readings differ exactly on the empty value with a
      negative `max`, which only the unbracketed one rejects. */
  lemma RangeReadings(value: string, min: int, max: int)
    ensures RangeFails(value, min, max) ==> StrCheck.RangeFails(value, min, max)
    ensures StrCheck.RangeFails(value, min, max) && !RangeFails(value, min, max) <==> value == "" && max < 0
  {
  }

  /** The two `Regexp` variants agree except on a pattern that does not
      compile, where only the newer one records BadParameter. */
  lemma RegexpVariants(value: string, pattern: string, matcher: MatchString)
    ensures matcher(pattern, value) != BadPattern ==>
              |RegexpRecords(value, pattern, matcher)| == |StrCheck.RegExpRecords(value, pattern, matcher)|
    ensures value != "" && matcher(pattern, value) == BadPattern ==>
              RegexpRecords(value, pattern, matcher) == [] &&
              StrCheck.RegExpRecords(value, pattern, matcher) == [Record(BadParameter, DStr(pattern))]
  {
  }

  class Validator {
    const Errors: Sink.Errors

    /** `New` wraps the given sink without copying it. */
    constructor New(errors: Sink.Errors)
      ensures Errors == errors
    {
      Errors := errors;
    }
  }

  /** Checkers created from one validator share its sink: an empty string
      and a zero integer checked under the same field leave two Required
      records there, in call order. */
  method SharedSink(errors: Sink.Errors, field: string) returns (v: Validator)
    modifies errors
    ensures v.Errors == errors
    ensures errors.m == Appended(old(errors.m), field, [Record(Kind.Required, NoDetail), Record(Kind.Required, NoDetail)])
  {
    v := new Validator.New(errors);
    var s := new Str(v, "", field);
    var n := new Int(v, 0, field);
    var rec := Record(Kind.Required, NoDetail);
    var m0 := errors.m;
    var _ := s.Required();
    assert errors.m == Appended(m0, field, [rec]);
    var m1 := errors.m;
    var _ := n.Required();
    assert errors.m == Appended(m1, field, [rec]);
    AppendedTwice(m0, field, [rec], [rec]);
    assert [rec] + [rec] == [rec, rec];
  }

  /** Holds the validator itself and writes through its sink. */
  class Str {
    const validator: Validator
    const value: string
    const field: string

    /** `Validator.Str`. */
    constructor (v: Validator, value: string, field: string)
      ensures validator == v && this.value == value && this.field == field
    {
      validator := v;
      this.value := value;
      this.field := field;
    }

    method Required() returns (self: Str)
      modifies validator.Errors
      ensures self == this
      ensures validator.Errors.m == Appended(old(validator.Errors.m), field, Outcome(StrCheck.RequiredFails(value), Record(Kind.Required, NoDetail)))
    {
      if value == "" {
        validator.Errors.Add(field, Kind.Required);
      }
      self := this;
    }

    method Equal(eq: string) returns (self: Str)
      modifies validator.Errors
      ensures self == this
      ensures validator.Errors.m == Appended(old(validator.Errors.m), field, Outcome(StrCheck.EqualFails(value, eq), Record(NotEqual, NoDetail)))
    {
      if value == "" {
        return this;
      }
      if value != eq {
        validator.Errors.Add(field, NotEqual);
      }
      self := this;
    }

    method Len(num: int) returns (self: Str)
      modifies validator.Errors
      ensures self == this
      ensures validator.Errors.m == Appended(old(validator.Errors.m), field, Outcome(StrCheck.LenFails(value, num), Record(Kind.Len, NoDetail)))
    {
      if value == "" {
        return this;
      }
      if |value| != num {
        validator.Errors.Add(field, Kind.Len);
      }
      self := this;
    }

    method Range(min: int, max: int) returns (self: Str)
      modifies validator.Errors
      ensures self == this
      ensures validator.Errors.m == Appended(old(validator.Errors.m), field, Outcome(RangeFails(value, min, max), Record(OutRange, NoDetail)))
    {
      if value == "" {
        return this;
      }
      if |value| < min || |value| > max {
        validator.Errors.Add(field, OutRange);
      }
      self := this;
    }

    method In(values: seq<string>) returns (self: Str)
      modifies validator.Errors
      ensures self == this
      ensures validator.Errors.m == Appended(old(validator.Errors.m), field, Outcome(StrCheck.InFails(value, values), Record(Kind.In, NoDetail)))
    {
      self := this;
      if value == "" {
        return;
      }
      var i := 0;
      while i < |values|
        invariant 0 <= i <= |values|
        invariant value !in values[..i]
        invariant validator.Errors.m == old(validator.Errors.m)
      {
        if value == values[i] {
          return;
        }
        i := i + 1;
      }
      assert values[..i] == values;
      validator.Errors.Add(field, Kind.In);
    }

    method Date(layout: string, parse: TimeParse) returns (self: Str)
      modifies validator.Errors
      ensures self == this
      ensures validator.Errors.m == Appended(old(validator.Errors.m), field, Outcome(StrCheck.DateFails(value, layout, parse), Record(Kind.Date, NoDetail)))
    {
      if value == "" {
        return this;
      }
      if !parse(layout, value) {
        validator.Errors.Add(field, Kind.Date);
      }
      self := this;
    }

    method Email(matcher: MatchString) returns (self: Str)
      modifies validator.Errors
      ensures self == this
      ensures validator.Errors.m == Appended(old(validator.Errors.m), field, RegexpRecords(value, PatternEmail, matcher))
    {
      if value == "" {
        return this;
      }
      self := Regexp(PatternEmail, matcher);
    }

    method URL(matcher: MatchString) returns (self: Str)
      modifies validator.Errors
      ensures self == this
      ensures validator.Errors.m == Appended(old(validator.Errors.m), field, RegexpRecords(value, PatternURL, matcher))
    {
      if value == "" {
        return this;
      }
      self := Regexp(PatternURL, matcher);
    }

    method Regexp(pattern: string, matcher: MatchString) returns (self: Str)
      modifies validator.Errors
      ensures self == this
      ensures validator.Errors.m == Appended(old(validator.Errors.m), field, RegexpRecords(value, pattern, matcher))
    {
      if value == "" {
        return this;
      }
      var outcome := matcher(pattern, value);
      if outcome == BadPattern {
        // reported on the console only
      } else if outcome == NoMatch {
        validator.Errors.Add(field, NotMatched);
      }
      self := this;
    }
  }

  /** Holds the validator itself and writes through its sink. */
  class Int {
    const validator: Validator
    const value: int
    const field: string

    /** `Validator.Int`. */
    constructor (v: Validator, value: int, field: string)
      ensures validator == v && this.value == value && this.field == field
    {
      validator := v;
      this.value := value;
      this.field := field;
    }

    method Required() returns (self: Int)
      modifies validator.Errors
      ensures self == this
      ensures validator.Errors.m == Appended(old(validator.Errors.m), field, Outcome(IntCheck.RequiredFails(value), Record(Kind.Required, NoDetail)))
    {
      if value == 0 {
        validator.Errors.Add(field, Kind.Required);
      }
      self := this;
    }

    method Len(num: int) returns (self: Int)
      modifies validator.Errors
      ensures self == this
      ensures validator.Errors.m == Appended(old(validator.Errors.m), field, Outcome(IntCheck.LenFails(value, num), Record(Kind.Len, NoDetail)))
    {
      if value == 0 {
        return this;
      }
      if |Decimal.Itoa(value)| != num {
        validator.Errors.Add(field, Kind.Len);
      }
      self := this;
    }

    method Equal(eq: int) returns (self: Int)
      modifies validator.Errors
      ensures self == this
      ensures validator.Errors.m == Appended(old(validator.Errors.m), field, Outcome(IntCheck.EqualFails(value, eq), Record(NotEqual, NoDetail)))
    {
      if value == 0 {
        return this;
      }
      if value != eq {
        validator.Errors.Add(field, NotEqual);
      }
      self := this;
    }

    method Range(min: int, max: int) returns (self: Int)
      modifies validator.Errors
      ensures self == this
      ensures validator.Errors.m == Appended(old(validator.Errors.m), field, Outcome(IntCheck.RangeFails(value, min, max), Record(OutRange, NoDetail)))
    {
      if value == 0 {
        return this;
      }
      if value < min || value > max {
        validator.Errors.Add(field, OutRange);
      }
      self := this;
    }
  }

  /** A stub: every check returns the receiver and records nothing. */
  class Slice {
    const validator: Validator
    const value: Dyn.Subject
    const field: string

    /** `Validator.Slice`: the subject is kept but no check reads it. */
    constructor (v: Validator, value: Dyn.Subject, field: string)
      ensures validator == v && this.value == value && this.field == field
    {
      validator := v;
      this.value := value;
      this.field := field;
    }

    method Required() returns (self: Slice)
      ensures self == this
    {
      self := this;
    }

    method Range(min: int, max: int) returns (self: Slice)
      ensures self == this
    {
      self := this;
    }

    method Contains(values: Dyn.Param) returns (self: Slice)
      ensures self == this
    {
      self := this;
    }
  }

  /** A stub: every check returns the receiver and records nothing. */
  class Map {
    const validator: Validator
    const value: Dyn.Subject
    const field: string

    /** `Validator.Map`: the subject is kept but no check reads it. */
    constructor (v: Validator, value: Dyn.Subject, field: string)
      ensures validator == v && this.value == value && this.field == field
    {
      validator := v;
      this.value := value;
      this.field := field;
    }

    method Required() returns (self: Map)
      ensures self == this
    {
      self := this;
    }

    method Range(min: int, max: int) returns (self: Map)
      ensures self == this
    {
      self := this;
    }

    method Contains(values: Dyn.Param) returns (self: Map)
      ensures self == this
    {
      self := this;
    }

    method Date(layout: string) returns (self: Map)
      ensures self == this
    {
      self := this;
    }
  }
}
