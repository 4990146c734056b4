/** The string checker `Str` (string.go): each check looks at the value it
    was built with and appends at most one record, carrying its operand,
    under its own field. Every check but `Required` skips the empty string. */
module StrCheck {
  import opened Sink
  import opened Foreign
  import Valider

  /** `Required` fails on the empty string. */
  predicate RequiredFails(value: string)
  {
    value == ""
  }

  /** `Equal` fails on a non-empty value other than `eq`. */
  predicate EqualFails(value: string, eq: string)
  {
    value != "" && value != eq
  }

  /** `NotEqual` fails on a non-empty value equal to `eq`. */
  predicate NotEqualFails(value: string, eq: string)
  {
    value != "" && value == eq
  }

  /** `Len` fails on a non-empty value whose byte length is not `num`. */
  predicate LenFails(value: string, num: int)
  {
    value != "" && |value| != num
  }

  /** `Range` as written: `&&` binds tighter than `||`, so the emptiness
      guard covers the lower bound only. */
  predicate RangeFails(value: string, min: int, max: int)
  {
    (value != "" && |value| < min) || |value| > max
  }

  /** `In` fails on a non-empty value that no listed value equals. */
  predicate InFails(value: string, values: seq<string>)
  {
    value != "" && value !in values
  }

  /** `Date` fails on a non-empty value that does not parse under `layout`. */
  predicate DateFails(value: string, layout: string, parse: TimeParse)
  {
    value != "" && !parse(layout, value)
  }

  /** The records of `RegExp`: nothing for the empty value or a match, a
      BadParameter record for a pattern that does not compile, a NotMatched
      record otherwise; both carry the pattern. */
  function RegExpRecords(value: string, pattern: string, matcher: MatchString): (rs: seq<Record>)
    ensures |rs| <= 1
    ensures rs == [] <==> value == "" || matcher(pattern, value) == Matched
    ensures rs == [Record(BadParameter, DStr(pattern))] <==> value != "" && matcher(pattern, value) == BadPattern
    ensures rs == [Record(NotMatched, DStr(pattern))] <==> value != "" && matcher(pattern, value) == NoMatch
  {
    if value == "" then []
    else
      match matcher(pattern, value)
      case BadPattern => [Record(BadParameter, DStr(pattern))]
      case NoMatch => [Record(NotMatched, DStr(pattern))]
      case Matched => []
  }

  /** The empty value passes every check but `Required`, and `Range` when
      `max` is negative. */
  lemma EmptyValueSkips(eq: string, num: int, min: int, max: int, values: seq<string>,
                        layout: string, parse: TimeParse, pattern: string, matcher: MatchString)
    ensures RequiredFails("")
    ensures !EqualFails("", eq) && !NotEqualFails("", eq) && !LenFails("", num)
    ensures !InFails("", values) && !DateFails("", layout, parse)
    ensures RegExpRecords("", pattern, matcher) == []
    ensures RangeFails("", min, max) <==> max < 0
  {
  }

  /** On a non-empty value `Range` fails exactly outside the inclusive bounds. */
  lemma RangeOnNonEmpty(value: string, min: int, max: int)
    requires value != ""
    ensures RangeFails(value, min, max) <==> !(min <= |value| <= max)
  {
  }

  /** On a non-empty value exactly one of `Equal` and `NotEqual` fails. */
  lemma EqualNotEqualPartition(value: string, eq: string)
    requires value != ""
    ensures EqualFails(value, eq) <==> !NotEqualFails(value, eq)
  {
  }

  /** `Len(n)` is `Range(n, n)` on a non-empty value. */
  lemma LenIsPointRange(value: string, num: int)
    requires value != ""
    ensures LenFails(value, num) <==> RangeFails(value, num, num)
  {
  }

  /** `In` fails exactly when `Equal` fails against every listed value; with
      an empty list it fails on every non-empty value. */
  lemma InIsEveryEqualFailing(value: string, values: seq<string>)
    ensures InFails(value, values) <==>
              value != "" && forall i :: 0 <= i < |values| ==> EqualFails(value, values[i])
    ensures value != "" ==> InFails(value, [])
  {
  }

  /** `Equal(eq)` is `In(eq)`. */
  lemma EqualIsSingletonIn(value: string, eq: string)
    ensures EqualFails(value, eq) <==> InFails(value, [eq])
  {
  }

  class Str {
    const value: string
    const field: string
    const errors: Errors

    /** `Validator.Str`: a checker writing into the validator's sink. */
    constructor (v: Valider.Validator, value: string, field: string)
      ensures this.value == value && this.field == field && errors == v.Errors
    {
      this.value := value;
      this.field := field;
      errors := v.Errors;
    }

    method Required() returns (self: Str)
      modifies errors
      ensures self == this
      ensures errors.m == Appended(old(errors.m), field, Outcome(RequiredFails(value), Record(Kind.Required, NoDetail)))
    {
      if value == "" {
        errors.Append(field, Record(Kind.Required, NoDetail));
      }
      self := this;
    }

    method Equal(eq: string) returns (self: Str)
      modifies errors
      ensures self == this
      ensures errors.m == Appended(old(errors.m), field, Outcome(EqualFails(value, eq), Record(Kind.NotEqual, DStr(eq))))
    {
      if value != "" && value != eq {
        errors.Append(field, Record(Kind.NotEqual, DStr(eq)));
      }
      self := this;
    }

    /** Records with the NotEqual kind, as `Equal` does. */
    method NotEqual(eq: string) returns (self: Str)
      modifies errors
      ensures self == this
      ensures errors.m == Appended(old(errors.m), field, Outcome(NotEqualFails(value, eq), Record(Kind.NotEqual, DStr(eq))))
    {
      if value != "" && value == eq {
        errors.Append(field, Record(Kind.NotEqual, DStr(eq)));
      }
      self := this;
    }

    method Len(num: int) returns (self: Str)
      modifies errors
      ensures self == this
      ensures errors.m == Appended(old(errors.m), field, Outcome(LenFails(value, num), Record(Kind.Len, DInt(num))))
    {
      if value != "" && |value| != num {
        errors.Append(field, Record(Kind.Len, DInt(num)));
      }
      self := this;
    }

    method Range(min: int, max: int) returns (self: Str)
      modifies errors
      ensures self == this
      ensures errors.m == Appended(old(errors.m), field, Outcome(RangeFails(value, min, max), Record(OutRange, DBounds(min, max))))
    {
      var len := |value|;
      if (value != "" && len < min) || len > max {
        errors.Append(field, Record(OutRange, DBounds(min, max)));
      }
      self := this;
    }

    /** Stops at the first listed value equal to the checked one; a miss
        records the whole list. */
    method In(values: seq<string>) returns (self: Str)
      modifies errors
      ensures self == this
      ensures errors.m == Appended(old(errors.m), field, Outcome(InFails(value, values), Record(Kind.In, DStrs(values))))
    {
      self := this;
      if value != "" {
        var i := 0;
        while i < |values|
          invariant 0 <= i <= |values|
          invariant value !in values[..i]
          invariant errors.m == old(errors.m)
        {
          if value == values[i] {
            return;
          }
          i := i + 1;
        }
        assert values[..i] == values;
        errors.Append(field, Record(Kind.In, DStrs(values)));
      }
    }

    method Date(layout: string, parse: TimeParse) returns (self: Str)
      modifies errors
      ensures self == this
      ensures errors.m == Appended(old(errors.m), field, Outcome(DateFails(value, layout, parse), Record(Kind.Date, DStr(layout))))
    {
      if value != "" {
        if !parse(layout, value) {
          errors.Append(field, Record(Kind.Date, DStr(layout)));
        }
      }
      self := this;
    }

    /** `RegExp` against the fixed e-mail pattern. */
    method Email(matcher: MatchString) returns (self: Str)
      modifies errors
      ensures self == this
      ensures errors.m == Appended(old(errors.m), field, RegExpRecords(value, Valider.PatternEmail, matcher))
    {
      if value == "" {
        return this;
      }
      self := RegExp(Valider.PatternEmail, matcher);
    }

    /** `RegExp` against the fixed URL pattern. */
    method URL(matcher: MatchString) returns (self: Str)
      modifies errors
      ensures self == this
      ensures errors.m == Appended(old(errors.m), field, RegExpRecords(value, Valider.PatternURL, matcher))
    {
      if value != "" {
        self := RegExp(Valider.PatternURL, matcher);
        return;
      }
      self := this;
    }

    method RegExp(pattern: string, matcher: MatchString) returns (self: Str)
      modifies errors
      ensures self == this
      ensures errors.m == Appended(old(errors.m), field, RegExpRecords(value, pattern, matcher))
    {
      if value != "" {
        var outcome := matcher(pattern, value);
        if outcome == BadPattern {
          errors.Append(field, Record(BadParameter, DStr(pattern)));
        } else if outcome == NoMatch {
          errors.Append(field, Record(NotMatched, DStr(pattern)));
        }
      }
      self := this;
    }
  }
}
