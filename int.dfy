/** The integer checker `Int` (int.go): each check appends at most one
    record, without an operand, under its own field. Every check but
    `Required` skips zero. */
module IntCheck {
  import opened Sink
  import opened Decimal
  import Valider

  /** `Required` fails on zero. */
  predicate RequiredFails(value: int)
  {
    value == 0
  }

  /** `Len` fails on a non-zero value whose decimal rendering, minus sign
      included, is not `num` characters long. */
  predicate LenFails(value: int, num: int)
  {
    value != 0 && |Itoa(value)| != num
  }

  /** `Equal` fails on a non-zero value other than `eq`. */
  predicate EqualFails(value: int, eq: int)
  {
    value != 0 && value != eq
  }

  /** `Range` fails on a non-zero value outside the inclusive bounds. */
  predicate RangeFails(value: int, min: int, max: int)
  {
    value != 0 && (value < min || value > max)
  }

  /** Zero passes every check but `Required`. */
  lemma ZeroSkips(num: int, eq: int, min: int, max: int)
    ensures RequiredFails(0)
    ensures !LenFails(0, num) && !EqualFails(0, eq) && !RangeFails(0, min, max)
  {
  }

  /** `Len(num)` passes a non-zero value with k digits exactly when `num` is
      k, plus one for a negative value. */
  lemma LenCountsDigits(value: int, num: int, k: nat)
    requires value != 0
    requires k >= 1 && Pow10(k - 1) <= (if value < 0 then -value else value) < Pow10(k)
    ensures LenFails(value, num) <==> num != k + (if value < 0 then 1 else 0)
  {
    ItoaLength(value);
    DigitsCount(if value < 0 then -value else value, k);
  }

  /** `Equal(eq)` is `Range(eq, eq)`. */
  lemma EqualIsPointRange(value: int, eq: int)
    ensures EqualFails(value, eq) <==> RangeFails(value, eq, eq)
  {
  }

  class Int {
    const value: int
    const field: string
    const errors: Errors

    /** `Validator.Int`: a checker writing into the validator's sink. */
    constructor (v: Valider.Validator, value: int, field: string)
      ensures this.value == value && this.field == field && errors == v.Errors
    {
      this.value := value;
      this.field := field;
      errors := v.Errors;
    }

    method Required() returns (self: Int)
      modifies errors
      ensures self == this
      ensures errors.m == Appended(old(errors.m), field, Outcome(RequiredFails(value), Record(Kind.Required, NoDetail)))
    {
      if value == 0 {
        errors.Append(field, Record(Kind.Required, NoDetail));
      }
      self := this;
    }

    method Len(num: int) returns (self: Int)
      modifies errors
      ensures self == this
      ensures errors.m == Appended(old(errors.m), field, Outcome(LenFails(value, num), Record(Kind.Len, NoDetail)))
    {
      if value != 0 && |Itoa(value)| != num {
        errors.Append(field, Record(Kind.Len, NoDetail));
      }
      self := this;
    }

    method Equal(eq: int) returns (self: Int)
      modifies errors
      ensures self == this
      ensures errors.m == Appended(old(errors.m), field, Outcome(EqualFails(value, eq), Record(NotEqual, NoDetail)))
    {
      if value != 0 && value != eq {
        errors.Append(field, Record(NotEqual, NoDetail));
      }
      self := this;
    }

    method Range(min: int, max: int) returns (self: Int)
      modifies errors
      ensures self == this
      ensures errors.m == Appended(old(errors.m), field, Outcome(RangeFails(value, min, max), Record(OutRange, NoDetail)))
    {
      if value != 0 && (value < min || value > max) {
        errors.Append(field, Record(OutRange, NoDetail));
      }
      self := this;
    }
  }
}
