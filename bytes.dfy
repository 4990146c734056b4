/** The byte-slice checker `Bytes` (bytes.go): each check appends at most
    one record, carrying its operand, under its own field. Every check but
    `Required` skips an empty value. */
module BytesCheck {
  import opened Sink
  import Valider

  /** `Required` fails on a value with no bytes (nil or empty). */
  predicate RequiredFails(value: seq<byte>)
  {
    |value| == 0
  }

  /** `Len` fails on a non-empty value whose length is not `num`. */
  predicate LenFails(value: seq<byte>, num: int)
  {
    |value| != 0 && |value| != num
  }

  /** `Range` fails on a non-empty value whose length lies outside the
      inclusive bounds. */
  predicate RangeFails(value: seq<byte>, min: int, max: int)
  {
    |value| != 0 && (|value| < min || |value| > max)
  }

  /** `In` fails on a non-empty value that no candidate equals byte for byte. */
  predicate InFails(value: seq<byte>, values: seq<seq<byte>>)
  {
    |value| != 0 && value !in values
  }

  /** The empty value passes every check but `Required`. */
  lemma EmptySkips(num: int, min: int, max: int, values: seq<seq<byte>>)
    ensures RequiredFails([])
    ensures !LenFails([], num) && !RangeFails([], min, max) && !InFails([], values)
  {
  }

  /** `Len(n)` is `Range(n, n)`. */
  lemma LenIsPointRange(value: seq<byte>, num: int)
    ensures LenFails(value, num) <==> RangeFails(value, num, num)
  {
  }

  /** A non-empty value is in a list holding it, and in no empty list. */
  lemma InMembership(value: seq<byte>, values: seq<seq<byte>>, i: int)
    requires |value| != 0 && 0 <= i < |values| && values[i] == value
    ensures !InFails(value, values)
    ensures InFails(value, [])
  {
  }

  class Bytes {
    const value: seq<byte>
    const field: string
    const errors: Errors

    /** `Validator.Bytes`: a checker writing into the validator's sink. */
    constructor (v: Valider.Validator, value: seq<byte>, field: string)
      ensures this.value == value && this.field == field && errors == v.Errors
    {
      this.value := value;
      this.field := field;
      errors := v.Errors;
    }

    method Required() returns (self: Bytes)
      modifies errors
      ensures self == this
      ensures errors.m == Appended(old(errors.m), field, Outcome(RequiredFails(value), Record(Kind.Required, NoDetail)))
    {
      if |value| == 0 {
        errors.Append(field, Record(Kind.Required, NoDetail));
      }
      self := this;
    }

    method Len(num: int) returns (self: Bytes)
      modifies errors
      ensures self == this
      ensures errors.m == Appended(old(errors.m), field, Outcome(LenFails(value, num), Record(Kind.Len, DInt(num))))
    {
      if |value| != 0 && |value| != num {
        errors.Append(field, Record(Kind.Len, DInt(num)));
      }
      self := this;
    }

    method Range(min: int, max: int) returns (self: Bytes)
      modifies errors
      ensures self == this
      ensures errors.m == Appended(old(errors.m), field, Outcome(RangeFails(value, min, max), Record(OutRange, DBounds(min, max))))
    {
      if |value| != 0 && (|value| < min || |value| > max) {
        errors.Append(field, Record(OutRange, DBounds(min, max)));
      }
      self := this;
    }

    /** Stops at the first equal candidate; a miss records the OutRange
        kind (not In), carrying the candidate list. */
    method In(values: seq<seq<byte>>) returns (self: Bytes)
      modifies errors
      ensures self == this
      ensures errors.m == Appended(old(errors.m), field, Outcome(InFails(value, values), Record(OutRange, DByteSlices(values))))
    {
      self := this;
      if |value| != 0 {
        var i := 0;
        while i < |values|
          invariant 0 <= i <= |values|
          invariant value !in values[..i]
          invariant errors.m == old(errors.m)
        {
          if value == values[i] {
            return;
          }
          i := i + 1;
        }
        assert values[..i] == values;
        errors.Append(field, Record(OutRange, DByteSlices(values)));
      }
    }
  }
}
