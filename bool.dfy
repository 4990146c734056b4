/** The boolean checker `Bool` (bool.go). */
module BoolCheck {
  import opened Sink
  import Valider

  /** `Equal` fails when the value differs from `v`; false is compared like
      any other value. */
  predicate EqualFails(value: bool, v: bool)
  {
    value != v
  }

  /** Exactly one of `Equal(true)` and `Equal(false)` fails, whatever the
      value: there is no zero-value skip. */
  lemma EqualPartition(value: bool)
    ensures EqualFails(value, true) != EqualFails(value, false)
    ensures !EqualFails(value, value)
  {
  }

  class Bool {
    const value: bool
    const field: string
    const errors: Errors

    /** `Validator.Bool`: a checker writing into the validator's sink. */
    constructor (v: Valider.Validator, value: bool, field: string)
      ensures this.value == value && this.field == field && errors == v.Errors
    {
      this.value := value;
      this.field := field;
      errors := v.Errors;
    }

    method Equal(v: bool) returns (self: Bool)
      modifies errors
      ensures self == this
      ensures errors.m == Appended(old(errors.m), field, Outcome(EqualFails(value, v), Record(NotEqual, NoDetail)))
    {
      if value != v {
        errors.Append(field, Record(NotEqual, NoDetail));
      }
      self := this;
    }
  }
}
