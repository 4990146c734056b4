/** The map checker `Map` (map.go): checks on a map reached through at
    most one pointer, and the recursive date visitor `date` that `Date`
    runs on every value of the map. */
module MapCheck {
  import opened Sink
  import opened Dyn
  import opened Foreign
  import opened DateConformance
  import Valider

  const RequiredRec := Record(Kind.Required, NoDetail)
  const OutRangeRec := Record(OutRange, NoDetail)
  const NotFoundRec := Record(NotFound, NoDetail)

  /** The records of `Required`: one Required record for a map without
      entries (nil included), one Unsupported record for any other kind. */
  function RequiredRecords(v: Value): (rs: seq<Record>)
    ensures |rs| <= 1
    ensures rs == [RequiredRec] <==> IsMapKind(v) && Length(v) == 0
    ensures rs == [Unsupp] <==> !IsMapKind(v)
  {
    if IsMapKind(v) then Outcome(Length(v) == 0, RequiredRec) else [Unsupp]
  }

  /** Whether the map has an entry under the string key `k`. */
  predicate HasKey(kvs: seq<(Value, Value)>, k: string)
  {
    exists i :: 0 <= i < |kvs| && kvs[i].0 == VStr(k)
  }

  /** The NotFound records of the loop over the listed keys: one per listed
      key, occurrence by occurrence, that the map lacks. */
  function Missing(kvs: seq<(Value, Value)>, keys: seq<string>): (rs: seq<Record>)
    ensures forall i :: 0 <= i < |rs| ==> rs[i] == NotFoundRec
    ensures |rs| <= |keys|
  {
    if keys == [] then []
    else Missing(kvs, keys[..|keys| - 1]) + (if HasKey(kvs, keys[|keys| - 1]) then [] else [NotFoundRec])
  }

  /** The keys `MapIndex` can look a string up in without panicking. */
  predicate StringKeyed(kvs: seq<(Value, Value)>)
  {
    forall i :: 0 <= i < |kvs| ==> kvs[i].0.VStr?
  }

  /** The records of `Keys`: nothing for an empty subject, the missing keys
      of a non-empty map, one Unsupported record for any other non-empty
      subject. */
  function KeysRecords(v: Value, keys: seq<string>): (rs: seq<Record>)
    requires HasLen(v)
    ensures Length(v) == 0 ==> rs == []
    ensures v.VMap? && v.entries != [] ==> rs == Missing(v.entries, keys)
    ensures Length(v) != 0 && !v.VMap? ==> rs == [Unsupp]
  {
    if Length(v) == 0 then []
    else if v.VMap? then Missing(v.entries, keys)
    else [Unsupp]
  }

  /** The records of `Range`: nothing for an empty subject, one OutRange
      record for a map whose entry count is outside the inclusive bounds,
      one Unsupported record for any other non-empty subject. */
  function RangeRecords(v: Value, min: int, max: int): (rs: seq<Record>)
    requires HasLen(v)
    ensures |rs| <= 1
    ensures Length(v) == 0 ==> rs == []
    ensures rs == [OutRangeRec] <==> v.VMap? && v.entries != [] && (|v.entries| < min || |v.entries| > max)
    ensures rs == [Unsupp] <==> Length(v) != 0 && !v.VMap?
  {
    if Length(v) == 0 then []
    else if v.VMap? then Outcome(Length(v) < min || Length(v) > max, OutRangeRec)
    else [Unsupp]
  }

  /** The maps on which the source's `Date` reads every value from the right
      place: at most one entry, whose value has at most one element at every
      slice level (`date` overwrites the value it iterates over). */
  predicate DateSafe(v: Value)
  {
    v.VMap? ==> |v.entries| <= 1 && (|v.entries| == 1 ==> SingleDescent(v.entries[0].1))
  }

  /** Every `Keys` record is NotFound, one per absent listed key. */
  lemma {:induction false} MissingCounts(kvs: seq<(Value, Value)>, keys: seq<string>)
    ensures |Missing(kvs, keys)| == |Absent(kvs, keys)|
    ensures Missing(kvs, keys) == [] <==> forall i :: 0 <= i < |keys| ==> HasKey(kvs, keys[i])
    decreases |keys|
  {
    if keys != [] {
      var init, last := keys[..|keys| - 1], keys[|keys| - 1];
      MissingCounts(kvs, init);
      if Missing(kvs, keys) == [] {
        forall i | 0 <= i < |keys|
          ensures HasKey(kvs, keys[i])
        {
          if i < |keys| - 1 {
            assert keys[i] == init[i];
          }
        }
      }
      if forall i :: 0 <= i < |keys| ==> HasKey(kvs, keys[i]) {
        assert forall i :: 0 <= i < |init| ==> HasKey(kvs, init[i]) by {
          forall i | 0 <= i < |init|
            ensures HasKey(kvs, init[i])
          {
            assert init[i] == keys[i];
          }
        }
      }
    }
  }

  /** The listed keys the map lacks, in list order. */
  function Absent(kvs: seq<(Value, Value)>, keys: seq<string>): (ks: seq<string>)
    ensures forall k <- ks :: k in keys && !HasKey(kvs, k)
  {
    if keys == [] then []
    else Absent(kvs, keys[..|keys| - 1]) + (if HasKey(kvs, keys[|keys| - 1]) then [] else [keys[|keys| - 1]])
  }

  /** Listing keys in two calls records what one call with both lists does. */
  lemma {:induction false} MissingConcat(kvs: seq<(Value, Value)>, a: seq<string>, b: seq<string>)
    ensures Missing(kvs, a + b) == Missing(kvs, a) + Missing(kvs, b)
    decreases |b|
  {
    if b == [] {
      assert a + b == a;
    } else {
      var b' := b[..|b| - 1];
      MissingConcat(kvs, a, b');
      assert (a + b)[..|a + b| - 1] == a + b';
    }
  }

  /** The maps of valider_test.go: an empty map fails `Required`, a
      one-entry map passes it; a one-entry map fails `Range(3, 4)`, a
      three-entry map passes it. */
  lemma TestScenarios()
    ensures RequiredRecords(VMap([])) == [RequiredRec]
    ensures RequiredRecords(VMap([(VStr("hola"), VStr("adios"))])) == []
    ensures RangeRecords(VMap([(VStr("hola"), VStr("adios"))]), 3, 4) == [OutRangeRec]
    ensures RangeRecords(VMap([(VStr("hola"), VStr("adios")), (VStr("hi"), VStr("bye")),
                               (VStr("salut"), VStr("bye bye"))]), 3, 4) == []
  {
  }

  class Map {
    const raw: Subject
    const field: string
    const errors: Errors
    /** The value under inspection; `Date` and `date` move it down the subject. */
    var value: Value

    /** `Validator.Map`: a checker writing into the validator's sink. */
    constructor (v: Valider.Validator, raw: Subject, field: string)
      ensures this.raw == raw && this.field == field && errors == v.Errors
    {
      this.raw := raw;
      this.field := field;
      errors := v.Errors;
      value := VInvalid;
    }

    method Required() returns (self: Map)
      modifies this, errors
      ensures self == this && value == Deref(raw)
      ensures errors.m == Appended(old(errors.m), field, RequiredRecords(Deref(raw)))
    {
      value := Deref(raw);
      if IsMapKind(value) {
        if Length(value) == 0 {
          errors.Append(field, RequiredRec);
        }
      } else {
        errors.Append(field, Unsupp);
      }
      self := this;
    }

    /** `Len` panics on a non-container; `MapIndex` with a string key panics
        on a map whose keys are not strings. */
    method Keys(keys: seq<string>) returns (self: Map)
      requires HasLen(Deref(raw))
      requires Deref(raw).VMap? && keys != [] ==> StringKeyed(Deref(raw).entries)
      modifies this, errors
      ensures self == this && value == Deref(raw)
      ensures errors.m == Appended(old(errors.m), field, KeysRecords(Deref(raw), keys))
    {
      value := Deref(raw);
      if Length(value) != 0 {
        if value.VMap? {
          ghost var m0 := errors.m;
          var kvs := value.entries;
          var i := 0;
          while i < |keys|
            invariant 0 <= i <= |keys|
            invariant errors.m == Appended(m0, field, Missing(kvs, keys[..i]))
            invariant value == Deref(raw)
          {
            var present := Contains(kvs, keys[i]);
            if !present {
              errors.Append(field, NotFoundRec);
            }
            assert keys[..i + 1][..i] == keys[..i];
            AppendedTwice(m0, field, Missing(kvs, keys[..i]), if present then [] else [NotFoundRec]);
            i := i + 1;
          }
          assert keys[..i] == keys;
        } else {
          errors.Append(field, Unsupp);
        }
      }
      self := this;
    }

    /** `MapIndex(key).IsValid()`: whether the map has an entry under `k`. */
    method Contains(kvs: seq<(Value, Value)>, k: string) returns (present: bool)
      ensures present == HasKey(kvs, k)
    {
      present := false;
      var i := 0;
      while i < |kvs|
        invariant 0 <= i <= |kvs|
        invariant present <==> exists j :: 0 <= j < i && kvs[j].0 == VStr(k)
      {
        if kvs[i].0 == VStr(k) {
          present := true;
        }
        i := i + 1;
      }
    }

    method Range(min: int, max: int) returns (self: Map)
      requires HasLen(Deref(raw))
      modifies this, errors
      ensures self == this && value == Deref(raw)
      ensures errors.m == Appended(old(errors.m), field, RangeRecords(Deref(raw), min, max))
    {
      value := Deref(raw);
      if Length(value) != 0 {
        if value.VMap? {
          var len := Length(value);
          if len < min || len > max {
            errors.Append(field, OutRangeRec);
          }
        } else {
          errors.Append(field, Unsupp);
        }
      }
      self := this;
    }

    /** A no-op: no record, no state change. */
    method In(values: Param) returns (self: Map)
      ensures self == this
    {
      self := this;
    }

    /** Visits every value of a non-empty map with `date`, overwriting
        `value` with the value of the current key as the source does. */
    method Date(layout: string, parse: TimeParse) returns (self: Map)
      requires HasLen(Deref(raw)) && DateSafe(Deref(raw))
      modifies this, errors
      ensures self == this
      ensures errors.m == Appended(old(errors.m), field, MapDate(Deref(raw), layout, parse))
    {
      value := Deref(raw);
      ghost var v := value;
      if Length(value) != 0 {
        if value.VMap? {
          ghost var m0 := errors.m;
          var keys := value.entries;
          var i := 0;
          while i < |keys|
            invariant 0 <= i <= |keys| <= 1
            invariant i == 0 ==> value == v && errors.m == m0
            invariant i == 1 ==> errors.m == Appended(m0, field, DateValues(keys, layout, parse))
          {
            value := value.entries[i].1;
            VisitDate(layout, parse);
            DateConformance.DateValuesOne(keys, layout, parse);
            i := i + 1;
          }
        } else {
          errors.Append(field, Unsupp);
        }
      }
      self := this;
    }

    /** The visitor `date`: appends exactly the records
        `DateConformance.DateVisit` describes for the current value,
        overwriting `value` with the element it descends into. */
    method VisitDate(layout: string, parse: TimeParse)
      requires SingleDescent(value)
      modifies this, errors
      ensures errors.m == Appended(old(errors.m), field, DateConformance.DateVisit(old(value), layout, parse))
      decreases value
    {
      var v := value;
      ghost var m0 := errors.m;
      if IsSeqKind(v) {
        var len := Length(v);
        var i := 0;
        while i < len
          invariant 0 <= i <= len <= 1
          invariant i == 0 ==> value == v && errors.m == m0
          invariant i == 1 ==> errors.m == Appended(m0, field, DateConformance.DateVisit(v, layout, parse))
        {
          value := value.elems[i];
          VisitDate(layout, parse);
          DateConformance.DateVisitOne(v, layout, parse);
          i := i + 1;
        }
        if len == 0 {
          assert DateConformance.DateVisit(v, layout, parse) == [];
        }
      } else if v.VStr? {
        if !parse(layout, v.s) {
          errors.Append(field, NotDate);
        }
      } else {
        errors.Append(field, Unsupp);
      }
    }
  }
}
