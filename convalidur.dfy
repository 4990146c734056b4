/** The older string-message variant (convalidur.go): the same checks as
    the newer files, each record carrying its kind only (the sink holds
    one fixed message per kind). */
module Convalidur {
  import opened Sink
  import opened Dyn
  import opened Foreign
  import opened Containment
  import DC = DateConformance
  import StrCheck
  import IntCheck
  import SliceCheck
  import MapCheck
  import Valider
  import Decimal

  /** The same pattern texts as the newer variant. */
  const PatternEmail: string := Valider.PatternEmail
  const PatternURL: string := Valider.PatternURL

  /** `RegExp` here: the outcome of the newer variant, without the pattern
      as operand. */
  function RegExpRecords(value: string, pattern: string, matcher: MatchString): (rs: seq<Record>)
    ensures |rs| == |StrCheck.RegExpRecords(value, pattern, matcher)|
    ensures forall i :: 0 <= i < |rs| ==>
              rs[i] == Record(StrCheck.RegExpRecords(value, pattern, matcher)[i].kind, NoDetail)
  {
    if value == "" then []
    else
      match matcher(pattern, value)
      case BadPattern => [Record(BadParameter, NoDetail)]
      case NoMatch => [Record(NotMatched, NoDetail)]
      case Matched => []
  }

  /** `Slice.Range` here has no nil guard: a nil slice is measured as
      empty, and any other kind is Unsupported. */
  function SliceRangeRecords(v: Value, min: int, max: int): (rs: seq<Record>)
    ensures |rs| <= 1
    ensures rs == [SliceCheck.OutRangeRec] <==> IsSeqKind(v) && (Length(v) < min || Length(v) > max)
    ensures rs == [Unsupp] <==> !IsSeqKind(v)
  {
    if IsSeqKind(v) then Outcome(Length(v) < min || Length(v) > max, SliceCheck.OutRangeRec) else [Unsupp]
  }

  /** `Slice.In` here has no nil guard: the visitor runs on every element of
      a slice or array, and any other kind is Unsupported. */
  function SliceInRecords(v: Value, p: Param): (rs: seq<Record>)
    ensures VisitorKinds(rs)
    ensures IsSeqKind(v) ==> rs == Containment.Visit(v, p)
    ensures !IsSeqKind(v) ==> rs == [Unsupp]
  {
    if IsSeqKind(v) then VisitAll(if v.VNilSlice? then [] else v.elems, p) else [Unsupp]
  }

  /** The two variants agree on every subject the newer one accepts without
      its nil guard firing; on a nil slice the older `Range` fails when
      `min` is positive, and on a nil map both older checks report
      Unsupported. */
  lemma NilGuardDifference(v: Value, min: int, max: int, p: Param)
    requires CanBeNil(v)
    ensures !IsNil(v) ==> SliceRangeRecords(v, min, max) == SliceCheck.RangeRecords(v, min, max)
    ensures !IsNil(v) ==> SliceInRecords(v, p) == SliceCheck.InRecords(v, p)
    ensures v.VNilSlice? ==> (SliceCheck.RangeRecords(v, min, max) == [] &&
              (SliceRangeRecords(v, min, max) != [] <==> min > 0 || max < 0))
    ensures v.VNilMap? ==> SliceRangeRecords(v, min, max) == [Unsupp] && SliceInRecords(v, p) == [Unsupp]
  {
  }

  /** Arrays, which the newer variant cannot check, are visited here. */
  lemma ArraysVisited(es: seq<Value>, p: Param)
    ensures SliceInRecords(VArray(es), p) == VisitAll(es, p)
  {
  }

  class Validator {
    const Errors: Sink.Errors

    /** `New` wraps the given sink without copying it. */
    constructor New(errors: Sink.Errors)
      ensures Errors == errors
    {
      Errors := errors;
    }
  }

  class Str {
    const value: string
    const field: string
    const errors: Errors

    /** `Validator.Str`: a checker writing into the validator's sink. */
    constructor (v: Validator, value: string, field: string)
      ensures this.value == value && this.field == field && errors == v.Errors
    {
      this.value := value;
      this.field := field;
      errors := v.Errors;
    }

    method Required() returns (self: Str)
      modifies errors
      ensures self == this
      ensures errors.m == Appended(old(errors.m), field, Outcome(StrCheck.RequiredFails(value), Record(Kind.Required, NoDetail)))
    {
      if value == "" {
        errors.Add(field, Kind.Required);
      }
      self := this;
    }

    method Equal(eq: string) returns (self: Str)
      modifies errors
      ensures self == this
      ensures errors.m == Appended(old(errors.m), field, Outcome(StrCheck.EqualFails(value, eq), Record(NotEqual, NoDetail)))
    {
      if value != "" && value != eq {
        errors.Add(field, NotEqual);
      }
      self := this;
    }

    method Len(num: int) returns (self: Str)
      modifies errors
      ensures self == this
      ensures errors.m == Appended(old(errors.m), field, Outcome(StrCheck.LenFails(value, num), Record(Kind.Len, NoDetail)))
    {
      if value != "" && |value| != num {
        errors.Add(field, Kind.Len);
      }
      self := this;
    }

    /** The same precedence as the newer variant: the emptiness guard covers
        the lower bound only. */
    method Range(min: int, max: int) returns (self: Str)
      modifies errors
      ensures self == this
      ensures errors.m == Appended(old(errors.m), field, Outcome(StrCheck.RangeFails(value, min, max), Record(OutRange, NoDetail)))
    {
      var len := |value|;
      if (value != "" && len < min) || len > max {
        errors.Add(field, OutRange);
      }
      self := this;
    }

    method In(values: seq<string>) returns (self: Str)
      modifies errors
      ensures self == this
      ensures errors.m == Appended(old(errors.m), field, Outcome(StrCheck.InFails(value, values), Record(Kind.In, NoDetail)))
    {
      self := this;
      if value != "" {
        var i := 0;
        while i < |values|
          invariant 0 <= i <= |values|
          invariant value !in values[..i]
          invariant errors.m == old(errors.m)
        {
          if value == values[i] {
            return;
          }
          i := i + 1;
        }
        assert values[..i] == values;
        errors.Add(field, Kind.In);
      }
    }

    method Date(layout: string, parse: TimeParse) returns (self: Str)
      modifies errors
      ensures self == this
      ensures errors.m == Appended(old(errors.m), field, Outcome(StrCheck.DateFails(value, layout, parse), Record(Kind.Date, NoDetail)))
    {
      if value != "" {
        if !parse(layout, value) {
          errors.Add(field, Kind.Date);
        }
      }
      self := this;
    }

    method Email(matcher: MatchString) returns (self: Str)
      modifies errors
      ensures self == this
      ensures errors.m == Appended(old(errors.m), field, RegExpRecords(value, PatternEmail, matcher))
    {
      if value == "" {
        return this;
      }
      self := RegExp(PatternEmail, matcher);
    }

    method URL(matcher: MatchString) returns (self: Str)
      modifies errors
      ensures self == this
      ensures errors.m == Appended(old(errors.m), field, RegExpRecords(value, PatternURL, matcher))
    {
      if value != "" {
        self := RegExp(PatternURL, matcher);
        return;
      }
      self := this;
    }

    method RegExp(pattern: string, matcher: MatchString) returns (self: Str)
      modifies errors
      ensures self == this
      ensures errors.m == Appended(old(errors.m), field, RegExpRecords(value, pattern, matcher))
    {
      if value != "" {
        var outcome := matcher(pattern, value);
        if outcome == BadPattern {
          errors.Add(field, BadParameter);
        } else if outcome == NoMatch {
          errors.Add(field, NotMatched);
        }
      }
      self := this;
    }
  }

  class Int {
    const value: int
    const field: string
    const errors: Errors

    /** `Validator.Int`: a checker writing into the validator's sink. */
    constructor (v: Validator, value: int, field: string)
      ensures this.value == value && this.field == field && errors == v.Errors
    {
      this.value := value;
      this.field := field;
      errors := v.Errors;
    }

    method Required() returns (self: Int)
      modifies errors
      ensures self == this
      ensures errors.m == Appended(old(errors.m), field, Outcome(IntCheck.RequiredFails(value), Record(Kind.Required, NoDetail)))
    {
      if value == 0 {
        errors.Add(field, Kind.Required);
      }
      self := this;
    }

    method Len(num: int) returns (self: Int)
      modifies errors
      ensures self == this
      ensures errors.m == Appended(old(errors.m), field, Outcome(IntCheck.LenFails(value, num), Record(Kind.Len, NoDetail)))
    {
      if value != 0 && |Decimal.Itoa(value)| != num {
        errors.Add(field, Kind.Len);
      }
      self := this;
    }

    method Equal(eq: int) returns (self: Int)
      modifies errors
      ensures self == this
      ensures errors.m == Appended(old(errors.m), field, Outcome(IntCheck.EqualFails(value, eq), Record(NotEqual, NoDetail)))
    {
      if value != 0 && value != eq {
        errors.Add(field, NotEqual);
      }
      self := this;
    }

    method Range(min: int, max: int) returns (self: Int)
      modifies errors
      ensures self == this
      ensures errors.m == Appended(old(errors.m), field, Outcome(IntCheck.RangeFails(value, min, max), Record(OutRange, NoDetail)))
    {
      if value != 0 && (value < min || value > max) {
        errors.Add(field, OutRange);
      }
      self := this;
    }
  }

  class Slice {
    const raw: Subject
    const field: string
    const errors: Errors
    /** The value under inspection; the visitor moves it down the subject. */
    var value: Value

    /** `Validator.Slice`: a checker writing into the validator's sink. */
    constructor (v: Validator, raw: Subject, field: string)
      ensures this.raw == raw && this.field == field && errors == v.Errors
    {
      this.raw := raw;
      this.field := field;
      errors := v.Errors;
      value := VInvalid;
    }

    method Required() returns (self: Slice)
      modifies this, errors
      ensures self == this && value == Deref(raw)
      ensures errors.m == Appended(old(errors.m), field, SliceCheck.RequiredRecords(Deref(raw)))
    {
      value := Deref(raw);
      if IsSeqKind(value) {
        if Length(value) == 0 {
          errors.Add(field, Kind.Required);
        }
      } else {
        errors.Add(field, Unsupported);
      }
      self := this;
    }

    method Range(min: int, max: int) returns (self: Slice)
      modifies this, errors
      ensures self == this && value == Deref(raw)
      ensures errors.m == Appended(old(errors.m), field, SliceRangeRecords(Deref(raw), min, max))
    {
      value := Deref(raw);
      if IsSeqKind(value) {
        var len := Length(value);
        if len < min || len > max {
          errors.Add(field, OutRange);
        }
      } else {
        errors.Add(field, Unsupported);
      }
      self := this;
    }

    method In(values: Param) returns (self: Slice)
      modifies this, errors
      ensures self == this
      ensures errors.m == Appended(old(errors.m), field, SliceInRecords(Deref(raw), values))
    {
      value := Deref(raw);
      if IsSeqKind(value) {
        var es := if value.VNilSlice? then [] else value.elems;
        VisitElems(es, values);
      } else {
        errors.Add(field, Unsupported);
      }
      self := this;
    }

    /** The visitor `in`: appends exactly the records `Containment.Visit`
        describes for the current value, moving `value` down through
        every element and map value. */
    method Visit(n: Param)
      modifies this, errors
      ensures errors.m == Appended(old(errors.m), field, Containment.Visit(old(value), n))
      decreases value
    {
      var v := value;
      if v.VSlice? || v.VArray? {
        VisitElems(v.elems, n);
      } else if v.VMap? {
        VisitMapValues(v.entries, n);
      } else if v.VNilSlice? || v.VNilMap? {
        // a nil slice or map has no elements to visit
      } else if v.VStr? {
        StrLeaf(n);
      } else if v.VInt? {
        IntLeaf(n);
      } else if v.VUint? || v.VFloat? || v.VBool? || v.VIface? {
        // not compared
      } else {
        errors.Append(field, Unsupp);
      }
    }

    /** The loop over the elements of a slice or array. */
    method VisitElems(es: seq<Value>, n: Param)
      modifies this, errors
      ensures errors.m == Appended(old(errors.m), field, VisitAll(es, n))
      decreases es
    {
      ghost var m0 := errors.m;
      var len := |es|;
      var i := 0;
      while i < len
        invariant 0 <= i <= len
        invariant errors.m == Appended(m0, field, VisitAll(es[..i], n))
      {
        ghost var before := errors.m;
        value := es[i];
        Visit(n);
        assert errors.m == Appended(before, field, Containment.Visit(es[i], n));
        VisitStep(m0, field, es, i, n);
        i := i + 1;
      }
      assert es[..len] == es;
    }

    /** The loop over the keys of a map, visiting the value of each. */
    method VisitMapValues(kvs: seq<(Value, Value)>, n: Param)
      modifies this, errors
      ensures errors.m == Appended(old(errors.m), field, VisitValues(kvs, n))
      decreases kvs
    {
      ghost var m0 := errors.m;
      var i := 0;
      while i < |kvs|
        invariant 0 <= i <= |kvs|
        invariant errors.m == Appended(m0, field, VisitValues(kvs[..i], n))
      {
        var kv := kvs[i];
        assert kv.1 < kv;
        value := kv.1;
        Visit(n);
        VisitValuesStep(m0, field, kvs, i, n);
        i := i + 1;
      }
      assert kvs[..|kvs|] == kvs;
    }

    /** A string leaf: a BadParameter record for a parameter that is not a
        slice, the scan of its elements otherwise, then `in` unless found. */
    method StrLeaf(n: Param)
      requires value.VStr?
      modifies errors
      ensures errors.m == Appended(old(errors.m), field, LeafRecords(value, n))
    {
      ghost var m0 := errors.m;
      var found := false;
      if n.PSeq? {
        found := ScanStrings(n.elems);
      } else {
        errors.Append(field, BadParam);
      }
      ghost var scanned := if n.PSeq? then BadParams(Strings, n.elems) else [BadParam];
      assert LeafRecords(value, n) == scanned + (if found then [] else [NotIn]);
      if !found {
        errors.Append(field, NotIn);
        AppendedTwice(m0, field, scanned, [NotIn]);
      } else {
        assert scanned + [] == scanned;
      }
    }

    /** The scan of the allowed elements for a string leaf: a BadParameter
        record for each element that is neither a string nor an interface;
        an element holding no string compares as "". */
    method ScanStrings(es: seq<Elem>) returns (found: bool)
      requires value.VStr?
      modifies errors
      ensures found == Found(value, es)
      ensures errors.m == Appended(old(errors.m), field, BadParams(Strings, es))
    {
      ghost var m0 := errors.m;
      found := false;
      var j := 0;
      while j < |es|
        invariant 0 <= j <= |es|
        invariant found <==> Found(value, es[..j])
        invariant errors.m == Appended(m0, field, BadParams(Strings, es[..j]))
      {
        var hit := StrElem(es[j]);
        found := found || hit;
        ScanStep(m0, field, Strings, es, j);
        FoundStep(value, es, j);
        j := j + 1;
      }
      assert es[..j] == es;
    }

    /** One allowed element against a string leaf: the element's string, or
        "" with a BadParameter record for a plain integer or another kind. */
    method StrElem(e: Elem) returns (hit: bool)
      requires value.VStr?
      modifies errors
      ensures hit == Hit(value, e)
      ensures errors.m == Appended(old(errors.m), field, if Rejects(Strings, e) then [BadParam] else [])
    {
      var str := "";
      if e.EStr? || e.EIfaceStr? {
        str := e.s;
      } else if e.EInt? || e.EOther? {
        errors.Append(field, BadParam);
      }
      hit := value.s == str;
    }

    /** An integer leaf of any signed width: a BadParameter record for a
        parameter that is not a slice, the scan of its elements otherwise,
        then `in` unless found. */
    method IntLeaf(n: Param)
      requires value.VInt?
      modifies errors
      ensures errors.m == Appended(old(errors.m), field, LeafRecords(value, n))
    {
      ghost var m0 := errors.m;
      var found := false;
      if n.PSeq? {
        found := ScanInts(n.elems);
      } else {
        errors.Append(field, BadParam);
      }
      ghost var scanned := if n.PSeq? then BadParams(Ints, n.elems) else [BadParam];
      assert LeafRecords(value, n) == scanned + (if found then [] else [NotIn]);
      if !found {
        errors.Append(field, NotIn);
        AppendedTwice(m0, field, scanned, [NotIn]);
      } else {
        assert scanned + [] == scanned;
      }
    }

    /** The scan of the allowed elements for an integer leaf: a BadParameter
        record for each element holding no signed integer, plain or in an
        interface; such an element compares as 0. */
    method ScanInts(es: seq<Elem>) returns (found: bool)
      requires value.VInt?
      modifies errors
      ensures found == Found(value, es)
      ensures errors.m == Appended(old(errors.m), field, BadParams(Ints, es))
    {
      ghost var m0 := errors.m;
      found := false;
      var j := 0;
      while j < |es|
        invariant 0 <= j <= |es|
        invariant found <==> Found(value, es[..j])
        invariant errors.m == Appended(m0, field, BadParams(Ints, es[..j]))
      {
        var hit := IntElem(es[j]);
        found := found || hit;
        ScanStep(m0, field, Ints, es, j);
        FoundStep(value, es, j);
        j := j + 1;
      }
      assert es[..j] == es;
    }

    /** One allowed element against an integer leaf: the element's integer,
        or 0 with a BadParameter record for anything holding no integer. */
    method IntElem(e: Elem) returns (hit: bool)
      requires value.VInt?
      modifies errors
      ensures hit == Hit(value, e)
      ensures errors.m == Appended(old(errors.m), field, if Rejects(Ints, e) then [BadParam] else [])
    {
      var num := 0;
      if e.EInt? || e.EIfaceInt? {
        num := e.i;
      } else {
        errors.Append(field, BadParam);
      }
      hit := value.i == num;
    }
  }

  class Map {
    const raw: Subject
    const field: string
    const errors: Errors
    /** The value under inspection; `Date` and `date` move it down the subject. */
    var value: Value

    /** `Validator.Map`: a checker writing into the validator's sink. */
    constructor (v: Validator, raw: Subject, field: string)
      ensures this.raw == raw && this.field == field && errors == v.Errors
    {
      this.raw := raw;
      this.field := field;
      errors := v.Errors;
      value := VInvalid;
    }

    method Required() returns (self: Map)
      modifies this, errors
      ensures self == this && value == Deref(raw)
      ensures errors.m == Appended(old(errors.m), field, MapCheck.RequiredRecords(Deref(raw)))
    {
      value := Deref(raw);
      if IsMapKind(value) {
        if Length(value) == 0 {
          errors.Add(field, Kind.Required);
        }
      } else {
        errors.Add(field, Unsupported);
      }
      self := this;
    }

    /** Returns early on an empty subject; `Len` panics on a non-container. */
    method Range(min: int, max: int) returns (self: Map)
      requires HasLen(Deref(raw))
      modifies this, errors
      ensures self == this && value == Deref(raw)
      ensures errors.m == Appended(old(errors.m), field, MapCheck.RangeRecords(Deref(raw), min, max))
    {
      value := Deref(raw);
      if Length(value) == 0 {
        return this;
      }
      if value.VMap? {
        var len := Length(value);
        if len < min || len > max {
          errors.Add(field, OutRange);
        }
      } else {
        errors.Add(field, Unsupported);
      }
      self := this;
    }

    /** A no-op: no record, no state change. */
    method In(values: Param) returns (self: Map)
      ensures self == this
    {
      self := this;
    }

    /** Returns early on an empty subject, else visits every value of a map
        with `date`, overwriting `value` as the source does. */
    method Date(layout: string, parse: TimeParse) returns (self: Map)
      requires HasLen(Deref(raw)) && MapCheck.DateSafe(Deref(raw))
      modifies this, errors
      ensures self == this
      ensures errors.m == Appended(old(errors.m), field, DC.MapDate(Deref(raw), layout, parse))
    {
      value := Deref(raw);
      ghost var v := value;
      if Length(value) == 0 {
        return this;
      }
      if value.VMap? {
        ghost var m0 := errors.m;
        var keys := value.entries;
        var i := 0;
        while i < |keys|
          invariant 0 <= i <= |keys| <= 1
          invariant i == 0 ==> value == v && errors.m == m0
          invariant i == 1 ==> errors.m == Appended(m0, field, DC.DateValues(keys, layout, parse))
        {
          value := value.entries[i].1;
          VisitDate(layout, parse);
          DC.DateValuesOne(keys, layout, parse);
          i := i + 1;
        }
      } else {
        errors.Add(field, Unsupported);
      }
      self := this;
    }

    /** The visitor `date`: appends exactly the records
        `DC.DateVisit` describes for the current value,
        overwriting `value` with the element it descends into. */
    method VisitDate(layout: string, parse: TimeParse)
      requires DC.SingleDescent(value)
      modifies this, errors
      ensures errors.m == Appended(old(errors.m), field, DC.DateVisit(old(value), layout, parse))
      decreases value
    {
      var v := value;
      ghost var m0 := errors.m;
      if IsSeqKind(v) {
        var len := Length(v);
        var i := 0;
        while i < len
          invariant 0 <= i <= len <= 1
          invariant i == 0 ==> value == v && errors.m == m0
          invariant i == 1 ==> errors.m == Appended(m0, field, DC.DateVisit(v, layout, parse))
        {
          value := value.elems[i];
          VisitDate(layout, parse);
          DC.DateVisitOne(v, layout, parse);
          i := i + 1;
        }
        if len == 0 {
          assert DC.DateVisit(v, layout, parse) == [];
        }
      } else if v.VStr? {
        if !parse(layout, v.s) {
          errors.Append(field, DC.NotDate);
        }
      } else {
        errors.Append(field, DC.Unsupp);
      }
    }
  }
}
