/** The slice checker `Slice` (slice.go): checks on a slice or array
    reached through at most one pointer, and the recursive containment
    visitor `in` that `In` runs on every element. */
module SliceCheck {
  import opened Sink
  import opened Dyn
  import opened Containment
  import Valider

  const RequiredRec := Record(Kind.Required, NoDetail)
  const OutRangeRec := Record(OutRange, NoDetail)
  const LenRec := Record(Kind.Len, NoDetail)

  /** The records of `Required`: one Required record for a slice or array
      without elements, one Unsupported record for any other kind. */
  function RequiredRecords(v: Value): (rs: seq<Record>)
    ensures |rs| <= 1
    ensures rs == [RequiredRec] <==> IsSeqKind(v) && Length(v) == 0
    ensures rs == [Unsupp] <==> !IsSeqKind(v)
  {
    if IsSeqKind(v) then Outcome(Length(v) == 0, RequiredRec) else [Unsupp]
  }

  /** The records of `Range`: nothing for a nil subject, one OutRange record
      for a slice whose length is outside the inclusive bounds, one
      Unsupported record for any other non-nil kind. */
  function RangeRecords(v: Value, min: int, max: int): (rs: seq<Record>)
    requires CanBeNil(v)
    ensures |rs| <= 1
    ensures IsNil(v) ==> rs == []
    ensures rs == [OutRangeRec] <==> v.VSlice? && (|v.elems| < min || |v.elems| > max)
    ensures rs == [Unsupp] <==> !IsNil(v) && !IsSeqKind(v)
  {
    if IsNil(v) then []
    else if IsSeqKind(v) then Outcome(Length(v) < min || Length(v) > max, OutRangeRec)
    else [Unsupp]
  }

  /** The records of `Len`: as `Range`, with a length other than `le` failing. */
  function LenRecords(v: Value, le: int): (rs: seq<Record>)
    requires CanBeNil(v)
    ensures |rs| <= 1
    ensures IsNil(v) ==> rs == []
    ensures rs == [LenRec] <==> v.VSlice? && |v.elems| != le
    ensures rs == [Unsupp] <==> !IsNil(v) && !IsSeqKind(v)
  {
    if IsNil(v) then []
    else if IsSeqKind(v) then Outcome(Length(v) != le, LenRec)
    else [Unsupp]
  }

  /** The records of `In`: nothing for a nil subject, the visitor's records
      for every element of a slice in order, one Unsupported record for any
      other non-nil kind (a map subject included). */
  function InRecords(v: Value, p: Param): (rs: seq<Record>)
    requires CanBeNil(v)
    ensures VisitorKinds(rs)
    ensures IsNil(v) ==> rs == []
    ensures v.VSlice? ==> rs == Containment.Visit(v, p)
    ensures !IsNil(v) && !v.VSlice? ==> rs == [Unsupp]
  {
    if IsNil(v) then []
    else if IsSeqKind(v) then VisitAll(v.elems, p)
    else [Unsupp]
  }

  /** `Len(n)` fails exactly where `Range(n, n)` fails. */
  lemma LenIsPointRange(v: Value, n: int)
    requires CanBeNil(v)
    ensures |LenRecords(v, n)| == |RangeRecords(v, n, n)|
    ensures LenRecords(v, n) == [Unsupp] <==> RangeRecords(v, n, n) == [Unsupp]
  {
  }

  /** A nil or empty subject is vacuously in any allowed set. */
  lemma InVacuous(p: Param)
    ensures InRecords(VNilSlice, p) == [] && InRecords(VSlice([]), p) == []
    ensures InRecords(VNilMap, p) == []
  {
  }

  /** For a slice of strings and an allowed list of plain strings: no
      BadParameter, and one `in` record per string that equals no member. */
  lemma {:induction false} StringsAgainstStrings(ss: seq<string>, allowed: seq<string>)
    ensures |InRecords(VSlice(StrValues(ss)), PSeq(StrElems(allowed)))| == |Unlisted(ss, allowed)|
    ensures forall i :: 0 <= i < |Unlisted(ss, allowed)| ==>
              InRecords(VSlice(StrValues(ss)), PSeq(StrElems(allowed)))[i] == NotIn
    decreases |ss|
  {
    var vs, p := StrValues(ss), PSeq(StrElems(allowed));
    if ss != [] {
      var init, last := ss[..|ss| - 1], ss[|ss| - 1];
      StringsAgainstStrings(init, allowed);
      assert vs[..|vs| - 1] == StrValues(init);
      var before := VisitAll(StrValues(init), p);
      var tail := Containment.Visit(VStr(last), p);
      assert VisitAll(vs, p) == before + tail;
      StrLeafAgainstStrings(last, allowed);
      assert Unlisted(ss, allowed) == Unlisted(init, allowed) + (if last in allowed then [] else [last]);
    }
  }

  /** One string leaf against plain strings: one `in` record iff unlisted. */
  lemma StrLeafAgainstStrings(s: string, allowed: seq<string>)
    ensures Containment.Visit(VStr(s), PSeq(StrElems(allowed))) == (if s in allowed then [] else [NotIn])
  {
    var es := StrElems(allowed);
    assert forall e <- es :: e.EStr?;
    AcceptedNoBadParams(Strings, es);
    assert Found(VStr(s), es) <==> s in allowed by {
      if s in allowed {
        var j :| 0 <= j < |allowed| && allowed[j] == s;
        assert Hit(VStr(s), es[j]);
      }
    }
  }

  /** The nested subjects of valider_test.go: a slice of string slices
      and a slice holding one map, whose values (never its keys) are
      compared, in either enumeration order. */
  lemma NestedScenarios()
    ensures InRecords(VSlice([VSlice([VStr("hola")])]), PSeq([EStr("hola"), EStr("adios")])) == []
    ensures InRecords(VSlice([VMap([(VStr("holaa"), VStr("adios")), (VStr("adioss"), VStr("hola"))])]),
                      PSeq([EStr("hola"), EStr("adios")])) == []
    ensures InRecords(VSlice([VMap([(VStr("adioss"), VStr("hola")), (VStr("holaa"), VStr("adios"))])]),
                      PSeq([EStr("hola"), EStr("adios")])) == []
    ensures InRecords(VSlice([VMap([(VStr("hola"), VStr("adioss")), (VStr("adios"), VStr("hola"))])]),
                      PSeq([EStr("hola"), EStr("adios")])) == [NotIn]
    ensures InRecords(VSlice([VMap([(VStr("adios"), VStr("hola")), (VStr("hola"), VStr("adioss"))])]),
                      PSeq([EStr("hola"), EStr("adios")])) == [NotIn]
  {
    var p := PSeq([EStr("hola"), EStr("adios")]);
    assert Hit(VStr("hola"), EStr("hola"));
    assert Hit(VStr("adios"), EStr("adios"));
    assert !Found(VStr("adioss"), p.elems);
    assert Containment.Visit(VStr("hola"), p) == [];
    assert Containment.Visit(VStr("adios"), p) == [];
    assert Containment.Visit(VStr("adioss"), p) == [NotIn];
    TwoEntries((VStr("holaa"), VStr("adios")), (VStr("adioss"), VStr("hola")), p);
    TwoEntries((VStr("adioss"), VStr("hola")), (VStr("holaa"), VStr("adios")), p);
    TwoEntries((VStr("hola"), VStr("adioss")), (VStr("adios"), VStr("hola")), p);
    TwoEntries((VStr("adios"), VStr("hola")), (VStr("hola"), VStr("adioss")), p);
  }

  /** A two-entry map: the records of its two values, in enumeration order. */
  lemma TwoEntries(a: (Value, Value), b: (Value, Value), p: Param)
    ensures Containment.Visit(VSlice([VMap([a, b])]), p) == Containment.Visit(a.1, p) + Containment.Visit(b.1, p)
  {
    var kvs := [a, b];
    assert kvs[..1] == [a] && kvs[..1][..0] == [];
    assert VisitValues([a], p) == VisitValues([], p) + Containment.Visit(a.1, p);
    assert VisitValues(kvs, p) == VisitValues([a], p) + Containment.Visit(b.1, p);
    assert [VMap(kvs)][..0] == [];
    assert VisitAll([VMap(kvs)], p) == VisitAll([], p) + Containment.Visit(VMap(kvs), p);
  }

  function StrValues(ss: seq<string>): (vs: seq<Value>)
    ensures |vs| == |ss| && forall i :: 0 <= i < |ss| ==> vs[i] == VStr(ss[i])
  {
    seq(|ss|, i requires 0 <= i < |ss| => VStr(ss[i]))
  }

  function StrElems(ss: seq<string>): (es: seq<Elem>)
    ensures |es| == |ss| && forall i :: 0 <= i < |ss| ==> es[i] == EStr(ss[i])
  {
    seq(|ss|, i requires 0 <= i < |ss| => EStr(ss[i]))
  }

  /** The strings of `ss` not in `allowed`, in order. */
  function Unlisted(ss: seq<string>, allowed: seq<string>): seq<string>
  {
    if ss == [] then []
    else Unlisted(ss[..|ss| - 1], allowed) + (if ss[|ss| - 1] in allowed then [] else [ss[|ss| - 1]])
  }

  class Slice {
    const raw: Subject
    const field: string
    const errors: Errors
    /** The value under inspection; the visitor moves it down the subject. */
    var value: Value

    /** `Validator.Slice`: a checker writing into the validator's sink. */
    constructor (v: Valider.Validator, raw: Subject, field: string)
      ensures this.raw == raw && this.field == field && errors == v.Errors
    {
      this.raw := raw;
      this.field := field;
      errors := v.Errors;
      value := VInvalid;
    }

    method Required() returns (self: Slice)
      modifies this, errors
      ensures self == this && value == Deref(raw)
      ensures errors.m == Appended(old(errors.m), field, RequiredRecords(Deref(raw)))
    {
      value := Deref(raw);
      if IsSeqKind(value) {
        if Length(value) == 0 {
          errors.Append(field, RequiredRec);
        }
      } else {
        errors.Append(field, Unsupp);
      }
      self := this;
    }

    /** `IsNil` panics on an array and on non-reference kinds. */
    method Range(min: int, max: int) returns (self: Slice)
      requires CanBeNil(Deref(raw))
      modifies this, errors
      ensures self == this && value == Deref(raw)
      ensures errors.m == Appended(old(errors.m), field, RangeRecords(Deref(raw), min, max))
    {
      value := Deref(raw);
      if !IsNil(value) {
        if IsSeqKind(value) {
          var len := Length(value);
          if len < min || len > max {
            errors.Append(field, OutRangeRec);
          }
        } else {
          errors.Append(field, Unsupp);
        }
      }
      self := this;
    }

    method In(values: Param) returns (self: Slice)
      requires CanBeNil(Deref(raw))
      modifies this, errors
      ensures self == this
      ensures errors.m == Appended(old(errors.m), field, InRecords(Deref(raw), values))
    {
      value := Deref(raw);
      if !IsNil(value) {
        if IsSeqKind(value) {
          VisitElems(value.elems, values);
        } else {
          errors.Append(field, Unsupp);
        }
      }
      self := this;
    }

    method Len(le: int) returns (self: Slice)
      requires CanBeNil(Deref(raw))
      modifies this, errors
      ensures self == this && value == Deref(raw)
      ensures errors.m == Appended(old(errors.m), field, LenRecords(Deref(raw), le))
    {
      value := Deref(raw);
      if !IsNil(value) {
        if IsSeqKind(value) {
          if Length(value) != le {
            errors.Append(field, LenRec);
          }
        } else {
          errors.Append(field, Unsupp);
        }
      }
      self := this;
    }

    /** The visitor `in`: appends exactly the records `Containment.Visit`
        describes for the current value, moving `value` down through
        every element and map value. */
    method Visit(n: Param)
      modifies this, errors
      ensures errors.m == Appended(old(errors.m), field, Containment.Visit(old(value), n))
      decreases value
    {
      var v := value;
      if v.VSlice? || v.VArray? {
        VisitElems(v.elems, n);
      } else if v.VMap? {
        VisitMapValues(v.entries, n);
      } else if v.VNilSlice? || v.VNilMap? {
        // a nil slice or map has no elements to visit
      } else if v.VStr? {
        StrLeaf(n);
      } else if v.VInt? {
        IntLeaf(n);
      } else if v.VUint? || v.VFloat? || v.VBool? || v.VIface? {
        // not compared
      } else {
        errors.Append(field, Unsupp);
      }
    }

    /** The loop over the elements of a slice or array. */
    method VisitElems(es: seq<Value>, n: Param)
      modifies this, errors
      ensures errors.m == Appended(old(errors.m), field, VisitAll(es, n))
      decreases es
    {
      ghost var m0 := errors.m;
      var len := |es|;
      var i := 0;
      while i < len
        invariant 0 <= i <= len
        invariant errors.m == Appended(m0, field, VisitAll(es[..i], n))
      {
        ghost var before := errors.m;
        value := es[i];
        Visit(n);
        assert errors.m == Appended(before, field, Containment.Visit(es[i], n));
        VisitStep(m0, field, es, i, n);
        i := i + 1;
      }
      assert es[..len] == es;
    }

    /** The loop over the keys of a map, visiting the value of each. */
    method VisitMapValues(kvs: seq<(Value, Value)>, n: Param)
      modifies this, errors
      ensures errors.m == Appended(old(errors.m), field, VisitValues(kvs, n))
      decreases kvs
    {
      ghost var m0 := errors.m;
      var i := 0;
      while i < |kvs|
        invariant 0 <= i <= |kvs|
        invariant errors.m == Appended(m0, field, VisitValues(kvs[..i], n))
      {
        var kv := kvs[i];
        assert kv.1 < kv;
        value := kv.1;
        Visit(n);
        VisitValuesStep(m0, field, kvs, i, n);
        i := i + 1;
      }
      assert kvs[..|kvs|] == kvs;
    }

    /** A string leaf: a BadParameter record for a parameter that is not a
        slice, the scan of its elements otherwise, then `in` unless found. */
    method StrLeaf(n: Param)
      requires value.VStr?
      modifies errors
      ensures errors.m == Appended(old(errors.m), field, LeafRecords(value, n))
    {
      ghost var m0 := errors.m;
      var found := false;
      if n.PSeq? {
        found := ScanStrings(n.elems);
      } else {
        errors.Append(field, BadParam);
      }
      ghost var scanned := if n.PSeq? then BadParams(Strings, n.elems) else [BadParam];
      assert LeafRecords(value, n) == scanned + (if found then [] else [NotIn]);
      if !found {
        errors.Append(field, NotIn);
        AppendedTwice(m0, field, scanned, [NotIn]);
      } else {
        assert scanned + [] == scanned;
      }
    }

    /** The scan of the allowed elements for a string leaf: a BadParameter
        record for each element that is neither a string nor an interface;
        an element holding no string compares as "". */
    method ScanStrings(es: seq<Elem>) returns (found: bool)
      requires value.VStr?
      modifies errors
      ensures found == Found(value, es)
      ensures errors.m == Appended(old(errors.m), field, BadParams(Strings, es))
    {
      ghost var m0 := errors.m;
      found := false;
      var j := 0;
      while j < |es|
        invariant 0 <= j <= |es|
        invariant found <==> Found(value, es[..j])
        invariant errors.m == Appended(m0, field, BadParams(Strings, es[..j]))
      {
        var hit := StrElem(es[j]);
        found := found || hit;
        ScanStep(m0, field, Strings, es, j);
        FoundStep(value, es, j);
        j := j + 1;
      }
      assert es[..j] == es;
    }

    /** One allowed element against a string leaf: the element's string, or
        "" with a BadParameter record for a plain integer or another kind. */
    method StrElem(e: Elem) returns (hit: bool)
      requires value.VStr?
      modifies errors
      ensures hit == Hit(value, e)
      ensures errors.m == Appended(old(errors.m), field, if Rejects(Strings, e) then [BadParam] else [])
    {
      var str := "";
      if e.EStr? || e.EIfaceStr? {
        str := e.s;
      } else if e.EInt? || e.EOther? {
        errors.Append(field, BadParam);
      }
      hit := value.s == str;
    }

    /** An integer leaf of any signed width: a BadParameter record for a
        parameter that is not a slice, the scan of its elements otherwise,
        then `in` unless found. */
    method IntLeaf(n: Param)
      requires value.VInt?
      modifies errors
      ensures errors.m == Appended(old(errors.m), field, LeafRecords(value, n))
    {
      ghost var m0 := errors.m;
      var found := false;
      if n.PSeq? {
        found := ScanInts(n.elems);
      } else {
        errors.Append(field, BadParam);
      }
      ghost var scanned := if n.PSeq? then BadParams(Ints, n.elems) else [BadParam];
      assert LeafRecords(value, n) == scanned + (if found then [] else [NotIn]);
      if !found {
        errors.Append(field, NotIn);
        AppendedTwice(m0, field, scanned, [NotIn]);
      } else {
        assert scanned + [] == scanned;
      }
    }

    /** The scan of the allowed elements for an integer leaf: a BadParameter
        record for each element holding no signed integer, plain or in an
        interface; such an element compares as 0. */
    method ScanInts(es: seq<Elem>) returns (found: bool)
      requires value.VInt?
      modifies errors
      ensures found == Found(value, es)
      ensures errors.m == Appended(old(errors.m), field, BadParams(Ints, es))
    {
      ghost var m0 := errors.m;
      found := false;
      var j := 0;
      while j < |es|
        invariant 0 <= j <= |es|
        invariant found <==> Found(value, es[..j])
        invariant errors.m == Appended(m0, field, BadParams(Ints, es[..j]))
      {
        var hit := IntElem(es[j]);
        found := found || hit;
        ScanStep(m0, field, Ints, es, j);
        FoundStep(value, es, j);
        j := j + 1;
      }
      assert es[..j] == es;
    }

    /** One allowed element against an integer leaf: the element's integer,
        or 0 with a BadParameter record for anything holding no integer. */
    method IntElem(e: Elem) returns (hit: bool)
      requires value.VInt?
      modifies errors
      ensures hit == Hit(value, e)
      ensures errors.m == Appended(old(errors.m), field, if Rejects(Ints, e) then [BadParam] else [])
    {
      var num := 0;
      if e.EInt? || e.EIfaceInt? {
        num := e.i;
      } else {
        errors.Append(field, BadParam);
      }
      hit := value.i == num;
    }
  }
}
