/** The recursive containment visitor `in` (slice.go, duplicated in
    convalidur.go) as functions over values: the records it appends for a
    subject and an allowed-values parameter, and what those records mean. */
module Containment {
  import opened Sink
  import opened Dyn

  const BadParam := Record(BadParameter, NoDetail)
  const NotIn := Record(In, NoDetail)
  const Unsupp := Record(Unsupported, NoDetail)

  /** The scalar family of a leaf: the string kind or the signed integer kinds. */
  datatype Family = Strings | Ints

  /** The records the visitor can append. */
  predicate VisitorKinds(rs: seq<Record>)
  {
    forall i :: 0 <= i < |rs| ==> rs[i].kind in {In, BadParameter, Unsupported}
  }

  /** The string a string leaf is compared with: the element's string, or
      "" when the element holds none. */
  function StrOf(e: Elem): string
  {
    match e
    case EStr(s) => s
    case EIfaceStr(s) => s
    case _ => ""
  }

  /** The integer an integer leaf is compared with, any width normalised to
      one integer: the element's integer, or 0 when the element holds none. */
  function IntOf(e: Elem): int
  {
    match e
    case EInt(_, i) => i
    case EIfaceInt(_, i) => i
    case _ => 0
  }

  /** Whether scanning element `e` for a leaf of family `f` appends
      BadParameter. For a string leaf an interface element holding a
      non-string is passed over silently; for an integer leaf every element
      that is not an integer, plain or wrapped, is rejected. */
  predicate Rejects(f: Family, e: Elem)
  {
    match f
    case Strings => e.EInt? || e.EOther?
    case Ints => !(e.EInt? || e.EIfaceInt?)
  }

  /** The BadParameter records of one scan of the allowed elements. */
  function BadParams(f: Family, es: seq<Elem>): (rs: seq<Record>)
    ensures forall i :: 0 <= i < |rs| ==> rs[i] == BadParam
    ensures |rs| <= |es|
  {
    if es == [] then []
    else BadParams(f, es[..|es| - 1]) + (if Rejects(f, es[|es| - 1]) then [BadParam] else [])
  }

  /** The leaves the visitor compares: strings and signed integers. */
  predicate IsLeaf(v: Value)
  {
    v.VStr? || v.VInt?
  }

  function FamilyOf(v: Value): Family
    requires IsLeaf(v)
  {
    if v.VStr? then Strings else Ints
  }

  /** Whether leaf `v` equals the value element `e` is compared as. */
  predicate Hit(v: Value, e: Elem)
    requires IsLeaf(v)
  {
    if v.VStr? then v.s == StrOf(e) else v.i == IntOf(e)
  }

  /** The `found` flag after scanning all of `es`. */
  predicate Found(v: Value, es: seq<Elem>)
    requires IsLeaf(v)
  {
    exists j :: 0 <= j < |es| && Hit(v, es[j])
  }

  /** A leaf: one BadParameter per rejected element, then one `in` record
      when nothing matched; a parameter that is not a slice gives
      BadParameter followed by `in`. */
  function LeafRecords(v: Value, p: Param): (rs: seq<Record>)
    requires IsLeaf(v)
    ensures VisitorKinds(rs)
    ensures forall r <- rs :: r == BadParam || r == NotIn
    ensures NotIn in rs <==> p.PNotSeq? || !Found(v, p.elems)
  {
    match p
    case PNotSeq => [BadParam, NotIn]
    case PSeq(es) => BadParams(FamilyOf(v), es) + (if Found(v, es) then [] else [NotIn])
  }

  /** Kinds the visitor passes over without a record. */
  predicate Silent(v: Value)
  {
    v.VUint? || v.VFloat? || v.VBool? || v.VIface?
  }

  predicate IsContainer(v: Value)
  {
    IsSeqKind(v) || IsMapKind(v)
  }

  /** What the visitor appends at a value that is not a slice, array or map. */
  function LeafCheck(v: Value, p: Param): (rs: seq<Record>)
    requires !IsContainer(v)
    ensures VisitorKinds(rs)
  {
    if IsLeaf(v) then LeafRecords(v, p)
    else if Silent(v) then []
    else [Unsupp]
  }

  /** The records `in` appends for subject `v`, depth first: every element
      of a slice or array, every value (never a key) of a map. */
  function Visit(v: Value, p: Param): (rs: seq<Record>)
    ensures VisitorKinds(rs)
    decreases v
  {
    match v
    case VSlice(es) => VisitAll(es, p)
    case VArray(es) => VisitAll(es, p)
    case VNilSlice => []
    case VMap(kvs) => VisitValues(kvs, p)
    case VNilMap => []
    case _ => LeafCheck(v, p)
  }

  function VisitAll(vs: seq<Value>, p: Param): (rs: seq<Record>)
    ensures VisitorKinds(rs)
    decreases vs
  {
    if vs == [] then [] else VisitAll(vs[..|vs| - 1], p) + Visit(vs[|vs| - 1], p)
  }

  function VisitValues(kvs: seq<(Value, Value)>, p: Param): (rs: seq<Record>)
    ensures VisitorKinds(rs)
    decreases kvs
  {
    if kvs == [] then []
    else
      var kv := kvs[|kvs| - 1];
      assert kv.1 < kv;
      VisitValues(kvs[..|kvs| - 1], p) + Visit(kv.1, p)
  }

  /** The leaves the visitor reaches, in visiting order. */
  function Leaves(v: Value): (ls: seq<Value>)
    ensures forall l <- ls :: !IsContainer(l)
    decreases v
  {
    match v
    case VSlice(es) => LeavesAll(es)
    case VArray(es) => LeavesAll(es)
    case VNilSlice => []
    case VMap(kvs) => LeavesValues(kvs)
    case VNilMap => []
    case _ => [v]
  }

  function LeavesAll(vs: seq<Value>): (ls: seq<Value>)
    ensures forall l <- ls :: !IsContainer(l)
    decreases vs
  {
    if vs == [] then [] else LeavesAll(vs[..|vs| - 1]) + Leaves(vs[|vs| - 1])
  }

  function LeavesValues(kvs: seq<(Value, Value)>): (ls: seq<Value>)
    ensures forall l <- ls :: !IsContainer(l)
    decreases kvs
  {
    if kvs == [] then []
    else
      var kv := kvs[|kvs| - 1];
      assert kv.1 < kv;
      LeavesValues(kvs[..|kvs| - 1]) + Leaves(kv.1)
  }

  /** The values of a map, in enumeration order. */
  function MapValues(kvs: seq<(Value, Value)>): (vs: seq<Value>)
    ensures |vs| == |kvs| && forall i :: 0 <= i < |kvs| ==> vs[i] == kvs[i].1
  {
    seq(|kvs|, i requires 0 <= i < |kvs| => kvs[i].1)
  }

  /** No early exit: a sequence's records are its parts' records, in order. */
  lemma {:induction false} VisitAllConcat(a: seq<Value>, b: seq<Value>, p: Param)
    ensures VisitAll(a + b, p) == VisitAll(a, p) + VisitAll(b, p)
    decreases |b|
  {
    if b == [] {
      assert a + b == a;
    } else {
      var b' := b[..|b| - 1];
      assert (a + b)[..|a + b| - 1] == a + b';
      assert (a + b)[|a + b| - 1] == b[|b| - 1];
      VisitAllConcat(a, b', p);
    }
  }

  /** Every element is visited: element i's records sit, whole and in place,
      between those of the elements before and after it. */
  lemma EveryElementVisited(vs: seq<Value>, i: nat, p: Param)
    requires i < |vs|
    ensures VisitAll(vs, p) == VisitAll(vs[..i], p) + Visit(vs[i], p) + VisitAll(vs[i + 1..], p)
  {
    assert vs == vs[..i] + ([vs[i]] + vs[i + 1..]);
    VisitAllConcat(vs[..i], [vs[i]] + vs[i + 1..], p);
    VisitAllConcat([vs[i]], vs[i + 1..], p);
    assert VisitAll([vs[i]], p) == VisitAll([], p) + Visit(vs[i], p);
  }

  /** Map keys are never checked: a map is visited as the sequence of its values. */
  lemma {:induction false} MapVisitedAsValues(kvs: seq<(Value, Value)>, p: Param)
    ensures Visit(VMap(kvs), p) == VisitAll(MapValues(kvs), p)
    decreases |kvs|
  {
    if kvs != [] {
      var kvs' := kvs[..|kvs| - 1];
      assert MapValues(kvs)[..|kvs| - 1] == MapValues(kvs');
      MapVisitedAsValues(kvs', p);
    }
  }

  /** Visiting a nested subject is visiting the flat sequence of its
      leaves: containers contribute nothing of their own. */
  lemma {:induction false} VisitFlattens(v: Value, p: Param)
    ensures Visit(v, p) == VisitAll(Leaves(v), p)
    decreases v
  {
    match v
    case VSlice(es) => VisitAllFlattens(es, p);
    case VArray(es) => VisitAllFlattens(es, p);
    case VNilSlice =>
    case VMap(kvs) => VisitValuesFlattens(kvs, p);
    case VNilMap =>
    case _ =>
      assert Leaves(v) == [v];
      assert VisitAll([v], p) == VisitAll([], p) + Visit(v, p);
  }

  lemma {:induction false} VisitAllFlattens(vs: seq<Value>, p: Param)
    ensures VisitAll(vs, p) == VisitAll(LeavesAll(vs), p)
    decreases vs
  {
    if vs != [] {
      var last := vs[|vs| - 1];
      VisitAllFlattens(vs[..|vs| - 1], p);
      VisitFlattens(last, p);
      VisitAllConcat(LeavesAll(vs[..|vs| - 1]), Leaves(last), p);
    }
  }

  lemma {:induction false} VisitValuesFlattens(kvs: seq<(Value, Value)>, p: Param)
    ensures VisitValues(kvs, p) == VisitAll(LeavesValues(kvs), p)
    decreases kvs
  {
    if kvs != [] {
      var kv := kvs[|kvs| - 1];
      assert kv.1 < kv;
      VisitValuesFlattens(kvs[..|kvs| - 1], p);
      VisitFlattens(kv.1, p);
      VisitAllConcat(LeavesValues(kvs[..|kvs| - 1]), Leaves(kv.1), p);
    }
  }

  /** An allowed set of family `f`: no element is rejected for a leaf of `f`. */
  predicate Accepts(f: Family, es: seq<Elem>)
  {
    forall e <- es :: !Rejects(f, e)
  }

  predicate OfFamily(f: Family, v: Value)
  {
    IsLeaf(v) && FamilyOf(v) == f
  }

  lemma {:induction false} AcceptedNoBadParams(f: Family, es: seq<Elem>)
    requires Accepts(f, es)
    ensures BadParams(f, es) == []
  {
    if es != [] {
      AcceptedNoBadParams(f, es[..|es| - 1]);
    }
  }

  /** When every element is rejected, each appends one BadParameter. */
  lemma {:induction false} AllRejectedBadParams(f: Family, es: seq<Elem>)
    requires forall e <- es :: Rejects(f, e)
    ensures |BadParams(f, es)| == |es|
  {
    if es != [] {
      AllRejectedBadParams(f, es[..|es| - 1]);
    }
  }

  /** The number of leaves that match no allowed element. */
  function Misses(ls: seq<Value>, es: seq<Elem>): nat
  {
    if ls == [] then 0
    else
      var l := ls[|ls| - 1];
      Misses(ls[..|ls| - 1], es) + (if IsLeaf(l) && !Found(l, es) then 1 else 0)
  }

  lemma {:induction false} LeavesOfFamily(f: Family, ls: seq<Value>, es: seq<Elem>)
    requires Accepts(f, es)
    requires forall l <- ls :: OfFamily(f, l)
    ensures |VisitAll(ls, PSeq(es))| == Misses(ls, es)
    ensures forall r <- VisitAll(ls, PSeq(es)) :: r == NotIn
  {
    if ls != [] {
      var l := ls[|ls| - 1];
      assert l in ls;
      LeavesOfFamily(f, ls[..|ls| - 1], es);
      AcceptedNoBadParams(f, es);
    }
  }

  /** Containment for a set of the subject's own family: no BadParameter,
      and exactly one `in` record per leaf that matches no allowed element. */
  lemma FamilyContainment(f: Family, v: Value, es: seq<Elem>)
    requires Accepts(f, es)
    requires forall l <- Leaves(v) :: OfFamily(f, l)
    ensures |Visit(v, PSeq(es))| == Misses(Leaves(v), es)
    ensures forall r <- Visit(v, PSeq(es)) :: r == NotIn
  {
    VisitFlattens(v, PSeq(es));
    LeavesOfFamily(f, Leaves(v), es);
  }

  lemma {:induction false} NoMissesAllFound(ls: seq<Value>, es: seq<Elem>)
    ensures Misses(ls, es) == 0 <==> forall l <- ls :: IsLeaf(l) ==> Found(l, es)
  {
    if ls != [] {
      NoMissesAllFound(ls[..|ls| - 1], es);
      assert forall l <- ls :: l in ls[..|ls| - 1] || l == ls[|ls| - 1];
    }
  }

  /** For a set of the subject's own family, the subject passes exactly
      when every leaf is in the set. */
  lemma FamilyContainmentValid(f: Family, v: Value, es: seq<Elem>)
    requires Accepts(f, es)
    requires forall l <- Leaves(v) :: OfFamily(f, l)
    ensures Visit(v, PSeq(es)) == [] <==> forall l <- Leaves(v) :: IsLeaf(l) ==> Found(l, es)
  {
    FamilyContainment(f, v, es);
    NoMissesAllFound(Leaves(v), es);
  }

  /** A parameter that is not a slice: BadParameter, then `in`, whatever the leaf. */
  lemma NotSeqParameter(v: Value)
    requires IsLeaf(v)
    ensures Visit(v, PNotSeq) == [BadParam, NotIn]
  {
  }

  /** An integer leaf against plain strings: one BadParameter per element,
      each comparing as 0, so `in` is appended unless the leaf is 0 and the
      set is not empty. */
  lemma IntLeafAgainstStrings(w: IntWidth, i: int, es: seq<Elem>)
    requires forall e <- es :: e.EStr?
    ensures |Visit(VInt(w, i), PSeq(es))| == |es| + (if i == 0 && es != [] then 0 else 1)
    ensures forall k :: 0 <= k < |es| ==> Visit(VInt(w, i), PSeq(es))[k] == BadParam
    ensures Visit(VInt(w, i), PSeq(es)) == BadParams(Ints, es) + (if i == 0 && es != [] then [] else [NotIn])
  {
    var v := VInt(w, i);
    var bad := BadParams(Ints, es);
    AllRejectedBadParams(Ints, es);
    assert Found(v, es) <==> i == 0 && es != [] by {
      if i == 0 && es != [] {
        assert Hit(v, es[0]);
      }
    }
    var tail: seq<Record> := if i == 0 && es != [] then [] else [NotIn];
    assert Visit(v, PSeq(es)) == LeafRecords(v, PSeq(es)) == bad + tail;
    forall k | 0 <= k < |es|
      ensures (bad + tail)[k] == BadParam
    {
      assert (bad + tail)[k] == bad[k];
    }
  }

  /** A string leaf against plain integers: one BadParameter per element,
      each comparing as "", so only the empty string is found. */
  lemma StrLeafAgainstInts(s: string, es: seq<Elem>)
    requires forall e <- es :: e.EInt?
    ensures |Visit(VStr(s), PSeq(es))| == |es| + (if s == "" && es != [] then 0 else 1)
    ensures Visit(VStr(s), PSeq(es)) == BadParams(Strings, es) + (if s == "" && es != [] then [] else [NotIn])
  {
    AllRejectedBadParams(Strings, es);
    if s == "" && es != [] {
      assert es[0] in es;
      assert Hit(VStr(s), es[0]);
    }
  }

  /** The empty-string quirk: any allowed element that holds no string
      compares as "", so an empty string leaf is then found. */
  lemma EmptyStringFound(es: seq<Elem>, j: nat)
    requires j < |es| && StrOf(es[j]) == ""
    ensures Visit(VStr(""), PSeq(es)) == BadParams(Strings, es)
  {
    var v := VStr("");
    assert Hit(v, es[j]);
    assert Found(v, es);
    calc {
      Visit(v, PSeq(es));
      LeafRecords(v, PSeq(es));
      BadParams(Strings, es) + [];
    }
  }

  /** Integer widths unify: any width on either side compares by value. */
  lemma WidthsUnify(w1: IntWidth, w2: IntWidth, i: int)
    ensures Visit(VInt(w1, i), PSeq([EInt(w2, i)])) == []
    ensures Visit(VInt(w1, i), PSeq([EIfaceInt(w2, i)])) == []
  {
    assert Hit(VInt(w1, i), [EInt(w2, i)][0]);
    assert Hit(VInt(w1, i), [EIfaceInt(w2, i)][0]);
  }

  /** Unsigned, float, bool and interface leaves append nothing; any other
      non-container kind appends exactly one Unsupported. */
  lemma NonComparableLeaves(v: Value, p: Param)
    requires !IsContainer(v) && !IsLeaf(v)
    ensures Silent(v) ==> Visit(v, p) == []
    ensures !Silent(v) ==> Visit(v, p) == [Unsupp]
  {
  }

  /** Empty and nil slices, arrays and maps are vacuously valid. */
  lemma EmptyContainersVacuous(p: Param)
    ensures Visit(VSlice([]), p) == [] && Visit(VArray([]), p) == []
    ensures Visit(VMap([]), p) == [] && Visit(VNilSlice, p) == [] && Visit(VNilMap, p) == []
  {
  }

  /** One more element scanned: found before, or a hit now. */
  lemma FoundStep(v: Value, es: seq<Elem>, j: nat)
    requires IsLeaf(v) && j < |es|
    ensures Found(v, es[..j + 1]) <==> Found(v, es[..j]) || Hit(v, es[j])
  {
    if Hit(v, es[j]) {
      assert es[..j + 1][j] == es[j];
    }
    if Found(v, es[..j]) {
      var k :| 0 <= k < j && Hit(v, es[..j][k]);
      assert es[..j + 1][k] == es[..j][k];
    }
  }

  /** One more element scanned: at most one more BadParameter record. */
  lemma BadParamsStep(f: Family, es: seq<Elem>, j: nat)
    requires j < |es|
    ensures BadParams(f, es[..j + 1]) == BadParams(f, es[..j]) + (if Rejects(f, es[j]) then [BadParam] else [])
  {
    assert es[..j + 1][..j] == es[..j];
  }

  /** One more element scanned, as the sink sees it. */
  lemma ScanStep(t: Table, name: string, f: Family, es: seq<Elem>, j: nat)
    requires j < |es|
    ensures Appended(Appended(t, name, BadParams(f, es[..j])), name, if Rejects(f, es[j]) then [BadParam] else [])
            == Appended(t, name, BadParams(f, es[..j + 1]))
  {
    BadParamsStep(f, es, j);
    AppendedTwice(t, name, BadParams(f, es[..j]), if Rejects(f, es[j]) then [BadParam] else []);
  }

  /** One more element visited, as the sink sees it. */
  lemma VisitStep(t: Table, name: string, vs: seq<Value>, i: nat, p: Param)
    requires i < |vs|
    ensures Appended(Appended(t, name, VisitAll(vs[..i], p)), name, Visit(vs[i], p))
            == Appended(t, name, VisitAll(vs[..i + 1], p))
  {
    assert vs[..i + 1][..i] == vs[..i];
    AppendedTwice(t, name, VisitAll(vs[..i], p), Visit(vs[i], p));
  }

  /** One more map value visited, as the sink sees it. */
  lemma VisitValuesStep(t: Table, name: string, kvs: seq<(Value, Value)>, i: nat, p: Param)
    requires i < |kvs|
    ensures Appended(Appended(t, name, VisitValues(kvs[..i], p)), name, Visit(kvs[i].1, p))
            == Appended(t, name, VisitValues(kvs[..i + 1], p))
  {
    assert kvs[..i + 1][..i] == kvs[..i];
    AppendedTwice(t, name, VisitValues(kvs[..i], p), Visit(kvs[i].1, p));
  }
}
