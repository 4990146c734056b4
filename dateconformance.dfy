/** The recursive date-conformance visitor `date` (map.go, duplicated in
    convalidur.go) and the top level of `Map.Date`, as functions over values. */
module DateConformance {
  import opened Sink
  import opened Dyn
  import opened Foreign

  const NotDate := Record(Date, NoDetail)
  const Unsupp := Record(Unsupported, NoDetail)

  /** The records the date visitor can append. */
  predicate DateKinds(rs: seq<Record>)
  {
    forall i :: 0 <= i < |rs| ==> rs[i].kind in {Date, Unsupported}
  }

  /** The records `date` appends for `v`: a string that does not parse under
      `layout` gives a Date record; slices and arrays are descended; every
      other kind, maps and integers included, gives Unsupported. Every element
      of a slice is visited here; the source indexes the value it has just
      overwritten (map.go:103), so the two agree only on values that satisfy
      `SingleDescent`. */
  function DateVisit(v: Value, layout: string, parse: TimeParse): (rs: seq<Record>)
    ensures DateKinds(rs)
    decreases v
  {
    match v
    case VSlice(es) => DateAll(es, layout, parse)
    case VArray(es) => DateAll(es, layout, parse)
    case VNilSlice => []
    case VStr(s) => if parse(layout, s) then [] else [NotDate]
    case _ => [Unsupp]
  }

  function DateAll(vs: seq<Value>, layout: string, parse: TimeParse): (rs: seq<Record>)
    ensures DateKinds(rs)
    decreases vs
  {
    if vs == [] then []
    else DateAll(vs[..|vs| - 1], layout, parse) + DateVisit(vs[|vs| - 1], layout, parse)
  }

  /** At most one element at every slice or array level. On such values the
      source's `date`, which overwrites the value it is iterating over, reads
      each element it visits from the right place. */
  predicate SingleDescent(v: Value)
    decreases v
  {
    match v
    case VSlice(es) => |es| <= 1 && (es != [] ==> SingleDescent(es[0]))
    case VArray(es) => |es| <= 1 && (es != [] ==> SingleDescent(es[0]))
    case _ => true
  }

  /** The values `date` does not descend into, in visiting order. */
  function DateLeaves(v: Value): seq<Value>
    decreases v
  {
    match v
    case VSlice(es) => DateLeavesAll(es)
    case VArray(es) => DateLeavesAll(es)
    case VNilSlice => []
    case _ => [v]
  }

  function DateLeavesAll(vs: seq<Value>): seq<Value>
    decreases vs
  {
    if vs == [] then [] else DateLeavesAll(vs[..|vs| - 1]) + DateLeaves(vs[|vs| - 1])
  }

  /** A leaf that conforms: a string that parses under the layout. */
  predicate Conforms(l: Value, layout: string, parse: TimeParse)
  {
    l.VStr? && parse(layout, l.s)
  }

  /** A value passes the date check exactly when every leaf is a string
      that parses under the layout. This is a statement about `DateVisit`;
      the source's loop agrees with it only under `SingleDescent`. */
  lemma {:induction false} DateValidIffLeavesConform(v: Value, layout: string, parse: TimeParse)
    ensures DateVisit(v, layout, parse) == [] <==>
              forall l <- DateLeaves(v) :: Conforms(l, layout, parse)
    decreases v
  {
    match v
    case VSlice(es) => DateAllValidIffLeavesConform(es, layout, parse);
    case VArray(es) => DateAllValidIffLeavesConform(es, layout, parse);
    case VNilSlice =>
    case VStr(s) =>
      assert DateLeaves(v) == [v];
      assert forall l <- DateLeaves(v) :: l == v;
      assert v in DateLeaves(v) && (Conforms(v, layout, parse) <==> parse(layout, s));
      assert DateVisit(v, layout, parse) == (if parse(layout, s) then [] else [NotDate]);
    case _ =>
      assert DateLeaves(v) == [v];
      assert v in DateLeaves(v) && !Conforms(v, layout, parse);
      assert DateVisit(v, layout, parse) == [Unsupp];
  }

  lemma {:induction false} DateAllValidIffLeavesConform(vs: seq<Value>, layout: string, parse: TimeParse)
    ensures DateAll(vs, layout, parse) == [] <==>
              forall l <- DateLeavesAll(vs) :: Conforms(l, layout, parse)
    decreases vs
  {
    if vs != [] {
      var init, last := vs[..|vs| - 1], vs[|vs| - 1];
      DateAllValidIffLeavesConform(init, layout, parse);
      DateValidIffLeavesConform(last, layout, parse);
      var ls := DateLeavesAll(vs);
      assert ls == DateLeavesAll(init) + DateLeaves(last);
      assert forall l <- ls :: l in DateLeavesAll(init) || l in DateLeaves(last);
    }
  }

  /** On a single-descent value the visitor appends at most one record. */
  lemma {:induction false} DateAtMostOne(v: Value, layout: string, parse: TimeParse)
    requires SingleDescent(v)
    ensures |DateVisit(v, layout, parse)| <= 1
    decreases v
  {
    match v
    case VSlice(es) =>
      if es != [] {
        assert es[..0] == [];
        assert DateAll(es, layout, parse) == DateAll([], layout, parse) + DateVisit(es[0], layout, parse);
        DateAtMostOne(es[0], layout, parse);
      }
    case VArray(es) =>
      if es != [] {
        assert es[..0] == [];
        assert DateAll(es, layout, parse) == DateAll([], layout, parse) + DateVisit(es[0], layout, parse);
        DateAtMostOne(es[0], layout, parse);
      }
    case _ =>
  }

  /** A string leaf: exactly one Date record iff it does not parse. */
  lemma DateStringLeaf(s: string, layout: string, parse: TimeParse)
    ensures |DateVisit(VStr(s), layout, parse)| <= 1
    ensures DateVisit(VStr(s), layout, parse) == [NotDate] <==> !parse(layout, s)
    ensures DateVisit(VStr(s), layout, parse) == [] <==> parse(layout, s)
  {
  }

  /** Any leaf that is neither a string nor a slice or array, nested maps and
      integers included, gives exactly one Unsupported. */
  lemma DateOtherLeaf(v: Value, layout: string, parse: TimeParse)
    requires !IsSeqKind(v) && !v.VStr?
    ensures DateVisit(v, layout, parse) == [Unsupp]
  {
  }

  /** The records of the loop over a map's values. */
  function DateValues(kvs: seq<(Value, Value)>, layout: string, parse: TimeParse): (rs: seq<Record>)
    ensures DateKinds(rs)
    decreases |kvs|
  {
    if kvs == [] then []
    else DateValues(kvs[..|kvs| - 1], layout, parse) + DateVisit(kvs[|kvs| - 1].1, layout, parse)
  }

  /** The loop over a one-entry map visits that entry's value. */
  lemma DateValuesOne(kvs: seq<(Value, Value)>, layout: string, parse: TimeParse)
    requires |kvs| == 1
    ensures DateValues(kvs, layout, parse) == DateVisit(kvs[0].1, layout, parse)
  {
    assert kvs[..0] == [];
  }

  /** A one-element slice or array is visited as its element. */
  lemma DateVisitOne(v: Value, layout: string, parse: TimeParse)
    requires IsSeqKind(v) && Length(v) == 1
    ensures DateVisit(v, layout, parse) == DateVisit(v.elems[0], layout, parse)
  {
    assert v.elems[..0] == [];
    assert DateAll(v.elems, layout, parse) == DateAll([], layout, parse) + DateVisit(v.elems[0], layout, parse);
  }

  /** `Map.Date`: nothing for an empty subject, the values of a map visited,
      Unsupported for any other non-empty subject. */
  function MapDate(v: Value, layout: string, parse: TimeParse): (rs: seq<Record>)
    requires HasLen(v)
    ensures DateKinds(rs)
  {
    if Length(v) == 0 then []
    else if v.VMap? then DateValues(v.entries, layout, parse)
    else [Unsupp]
  }

  /** A single-entry map whose value is a string: at most one record, a
      Date record exactly when the value does not parse. */
  lemma SingleEntryStringDate(k: Value, s: string, layout: string, parse: TimeParse)
    ensures MapDate(VMap([(k, VStr(s))]), layout, parse) == (if parse(layout, s) then [] else [NotDate])
  {
    var kvs := [(k, VStr(s))];
    assert kvs[..0] == [];
    assert DateValues(kvs, layout, parse) == DateValues([], layout, parse) + DateVisit(VStr(s), layout, parse);
  }

  /** A map of at most one entry, whose value is single-descent: at most one record. */
  lemma MapDateAtMostOne(kvs: seq<(Value, Value)>, layout: string, parse: TimeParse)
    requires |kvs| <= 1
    requires kvs != [] ==> SingleDescent(kvs[0].1)
    ensures |MapDate(VMap(kvs), layout, parse)| <= 1
  {
    if kvs != [] {
      assert kvs[..0] == [];
      assert DateValues(kvs, layout, parse) == DateValues([], layout, parse) + DateVisit(kvs[0].1, layout, parse);
      DateAtMostOne(kvs[0].1, layout, parse);
    }
  }

  /** Empty and nil subjects are vacuously valid. */
  lemma MapDateVacuous(layout: string, parse: TimeParse)
    ensures MapDate(VMap([]), layout, parse) == []
    ensures MapDate(VNilMap, layout, parse) == []
    ensures MapDate(VSlice([]), layout, parse) == [] && MapDate(VNilSlice, layout, parse) == []
  {
  }
}
