/** The shared failure sink: a map from field name to the ordered failure
    records of that field. Every checker of one validation session holds a
    reference to the same sink and appends to it in place. */
module Sink {

  /** A Go byte (bytes.go compares byte slices). */
  newtype byte = b: int | 0 <= b < 256

  /** The failure kinds; each stands for one error value and its code. */
  datatype Kind =
    | Required | NotMatched | NotEqual | Equal | OutRange | In | Len
    | Date | NotFound | Exists | Unsupported | BadParameter

  /** The operand a record carries (`ShouldBe`); `NoDetail` for nil and for
      the variants whose records carry no operand. */
  datatype Detail =
    | NoDetail
    | DStr(str: string)
    | DInt(num: int)
    | DBounds(min: int, max: int)
    | DStrs(strs: seq<string>)
    | DByteSlices(slices: seq<seq<byte>>)

  datatype Record = Record(kind: Kind, detail: Detail)

  type Table = map<string, seq<Record>>

  /** The records of `name`; an absent key reads as an empty list. */
  function Lookup(t: Table, name: string): seq<Record>
  {
    if name in t then t[name] else []
  }

  /** `t` after appending `rs` to the list of `name`; the table is left alone
      when there is nothing to append. */
  function Appended(t: Table, name: string, rs: seq<Record>): (r: Table)
    ensures Lookup(r, name) == Lookup(t, name) + rs
    ensures forall k :: k != name ==> Lookup(r, k) == Lookup(t, k)
    ensures r.Keys == if rs == [] then t.Keys else t.Keys + {name}
  {
    if rs == [] then t else t[name := Lookup(t, name) + rs]
  }

  /** Appending twice is appending the concatenation. */
  lemma AppendedTwice(t: Table, name: string, a: seq<Record>, b: seq<Record>)
    ensures Appended(Appended(t, name, a), name, b) == Appended(t, name, a + b)
  {
    if a == [] {
      assert a + b == b;
    } else if b == [] {
      assert a + b == a;
    } else {
      assert Lookup(t, name) + a + b == Lookup(t, name) + (a + b);
    }
  }

  /** The records of a one-record check: `r` when the check fails, else none. */
  function Outcome(fails: bool, r: Record): (rs: seq<Record>)
    ensures |rs| <= 1
    ensures rs == [r] <==> fails
    ensures rs == [] <==> !fails
  {
    if fails then [r] else []
  }

  /** A field is valid when it has no records. */
  predicate FieldValid(t: Table, name: string)
  {
    Lookup(t, name) == []
  }

  /** Every key present holds at least one record. */
  predicate NoEmptyLists(t: Table)
  {
    forall k :: k in t ==> t[k] != []
  }

  /** Appending keeps "a key is present iff it has a record". */
  lemma AppendedKeepsNoEmptyLists(t: Table, name: string, rs: seq<Record>)
    requires NoEmptyLists(t)
    ensures NoEmptyLists(Appended(t, name, rs))
    ensures name in Appended(t, name, rs) <==> Lookup(Appended(t, name, rs), name) != []
  {
    var r := Appended(t, name, rs);
    forall k | k in r
      ensures r[k] != []
    {
      if k == name && rs != [] {
        assert r[k] == Lookup(t, name) + rs;
      } else {
        assert k in t && r[k] == t[k];
      }
    }
  }

  /** `t` after `n` appends of the same record under `name`. */
  function AppendedTimes(t: Table, name: string, rec: Record, n: nat): Table
  {
    if n == 0 then t else Appended(AppendedTimes(t, name, rec, n - 1), name, [rec])
  }

  /** No deduplication: n appends of one record leave n more records, the
      old ones first, and no other key changes. */
  lemma {:induction false} AppendedTimesCount(t: Table, name: string, rec: Record, n: nat)
    ensures |Lookup(AppendedTimes(t, name, rec, n), name)| == |Lookup(t, name)| + n
    ensures Lookup(t, name) <= Lookup(AppendedTimes(t, name, rec, n), name)
    ensures forall i :: |Lookup(t, name)| <= i < |Lookup(t, name)| + n ==>
              Lookup(AppendedTimes(t, name, rec, n), name)[i] == rec
    ensures forall k :: k != name ==> Lookup(AppendedTimes(t, name, rec, n), k) == Lookup(t, k)
  {
    if n > 0 {
      AppendedTimesCount(t, name, rec, n - 1);
    }
  }

  /** The failure map behind a pointer (`*map[string][]Err`, `Errors`). */
  class Errors {
    var m: Table

    constructor (m0: Table)
      ensures m == m0
    {
      m := m0;
    }

    /** `errors[name] = append(errors[name], r)`. */
    method Append(name: string, r: Record)
      modifies this
      ensures m == Appended(old(m), name, [r])
    {
      m := m[name := Lookup(m, name) + [r]];
    }

    /** `Errors.Add`: appends a record without an operand. */
    method Add(name: string, k: Kind)
      modifies this
      ensures m == Appended(old(m), name, [Record(k, NoDetail)])
    {
      m := m[name := Lookup(m, name) + [Record(k, NoDetail)]];
    }
  }
}
