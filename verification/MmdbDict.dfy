/** Python dicts as the reader fills and reads them: one value to a key, the last one assigned. */
module MmdbDict {
  import opened Wrappers
  import opened Bytes
  import opened MmdbData
  import opened MmdbWire

  /** No two entries have the same key. */
  predicate DistinctKeys(es: seq<Entry>) {
    forall i, j :: 0 <= i < j < |es| ==> !SameKey(es[i].key, es[j].key)
  }

  function KeysOf(es: seq<Entry>): (ks: seq<Value>)
    ensures |ks| == |es| && forall i :: 0 <= i < |es| ==> ks[i] == es[i].key
  {
    seq(|es|, i requires 0 <= i < |es| => es[i].key)
  }

  /** Which keys are the same: equal ones, and True and 1, False and 0. */
  lemma KeysCompare(a: Value, b: Value, c: Value)
    ensures SameKey(a, a) && (SameKey(a, b) <==> SameKey(b, a))
    ensures SameKey(a, b) && SameKey(b, c) ==> SameKey(a, c)
    ensures a.Bool? && b.Int? ==> (SameKey(a, b) <==> b.n == if a.b then 1 else 0)
    ensures !(a.Bool? && b.Int?) && !(a.Int? && b.Bool?) ==> (SameKey(a, b) <==> a == b)
  {
  }

  /** Reading a dict right after an assignment. */
  lemma {:induction false} GetAfterSet(d: seq<Entry>, k: Value, v: Value, q: Value)
    ensures DictGet(DictSet(d, k, v), q) == if SameKey(k, q) then Some(v) else DictGet(d, q)
  {
    hide SameKey;
    if d == [] {
      assert DictSet(d, k, v) == [Entry(k, v)] && [Entry(k, v)][1..] == [];
    } else {
      KeysCompare(d[0].key, k, q);
      KeysCompare(k, d[0].key, q);
      KeysCompare(d[0].key, q, k);
      KeysCompare(q, k, k);
      GetAfterSet(d[1..], k, v, q);
      assert DictSet(d, k, v)[1..] == if SameKey(d[0].key, k) then d[1..] else DictSet(d[1..], k, v);
    }
  }

  /** An assignment keeps the place and the first form of a key it finds, and appends one it does not. */
  lemma {:induction false} KeysAfterSet(d: seq<Entry>, k: Value, v: Value)
    ensures KeysOf(DictSet(d, k, v)) == if DictGet(d, k).Some? then KeysOf(d) else KeysOf(d) + [k]
  {
    hide SameKey, KeysOf;
    if d == [] {
      KeysCons(Entry(k, v), []);
    } else {
      KeysCons(d[0], d[1..]);
      assert [d[0]] + d[1..] == d;
      if SameKey(d[0].key, k) {
        KeysCons(d[0].(val := v), d[1..]);
      } else {
        KeysAfterSet(d[1..], k, v);
        KeysCons(d[0], DictSet(d[1..], k, v));
      }
    }
  }

  lemma KeysCons(e: Entry, es: seq<Entry>)
    ensures KeysOf([]) == [] && KeysOf([e] + es) == [e.key] + KeysOf(es)
  {
  }

  lemma {:induction false} GetNone(d: seq<Entry>, q: Value)
    ensures DictGet(d, q).None? <==> forall i :: 0 <= i < |d| ==> !SameKey(d[i].key, q)
  {
    hide SameKey;
    if d != [] {
      GetNone(d[1..], q);
      assert forall i :: 0 < i < |d| ==> d[i] == d[1..][i - 1];
      if DictGet(d, q).None? {
        forall i | 0 <= i < |d| ensures !SameKey(d[i].key, q) { if i > 0 { assert d[i] == d[1..][i - 1]; } }
      } else if !SameKey(d[0].key, q) {
        var i :| 0 <= i < |d[1..]| && SameKey(d[1..][i].key, q);
        assert d[i + 1] == d[1..][i];
      }
    }
  }

  /** With distinct keys, in whatever order, a dict gives exactly the value filed under the key. */
  lemma {:induction false} GetExactly(d: seq<Entry>, q: Value, v: Value)
    requires DistinctKeys(d)
    ensures DictGet(d, q) == Some(v) <==> exists i :: 0 <= i < |d| && SameKey(d[i].key, q) && d[i].val == v
  {
    hide SameKey;
    if d != [] {
      GetExactly(d[1..], q, v);
      assert forall i :: 0 < i < |d| ==> d[i] == d[1..][i - 1];
      if SameKey(d[0].key, q) {
        forall i | 0 < i < |d| ensures !SameKey(d[i].key, q) {
          KeysCompare(d[0].key, q, d[i].key);
          KeysCompare(q, d[i].key, q);
        }
      } else if exists i :: 0 <= i < |d[1..]| && SameKey(d[1..][i].key, q) && d[1..][i].val == v {
        var i :| 0 <= i < |d[1..]| && SameKey(d[1..][i].key, q) && d[1..][i].val == v;
        assert d[i + 1] == d[1..][i];
      }
    }
  }

  lemma DistinctAfterSet(d: seq<Entry>, k: Value, v: Value)
    requires DistinctKeys(d)
    ensures DistinctKeys(DictSet(d, k, v))
  {
    hide SameKey, DictSet;
    KeysAfterSet(d, k, v);
    GetNone(d, k);
    var e := DictSet(d, k, v);
    forall i, j | 0 <= i < j < |e| ensures !SameKey(e[i].key, e[j].key) {
      assert KeysOf(e)[i] == e[i].key && KeysOf(e)[j] == e[j].key;
    }
  }

  /** The i-th key of a map field, and what is filed under it. */
  function KeyAt(vs: seq<Value>, i: nat): Value
    requires 2 * i < |vs|
  {
    vs[2 * i]
  }

  lemma {:induction false} NeverSet(d: seq<Entry>, vs: seq<Value>, q: Value)
    requires forall i: nat :: 2 * i + 1 < |vs| ==> !SameKey(KeyAt(vs, i), q)
    ensures DictGet(Dict(d, vs), q) == DictGet(d, q)
    decreases |vs|
  {
    hide SameKey, DictSet, DictGet;
    if |vs| >= 2 {
      assert !SameKey(KeyAt(vs, 0), q);
      GetAfterSet(d, vs[0], vs[1], q);
      forall i: nat | 2 * i + 1 < |vs[2..]| ensures !SameKey(KeyAt(vs[2..], i), q) {
        assert KeyAt(vs[2..], i) == KeyAt(vs, i + 1);
      }
      NeverSet(DictSet(d, vs[0], vs[1]), vs[2..], q);
    }
  }

  /** The dict a map field means: under each key the value that comes last for it in the field. */
  lemma {:induction false} LastWins(d: seq<Entry>, vs: seq<Value>, q: Value, i: nat)
    requires 2 * i + 1 < |vs| && SameKey(KeyAt(vs, i), q)
    requires forall j: nat :: i < j && 2 * j + 1 < |vs| ==> !SameKey(KeyAt(vs, j), q)
    ensures DictGet(Dict(d, vs), q) == Some(vs[2 * i + 1])
    decreases |vs|
  {
    hide SameKey, DictSet, DictGet;
    var e := DictSet(d, vs[0], vs[1]);
    forall j: nat | 2 * j + 1 < |vs[2..]| ensures KeyAt(vs[2..], j) == KeyAt(vs, j + 1) { }
    if i == 0 {
      GetAfterSet(d, vs[0], vs[1], q);
      forall j: nat | 2 * j + 1 < |vs[2..]| ensures !SameKey(KeyAt(vs[2..], j), q) {
        assert !SameKey(KeyAt(vs, j + 1), q);
      }
      NeverSet(e, vs[2..], q);
    } else {
      forall j: nat | i - 1 < j && 2 * j + 1 < |vs[2..]| ensures !SameKey(KeyAt(vs[2..], j), q) {
        assert !SameKey(KeyAt(vs, j + 1), q);
      }
      LastWins(e, vs[2..], q, i - 1);
    }
  }

  lemma {:induction false} DictDistinct(d: seq<Entry>, vs: seq<Value>)
    requires DistinctKeys(d)
    ensures DistinctKeys(Dict(d, vs))
    decreases |vs|
  {
    hide DistinctKeys, DictSet;
    if |vs| >= 2 {
      DistinctAfterSet(d, vs[0], vs[1]);
      DictDistinct(DictSet(d, vs[0], vs[1]), vs[2..]);
    }
  }

  /** Every dict the reader gives has distinct keys. */
  lemma {:induction false} MeaningDistinct(w: Wire)
    ensures Meaning(w).Map? ==> DistinctKeys(Meaning(w).entries)
  {
    hide DistinctKeys, Dict;
    match w {
      case WMap(fields) =>
        NothingDistinct();
        DictDistinct([], Meanings(fields));
      case WPtr(_, _, target) => MeaningDistinct(target);
      case _ =>
    }
  }

  lemma NothingDistinct()
    ensures DistinctKeys([])
  {
  }
}
