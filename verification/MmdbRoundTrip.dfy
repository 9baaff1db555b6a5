/** Writing a value without pointers, as the fixtures of the test suite do, and reading it back. */
module MmdbRoundTrip {
  import opened Bytes
  import opened MmdbData
  import opened MmdbDict
  import opened MmdbWire

  /** The shortest big-endian form of a number: (n.bit_length() + 7) // 8 bytes. */
  function MinBytes(n: nat): seq<byte> {
    if n == 0 then [] else MinBytes(n / 256) + [n % 256]
  }

  /** The values the format has room for. Dict keys are scalars, no two of them the same key. */
  predicate Encodable(v: Value) {
    match v
    case Str(raw) => |raw| <= MAX_SIZE
    case Blob(raw) => |raw| <= MAX_SIZE
    case Int(n) => if n < 0 then -0x8000_0000 <= n else |MinBytes(n)| <= MAX_SIZE
    case Bool(_) => true
    case Double(raw) => |raw| == 8
    case Float(raw) => |raw| == 4
    case Arr(items) => |items| <= MAX_SIZE && AllEncodable(items)
    case Map(entries) => |entries| <= MAX_SIZE && EntriesEncodable(entries) && DistinctKeys(entries)
  }

  predicate AllEncodable(vs: seq<Value>) {
    vs == [] || (Encodable(vs[0]) && AllEncodable(vs[1..]))
  }

  predicate EntriesEncodable(es: seq<Entry>) {
    es == [] || (EntryEncodable(es[0]) && EntriesEncodable(es[1..]))
  }

  predicate EntryEncodable(e: Entry) {
    Hashable(e.key) && Encodable(e.key) && Encodable(e.val)
  }

  /** The field written for a value: unsigned integers in the smallest type that holds them. */
  function Plain(v: Value): Wire {
    match v
    case Str(raw) => WStr(raw)
    case Blob(raw) => WBlob(raw)
    case Int(n) =>
      if n < 0 then WInt(ToBytes(if -0x8000_0000 <= n then n + 0x1_0000_0000 else 0, 4))
      else
        var raw := MinBytes(n);
        WUint(if |raw| <= 2 then 5 else if |raw| <= 4 then 6 else if |raw| <= 8 then 9 else 10, raw)
    case Bool(b) => WBool(b)
    case Double(raw) => WDouble(raw)
    case Float(raw) => WFloat(raw)
    case Arr(items) => WArr(PlainAll(items))
    case Map(entries) => WMap(PlainEntries(entries))
  }

  function PlainAll(vs: seq<Value>): (ws: seq<Wire>)
    ensures |ws| == |vs|
  {
    if vs == [] then [] else [Plain(vs[0])] + PlainAll(vs[1..])
  }

  function PlainEntries(es: seq<Entry>): (ws: seq<Wire>)
    ensures |ws| == 2 * |es|
  {
    if es == [] then [] else PlainEntry(es[0]) + PlainEntries(es[1..])
  }

  function PlainEntry(e: Entry): (ws: seq<Wire>)
    ensures |ws| == 2
  {
    [Plain(e.key), Plain(e.val)]
  }

  // --- the pieces -------------------------------------------------------

  lemma {:induction false} MinBytesValue(n: nat)
    ensures FromBytes(MinBytes(n)) == n
  {
    if n > 0 {
      MinBytesValue(n / 256);
      var s := MinBytes(n);
      assert s[..|s| - 1] == MinBytes(n / 256);
    }
  }

  /** Four bytes of two's complement read back as the negative number. */
  lemma SignedValue(n: int)
    requires -0x8000_0000 <= n < 0
    ensures FromSigned(ToBytes(n + 0x1_0000_0000, 4)) == n
  {
    var m := n + 0x1_0000_0000;
    Pow256Values();
    FromToBytes(m, 4);
    assert ToBytes(m, 4)[..3] == ToBytes(m / 256, 3);
    assert ToBytes(m, 4)[..2] == ToBytes(m / 256, 3)[..2] == ToBytes(m / 65536, 2);
    assert ToBytes(m, 4)[0] == ToBytes(m / 65536, 2)[0] == m / 16777216;
  }

  lemma {:induction false} DictSetFresh(d: seq<Entry>, k: Value, v: Value)
    requires forall i :: 0 <= i < |d| ==> !SameKey(d[i].key, k)
    ensures DictSet(d, k, v) == d + [Entry(k, v)]
  {
    if d != [] {
      DictSetFresh(d[1..], k, v);
    }
  }

  /** Assigning entries with new keys one after another appends them in order. */
  lemma {:induction false} DictOfDistinct(d: seq<Entry>, es: seq<Entry>)
    requires DistinctKeys(d + es)
    ensures Dict(d, Flat(es)) == d + es
    decreases es
  {
    if es == [] {
      assert d + es == d;
    } else {
      var e := es[0];
      assert (d + es)[|d|] == e;
      forall i | 0 <= i < |d| ensures !SameKey(d[i].key, e.key) {
        assert (d + es)[i] == d[i];
      }
      DictSetFresh(d, e.key, e.val);
      assert d + es == d + [e] + es[1..];
      DictOfDistinct(d + [e], es[1..]);
      assert Flat(es)[2..] == Flat(es[1..]);
    }
  }

  lemma DistinctFromEmpty(es: seq<Entry>)
    requires DistinctKeys(es)
    ensures Dict([], Flat(es)) == es
  {
    assert [] + es == es;
    DictOfDistinct([], es);
  }

  /** The entries as key, value, key, value, ... */
  function Flat(es: seq<Entry>): seq<Value> {
    if es == [] then [] else [es[0].key, es[0].val] + Flat(es[1..])
  }

  // --- Plain writes what Meaning reads ----------------------------------

  lemma {:induction false} PlainFaithful(v: Value)
    requires Encodable(v)
    ensures WellFormed(Plain(v)) && Meaning(Plain(v)) == v
    ensures forall buf, pbase :: Placed(buf, pbase, Plain(v))
    decreases v
  {
    hide FromBytes, ToBytes, FromSigned, MinBytes, PlainAll, PlainEntries, AllPlaced, AllWellFormed, Meanings, Dict,
      AllEncodable, EntriesEncodable, DistinctKeys, Hashable;
    match v {
      case Int(n) => if n < 0 { SignedValue(n); } else { MinBytesValue(n); }
      case Arr(items) => PlainAllFaithful(items);
      case Map(entries) =>
        PlainEntriesFaithful(entries);
        DistinctFromEmpty(entries);
      case _ =>
    }
  }

  lemma {:induction false} PlainAllFaithful(vs: seq<Value>)
    requires AllEncodable(vs)
    ensures AllWellFormed(PlainAll(vs)) && Meanings(PlainAll(vs)) == vs
    ensures forall buf, pbase :: AllPlaced(buf, pbase, PlainAll(vs))
    decreases vs
  {
    hide Plain, Meaning, WellFormed, Encodable, Placed;
    if vs != [] {
      PlainFaithful(vs[0]);
      PlainAllFaithful(vs[1..]);
      assert PlainAll(vs)[1..] == PlainAll(vs[1..]);
    }
  }

  lemma {:induction false} PlainEntriesFaithful(es: seq<Entry>)
    requires EntriesEncodable(es)
    ensures AllWellFormed(PlainEntries(es)) && Meanings(PlainEntries(es)) == Flat(es)
    ensures forall i :: 0 <= i < 2 * |es| && i % 2 == 0 ==> Hashable(Meaning(PlainEntries(es)[i]))
    ensures forall buf, pbase :: AllPlaced(buf, pbase, PlainEntries(es))
    decreases es
  {
    hide Plain, Meaning, WellFormed, Encodable, Placed, Hashable;
    if es != [] {
      var ws, rest := PlainEntries(es), PlainEntries(es[1..]);
      PlainEntryFaithful(es[0]);
      PlainEntriesFaithful(es[1..]);
      assert ws[1..][1..] == ws[2..] == rest;
      MeaningsPair(ws);
      assert ws[0] == Plain(es[0].key) && ws[1] == Plain(es[0].val) && ws[1..][0] == ws[1];
      assert Meanings(ws) == [es[0].key, es[0].val] + Meanings(rest);
      forall i | 0 <= i < 2 * |es| && i % 2 == 0 ensures Hashable(Meaning(ws[i])) {
        if i >= 2 { assert ws[i] == rest[i - 2]; }
      }
      forall buf, pbase ensures AllPlaced(buf, pbase, ws) {
        assert AllPlaced(buf, pbase, rest);
        assert AllPlaced(buf, pbase, ws[1..]);
      }
    }
  }

  lemma {:induction false} PlainEntryFaithful(e: Entry)
    requires EntryEncodable(e)
    ensures WellFormed(Plain(e.key)) && Meaning(Plain(e.key)) == e.key && Hashable(e.key)
    ensures WellFormed(Plain(e.val)) && Meaning(Plain(e.val)) == e.val
    ensures forall buf, pbase :: Placed(buf, pbase, Plain(e.key)) && Placed(buf, pbase, Plain(e.val))
    decreases e
  {
    hide Plain, Meaning, WellFormed, Encodable, Placed, Hashable;
    PlainFaithful(e.key);
    PlainFaithful(e.val);
  }

  function Encode(v: Value): seq<byte>
    requires Encodable(v)
  {
    PlainFaithful(v);
    Print(Plain(v))
  }

  /** Decoding inverts encoding at any offset of any surrounding buffer, for values of any nesting. */
  lemma RoundTrip(v: Value, before: seq<byte>, after: seq<byte>, pbase: nat, depth: nat)
    requires Encodable(v) && depth >= Depth(Plain(v))
    ensures Decode(before + Encode(v) + after, |before|, pbase, depth) == Ok((v, |before| + |Encode(v)|))
  {
    hide Plain, Meaning, WellFormed, Encodable, Placed, Decode, Print;
    PlainFaithful(v);
    var buf := before + Encode(v) + after;
    assert buf[|before|..|before| + |Encode(v)|] == Encode(v);
    DecodePrinted(buf, |before|, pbase, Plain(v), depth);
  }

  /** No two values share an encoding. */
  lemma EncodeInjective(v: Value, u: Value)
    requires Encodable(v) && Encodable(u) && Encode(v) == Encode(u)
    ensures v == u
  {
    hide Plain, Meaning, WellFormed, Encodable, Placed, Decode, Print;
    var depth := Depth(Plain(v)) + Depth(Plain(u));
    RoundTrip(v, [], [], 0, depth);
    RoundTrip(u, [], [], 0, depth);
  }
}
