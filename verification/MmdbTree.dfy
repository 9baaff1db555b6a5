/** The binary search tree of a MaxMind DB: packed records, and lookup of an address. */
module MmdbTree {
  import opened Wrappers
  import opened Bytes
  import opened MmdbData

  const SEPARATOR: nat := 16

  /** An opened database: the buffer and what the metadata said about it. */
  datatype Database = Database(buf: seq<byte>, nodeCount: nat, recordSize: nat, ipVersion: int, ipv4Start: nat) {
    predicate Valid() { recordSize in {24, 28, 32} }
    function NodeBytes(): nat { recordSize * 2 / 8 }
    function TreeSize(): nat { NodeBytes() * nodeCount }
    function DataStart(): nat { TreeSize() + SEPARATOR }
  }

  /** A parsed address: four or sixteen bytes. */
  datatype Address = V4(packed: seq<byte>) | V6(packed: seq<byte>) {
    predicate Valid() { |packed| == if V4? then 4 else 16 }
  }

  type bit = b: nat | b < 2

  // --- the reader -------------------------------------------------------

  /** One record of a node; at 28 bits the two records share the node's fourth byte. */
  function ReadNode(db: Database, node: nat, index: bit): Result<nat> {
    var base := node * db.NodeBytes();
    if db.recordSize == 24 then
      Ok(FromBytes(Slice(db.buf, base + index * 3, base + index * 3 + 3)))
    else if db.recordSize == 28 then
      if base + 3 >= |db.buf| then Err(IndexError)
      else
        var mid := db.buf[base + 3];
        if index == 0 then Ok(mid / 16 * 16777216 + FromBytes(Slice(db.buf, base, base + 3)))
        else Ok(mid % 16 * 16777216 + FromBytes(Slice(db.buf, base + 4, base + 7)))
    else
      Ok(FromBytes(Slice(db.buf, base + index * 4, base + index * 4 + 4)))
  }

  /** Follow bits from a node until they run out or the tree is left. */
  function Walk(db: Database, node: nat, bits: seq<bit>): Result<nat>
    decreases bits
  {
    if node >= db.nodeCount || bits == [] then Ok(node)
    else
      var next :- ReadNode(db, node, bits[0]);
      Walk(db, next, bits[1..])
  }

  /** Bit i of a packed address, most significant first. */
  function BitAt(packed: seq<byte>, i: nat): bit
    requires i < 8 * |packed|
  {
    packed[i / 8] / Pow2(7 - i % 8) % 2
  }

  function Pow2(n: nat): (p: nat)
    ensures p > 0
  {
    if n == 0 then 1 else 2 * Pow2(n - 1)
  }

  function Bits(packed: seq<byte>): (bits: seq<bit>)
    ensures |bits| == 8 * |packed|
  {
    seq(8 * |packed|, i requires 0 <= i < 8 * |packed| => BitAt(packed, i))
  }

  function Zeros(n: nat): (bits: seq<bit>)
    ensures |bits| == n && forall i :: 0 <= i < n ==> bits[i] == 0
  {
    seq(n, _ => 0)
  }

  function DataOffset(db: Database, pointer: nat): nat
    requires pointer >= db.nodeCount
  {
    pointer - db.nodeCount + db.TreeSize()
  }

  /** The record a finished walk stands for: nothing, or a dict in the data section. */
  function Record(db: Database, node: nat, depth: nat): Result<Option<Value>> {
    if node <= db.nodeCount then Ok(None)
    else
      var v :- Decode(db.buf, DataOffset(db, node), db.DataStart(), depth);
      Ok(if v.0.Map? then Some(v.0) else None)
  }

  /** Lookup of an address, None standing for text that is no address. */
  function Lookup(db: Database, addr: Option<Address>, depth: nat): Result<Option<Value>> {
    if addr.None? then Ok(None)
    else if addr.value.V6? && db.ipVersion == 4 then Ok(None)
    else
      var start := if addr.value.V4? && db.ipVersion == 6 then db.ipv4Start else 0;
      var node :- Walk(db, start, Bits(addr.value.packed));
      Record(db, node, depth)
  }

  /** MMDB.get: the bits are taken one at a time and the loop stops early outside the tree. */
  method Get(db: Database, addr: Option<Address>, depth: nat) returns (r: Result<Option<Value>>)
    ensures r == Lookup(db, addr, depth)
  {
    if addr.None? { return Ok(None); }
    if addr.value.V6? && db.ipVersion == 4 { return Ok(None); }
    var packed := addr.value.packed;
    var node: nat := if addr.value.V4? && db.ipVersion == 6 then db.ipv4Start else 0;
    ghost var start := node;
    var i := 0;
    while i < |packed| * 8
      invariant 0 <= i <= |packed| * 8
      invariant Walk(db, start, Bits(packed)) == Walk(db, node, Bits(packed)[i..])
    {
      if node >= db.nodeCount { break; }
      var next := ReadNode(db, node, BitAt(packed, i));
      assert Bits(packed)[i..][1..] == Bits(packed)[i + 1..];
      if next.Err? { return Err(next.error); }
      node := next.value;
      i := i + 1;
    }
    r := Record(db, node, depth);
  }

  /** The node reached by 96 zero bits, or the leaf that ends that path early. */
  method ComputeIpv4Start(db: Database) returns (r: Result<nat>)
    ensures r == Walk(db, 0, Zeros(96))
  {
    var node: nat := 0;
    for i := 0 to 96
      invariant Walk(db, 0, Zeros(96)) == Walk(db, node, Zeros(96)[i..])
    {
      if node >= db.nodeCount { break; }
      var next := ReadNode(db, node, 0);
      assert Zeros(96)[i..][1..] == Zeros(96)[i + 1..];
      if next.Err? { return Err(next.error); }
      node := next.value;
    }
    r := Ok(node);
  }

  /** The number a bit string writes, most significant bit first. */
  function BitsValue(bits: seq<bit>): nat {
    if bits == [] then 0 else 2 * BitsValue(bits[..|bits| - 1]) + bits[|bits| - 1]
  }

  /** The bits of an address are the binary digits of the number its bytes write. */
  lemma {:induction false} BitsAreBinary(packed: seq<byte>)
    ensures BitsValue(Bits(packed)) == FromBytes(packed)
  {
    hide BitsValue, Bits;
    if packed != [] {
      var n := |packed| - 1;
      BitsAreBinary(packed[..n]);
      BitsInit(packed, Octet(packed[n]));
      BitsValueOctet(Bits(packed[..n]), packed[n]);
    } else {
      assert Bits(packed) == [];
      EmptyBits();
    }
  }

  lemma EmptyBits()
    ensures BitsValue([]) == 0
  {
  }

  function Octet(x: byte): (low: seq<bit>)
    ensures |low| == 8
    ensures forall j :: 0 <= j < 8 ==> low[j] == x / Pow2(7 - j) % 2
  {
    Powers();
    [x / 128 % 2, x / 64 % 2, x / 32 % 2, x / 16 % 2, x / 8 % 2, x / 4 % 2, x / 2 % 2, x % 2]
  }

  lemma Powers()
    ensures Pow2(0) == 1 && Pow2(1) == 2 && Pow2(2) == 4 && Pow2(3) == 8
    ensures Pow2(4) == 16 && Pow2(5) == 32 && Pow2(6) == 64 && Pow2(7) == 128
  {
  }

  lemma BitsInit(packed: seq<byte>, low: seq<bit>)
    requires packed != [] && |low| == 8
    requires forall j :: 0 <= j < 8 ==> low[j] == packed[|packed| - 1] / Pow2(7 - j) % 2
    ensures Bits(packed) == Bits(packed[..|packed| - 1]) + low
  {
    var n := |packed| - 1;
    forall i | 0 <= i < 8 * |packed| ensures Bits(packed)[i] == (Bits(packed[..n]) + low)[i] {
      if i >= 8 * n {
        assert i / 8 == n && i % 8 == i - 8 * n;
      }
    }
  }

  lemma BitsValueOctet(high: seq<bit>, x: byte)
    ensures BitsValue(high + Octet(x)) == 256 * BitsValue(high) + x
  {
    hide BitsValue, Pow2;
    var low := Octet(x);
    BitsValueStep(high, low, 0);
    BitsValueStep(high, low, 1);
    BitsValueStep(high, low, 2);
    BitsValueStep(high, low, 3);
    BitsValueStep(high, low, 4);
    BitsValueStep(high, low, 5);
    BitsValueStep(high, low, 6);
    BitsValueStep(high, low, 7);
    HalvingChain(x);
    assert low[..8] == low && high + low[..0] == high;
  }

  lemma HalvingChain(x: byte)
    ensures 2 * (x / 128) + x / 64 % 2 == x / 64 as int && x / 128 % 2 == x / 128 as int
    ensures 2 * (x / 64) + x / 32 % 2 == x / 32 as int && 2 * (x / 32) + x / 16 % 2 == x / 16 as int
    ensures 2 * (x / 16) + x / 8 % 2 == x / 8 as int && 2 * (x / 8) + x / 4 % 2 == x / 4 as int
    ensures 2 * (x / 4) + x / 2 % 2 == x / 2 as int && 2 * (x / 2) + x % 2 == x as int
  {
  }

  lemma BitsValueStep(high: seq<bit>, low: seq<bit>, j: nat)
    requires j < |low|
    ensures BitsValue(high + low[..j + 1]) == 2 * BitsValue(high + low[..j]) + low[j]
  {
    var s := high + low[..j + 1];
    assert s[..|s| - 1] == high + low[..j];
  }

  // --- IPv4 addresses in an IPv6 tree -----------------------------------

  lemma {:induction false} WalkAppend(db: Database, node: nat, a: seq<bit>, b: seq<bit>)
    ensures Walk(db, node, a + b)
         == match Walk(db, node, a) case Ok(n) => Walk(db, n, b) case Err(e) => Err(e)
    decreases a
  {
    if a == [] {
      assert a + b == b;
    } else if node < db.nodeCount {
      var next := ReadNode(db, node, a[0]);
      if next.Ok? {
        assert (a + b)[1..] == a[1..] + b;
        WalkAppend(db, next.value, a[1..], b);
      }
    }
  }

  lemma BitsOfMapped(packed: seq<byte>)
    ensures Bits(seq(12, _ => 0) + packed) == Zeros(96) + Bits(packed)
  {
    var long: seq<byte> := seq(12, _ => 0) + packed;
    forall i | 0 <= i < 8 * |long| ensures Bits(long)[i] == (Zeros(96) + Bits(packed))[i] {
      if i < 96 {
        assert long[i / 8] == 0;
      } else {
        assert (i - 96) / 8 == i / 8 - 12 && (i - 96) % 8 == i % 8;
        assert long[i / 8] == packed[i / 8 - 12];
      }
    }
  }

  /** Starting from the cached node is looking up ::a.b.c.d, even where the zero path ends early. */
  lemma Ipv4InIpv6Tree(db: Database, packed: seq<byte>, depth: nat)
    requires |packed| == 4 && db.ipVersion == 6
    requires Walk(db, 0, Zeros(96)) == Ok(db.ipv4Start)
    ensures Lookup(db, Some(V4(packed)), depth) == Lookup(db, Some(V6(seq(12, _ => 0) + packed)), depth)
  {
    BitsOfMapped(packed);
    WalkAppend(db, 0, Zeros(96), Bits(packed));
  }

  // --- tries ------------------------------------------------------------

  /** What a tree means: at each address either nothing or an offset into the data section. */
  datatype Trie = Empty | Data(k: nat) | Fork(zero: Trie, one: Trie)

  function Find(t: Trie, bits: seq<bit>): Option<nat> {
    match t
    case Empty => None
    case Data(k) => Some(k)
    case Fork(zero, one) =>
      if bits == [] then None else Find(if bits[0] == 0 then zero else one, bits[1..])
  }

  /**
   Record rec of these nodes stands for t. Nodes may be numbered in any order, be shared between
   branches or not be reached at all; record |nodes| is the empty one.
   */
  predicate Represents(nodes: seq<(nat, nat)>, rec: nat, t: Trie)
    decreases t
  {
    match t
    case Empty => rec == |nodes|
    case Data(k) => rec == |nodes| + SEPARATOR + k
    case Fork(zero, one) =>
      rec < |nodes| && Represents(nodes, nodes[rec].0, zero) && Represents(nodes, nodes[rec].1, one)
  }

  function Limit(recordSize: nat): nat {
    if recordSize == 24 then 16777216 else if recordSize == 28 then 268435456 else 4294967296
  }

  predicate NodeFits(node: (nat, nat), recordSize: nat) {
    node.0 < Limit(recordSize) && node.1 < Limit(recordSize)
  }

  function NodeSize(recordSize: nat): nat {
    if recordSize == 24 then 6 else if recordSize == 28 then 7 else 8
  }

  function PackNode(node: (nat, nat), recordSize: nat): (s: seq<byte>)
    requires NodeFits(node, recordSize)
    ensures |s| == NodeSize(recordSize)
  {
    if recordSize == 24 then ToBytes(node.0, 3) + ToBytes(node.1, 3)
    else if recordSize == 28 then
      ToBytes(node.0 % 16777216, 3)
      + [node.0 / 16777216 * 16 + node.1 / 16777216]
      + ToBytes(node.1 % 16777216, 3)
    else ToBytes(node.0, 4) + ToBytes(node.1, 4)
  }

  predicate AllFit(nodes: seq<(nat, nat)>, recordSize: nat) {
    forall i :: 0 <= i < |nodes| ==> NodeFits(nodes[i], recordSize)
  }

  function Pack(nodes: seq<(nat, nat)>, recordSize: nat): (s: seq<byte>)
    requires AllFit(nodes, recordSize)
  {
    if nodes == [] then [] else PackNode(nodes[0], recordSize) + Pack(nodes[1..], recordSize)
  }

  lemma {:induction false} PackLength(nodes: seq<(nat, nat)>, recordSize: nat)
    requires AllFit(nodes, recordSize)
    ensures |Pack(nodes, recordSize)| == |nodes| * NodeSize(recordSize)
  {
    hide PackNode;
    if nodes != [] { PackLength(nodes[1..], recordSize); }
  }

  lemma {:induction false} PackedNodeAt(buf: seq<byte>, off: nat, nodes: seq<(nat, nat)>, recordSize: nat, i: nat)
    requires AllFit(nodes, recordSize) && i < |nodes|
    requires At(buf, off, Pack(nodes, recordSize))
    ensures At(buf, off + i * NodeSize(recordSize), PackNode(nodes[i], recordSize))
    decreases i
  {
    hide PackNode;
    var first := PackNode(nodes[0], recordSize);
    AtSplit(buf, off, first, Pack(nodes[1..], recordSize));
    if i > 0 {
      PackedNodeAt(buf, off + |first|, nodes[1..], recordSize, i - 1);
    }
  }

  /** Unpacking a packed node gives back both records, the shared middle byte included. */
  lemma ReadPackedNode(db: Database, node: nat, records: (nat, nat), index: bit)
    requires db.Valid() && NodeFits(records, db.recordSize)
    requires At(db.buf, node * NodeSize(db.recordSize), PackNode(records, db.recordSize))
    ensures ReadNode(db, node, index) == Ok(if index == 0 then records.0 else records.1)
  {
    hide ToBytes, FromBytes, Pow256, At, Slice;
    Pow256Values();
    var base := node * NodeSize(db.recordSize);
    assert node * db.NodeBytes() == base;
    if db.recordSize == 24 {
      AtSplit(db.buf, base, ToBytes(records.0, 3), ToBytes(records.1, 3));
      ReadBigEndian(db.buf, base, records.0, 3);
      ReadBigEndian(db.buf, base + 3, records.1, 3);
    } else if db.recordSize == 28 {
      ReadPackedNode28(db, node, records, index);
    } else {
      AtSplit(db.buf, base, ToBytes(records.0, 4), ToBytes(records.1, 4));
      ReadBigEndian(db.buf, base, records.0, 4);
      ReadBigEndian(db.buf, base + 4, records.1, 4);
    }
  }

  lemma ReadPackedNode28(db: Database, node: nat, records: (nat, nat), index: bit)
    requires db.recordSize == 28 && NodeFits(records, 28)
    requires At(db.buf, node * 7, PackNode(records, 28))
    ensures ReadNode(db, node, index) == Ok(if index == 0 then records.0 else records.1)
  {
    hide ToBytes, FromBytes, Pow256, At, Slice;
    Pow256Values();
    var low0, low1 := records.0 % 16777216, records.1 % 16777216;
    var mid: byte := records.0 / 16777216 * 16 + records.1 / 16777216;
    AtSplit(db.buf, node * 7, ToBytes(low0, 3) + [mid], ToBytes(low1, 3));
    AtSplit(db.buf, node * 7, ToBytes(low0, 3), [mid]);
    AtIndex(db.buf, node * 7 + 3, [mid]);
    ReadBigEndian(db.buf, node * 7, low0, 3);
    ReadBigEndian(db.buf, node * 7 + 4, low1, 3);
  }

  // --- lookup in a packed trie ------------------------------------------

  /** The buffer starts with these nodes, packed. */
  predicate Stands(db: Database, nodes: seq<(nat, nat)>) {
    && db.Valid()
    && db.nodeCount == |nodes|
    && AllFit(nodes, db.recordSize)
    && At(db.buf, 0, Pack(nodes, db.recordSize))
  }

  /** The buffer starts with packed nodes whose first stands for the trie. */
  predicate Holds(db: Database, nodes: seq<(nat, nat)>, t: Trie) {
    Stands(db, nodes) && Represents(nodes, 0, t)
  }

  /** A walk that ends at this record has found this data offset, or nothing. */
  predicate EndsAt(db: Database, node: nat, found: Option<nat>) {
    match found
    case Some(k) => node == db.nodeCount + SEPARATOR + k
    case None => node <= db.nodeCount
  }

  lemma ReadNodeOf(db: Database, nodes: seq<(nat, nat)>, id: nat, index: bit)
    requires Stands(db, nodes) && id < db.nodeCount
    ensures ReadNode(db, id, index) == Ok(if index == 0 then nodes[id].0 else nodes[id].1)
  {
    hide ReadNode, Pack, PackNode, At;
    PackedNodeAt(db.buf, 0, nodes, db.recordSize, id);
    ReadPackedNode(db, id, nodes[id], index);
  }

  /** Following bits from any record ends where the lookup in the trie it stands for ends. */
  lemma {:induction false} WalkFollowsTrie(db: Database, nodes: seq<(nat, nat)>, rec: nat, t: Trie, bits: seq<bit>)
    requires Stands(db, nodes) && Represents(nodes, rec, t)
    ensures Walk(db, rec, bits).Ok? && EndsAt(db, Walk(db, rec, bits).value, Find(t, bits))
    decreases t
  {
    hide ReadNode, Pack, AllFit, At;
    if t.Fork? && bits != [] {
      ReadNodeOf(db, nodes, rec, bits[0]);
      if bits[0] == 0 {
        WalkFollowsTrie(db, nodes, nodes[rec].0, t.zero, bits[1..]);
      } else {
        WalkFollowsTrie(db, nodes, nodes[rec].1, t.one, bits[1..]);
      }
    }
  }

  /** What the trie files under an address; IPv4 addresses of an IPv6 tree stand under 96 zero bits. */
  function Assigned(db: Database, t: Trie, addr: Address): Option<nat> {
    if addr.V6? && db.ipVersion == 4 then None
    else if addr.V4? && db.ipVersion == 6 then Find(t, Zeros(96) + Bits(addr.packed))
    else Find(t, Bits(addr.packed))
  }

  /** What is stored at an offset of the data section, if it is a dict. */
  function Stored(db: Database, k: nat, depth: nat): Result<Option<Value>> {
    var v :- Decode(db.buf, db.DataStart() + k, db.DataStart(), depth);
    Ok(if v.0.Map? then Some(v.0) else None)
  }

  /**
   Lookup refines the trie: the dict stored at the offset the trie assigns to the address, and
   nothing when it assigns none, when the bits run out, or when the database is IPv4 only.
   */
  lemma LookupRefinesTrie(db: Database, nodes: seq<(nat, nat)>, t: Trie, addr: Address, depth: nat)
    requires Holds(db, nodes, t)
    requires db.ipVersion == 6 ==> Walk(db, 0, Zeros(96)) == Ok(db.ipv4Start)
    ensures Lookup(db, Some(addr), depth)
         == match Assigned(db, t, addr) case None => Ok(None) case Some(k) => Stored(db, k, depth)
  {
    hide Walk, Stands, Represents, Bits, Zeros, Decode, Find;
    if addr.V4? && db.ipVersion == 6 {
      WalkAppend(db, 0, Zeros(96), Bits(addr.packed));
      WalkFollowsTrie(db, nodes, 0, t, Zeros(96) + Bits(addr.packed));
    } else {
      WalkFollowsTrie(db, nodes, 0, t, Bits(addr.packed));
    }
  }

  // --- what can be represented ------------------------------------------

  /** Nodes stand for one trie at most: what they mean does not depend on how they are read. */
  lemma {:induction false} RepresentsOne(nodes: seq<(nat, nat)>, rec: nat, t: Trie, u: Trie)
    requires Represents(nodes, rec, t) && Represents(nodes, rec, u)
    ensures t == u
    decreases t
  {
    if t.Fork? {
      RepresentsOne(nodes, nodes[rec].0, t.zero, u.zero);
      RepresentsOne(nodes, nodes[rec].1, t.one, u.one);
    }
  }

  function Count(t: Trie): nat {
    match t case Fork(zero, one) => 1 + Count(zero) + Count(one) case _ => 0
  }

  /** The record pointing to t, when t's own node, if it has one, is number id. */
  function RecordOf(t: Trie, id: nat, nodeCount: nat): nat {
    match t
    case Empty => nodeCount
    case Data(k) => nodeCount + SEPARATOR + k
    case Fork(_, _) => id
  }

  /** Nodes of t in preorder, numbered from id. */
  function Nodes(t: Trie, id: nat, nodeCount: nat): (nodes: seq<(nat, nat)>)
    ensures |nodes| == Count(t)
  {
    match t
    case Fork(zero, one) =>
      var right := id + 1 + Count(zero);
      [(RecordOf(zero, id + 1, nodeCount), RecordOf(one, right, nodeCount))]
      + Nodes(zero, id + 1, nodeCount) + Nodes(one, right, nodeCount)
    case _ => []
  }

  /** The nodes of t stand in preorder from number id on. */
  predicate Placed(nodes: seq<(nat, nat)>, t: Trie, id: nat) {
    t.Fork? ==> (id + Count(t) <= |nodes| && nodes[id..id + Count(t)] == Nodes(t, id, |nodes|))
  }

  lemma Cut<T>(s: seq<T>, lo: nat, a: seq<T>, b: seq<T>)
    requires lo + |a| + |b| <= |s| && s[lo..lo + |a| + |b|] == a + b
    ensures s[lo..lo + |a|] == a && s[lo + |a|..lo + |a| + |b|] == b
  {
    var mine := s[lo..lo + |a| + |b|];
    assert s[lo..lo + |a|] == mine[..|a|];
    assert s[lo + |a|..lo + |a| + |b|] == mine[|a|..];
  }

  lemma PlacedFork(nodes: seq<(nat, nat)>, t: Trie, id: nat)
    requires t.Fork? && Placed(nodes, t, id)
    ensures Placed(nodes, t.zero, id + 1) && Placed(nodes, t.one, id + 1 + Count(t.zero))
    ensures id < |nodes|
    ensures nodes[id] == (RecordOf(t.zero, id + 1, |nodes|), RecordOf(t.one, id + 1 + Count(t.zero), |nodes|))
  {
    var right := id + 1 + Count(t.zero);
    var first := (RecordOf(t.zero, id + 1, |nodes|), RecordOf(t.one, right, |nodes|));
    var zeros, ones := Nodes(t.zero, id + 1, |nodes|), Nodes(t.one, right, |nodes|);
    assert nodes[id..id + Count(t)] == [first] + zeros + ones && right + |ones| == id + Count(t);
    CutFork(nodes, id, first, zeros, ones);
    hide Nodes, Count, RecordOf;
  }

  lemma CutFork<T>(s: seq<T>, lo: nat, x: T, a: seq<T>, b: seq<T>)
    requires lo + 1 + |a| + |b| <= |s| && s[lo..lo + 1 + |a| + |b|] == [x] + a + b
    ensures s[lo] == x && s[lo + 1..lo + 1 + |a|] == a && s[lo + 1 + |a|..lo + 1 + |a| + |b|] == b
  {
    assert [x] + a + b == [x] + (a + b);
    Cut(s, lo, [x], a + b);
    Cut(s, lo + 1, a, b);
    assert s[lo] == s[lo..lo + 1][0];
  }

  lemma {:induction false} PlacedRepresents(nodes: seq<(nat, nat)>, t: Trie, id: nat)
    requires Placed(nodes, t, id)
    ensures Represents(nodes, RecordOf(t, id, |nodes|), t)
    decreases t
  {
    hide Placed, Nodes;
    if t.Fork? {
      PlacedFork(nodes, t, id);
      PlacedRepresents(nodes, t.zero, id + 1);
      PlacedRepresents(nodes, t.one, id + 1 + Count(t.zero));
    }
  }

  /** Every trie but a lone data record has a representation: its nodes in preorder. */
  lemma PreorderRepresents(t: Trie)
    requires !t.Data?
    ensures Represents(Nodes(t, 0, Count(t)), 0, t)
  {
    var nodes := Nodes(t, 0, Count(t));
    assert nodes[0..Count(t)] == nodes;
    PlacedRepresents(nodes, t, 0);
  }

  /** Both branches of a node may lead to the same node, and nodes may stand in any order. */
  lemma SharedOrReordered()
    ensures Represents([(1, 1), (18, 2)], 0, Fork(Fork(Data(0), Empty), Fork(Data(0), Empty)))
    ensures Represents([(2, 1), (3, 3), (3, 3)], 0, Fork(Fork(Empty, Empty), Fork(Empty, Empty)))
  {
    var shared := [(1, 1), (18, 2)];
    assert Represents(shared, shared[0].0, Fork(Data(0), Empty));
    var swapped := [(2, 1), (3, 3), (3, 3)];
    assert Represents(swapped, swapped[0].0, Fork(Empty, Empty));
    assert Represents(swapped, swapped[0].1, Fork(Empty, Empty));
  }
}
