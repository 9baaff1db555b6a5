/** What the reader makes of bytes that no careful writer would leave: cut short, mistyped, badly keyed. */
module MmdbEdges {
  import opened Wrappers
  import opened Bytes
  import opened MmdbData
  import T = MmdbTree
  import opened MmdbWire

  // --- signed numbers ---------------------------------------------------

  /** The top bit of big-endian bytes says which half of the range they are in. */
  lemma {:induction false} TopBit(s: seq<byte>)
    requires s != []
    ensures s[0] >= 128 <==> 2 * FromBytes(s) >= Pow256(|s|)
  {
    if |s| == 1 {
      assert s[..0] == [] && FromBytes(s) == s[0] && Pow256(1) == 256;
    } else {
      TopBit(s[..|s| - 1]);
      FromBytesBound(s[..|s| - 1]);
    }
  }

  /** A signed number of any width is read as two's complement of that width. */
  lemma SignedExactly(s: seq<byte>, n: int)
    requires s != []
    ensures FromSigned(s) == n <==>
            0 - Pow256(|s|) <= 2 * n < Pow256(|s|) && (n == FromBytes(s) || n + Pow256(|s|) == FromBytes(s))
  {
    TopBit(s);
    FromBytesBound(s);
  }

  // --- fields cut short or mistyped -------------------------------------

  /** The buffer ends with this head and with only these bytes of its payload. */
  predicate EndsEarly(buf: seq<byte>, off: nat, kind: nat, size: nat, rest: seq<byte>)
    requires 2 <= kind <= 15 && size <= MAX_SIZE
  {
    At(buf, off, PrintHead(kind, size) + rest) && off + |PrintHead(kind, size) + rest| == |buf|
  }

  /**
   A payload that the end of the buffer cuts short: strings, bytes and integers are read from what is
   there, and the offset moves on as if all of it were; floats are refused.
   */
  lemma CutShort(buf: seq<byte>, off: nat, pbase: nat, kind: nat, size: nat, rest: seq<byte>, depth: nat)
    requires 2 <= kind <= 15 && size <= MAX_SIZE && depth > 0
    requires EndsEarly(buf, off, kind, size, rest) && |rest| < size
    ensures var d := Decode(buf, off, pbase, depth);
            var next := off + |PrintHead(kind, size)| + size;
            && (kind == 2 ==> d == Ok((Str(rest), next)))
            && (kind == 4 ==> d == Ok((Blob(rest), next)))
            && (kind in {5, 6, 9, 10} ==> d == Ok((Int(FromBytes(rest)), next)))
            && (kind == 8 ==> d == Ok((Int(FromSigned(rest)), next)))
            && (kind == 3 && |rest| < 8 ==> d == Err(StructError))
            && (kind == 15 && |rest| < 4 ==> d == Err(StructError))
  {
    hide PrintHead, FromBytes, FromSigned, Decode, DecodeArray, DecodeMap, At, Slice;
    DecodeAfterHead(buf, off, pbase, kind, size, rest, depth);
    var from := off + |PrintHead(kind, size)|;
    SliceAtEnd(buf, from, rest, size);
    if kind == 3 && |rest| < 8 { SliceAtEnd(buf, from, rest, 8); }
    if kind == 15 && |rest| < 4 { SliceAtEnd(buf, from, rest, 4); }
  }

  lemma SliceAtEnd(buf: seq<byte>, from: nat, rest: seq<byte>, size: nat)
    requires At(buf, from, rest) && from + |rest| == |buf| && |rest| < size
    ensures Slice(buf, from, from + size) == rest
  {
    assert buf[from..] == buf[from..from + |rest|];
  }

  /** Fields whose size is no length: a boolean is true for every size but 0, and floats go by their kind alone. */
  lemma SizeAside(buf: seq<byte>, off: nat, pbase: nat, size: nat, raw: seq<byte>, depth: nat)
    requires size <= MAX_SIZE && depth > 0
    ensures At(buf, off, PrintHead(14, size)) ==>
              Decode(buf, off, pbase, depth) == Ok((Bool(size > 0), off + |PrintHead(14, size)|))
    ensures At(buf, off, PrintHead(3, size) + raw) && |raw| == 8 ==>
              Decode(buf, off, pbase, depth) == Ok((Double(raw), off + |PrintHead(3, size)| + 8))
    ensures At(buf, off, PrintHead(15, size) + raw) && |raw| == 4 ==>
              Decode(buf, off, pbase, depth) == Ok((Float(raw), off + |PrintHead(15, size)| + 4))
  {
    hide PrintHead, Decode, DecodeArray, DecodeMap, FromBytes, FromSigned, At, Slice;
    if At(buf, off, PrintHead(14, size)) {
      assert PrintHead(14, size) + [] == PrintHead(14, size);
      DecodeAfterHead(buf, off, pbase, 14, size, [], depth);
    }
    if At(buf, off, PrintHead(3, size) + raw) && |raw| == 8 {
      DecodeAfterHead(buf, off, pbase, 3, size, raw, depth);
      AtSlice(buf, off + |PrintHead(3, size)|, raw);
    }
    if At(buf, off, PrintHead(15, size) + raw) && |raw| == 4 {
      DecodeAfterHead(buf, off, pbase, 15, size, raw, depth);
      AtSlice(buf, off + |PrintHead(15, size)|, raw);
    }
  }

  /** Nothing can be read past the end, nor below the recursion limit, nor of a type that does not exist. */
  lemma Refused(buf: seq<byte>, off: nat, pbase: nat, depth: nat)
    ensures Decode(buf, off, pbase, 0) == Err(RecursionError)
    ensures depth > 0 && off >= |buf| ==> Decode(buf, off, pbase, depth) == Err(IndexError)
    ensures depth > 0 && off + 1 == |buf| && (buf[off] < 40 || (buf[off] >= 64 && buf[off] % 32 == 29)) ==>
              Decode(buf, off, pbase, depth) == Err(IndexError)
    ensures depth > 0 && off + 1 < |buf| && buf[off] < 29 && (buf[off + 1] in {5, 6} || buf[off + 1] > 8) ==>
              Decode(buf, off, pbase, depth) == Err(MMDBError)
  {
    hide DecodeArray, DecodeMap, FromBytes, FromSigned, Slice;
  }

  /** A map with a list or a dict among its keys is refused, whatever stands before and behind that key. */
  lemma {:induction false} UnhashableKey(buf: seq<byte>, off: nat, pbase: nat, ws: seq<Wire>, depth: nat,
                                         acc: seq<Entry>, i: nat)
    requires AllWellFormed(ws) && AllPlaced(buf, pbase, ws) && |ws| % 2 == 0
    requires 2 * i < |ws| && !Hashable(Meaning(ws[2 * i]))
    requires At(buf, off, PrintAll(ws)) && depth > DepthAll(ws)
    ensures DecodeMap(buf, |ws| / 2, off, pbase, depth, acc) == Err(TypeError)
    decreases ws
  {
    hide At, DictSet, Hashable, Print, Meaning, Placed, Depth, WellFormed, Decode;
    var k, v := Print(ws[0]), Print(ws[1]);
    assert ws[1..][0] == ws[1] && ws[1..][1..] == ws[2..];
    assert PrintAll(ws) == k + PrintAll(ws[1..]) && PrintAll(ws[1..]) == v + PrintAll(ws[2..]);
    AtSplit(buf, off, k, PrintAll(ws[1..]));
    AtSplit(buf, off + |k|, v, PrintAll(ws[2..]));
    DecodePrinted(buf, off, pbase, ws[0], depth - 1);
    DecodePrinted(buf, off + |k|, pbase, ws[1], depth - 1);
    if Hashable(Meaning(ws[0])) {
      assert ws[2..][2 * (i - 1)] == ws[2 * i];
      UnhashableKey(buf, off + |k| + |v|, pbase, ws[2..], depth, DictSet(acc, Meaning(ws[0]), Meaning(ws[1])), i - 1);
    }
  }

  lemma UnhashableMap(buf: seq<byte>, off: nat, pbase: nat, ws: seq<Wire>, depth: nat, i: nat)
    requires AllWellFormed(ws) && AllPlaced(buf, pbase, ws) && |ws| % 2 == 0 && |ws| / 2 <= MAX_SIZE
    requires 2 * i < |ws| && (Meaning(ws[2 * i]).Arr? || Meaning(ws[2 * i]).Map?)
    requires At(buf, off, PrintHead(7, |ws| / 2) + PrintAll(ws)) && depth > DepthAll(ws)
    ensures Decode(buf, off, pbase, depth) == Err(TypeError)
  {
    hide PrintHead, Print, PrintAll, Meaning, AllPlaced, AllWellFormed, DepthAll, Decode, DecodeMap, DecodeArray, At;
    DecodeAfterHead(buf, off, pbase, 7, |ws| / 2, PrintAll(ws), depth);
    UnhashableKey(buf, off + |PrintHead(7, |ws| / 2)|, pbase, ws, depth, [], i);
  }

  // --- trees that run past the end --------------------------------------

  /** A node behind the end of the file reads as record 0 at 24 and 32 bits and is refused at 28. */
  lemma NodePastEnd(db: T.Database, node: nat, index: T.bit)
    requires db.Valid() && node * db.NodeBytes() >= |db.buf|
    ensures T.ReadNode(db, node, index) == if db.recordSize == 28 then Err(IndexError) else Ok(0)
  {
  }

  /** Text that is no address, and an IPv6 address in an IPv4 database, have no record; nothing is read. */
  lemma NotAsked(db: T.Database, packed: seq<byte>, depth: nat)
    ensures T.Lookup(db, None, depth) == Ok(None)
    ensures db.ipVersion == 4 ==> T.Lookup(db, Some(T.V6(packed)), depth) == Ok(None)
  {
  }
}
