/**
 The data section of a MaxMind DB file: a self-describing recursive format with four size forms
 and four pointer forms. Shifts and masks of the reader are written as division and remainder.
 Python's recursion limit is the parameter `depth`: one unit per nested call of _decode.
 */
module MmdbData {
  import opened Wrappers
  import opened Bytes

  datatype Value =
    | Str(raw: seq<byte>)
    | Blob(raw: seq<byte>)
    | Int(n: int)
    | Bool(b: bool)
    | Double(raw: seq<byte>)
    | Float(raw: seq<byte>)
    | Arr(items: seq<Value>)
    | Map(entries: seq<Entry>)

  /** One item of a Python dict; a dict keeps the order of first insertion. */
  datatype Entry = Entry(key: Value, val: Value)

  /** Lists and dicts are not hashable, so they cannot be dict keys. */
  predicate Hashable(v: Value) { !v.Arr? && !v.Map? }

  function Number(v: Value): Option<int> {
    match v
    case Int(n) => Some(n)
    case Bool(b) => Some(if b then 1 else 0)
    case _ => None
  }

  /** Python's key equality, under which True and 1 are the same key. */
  predicate SameKey(a: Value, b: Value) {
    a == b || (Number(a).Some? && Number(a) == Number(b))
  }

  /** out[key] = val: overwrite in place, or append. */
  function DictSet(d: seq<Entry>, key: Value, val: Value): seq<Entry> {
    if d == [] then [Entry(key, val)]
    else if SameKey(d[0].key, key) then [Entry(d[0].key, val)] + d[1..]
    else [d[0]] + DictSet(d[1..], key, val)
  }

  /** out[key], None standing for a KeyError. */
  function DictGet(d: seq<Entry>, key: Value): Option<Value> {
    if d == [] then None else if SameKey(d[0].key, key) then Some(d[0].val) else DictGet(d[1..], key)
  }

  // --- the reader -------------------------------------------------------

  datatype Head = Head(kind: nat, size: nat, next: nat)

  /** The real type and the size, from the control byte and the bytes that follow it. */
  function ReadHead(buf: seq<byte>, ctrl: byte, offset: nat): Result<Head> {
    if ctrl / 32 == 0 then
      if offset < |buf| then ReadSize(buf, (buf[offset] as nat) + 7, ctrl % 32, offset + 1) else Err(IndexError)
    else
      ReadSize(buf, ctrl / 32, ctrl % 32, offset)
  }

  function ReadSize(buf: seq<byte>, kind: nat, field: nat, offset: nat): Result<Head> {
    if field == 29 then
      if offset < |buf| then Ok(Head(kind, 29 + (buf[offset] as nat), offset + 1)) else Err(IndexError)
    else if field == 30 then
      Ok(Head(kind, 285 + FromBytes(Slice(buf, offset, offset + 2)), offset + 2))
    else if field == 31 then
      Ok(Head(kind, 65821 + FromBytes(Slice(buf, offset, offset + 3)), offset + 3))
    else
      Ok(Head(kind, field, offset))
  }

  function Decode(buf: seq<byte>, offset: nat, pbase: nat, depth: nat): Result<(Value, nat)>
    decreases depth, 2, 0
  {
    if depth == 0 then Err(RecursionError)
    else if offset >= |buf| then Err(IndexError)
    else
      var ctrl := buf[offset];
      if ctrl / 32 == 1 then
        DecodePointer(buf, ctrl, offset + 1, pbase, depth)
      else
        var head :- ReadHead(buf, ctrl, offset + 1);
        DecodeValue(buf, head.kind, head.size, head.next, pbase, depth)
  }

  function FromSigned(s: seq<byte>): int {
    if s != [] && s[0] >= 128 then FromBytes(s) - Pow256(|s|) else FromBytes(s)
  }

  function DecodeValue(buf: seq<byte>, kind: nat, size: nat, offset: nat, pbase: nat, depth: nat)
    : Result<(Value, nat)>
    requires depth > 0
    decreases depth, 1, 0
  {
    var payload := Slice(buf, offset, offset + size);
    if kind == 2 then Ok((Str(payload), offset + size))
    else if kind == 3 then
      var raw := Slice(buf, offset, offset + 8);
      if |raw| == 8 then Ok((Double(raw), offset + 8)) else Err(StructError)
    else if kind == 4 then Ok((Blob(payload), offset + size))
    else if kind in {5, 6, 9, 10} then Ok((Int(FromBytes(payload)), offset + size))
    else if kind == 7 then
      var r :- DecodeMap(buf, size, offset, pbase, depth, []);
      Ok((Map(r.0), r.1))
    else if kind == 8 then Ok((Int(FromSigned(payload)), offset + size))
    else if kind == 11 then
      var r :- DecodeArray(buf, size, offset, pbase, depth, []);
      Ok((Arr(r.0), r.1))
    else if kind == 14 then Ok((Bool(size != 0), offset))
    else if kind == 15 then
      var raw := Slice(buf, offset, offset + 4);
      if |raw| == 4 then Ok((Float(raw), offset + 4)) else Err(StructError)
    else Err(MMDBError)
  }

  /** The array loop with n items still to read and `acc` already read. */
  function DecodeArray(buf: seq<byte>, n: nat, offset: nat, pbase: nat, depth: nat, acc: seq<Value>)
    : Result<(seq<Value>, nat)>
    requires depth > 0
    decreases depth, 0, n
  {
    if n == 0 then Ok((acc, offset))
    else
      var v :- Decode(buf, offset, pbase, depth - 1);
      DecodeArray(buf, n - 1, v.1, pbase, depth, acc + [v.0])
  }

  /** The map loop with n entries still to read and the dict `acc` built so far. */
  function DecodeMap(buf: seq<byte>, n: nat, offset: nat, pbase: nat, depth: nat, acc: seq<Entry>)
    : Result<(seq<Entry>, nat)>
    requires depth > 0
    decreases depth, 0, n
  {
    if n == 0 then Ok((acc, offset))
    else
      var k :- Decode(buf, offset, pbase, depth - 1);
      var v :- Decode(buf, k.1, pbase, depth - 1);
      if !Hashable(k.0) then Err(TypeError)
      else DecodeMap(buf, n - 1, v.1, pbase, depth, DictSet(acc, k.0, v.0))
  }

  datatype Pointer = Pointer(target: nat, next: nat)

  function ReadPointer(buf: seq<byte>, ctrl: byte, offset: nat): Result<Pointer> {
    var form := (ctrl / 8) % 4;
    var high := ctrl % 8;
    if form == 0 then
      if offset < |buf| then Ok(Pointer(high * 256 + buf[offset], offset + 1)) else Err(IndexError)
    else if form == 1 then
      Ok(Pointer(high * 65536 + FromBytes(Slice(buf, offset, offset + 2)) + 2048, offset + 2))
    else if form == 2 then
      Ok(Pointer(high * 16777216 + FromBytes(Slice(buf, offset, offset + 3)) + 526336, offset + 3))
    else
      Ok(Pointer(FromBytes(Slice(buf, offset, offset + 4)), offset + 4))
  }

  function DecodePointer(buf: seq<byte>, ctrl: byte, offset: nat, pbase: nat, depth: nat): Result<(Value, nat)>
    requires depth > 0
    decreases depth, 1, 0
  {
    var p :- ReadPointer(buf, ctrl, offset);
    var v :- Decode(buf, pbase + p.target, pbase, depth - 1);
    Ok((v.0, p.next))
  }

  /** _decode_value as the reader runs it, its two loops updating `out`, `arr` and `offset`. */
  method ReadValue(buf: seq<byte>, kind: nat, size: nat, offset0: nat, pbase: nat, depth: nat)
    returns (r: Result<(Value, nat)>)
    requires depth > 0
    ensures r == DecodeValue(buf, kind, size, offset0, pbase, depth)
  {
    var offset: nat := offset0;
    if kind == 2 { return Ok((Str(Slice(buf, offset, offset + size)), offset + size)); }
    if kind == 3 {
      var raw := Slice(buf, offset, offset + 8);
      if |raw| != 8 { return Err(StructError); }
      return Ok((Double(raw), offset + 8));
    }
    if kind == 4 { return Ok((Blob(Slice(buf, offset, offset + size)), offset + size)); }
    if kind in {5, 6, 9, 10} {
      return Ok((Int(FromBytes(Slice(buf, offset, offset + size))), offset + size));
    }
    if kind == 7 {
      var out: seq<Entry> := [];
      for i := 0 to size
        invariant DecodeMap(buf, size, offset0, pbase, depth, [])
               == DecodeMap(buf, size - i, offset, pbase, depth, out)
      {
        var k := Decode(buf, offset, pbase, depth - 1);
        if k.Err? { return Err(k.error); }
        var v := Decode(buf, k.value.1, pbase, depth - 1);
        if v.Err? { return Err(v.error); }
        if !Hashable(k.value.0) { return Err(TypeError); }
        out, offset := DictSet(out, k.value.0, v.value.0), v.value.1;
      }
      return Ok((Map(out), offset));
    }
    if kind == 8 { return Ok((Int(FromSigned(Slice(buf, offset, offset + size))), offset + size)); }
    if kind == 11 {
      var arr: seq<Value> := [];
      for i := 0 to size
        invariant DecodeArray(buf, size, offset0, pbase, depth, [])
               == DecodeArray(buf, size - i, offset, pbase, depth, arr)
      {
        var v := Decode(buf, offset, pbase, depth - 1);
        if v.Err? { return Err(v.error); }
        arr, offset := arr + [v.value.0], v.value.1;
      }
      return Ok((Arr(arr), offset));
    }
    if kind == 14 { return Ok((Bool(size != 0), offset)); }
    if kind == 15 {
      var raw := Slice(buf, offset, offset + 4);
      if |raw| != 4 { return Err(StructError); }
      return Ok((Float(raw), offset + 4));
    }
    return Err(MMDBError);
  }

  // --- recursion depth --------------------------------------------------

  /** A result that is not a RecursionError does not depend on how much deeper the reader may go. */
  lemma {:induction false} DepthIrrelevant(buf: seq<byte>, offset: nat, pbase: nat, d: nat, e: nat)
    requires d <= e
    requires Decode(buf, offset, pbase, d) != Err(RecursionError)
    ensures Decode(buf, offset, pbase, e) == Decode(buf, offset, pbase, d)
    decreases d, 1, 0
  {
    hide ReadHead, ReadPointer, DecodeMap, DecodeArray, FromSigned, FromBytes, Slice;
    if offset < |buf| {
      var ctrl := buf[offset];
      if ctrl / 32 == 1 {
        var p := ReadPointer(buf, ctrl, offset + 1);
        if p.Ok? {
          DepthIrrelevant(buf, pbase + p.value.target, pbase, d - 1, e - 1);
        }
      } else {
        var head := ReadHead(buf, ctrl, offset + 1);
        if head.Ok? && head.value.kind == 7 {
          DepthIrrelevantMap(buf, head.value.size, head.value.next, pbase, d, e, []);
        } else if head.Ok? && head.value.kind == 11 {
          DepthIrrelevantArray(buf, head.value.size, head.value.next, pbase, d, e, []);
        }
      }
    }
  }

  lemma {:induction false} DepthIrrelevantArray(buf: seq<byte>, n: nat, offset: nat, pbase: nat, d: nat, e: nat,
                                                acc: seq<Value>)
    requires 0 < d <= e
    requires DecodeArray(buf, n, offset, pbase, d, acc) != Err(RecursionError)
    ensures DecodeArray(buf, n, offset, pbase, e, acc) == DecodeArray(buf, n, offset, pbase, d, acc)
    decreases d, 0, n
  {
    hide Decode;
    if n > 0 {
      DepthIrrelevant(buf, offset, pbase, d - 1, e - 1);
      var v := Decode(buf, offset, pbase, d - 1);
      if v.Ok? {
        DepthIrrelevantArray(buf, n - 1, v.value.1, pbase, d, e, acc + [v.value.0]);
      }
    }
  }

  lemma {:induction false} DepthIrrelevantMap(buf: seq<byte>, n: nat, offset: nat, pbase: nat, d: nat, e: nat,
                                              acc: seq<Entry>)
    requires 0 < d <= e
    requires DecodeMap(buf, n, offset, pbase, d, acc) != Err(RecursionError)
    ensures DecodeMap(buf, n, offset, pbase, e, acc) == DecodeMap(buf, n, offset, pbase, d, acc)
    decreases d, 0, n
  {
    hide Decode, DictSet, Hashable;
    if n > 0 {
      DepthIrrelevant(buf, offset, pbase, d - 1, e - 1);
      var k := Decode(buf, offset, pbase, d - 1);
      if k.Ok? {
        DepthIrrelevant(buf, k.value.1, pbase, d - 1, e - 1);
        var v := Decode(buf, k.value.1, pbase, d - 1);
        if v.Ok? && Hashable(k.value.0) {
          DepthIrrelevantMap(buf, n - 1, v.value.1, pbase, d, e, DictSet(acc, k.value.0, v.value.0));
        }
      }
    }
  }
}
