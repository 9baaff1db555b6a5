/**
 What a data section may contain, as trees of fields, and the proof that the reader inverts it.
 A field is a value written out or a pointer to another field; `Print` gives its bytes, `Meaning`
 the value it stands for.
 */
module MmdbWire {
  import opened Bytes
  import opened MmdbData

  const MAX_SIZE: nat := 65821 + 16777215
  const POINTER_LIMIT: nat := 4294967296

  datatype Wire =
    | WStr(raw: seq<byte>)
    | WBlob(raw: seq<byte>)
    | WUint(kind: nat, raw: seq<byte>)
    | WInt(raw: seq<byte>)
    | WBool(b: bool)
    | WDouble(raw: seq<byte>)
    | WFloat(raw: seq<byte>)
    | WArr(items: seq<Wire>)
    | WMap(fields: seq<Wire>)  // key, value, key, value, ...
    | WPtr(form: nat, pointer: nat, target: Wire)

  // --- sizes ------------------------------------------------------------

  /** Control-byte field and extra bytes for a size. */
  datatype SizeForm = SizeForm(field: nat, extra: seq<byte>)

  /** Every size form the format has; the last three carry one, two and three bytes. */
  predicate IsSizeForm(f: SizeForm) {
    || (f.field < 29 && |f.extra| == 0)
    || (f.field == 29 && |f.extra| == 1)
    || (f.field == 30 && |f.extra| == 2)
    || (f.field == 31 && |f.extra| == 3)
  }

  function SizeFormOf(size: nat): (f: SizeForm)
    requires size <= MAX_SIZE
    ensures IsSizeForm(f)
  {
    if size < 29 then SizeForm(size, [])
    else if size < 285 then SizeForm(29, [size - 29])
    else if size < 65821 then SizeForm(30, ToBytes(size - 285, 2))
    else SizeForm(31, ToBytes(size - 65821, 3))
  }

  /** The reader takes the size back out of its form and stops right after the extra bytes. */
  lemma ReadSizeForm(buf: seq<byte>, kind: nat, size: nat, offset: nat)
    requires size <= MAX_SIZE
    requires At(buf, offset, SizeFormOf(size).extra)
    ensures ReadSize(buf, kind, SizeFormOf(size).field, offset)
         == Ok(Head(kind, size, offset + |SizeFormOf(size).extra|))
  {
    var f := SizeFormOf(size);
    Pow256Values();
    if f.field == 30 {
      ReadBigEndian(buf, offset, size - 285, 2);
    } else if f.field == 31 {
      ReadBigEndian(buf, offset, size - 65821, 3);
    } else if f.field == 29 {
      AtIndex(buf, offset, f.extra);
    }
  }

  /** The four forms tile 0..MAX_SIZE: a form is the only one that reads back as its size. */
  lemma SizeFormsTile(f: SizeForm, kind: nat)
    requires IsSizeForm(f)
    ensures exists size: nat :: size <= MAX_SIZE && f == SizeFormOf(size)
                                && ReadSize(f.extra, kind, f.field, 0) == Ok(Head(kind, size, |f.extra|))
  {
    hide ToBytes, FromBytes, Pow256;
    Pow256Values();
    FromBytesBound(f.extra);
    ToFromBytes(f.extra);
    var size: nat := if f.field < 29 then f.field
    else if f.field == 29 then 29 + f.extra[0]
    else if f.field == 30 then 285 + FromBytes(f.extra)
    else 65821 + FromBytes(f.extra);
    assert f == SizeFormOf(size);
    assert At(f.extra, 0, f.extra);
    ReadSizeForm(f.extra, kind, size, 0);
  }

  lemma {:induction false} ToFromBytes(s: seq<byte>)
    ensures ToBytes(FromBytes(s), |s|) == s
  {
    if s != [] {
      ToFromBytes(s[..|s| - 1]);
      assert FromBytes(s) / 256 == FromBytes(s[..|s| - 1]);
      assert s == s[..|s| - 1] + [s[|s| - 1]];
    }
  }

  /** Control byte, extended type byte, size bytes. */
  function PrintHead(kind: nat, size: nat): seq<byte>
    requires 2 <= kind <= 15 && size <= MAX_SIZE
  {
    var f := SizeFormOf(size);
    (if kind <= 7 then [kind * 32 + f.field] else [f.field, kind - 7]) + f.extra
  }

  lemma ReadPrintedHead(buf: seq<byte>, off: nat, kind: nat, size: nat)
    requires 2 <= kind <= 15 && size <= MAX_SIZE
    requires At(buf, off, PrintHead(kind, size))
    ensures off < |buf| && buf[off] / 32 != 1
    ensures ReadHead(buf, buf[off], off + 1) == Ok(Head(kind, size, off + |PrintHead(kind, size)|))
  {
    hide ReadSize, ToBytes, At;
    var f := SizeFormOf(size);
    var lead: seq<byte> := if kind <= 7 then [kind * 32 + f.field] else [f.field, kind - 7];
    AtSplit(buf, off, lead, f.extra);
    AtIndex(buf, off, lead);
    if kind > 7 {
      AtIndex(buf, off + 1, lead[1..]);
    }
    ReadSizeForm(buf, kind, size, off + |lead|);
  }

  // --- pointers ---------------------------------------------------------

  predicate PointerFits(form: nat, p: nat) {
    || (form == 0 && p < 2048)
    || (form == 1 && 2048 <= p < 526336)
    || (form == 2 && 526336 <= p < 134744064)
    || (form == 3 && p < POINTER_LIMIT)
  }

  function PrintPointer(form: nat, p: nat): seq<byte>
    requires PointerFits(form, p)
  {
    if form == 0 then [32 + p / 256, p % 256]
    else if form == 1 then [40 + (p - 2048) / 65536] + ToBytes((p - 2048) % 65536, 2)
    else if form == 2 then [48 + (p - 526336) / 16777216] + ToBytes((p - 526336) % 16777216, 3)
    else [56] + ToBytes(p, 4)
  }

  lemma ReadPrintedPointer(buf: seq<byte>, off: nat, form: nat, p: nat)
    requires PointerFits(form, p)
    requires At(buf, off, PrintPointer(form, p))
    ensures off < |buf| && buf[off] / 32 == 1
    ensures ReadPointer(buf, buf[off], off + 1) == Ok(Pointer(p, off + |PrintPointer(form, p)|))
  {
    hide ToBytes, FromBytes, Pow256, At, Slice;
    Pow256Values();
    var s := PrintPointer(form, p);
    AtIndex(buf, off, s);
    if form == 0 {
      AtIndex(buf, off + 1, s[1..]);
    } else if form == 1 {
      assert s[1..] == ToBytes((p - 2048) % 65536, 2);
      ReadBigEndian(buf, off + 1, (p - 2048) % 65536, 2);
    } else if form == 2 {
      assert s[1..] == ToBytes((p - 526336) % 16777216, 3);
      ReadBigEndian(buf, off + 1, (p - 526336) % 16777216, 3);
    } else {
      assert s[1..] == ToBytes(p, 4);
      ReadBigEndian(buf, off + 1, p, 4);
    }
  }

  /** The first three forms cover 0..134744063 without gap or overlap; the fourth reaches 2^32. */
  lemma PointerFormsTile(p: nat)
    ensures p < 134744064 <==> exists form :: form < 3 && PointerFits(form, p)
    ensures forall f, g :: f < 3 && g < 3 && PointerFits(f, p) && PointerFits(g, p) ==> f == g
    ensures p < POINTER_LIMIT <==> exists form :: PointerFits(form, p)
  {
    assert p < 2048 ==> PointerFits(0, p);
    assert 2048 <= p < 526336 ==> PointerFits(1, p);
    assert 526336 <= p < 134744064 ==> PointerFits(2, p);
    assert p < POINTER_LIMIT ==> PointerFits(3, p);
  }

  // --- fields -----------------------------------------------------------

  function Print(w: Wire): seq<byte>
    requires WellFormed(w)
  {
    match w
    case WStr(raw) => PrintHead(2, |raw|) + raw
    case WDouble(raw) => PrintHead(3, 8) + raw
    case WBlob(raw) => PrintHead(4, |raw|) + raw
    case WUint(kind, raw) => PrintHead(kind, |raw|) + raw
    case WMap(fields) => PrintHead(7, |fields| / 2) + PrintAll(fields)
    case WInt(raw) => PrintHead(8, |raw|) + raw
    case WArr(items) => PrintHead(11, |items|) + PrintAll(items)
    case WBool(b) => PrintHead(14, if b then 1 else 0)
    case WFloat(raw) => PrintHead(15, 4) + raw
    case WPtr(form, pointer, target) => PrintPointer(form, pointer)
  }

  function PrintAll(ws: seq<Wire>): seq<byte>
    requires AllWellFormed(ws)
  {
    if ws == [] then [] else Print(ws[0]) + PrintAll(ws[1..])
  }

  predicate WellFormed(w: Wire) {
    match w
    case WStr(raw) => |raw| <= MAX_SIZE
    case WBlob(raw) => |raw| <= MAX_SIZE
    case WUint(kind, raw) => kind in {5, 6, 9, 10} && |raw| <= MAX_SIZE
    case WInt(raw) => |raw| <= MAX_SIZE
    case WBool(_) => true
    case WDouble(raw) => |raw| == 8
    case WFloat(raw) => |raw| == 4
    case WArr(items) => |items| <= MAX_SIZE && AllWellFormed(items)
    case WMap(fields) =>
      |fields| % 2 == 0 && |fields| / 2 <= MAX_SIZE && AllWellFormed(fields)
      && forall i :: 0 <= i < |fields| && i % 2 == 0 ==> Hashable(Meaning(fields[i]))
    case WPtr(form, pointer, target) => PointerFits(form, pointer) && WellFormed(target)
  }

  predicate AllWellFormed(ws: seq<Wire>) {
    ws == [] || (WellFormed(ws[0]) && AllWellFormed(ws[1..]))
  }

  function Meaning(w: Wire): Value {
    match w
    case WStr(raw) => Str(raw)
    case WBlob(raw) => Blob(raw)
    case WUint(_, raw) => Int(FromBytes(raw))
    case WInt(raw) => Int(FromSigned(raw))
    case WBool(b) => Bool(b)
    case WDouble(raw) => Double(raw)
    case WFloat(raw) => Float(raw)
    case WArr(items) => Arr(Meanings(items))
    case WMap(fields) => Map(Dict([], Meanings(fields)))
    case WPtr(_, _, target) => Meaning(target)
  }

  function Meanings(ws: seq<Wire>): seq<Value> {
    if ws == [] then [] else [Meaning(ws[0])] + Meanings(ws[1..])
  }

  /** The dict that assigning keys and values, taken in turn from vs, makes of d. */
  function Dict(d: seq<Entry>, vs: seq<Value>): seq<Entry>
    decreases |vs|
  {
    if |vs| < 2 then d else Dict(DictSet(d, vs[0], vs[1]), vs[2..])
  }

  function Max(a: nat, b: nat): nat { if a < b then b else a }

  /** Nested _decode calls it takes to read the field, following its pointers. */
  function Depth(w: Wire): nat {
    match w
    case WArr(items) => 1 + DepthAll(items)
    case WMap(fields) => 1 + DepthAll(fields)
    case WPtr(_, _, target) => 1 + Depth(target)
    case _ => 1
  }

  function DepthAll(ws: seq<Wire>): nat {
    if ws == [] then 0 else Max(Depth(ws[0]), DepthAll(ws[1..]))
  }

  /** Every pointer below w leads to the bytes of the field it points to. */
  predicate Placed(buf: seq<byte>, pbase: nat, w: Wire) {
    match w
    case WArr(items) => AllPlaced(buf, pbase, items)
    case WMap(fields) => AllPlaced(buf, pbase, fields)
    case WPtr(_, pointer, target) =>
      WellFormed(target) && At(buf, pbase + pointer, Print(target)) && Placed(buf, pbase, target)
    case _ => true
  }

  predicate AllPlaced(buf: seq<byte>, pbase: nat, ws: seq<Wire>) {
    ws == [] || (Placed(buf, pbase, ws[0]) && AllPlaced(buf, pbase, ws[1..]))
  }

  // --- the reader inverts Print -----------------------------------------

  /** Past the head of a field that is not a pointer, the reader is at the field's payload. */
  lemma DecodeAfterHead(buf: seq<byte>, off: nat, pbase: nat, kind: nat, size: nat, payload: seq<byte>, depth: nat)
    requires 2 <= kind <= 15 && size <= MAX_SIZE && depth > 0
    requires At(buf, off, PrintHead(kind, size) + payload)
    ensures At(buf, off + |PrintHead(kind, size)|, payload)
    ensures Decode(buf, off, pbase, depth) == DecodeValue(buf, kind, size, off + |PrintHead(kind, size)|, pbase, depth)
  {
    AtSplit(buf, off, PrintHead(kind, size), payload);
    ReadPrintedHead(buf, off, kind, size);
  }

  /** A pointer yields what is read at its target, and the reader resumes after the pointer itself. */
  lemma DecodeThroughPointer(buf: seq<byte>, off: nat, pbase: nat, form: nat, p: nat, depth: nat)
    requires PointerFits(form, p) && depth > 0
    requires At(buf, off, PrintPointer(form, p))
    ensures Decode(buf, off, pbase, depth)
         == match Decode(buf, pbase + p, pbase, depth - 1)
            case Ok(v) => Ok((v.0, off + |PrintPointer(form, p)|))
            case Err(e) => Err(e)
  {
    hide PrintPointer, PointerFits, ReadPointer, ReadHead, DecodeValue, At;
    ReadPrintedPointer(buf, off, form, p);
  }

  /** Reading a field, wherever it stands, gives its meaning and the offset just past its own bytes. */
  lemma {:induction false} DecodePrinted(buf: seq<byte>, off: nat, pbase: nat, w: Wire, depth: nat)
    requires WellFormed(w) && Placed(buf, pbase, w)
    requires At(buf, off, Print(w))
    requires depth >= Depth(w)
    ensures Decode(buf, off, pbase, depth) == Ok((Meaning(w), off + |Print(w)|))
    decreases w, 1
  {
    hide Decode, DecodeArray, DecodeMap, PrintAll, Meanings, DepthAll, AllPlaced;
    hide AllWellFormed, PrintHead, PrintPointer, PointerFits, Slice, At, Dict;
    match w {
      case WPtr(form, pointer, target) =>
        DecodeThroughPointer(buf, off, pbase, form, pointer, depth);
        DecodePrinted(buf, pbase + pointer, pbase, target, depth - 1);
      case WArr(items) =>
        DecodeAfterHead(buf, off, pbase, 11, |items|, PrintAll(items), depth);
        DecodePrintedArray(buf, off + |PrintHead(11, |items|)|, pbase, items, depth, []);
        assert [] + Meanings(items) == Meanings(items);
      case WMap(fields) =>
        DecodeAfterHead(buf, off, pbase, 7, |fields| / 2, PrintAll(fields), depth);
        DecodePrintedMap(buf, off + |PrintHead(7, |fields| / 2)|, pbase, fields, depth, []);
      case _ =>
        DecodePrintedScalar(buf, off, pbase, w, depth);
    }
  }

  lemma DecodePrintedScalar(buf: seq<byte>, off: nat, pbase: nat, w: Wire, depth: nat)
    requires WellFormed(w) && !w.WArr? && !w.WMap? && !w.WPtr?
    requires At(buf, off, Print(w))
    requires depth > 0
    ensures Decode(buf, off, pbase, depth) == Ok((Meaning(w), off + |Print(w)|))
  {
    hide ToBytes, FromBytes, FromSigned, SizeFormOf, At;
    hide Decode, DecodeArray, DecodeMap, PrintAll, PrintHead;
    var kind := match w case WStr(_) => 2 case WDouble(_) => 3 case WBlob(_) => 4
                                                               case WInt(_) => 8 case WFloat(_) => 15
                                                               case WUint(k, _) => k case _ => 14;
    var payload := if w.WBool? then [] else w.raw;
    var size := if w.WBool? then (if w.b then 1 else 0) else |w.raw|;
    assert Print(w) == PrintHead(kind, size) + payload;
    DecodeAfterHead(buf, off, pbase, kind, size, payload, depth);
    AtSlice(buf, off + |PrintHead(kind, size)|, payload);
  }

  lemma {:induction false} DecodePrintedArray(buf: seq<byte>, off: nat, pbase: nat, ws: seq<Wire>, depth: nat,
                                              acc: seq<Value>)
    requires AllWellFormed(ws) && AllPlaced(buf, pbase, ws)
    requires At(buf, off, PrintAll(ws))
    requires depth > DepthAll(ws)
    ensures DecodeArray(buf, |ws|, off, pbase, depth, acc) == Ok((acc + Meanings(ws), off + |PrintAll(ws)|))
    decreases ws, 0
  {
    hide Print, Meaning, Placed, Depth, WellFormed, Decode;
    if ws == [] {
      assert acc + Meanings(ws) == acc;
    } else {
      AtSplit(buf, off, Print(ws[0]), PrintAll(ws[1..]));
      DecodePrinted(buf, off, pbase, ws[0], depth - 1);
      DecodePrintedArray(buf, off + |Print(ws[0])|, pbase, ws[1..], depth, acc + [Meaning(ws[0])]);
      assert acc + [Meaning(ws[0])] + Meanings(ws[1..]) == acc + Meanings(ws);
    }
  }

  lemma {:induction false} DecodePrintedMap(buf: seq<byte>, off: nat, pbase: nat, ws: seq<Wire>, depth: nat,
                                            acc: seq<Entry>)
    requires AllWellFormed(ws) && AllPlaced(buf, pbase, ws) && |ws| % 2 == 0
    requires forall i :: 0 <= i < |ws| && i % 2 == 0 ==> Hashable(Meaning(ws[i]))
    requires At(buf, off, PrintAll(ws))
    requires depth > DepthAll(ws)
    ensures DecodeMap(buf, |ws| / 2, off, pbase, depth, acc) == Ok((Dict(acc, Meanings(ws)), off + |PrintAll(ws)|))
    decreases ws, 0
  {
    hide At, DictSet;
    hide Print, Meaning, Placed, Depth, WellFormed, Decode;
    if ws != [] {
      var k, v := Print(ws[0]), Print(ws[1]);
      assert ws[1..][0] == ws[1] && ws[1..][1..] == ws[2..];
      assert PrintAll(ws) == k + PrintAll(ws[1..]) && PrintAll(ws[1..]) == v + PrintAll(ws[2..]);
      AtSplit(buf, off, k, PrintAll(ws[1..]));
      AtSplit(buf, off + |k|, v, PrintAll(ws[2..]));
      DecodePrinted(buf, off, pbase, ws[0], depth - 1);
      DecodePrinted(buf, off + |k|, pbase, ws[1], depth - 1);
      assert forall i :: 0 <= i < |ws| - 2 ==> ws[2..][i] == ws[i + 2];
      DecodePrintedMap(buf, off + |k| + |v|, pbase, ws[2..], depth, DictSet(acc, Meaning(ws[0]), Meaning(ws[1])));
      MeaningsPair(ws);
    }
  }

  lemma MeaningsPair(ws: seq<Wire>)
    requires |ws| >= 2
    ensures |Meanings(ws)| >= 2
    ensures Meanings(ws)[0] == Meaning(ws[0]) && Meanings(ws)[1] == Meaning(ws[1])
    ensures Meanings(ws)[2..] == Meanings(ws[2..])
  {
    hide Print, Meaning, Placed, Depth, WellFormed, Decode;
    assert ws[1..][1..] == ws[2..];
    assert Meanings(ws) == [Meaning(ws[0]), Meaning(ws[1])] + Meanings(ws[2..]);
  }

  lemma {:induction false} MeaningsIndex(ws: seq<Wire>, i: nat)
    requires i < |ws|
    ensures |Meanings(ws)| == |ws| && Meanings(ws)[i] == Meaning(ws[i])
  {
    hide Meaning;
    if |ws| > 1 {
      MeaningsIndex(ws[1..], if i == 0 then 0 else i - 1);
    }
  }

  // --- pointer sharing --------------------------------------------------

  /** w with every pointer replaced by the field it points to. */
  function Inline(w: Wire): Wire {
    match w
    case WArr(items) => WArr(InlineAll(items))
    case WMap(fields) => WMap(InlineAll(fields))
    case WPtr(_, _, target) => Inline(target)
    case _ => w
  }

  function InlineAll(ws: seq<Wire>): (r: seq<Wire>)
    ensures |r| == |ws|
  {
    if ws == [] then [] else [Inline(ws[0])] + InlineAll(ws[1..])
  }

  lemma {:induction false} InlineKeeps(buf: seq<byte>, pbase: nat, w: Wire)
    ensures Meaning(Inline(w)) == Meaning(w)
    ensures Depth(Inline(w)) <= Depth(w)
    ensures WellFormed(w) ==> WellFormed(Inline(w))
    ensures Placed(buf, pbase, Inline(w))
    decreases w
  {
    hide Dict, Print, At;
    match w {
      case WArr(items) => InlineAllKeeps(buf, pbase, items);
      case WMap(fields) =>
        InlineAllKeeps(buf, pbase, fields);
        forall i | 0 <= i < |fields| ensures Meaning(InlineAll(fields)[i]) == Meaning(fields[i]) {
          MeaningsIndex(fields, i);
          MeaningsIndex(InlineAll(fields), i);
        }
      case WPtr(_, _, target) => InlineKeeps(buf, pbase, target);
      case _ =>
    }
  }

  lemma {:induction false} InlineAllKeeps(buf: seq<byte>, pbase: nat, ws: seq<Wire>)
    ensures Meanings(InlineAll(ws)) == Meanings(ws)
    ensures DepthAll(InlineAll(ws)) <= DepthAll(ws)
    ensures AllWellFormed(ws) ==> AllWellFormed(InlineAll(ws))
    ensures AllPlaced(buf, pbase, InlineAll(ws))
    decreases ws
  {
    hide Inline, Meaning, Depth, WellFormed, Placed;
    if ws != [] {
      InlineKeeps(buf, pbase, ws[0]);
      InlineAllKeeps(buf, pbase, ws[1..]);
      assert InlineAll(ws)[1..] == InlineAll(ws[1..]);
    }
  }

  /**
   Sharing is invisible: a field with pointers decodes, anywhere, to the value its pointer-free
   form decodes to anywhere else; only the number of bytes stepped over differs, and that is the
   number of bytes the field itself takes.
   */
  lemma SharingPreservesMeaning(buf: seq<byte>, off: nat, pbase: nat, w: Wire,
                                flat: seq<byte>, flatOff: nat, flatBase: nat, depth: nat)
    requires WellFormed(w) && WellFormed(Inline(w))
    requires Placed(buf, pbase, w) && At(buf, off, Print(w))
    requires At(flat, flatOff, Print(Inline(w)))
    requires depth >= Depth(w)
    ensures Decode(buf, off, pbase, depth).Ok? && Decode(flat, flatOff, flatBase, depth).Ok?
    ensures Decode(buf, off, pbase, depth).value.0 == Decode(flat, flatOff, flatBase, depth).value.0
    ensures Decode(buf, off, pbase, depth).value.1 == off + |Print(w)|
  {
    InlineKeeps(flat, flatBase, w);
    DecodePrinted(buf, off, pbase, w, depth);
    DecodePrinted(flat, flatOff, flatBase, Inline(w), depth);
  }

  /** A pointer that leads back to itself never yields a value, however deep the reader may go. */
  lemma {:induction false} SelfPointerNeverDecodes(buf: seq<byte>, pbase: nat, form: nat, p: nat, depth: nat)
    requires PointerFits(form, p) && At(buf, pbase + p, PrintPointer(form, p))
    ensures Decode(buf, pbase + p, pbase, depth) == Err(RecursionError)
  {
    if depth > 0 {
      DecodeThroughPointer(buf, pbase + p, pbase, form, p, depth);
      SelfPointerNeverDecodes(buf, pbase, form, p, depth - 1);
    }
  }
}
