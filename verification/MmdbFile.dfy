/** A whole database file: opening it by its metadata, and looking an address up in it. */
module MmdbFile {
  import opened Wrappers
  import opened Bytes
  import opened MmdbData
  import opened MmdbTree
  import D = MmdbDict
  import R = MmdbRoundTrip
  import W = MmdbWire

  // "\xab\xcd\xefMaxMind.com" and the names of the metadata keys the reader uses, in ASCII
  const MARKER: seq<byte> := [0xab, 0xcd, 0xef, 0x4d, 0x61, 0x78, 0x4d, 0x69, 0x6e, 0x64, 0x2e, 0x63, 0x6f, 0x6d]
  const NODE_COUNT: seq<byte> := [0x6e, 0x6f, 0x64, 0x65, 0x5f, 0x63, 0x6f, 0x75, 0x6e, 0x74]
  const RECORD_SIZE: seq<byte> := [0x72, 0x65, 0x63, 0x6f, 0x72, 0x64, 0x5f, 0x73, 0x69, 0x7a, 0x65]
  const IP_VERSION: seq<byte> := [0x69, 0x70, 0x5f, 0x76, 0x65, 0x72, 0x73, 0x69, 0x6f, 0x6e]

  /** buf.rfind(pat), looking at positions below `limit`. */
  function FindLast(buf: seq<byte>, pat: seq<byte>, limit: nat): (r: Option<nat>)
    ensures r.Some? ==> r.value < limit && At(buf, r.value, pat)
    ensures r.Some? ==> forall i :: r.value < i < limit ==> !At(buf, i, pat)
    ensures r.None? ==> forall i :: 0 <= i < limit ==> !At(buf, i, pat)
  {
    if limit == 0 then None
    else if At(buf, limit - 1, pat) then Some(limit - 1)
    else FindLast(buf, pat, limit - 1)
  }

  /** int(meta[name]): a missing key, or a value that is not a number, is bad metadata. */
  function MetaInt(meta: seq<Entry>, name: seq<byte>): Result<int> {
    var v := DictGet(meta, Str(name));
    if v.Some? && Number(v.value).Some? then Ok(Number(v.value).value) else Err(MMDBError)
  }

  function ReadMetadata(buf: seq<byte>, depth: nat): Result<seq<Entry>> {
    var at := FindLast(buf, MARKER, |buf| + 1);
    if at.None? then Err(MMDBError)
    else
      var start := at.value + |MARKER|;
      var meta :- Decode(buf, start, start, depth);
      if meta.0.Map? then Ok(meta.0.entries) else Err(MMDBError)
  }

  function Open(buf: seq<byte>, depth: nat): Result<Database> {
    var meta :- ReadMetadata(buf, depth);
    var nodeCount :- MetaInt(meta, NODE_COUNT);
    var recordSize :- MetaInt(meta, RECORD_SIZE);
    var ipVersion :- MetaInt(meta, IP_VERSION);
    if recordSize !in {24, 28, 32} || nodeCount < 0 then Err(MMDBError)
    else
      var db := Database(buf, nodeCount, recordSize, ipVersion, 0);
      var start :- if ipVersion == 6 then Walk(db, 0, Zeros(96)) else Ok(0);
      Ok(db.(ipv4Start := start))
  }

  // --- what the metadata says -------------------------------------------

  /** Some entry files this number under this name; a boolean stands for 0 or 1. */
  predicate Tells(es: seq<Entry>, name: seq<byte>, n: int) {
    exists i :: 0 <= i < |es| && es[i].key == Str(name)
                && (es[i].val == Int(n) || (es[i].val == Bool(true) && n == 1) || (es[i].val == Bool(false) && n == 0))
  }

  /** With distinct keys in any order, the number read is the one filed under the name; if there is none, none is. */
  lemma MetaReads(es: seq<Entry>, name: seq<byte>, n: int)
    requires D.DistinctKeys(es)
    ensures MetaInt(es, name) == Ok(n) <==> Tells(es, name, n)
    ensures MetaInt(es, name).Err? <==> forall m :: !Tells(es, name, m)
    ensures MetaInt(es, name).Err? ==> MetaInt(es, name) == Err(MMDBError)
  {
    hide D.DistinctKeys, DictGet;
    var v := DictGet(es, Str(name));
    if v.Some? { D.GetExactly(es, Str(name), v.value); }
    forall m ensures MetaInt(es, name) == Ok(m) <==> Tells(es, name, m) { TellsIsRead(es, name, m); }
  }

  lemma TellsIsRead(es: seq<Entry>, name: seq<byte>, n: int)
    requires D.DistinctKeys(es)
    ensures MetaInt(es, name) == Ok(n) <==> Tells(es, name, n)
  {
    hide D.DistinctKeys, DictGet;
    var v := DictGet(es, Str(name));
    D.GetExactly(es, Str(name), Int(n));
    D.GetExactly(es, Str(name), Bool(n == 1));
    if v.Some? { D.GetExactly(es, Str(name), v.value); }
  }

  /** The last marker of a file is followed by a dict. */
  ghost predicate HasMetadata(buf: seq<byte>, depth: nat, es: seq<Entry>) {
    exists at: nat, next: nat ::
      && At(buf, at, MARKER) && (forall i: nat :: i > at ==> !At(buf, i, MARKER))
      && Decode(buf, at + |MARKER|, at + |MARKER|, depth) == Ok((Map(es), next))
  }

  /** A file opens exactly if its metadata tells the three numbers, of the kinds there are; otherwise it is refused. */
  lemma OpenExactly(buf: seq<byte>, depth: nat, es: seq<Entry>, nodeCount: nat, recordSize: nat, ipVersion: int)
    requires ReadMetadata(buf, depth) == Ok(es) && D.DistinctKeys(es)
    ensures Tells(es, NODE_COUNT, nodeCount) && Tells(es, RECORD_SIZE, recordSize)
            && Tells(es, IP_VERSION, ipVersion) ==>
              if recordSize !in {24, 28, 32} then Open(buf, depth) == Err(MMDBError)
              else if ipVersion != 6 then Open(buf, depth) == Ok(Database(buf, nodeCount, recordSize, ipVersion, 0))
              else match Walk(Database(buf, nodeCount, recordSize, 6, 0), 0, Zeros(96))
                   case Ok(start) => Open(buf, depth) == Ok(Database(buf, nodeCount, recordSize, 6, start))
                   case Err(e) => Open(buf, depth) == Err(e)
    ensures (forall n :: !Tells(es, NODE_COUNT, n)) ==> Open(buf, depth) == Err(MMDBError)
    ensures (forall n :: !Tells(es, RECORD_SIZE, n)) ==> Open(buf, depth) == Err(MMDBError)
    ensures (forall n :: !Tells(es, IP_VERSION, n)) ==> Open(buf, depth) == Err(MMDBError)
  {
    hide D.DistinctKeys, Tells, MetaInt, ReadMetadata, Walk, Zeros;
    MetaReads(es, NODE_COUNT, nodeCount);
    MetaReads(es, RECORD_SIZE, recordSize);
    MetaReads(es, IP_VERSION, ipVersion);
    hide NODE_COUNT, RECORD_SIZE, IP_VERSION;
  }

  /** Where the metadata is looked for: behind the last marker, and nowhere else. */
  lemma MetadataExactly(buf: seq<byte>, depth: nat, es: seq<Entry>)
    ensures ReadMetadata(buf, depth) == Ok(es) <==> HasMetadata(buf, depth, es)
    ensures (forall i: nat :: !At(buf, i, MARKER)) ==> Open(buf, depth) == Err(MMDBError)
  {
    hide Decode, MARKER;
    MarkerLong();
    var at := FindLast(buf, MARKER, |buf| + 1);
    assert forall i: nat :: i > |buf| ==> !At(buf, i, MARKER);
    if ReadMetadata(buf, depth) == Ok(es) {
      var meta := Decode(buf, at.value + |MARKER|, at.value + |MARKER|, depth);
      assert meta == Ok((Map(es), meta.value.1));
    }
    if HasMetadata(buf, depth, es) {
      var k: nat, next: nat :| && At(buf, k, MARKER) && (forall i: nat :: i > k ==> !At(buf, i, MARKER))
                               && Decode(buf, k + |MARKER|, k + |MARKER|, depth) == Ok((Map(es), next));
      assert at == Some(k);
    }
  }

  lemma MarkerLong()
    ensures |MARKER| > 0
  {
  }

  // --- a file written from nodes ----------------------------------------

  /** What goes into a file: the nodes of the tree, the bytes of the data section, the metadata field. */
  datatype Image = Image(nodes: seq<(nat, nat)>, recordSize: nat, ipVersion: int, data: seq<byte>, meta: W.Wire) {
    predicate Valid() {
      && recordSize in {24, 28, 32}
      && AllFit(nodes, recordSize)
      && W.WellFormed(meta)
    }

    function BeforeMarker(): seq<byte>
      requires Valid()
    {
      Pack(nodes, recordSize) + seq(SEPARATOR, _ => 0) + data
    }

    function File(): seq<byte>
      requires Valid()
    {
      BeforeMarker() + MARKER + W.Print(meta)
    }

    function MetaStart(): nat
      requires Valid()
    {
      |BeforeMarker()| + |MARKER|
    }

    /** The metadata says what the file is, and no later byte run looks like the marker. */
    predicate Described()
      requires Valid()
    {
      && W.Placed(File(), MetaStart(), meta)
      && W.Meaning(meta).Map?
      && Tells(W.Meaning(meta).entries, NODE_COUNT, |nodes|)
      && Tells(W.Meaning(meta).entries, RECORD_SIZE, recordSize)
      && Tells(W.Meaning(meta).entries, IP_VERSION, ipVersion)
      && forall i :: |BeforeMarker()| < i <= |File()| ==> !At(File(), i, MARKER)
    }

    function DataStart(): nat { |nodes| * NodeSize(recordSize) + SEPARATOR }

    /** Offset k of the data section holds this field. */
    predicate Stores(k: nat, w: W.Wire)
      requires Valid()
    {
      W.WellFormed(w) && W.Placed(File(), DataStart(), w) && At(data, k, W.Print(w))
    }
  }

  lemma AtMiddle(a: seq<byte>, b: seq<byte>, c: seq<byte>)
    ensures At(a + b + c, |a|, b)
    ensures At(a + b + c, |a| + |b|, c)
    ensures At(a + b + c, 0, a)
  {
  }

  lemma MetadataFound(image: Image, depth: nat)
    requires image.Valid() && image.Described() && depth >= W.Depth(image.meta)
    ensures ReadMetadata(image.File(), depth) == Ok(W.Meaning(image.meta).entries)
  {
    hide At, W.Print, W.Meaning, W.Placed, W.Depth, W.WellFormed, Pack, AllFit, Decode, MetaInt;
    var before, printed := image.BeforeMarker(), W.Print(image.meta);
    AtMiddle(before, MARKER, printed);
    var at := FindLast(image.File(), MARKER, |image.File()| + 1);
    assert at == Some(|before|);
    W.DecodePrinted(image.File(), image.MetaStart(), image.MetaStart(), image.meta, depth);
  }

  lemma TreeFirst(image: Image)
    requires image.Valid()
    ensures At(image.File(), 0, Pack(image.nodes, image.recordSize))
    ensures image.recordSize * 2 / 8 == NodeSize(image.recordSize)
  {
    hide Pack, AllFit, W.Print;
    var packed := Pack(image.nodes, image.recordSize);
    var rest := seq(SEPARATOR, _ => 0) + image.data + MARKER + W.Print(image.meta);
    assert image.File() == packed + rest + [];
    AtMiddle(packed, rest, []);
  }

  /** Opening a file recovers its parameters, its nodes and the start node, whatever trie they stand for. */
  lemma OpenRecovers(image: Image, t: Trie, depth: nat)
    requires Represents(image.nodes, 0, t)
    requires image.Valid() && image.Described() && depth >= W.Depth(image.meta)
    ensures Open(image.File(), depth).Ok?
    ensures var db := Open(image.File(), depth).value;
            && db.buf == image.File() && db.recordSize == image.recordSize && db.ipVersion == image.ipVersion
            && Holds(db, image.nodes, t)
            && (db.ipVersion == 6 ==> Walk(db, 0, Zeros(96)) == Ok(db.ipv4Start))
  {
    hide At, W.Print, W.Meaning, W.Placed, W.Depth, W.WellFormed, Pack;
    hide AllFit, Decode, MetaInt, Walk, Zeros, ReadMetadata, Represents;
    MetadataFound(image, depth);
    TreeFirst(image);
    var db := Database(image.File(), |image.nodes|, image.recordSize, image.ipVersion, 0);
    assert Stands(db, image.nodes);
    WalkFollowsTrie(db, image.nodes, 0, t, Zeros(96));
    var start := Walk(db, 0, Zeros(96)).value;
    WalkIgnoresStart(db, start, 0, Zeros(96));
    var es := W.Meaning(image.meta).entries;
    D.MeaningDistinct(image.meta);
    hide D.DistinctKeys, Open, Tells, NODE_COUNT, RECORD_SIZE, IP_VERSION;
    OpenExactly(image.File(), depth, es, |image.nodes|, image.recordSize, image.ipVersion);
  }

  lemma {:induction false} WalkIgnoresStart(db: Database, start: nat, node: nat, bits: seq<bit>)
    ensures Walk(db.(ipv4Start := start), node, bits) == Walk(db, node, bits)
    decreases bits
  {
    if node < db.nodeCount && bits != [] {
      var next := ReadNode(db, node, bits[0]);
      assert ReadNode(db.(ipv4Start := start), node, bits[0]) == next;
      if next.Ok? { WalkIgnoresStart(db, start, next.value, bits[1..]); }
    }
  }

  /**
   From file to answer: opening the file and looking an address up gives the meaning of the field
   stored where the trie files that address, if it is a dict, and None where the trie has nothing.
   */
  lemma FileAnswers(image: Image, t: Trie, addr: Address, depth: nat, w: W.Wire)
    requires Represents(image.nodes, 0, t)
    requires image.Valid() && image.Described() && depth >= W.Depth(image.meta)
    ensures Open(image.File(), depth).Ok?
    ensures var db := Open(image.File(), depth).value;
            var k := Assigned(db, t, addr);
            && (k.None? ==> Lookup(db, Some(addr), depth) == Ok(None))
            && (k.Some? && image.Stores(k.value, w) && depth >= W.Depth(w) ==>
                  Lookup(db, Some(addr), depth) == Ok(if W.Meaning(w).Map? then Some(W.Meaning(w)) else None))
  {
    hide At, W.Print, W.Meaning, W.Placed, W.Depth, W.WellFormed, Pack, AllFit;
    hide Decode, Open, Walk, Zeros, Assigned, Lookup, Represents, Stands;
    OpenRecovers(image, t, depth);
    var db := Open(image.File(), depth).value;
    LookupRefinesTrie(db, image.nodes, t, addr, depth);
    var k := Assigned(db, t, addr);
    if k.Some? && image.Stores(k.value, w) && depth >= W.Depth(w) {
      SameDataStart(image, db);
      DataInFile(image, k.value, W.Print(w));
      W.DecodePrinted(image.File(), db.DataStart() + k.value, db.DataStart(), w, depth);
    }
  }

  /** The data section starts right behind the tree and the separator. */
  lemma DataInFile(image: Image, k: nat, s: seq<byte>)
    requires image.Valid() && At(image.data, k, s)
    ensures At(image.File(), image.DataStart() + k, s)
  {
    hide Pack, AllFit, W.Print, MARKER;
    var before := Pack(image.nodes, image.recordSize) + seq(SEPARATOR, _ => 0);
    var rest := MARKER + W.Print(image.meta);
    PackLength(image.nodes, image.recordSize);
    assert image.File() == before + image.data + rest;
    hide *;
    assert (before + image.data + rest)[|before| + k..|before| + k + |s|] == image.data[k..k + |s|];
  }

  lemma SameDataStart(image: Image, db: Database)
    requires image.Valid() && Stands(db, image.nodes) && db.recordSize == image.recordSize
    ensures db.DataStart() == image.DataStart()
  {
    hide Pack, AllFit, At;
    assert db.NodeBytes() == NodeSize(image.recordSize);
    assert |image.nodes| == db.nodeCount;
    assert db.NodeBytes() * db.nodeCount == |image.nodes| * NodeSize(image.recordSize);
  }

  // --- an ordinary file -------------------------------------------------

  /** The metadata field of an ordinary file, its entries in the order of the test fixtures. */
  function OrdinaryMeta(nodeCount: nat, recordSize: nat, ipVersion: nat): Value {
    Map([Entry(Str(NODE_COUNT), Int(nodeCount)), Entry(Str(RECORD_SIZE), Int(recordSize)),
         Entry(Str(IP_VERSION), Int(ipVersion))])
  }

  lemma NamesDiffer()
    ensures NODE_COUNT != RECORD_SIZE && NODE_COUNT != IP_VERSION && RECORD_SIZE != IP_VERSION
    ensures |NODE_COUNT| == 10 && |RECORD_SIZE| == 11 && |IP_VERSION| == 10
    ensures 0xab !in NODE_COUNT && 0xab !in RECORD_SIZE && 0xab !in IP_VERSION && 0xab !in MARKER[1..]
    ensures |MARKER| == 14 && MARKER[0] == 0xab
  {
    assert NODE_COUNT[0] == 0x6e && RECORD_SIZE[0] == 0x72 && IP_VERSION[0] == 0x69;
  }

  lemma OrdinaryTells(nodeCount: nat, recordSize: nat, ipVersion: nat)
    ensures var es := OrdinaryMeta(nodeCount, recordSize, ipVersion).entries;
            Tells(es, NODE_COUNT, nodeCount) && Tells(es, RECORD_SIZE, recordSize) && Tells(es, IP_VERSION, ipVersion)
  {
    var es := OrdinaryMeta(nodeCount, recordSize, ipVersion).entries;
    hide NODE_COUNT, RECORD_SIZE, IP_VERSION;
    assert es[0].key == Str(NODE_COUNT) && es[1].key == Str(RECORD_SIZE) && es[2].key == Str(IP_VERSION);
  }

  lemma OrdinaryEncodable(nodeCount: nat, recordSize: nat, ipVersion: nat)
    requires nodeCount < 256 && recordSize < 256 && ipVersion < 256
    ensures R.Encodable(OrdinaryMeta(nodeCount, recordSize, ipVersion))
  {
    NamesDiffer();
    hide NODE_COUNT, RECORD_SIZE, IP_VERSION;
    OneByte(nodeCount);
    OneByte(recordSize);
    OneByte(ipVersion);
    hide R.MinBytes;
    var es := OrdinaryMeta(nodeCount, recordSize, ipVersion).entries;
    assert R.EntryEncodable(es[0]) && R.EntryEncodable(es[1]) && R.EntryEncodable(es[2]);
    hide R.EntryEncodable;
    assert R.EntriesEncodable(es) by {
      assert es[1..][0] == es[1] && es[1..][1..] == es[2..] && es[2..][0] == es[2] && es[2..][1..] == [];
      assert R.EntriesEncodable(es[2..]);
      assert R.EntriesEncodable(es[1..]);
    }
  }

  lemma OneByte(n: nat)
    requires n < 256
    ensures R.MinBytes(n) == if n == 0 then [] else [n]
  {
    assert R.MinBytes(0) == [];
    if n > 0 { assert n / 256 == 0 && [] + [n % 256] == [n]; }
  }

  /** No byte of what is printed for it is the first of the marker. */
  lemma OrdinaryPlain(nodeCount: nat, recordSize: nat, ipVersion: nat)
    requires nodeCount < 256 && recordSize < 256 && ipVersion < 256 && 0xab !in [nodeCount, recordSize, ipVersion]
    requires W.WellFormed(R.Plain(OrdinaryMeta(nodeCount, recordSize, ipVersion)))
    ensures 0xab !in W.Print(R.Plain(OrdinaryMeta(nodeCount, recordSize, ipVersion)))
  {
    NamesDiffer();
    var es := OrdinaryMeta(nodeCount, recordSize, ipVersion).entries;
    hide NODE_COUNT, RECORD_SIZE, IP_VERSION;
    hide W.Print;
    ThreePlain(es, nodeCount, recordSize, ipVersion);
  }

  /** A field for an entry whose key is one of the names and whose value is a small number. */
  predicate SmallEntry(e: Entry, n: nat) {
    e.key.Str? && |e.key.raw| in {10, 11} && 0xab !in e.key.raw && e.val == Int(n) && n < 256 && n != 0xab
  }

  lemma ThreePlain(es: seq<Entry>, n0: nat, n1: nat, n2: nat)
    requires |es| == 3 && SmallEntry(es[0], n0) && SmallEntry(es[1], n1) && SmallEntry(es[2], n2)
    requires W.WellFormed(R.Plain(Map(es)))
    ensures 0xab !in W.Print(R.Plain(Map(es)))
  {
    var fields := R.PlainEntries(es);
    FieldPlain(es[0], n0);
    FieldPlain(es[1], n1);
    FieldPlain(es[2], n2);
    hide R.PlainEntry, SmallEntry;
    PlainThree(es);
    var a, b, c := R.PlainEntry(es[0]), R.PlainEntry(es[1]), R.PlainEntry(es[2]);
    hide W.Print, R.PlainEntries;
    AllWithout(fields, a, b, c);
    HeadWithout(7, 3);
    MapPrint(fields);
  }

  lemma PlainThree(es: seq<Entry>)
    requires |es| == 3
    ensures R.PlainEntries(es) == R.PlainEntry(es[0]) + R.PlainEntry(es[1]) + R.PlainEntry(es[2])
  {
    assert es[1..][1..] == es[2..] && es[2..][1..] == [];
    hide R.PlainEntry;
    assert R.PlainEntries(es[2..]) == R.PlainEntry(es[2]) + [];
  }

  lemma MapPrint(fields: seq<W.Wire>)
    requires |fields| == 6 && W.WellFormed(W.WMap(fields))
    ensures W.Print(W.WMap(fields)) == W.PrintHead(7, 3) + W.PrintAll(fields)
  {
  }

  lemma HeadWithout(kind: nat, size: nat)
    requires 2 <= kind <= 7 && size < 29 && kind * 32 + size != 0xab
    ensures 0xab !in W.PrintHead(kind, size)
  {
  }

  /** The two fields of an entry whose key is one of the names and whose value is a small number. */
  lemma FieldPlain(e: Entry, n: nat)
    requires SmallEntry(e, n)
    ensures var ws := R.PlainEntry(e);
            && W.WellFormed(ws[0]) && W.WellFormed(ws[1])
            && 0xab !in W.Print(ws[0]) && 0xab !in W.Print(ws[1])
  {
    OneByte(n);
    HeadWithout(2, |e.key.raw|);
    HeadWithout(5, if n == 0 then 0 else 1);
    hide W.PrintHead, R.MinBytes;
  }

  lemma AllWithout(fields: seq<W.Wire>, a: seq<W.Wire>, b: seq<W.Wire>, c: seq<W.Wire>)
    requires |a| == |b| == |c| == 2 && fields == a + b + c && W.AllWellFormed(fields)
    requires forall w :: w in fields && W.WellFormed(w) ==> 0xab !in W.Print(w)
    ensures 0xab !in W.PrintAll(fields)
  {
    EachWithout(fields);
  }

  lemma {:induction false} EachWithout(ws: seq<W.Wire>)
    requires W.AllWellFormed(ws) && forall w :: w in ws && W.WellFormed(w) ==> 0xab !in W.Print(w)
    ensures 0xab !in W.PrintAll(ws)
  {
    hide W.Print, W.WellFormed;
    if ws != [] { EachWithout(ws[1..]); }
  }

  /** Every file with ordinary metadata is described: what opening promises is promised of actual files. */
  lemma OrdinaryDescribed(nodes: seq<(nat, nat)>, recordSize: nat, ipVersion: nat, data: seq<byte>)
    requires |nodes| < 256 && |nodes| != 0xab && recordSize in {24, 28, 32} && ipVersion in {4, 6}
    requires AllFit(nodes, recordSize)
    ensures var meta := R.Plain(OrdinaryMeta(|nodes|, recordSize, ipVersion));
            var image := Image(nodes, recordSize, ipVersion, data, meta);
            image.Valid() && image.Described()
  {
    var v := OrdinaryMeta(|nodes|, recordSize, ipVersion);
    var meta := R.Plain(v);
    OrdinaryEncodable(|nodes|, recordSize, ipVersion);
    R.PlainFaithful(v);
    OrdinaryTells(|nodes|, recordSize, ipVersion);
    OrdinaryPlain(|nodes|, recordSize, ipVersion);
    hide R.Plain, R.Encodable, W.Print, W.Meaning, W.Placed, W.WellFormed, Tells, Pack, AllFit, OrdinaryMeta;
    var image := Image(nodes, recordSize, ipVersion, data, meta);
    NamesDiffer();
    hide NODE_COUNT, RECORD_SIZE, IP_VERSION, MARKER;
    forall i | |image.BeforeMarker()| < i <= |image.File()| ensures !At(image.File(), i, MARKER) {
      MarkerOnce(image.BeforeMarker(), W.Print(meta), i);
    }
  }

  lemma MarkerOnce(before: seq<byte>, after: seq<byte>, i: nat)
    requires 0xab !in after && i > |before|
    ensures !At(before + MARKER + after, i, MARKER)
  {
    NamesDiffer();
    hide MARKER;
    var s := before + MARKER + after;
    AtFirst(s, i, MARKER);
    if i < |before| + |MARKER| { assert s[i] == MARKER[1..][i - |before| - 1]; }
  }

  /** At an actual file: one node, both its records empty, ready to be opened and searched. */
  lemma FileAt(addr: Address, depth: nat)
    requires depth >= 2 && addr.V4?
    ensures var meta := R.Plain(OrdinaryMeta(1, 24, 4));
            var image := Image([(1, 1)], 24, 4, [], meta);
            && image.Valid()
            && Open(image.File(), depth).Ok?
            && Lookup(Open(image.File(), depth).value, Some(addr), depth) == Ok(None)
  {
    var meta := R.Plain(OrdinaryMeta(1, 24, 4));
    var image := Image([(1, 1)], 24, 4, [], meta);
    OrdinaryDescribed([(1, 1)], 24, 4, []);
    OrdinaryShallow();
    EmptyNode();
    NothingFound(Bits(addr.packed));
    hide *;
    AskEmptyFile(image, addr, depth);
  }

  lemma AskEmptyFile(image: Image, addr: Address, depth: nat)
    requires image.Valid() && image.Described() && depth >= W.Depth(image.meta) && image.ipVersion == 4 && addr.V4?
    requires Represents(image.nodes, 0, Fork(Empty, Empty)) && Find(Fork(Empty, Empty), Bits(addr.packed)) == None
    ensures Open(image.File(), depth).Ok?
    ensures Lookup(Open(image.File(), depth).value, Some(addr), depth) == Ok(None)
  {
    hide Find, Bits, Represents, Open, Lookup, Decode, Walk, Zeros, W.Print, W.Placed, W.Depth, W.Meaning, W.WellFormed;
    hide Pack, AllFit, Tells, At, NODE_COUNT, RECORD_SIZE, IP_VERSION, MARKER, Stands;
    OpenRecovers(image, Fork(Empty, Empty), depth);
    FileAnswers(image, Fork(Empty, Empty), addr, depth, image.meta);
  }

  lemma EmptyNode()
    ensures Represents([(1, 1)], 0, Fork(Empty, Empty)) && AllFit([(1, 1)], 24)
  {
  }

  lemma NothingFound(bits: seq<bit>)
    ensures Find(Fork(Empty, Empty), bits) == None
  {
  }

  lemma OrdinaryShallow()
    ensures W.Depth(R.Plain(OrdinaryMeta(1, 24, 4))) == 2
  {
    var es := OrdinaryMeta(1, 24, 4).entries;
    hide NODE_COUNT, RECORD_SIZE, IP_VERSION, R.MinBytes;
    PlainThree(es);
  }
}
