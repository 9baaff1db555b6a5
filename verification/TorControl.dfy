/** Reading Tor control-port replies from a byte stream that arrives in arbitrary chunks. */
module TorControl {
  import opened Wrappers
  import opened Text

  const CRLF: string := "\r\n"

  datatype Line = Line(text: string, rest: string)

  /** The first line of a stream and what follows it, if a whole line is there. */
  function TakeLine(stream: string): (r: Option<Line>)
    ensures r.Some? ==> |r.value.rest| < |stream|
  {
    var i := Find(stream, CRLF, 0);
    if i == -1 then None else Some(Line(stream[..i], stream[i + 2..]))
  }

  /** How reading a reply ends. */
  datatype Outcome =
    | Reply(lines: seq<string>)
    | Malformed(line: string)
    | Refused(code: string, text: string)
    | Closed

  /** An outcome and the part of the stream it left unread. */
  datatype Read = Read(outcome: Outcome, rest: string)

  function ReadFrom(stream: string, lines: seq<string>): Read
    decreases |stream|
  {
    match TakeLine(stream)
    case None => Read(Closed, stream)
    case Some(Line(line, rest)) =>
      if |line| < 4 then Read(Malformed(line), rest)
      else if line[0] != '2' then Read(Refused(line[..3], line[4..]), rest)
      else if line[3] == '+' then ReadData(rest, lines + [line[4..]])
      else if line[3] == ' ' then Read(Reply(lines + [line[4..]]), rest)
      else ReadFrom(rest, lines + [line[4..]])
  }

  /** Inside a data item, which a line holding a single dot ends. */
  function ReadData(stream: string, lines: seq<string>): Read
    decreases |stream|
  {
    match TakeLine(stream)
    case None => Read(Closed, stream)
    case Some(Line(line, rest)) =>
      if line == "." then ReadFrom(rest, lines) else ReadData(rest, lines + [line])
  }

  /** The outcomes of n replies read one after another, and the stream they leave. */
  function ReadMany(stream: string, n: nat): (seq<Outcome>, string)
    decreases n
  {
    if n == 0 then ([], stream)
    else
      var first := ReadFrom(stream, []);
      var others := ReadMany(first.rest, n - 1);
      ([first.outcome] + others.0, others.1)
  }

  // --- the client -------------------------------------------------------

  function Flat(chunks: seq<string>): string {
    if chunks == [] then "" else chunks[0] + Flat(chunks[1..])
  }

  /** The peer's side of the connection: chunks still to come, after which it is closed. */
  class Socket {
    var chunks: seq<string>
    var sent: string

    constructor (chunks: seq<string>)
      ensures this.chunks == chunks && sent == ""
    {
      this.chunks, sent := chunks, "";
    }

    /** An empty result means the peer has closed the connection. */
    method Recv() returns (chunk: string)
      requires "" !in chunks
      modifies this`chunks
      ensures chunk == if old(chunks) == [] then "" else old(chunks)[0]
      ensures chunks == if old(chunks) == [] then [] else old(chunks)[1..]
    {
      if chunks == [] { return ""; }
      chunk, chunks := chunks[0], chunks[1..];
    }

    method Send(line: string)
      modifies this`sent
      ensures sent == old(sent) + line
    {
      sent := sent + line;
    }
  }

  class Client {
    var buf: string
    const sock: Socket

    constructor (sock: Socket)
      ensures this.sock == sock && buf == ""
    {
      this.sock, buf := sock, "";
    }

    ghost predicate Valid()
      reads this, sock
    {
      "" !in sock.chunks
    }

    /** All bytes received and not yet handed out, followed by all bytes to come. */
    ghost function Stream(): string
      reads this, sock
    {
      buf + Flat(sock.chunks)
    }

    /** _read_line: the chunk boundaries have no influence on the line or on what is left. */
    method ReadLine() returns (r: Option<string>)
      requires Valid()
      modifies this`buf, sock`chunks
      ensures Valid()
      ensures match TakeLine(old(Stream()))
              case None => r.None? && Stream() == old(Stream())
              case Some(t) => r == Some(t.text) && Stream() == t.rest
    {
      while Find(buf, CRLF, 0) == -1
        invariant Valid() && Stream() == old(Stream())
        decreases |sock.chunks|
      {
        ghost var before, coming := buf, sock.chunks;
        var chunk := sock.Recv();
        if chunk == "" {
          assert buf + Flat([]) == buf;
          return None;
        }
        buf := buf + chunk;
        assert before + (coming[0] + Flat(coming[1..])) == before + coming[0] + Flat(coming[1..]);
      }
      var i := Find(buf, CRLF, 0);
      FindInPrefix(buf, Flat(sock.chunks));
      assert Stream()[..i] == buf[..i];
      assert Stream()[i + 2..] == buf[i + 2..] + Flat(sock.chunks);
      r := Some(buf[..i]);
      buf := buf[i + 2..];
    }

    /** _read_reply: the outcome, and the bytes left for the next reply, depend on the stream alone. */
    method ReadReply() returns (r: Outcome)
      requires Valid()
      modifies this`buf, sock`chunks
      ensures Valid()
      ensures Read(r, Stream()) == ReadFrom(old(Stream()), [])
    {
      var lines: seq<string> := [];
      while true
        invariant Valid()
        invariant ReadFrom(old(Stream()), []) == ReadFrom(Stream(), lines)
        decreases |Stream()|
      {
        var line := ReadLine();
        if line.None? { return Closed; }
        var text := line.value;
        if |text| < 4 { return Malformed(text); }
        var code, sep, rest := text[..3], text[3], text[4..];
        if code[0] != '2' { return Refused(code, rest); }
        if sep == '+' {
          lines := lines + [rest];
          while true
            invariant Valid()
            invariant ReadFrom(old(Stream()), []) == ReadData(Stream(), lines)
            decreases |Stream()|
          {
            var data := ReadLine();
            if data.None? { return Closed; }
            if data.value == "." { break; }
            lines := lines + [data.value];
          }
          continue;
        }
        lines := lines + [rest];
        if sep == ' ' { return Reply(lines); }
      }
    }

    /** Successive replies: the outcomes, and what is left unread, depend on the stream alone. */
    method ReadReplies(n: nat) returns (outcomes: seq<Outcome>)
      requires Valid()
      modifies this`buf, sock`chunks
      ensures Valid()
      ensures (outcomes, Stream()) == ReadMany(old(Stream()), n)
    {
      outcomes := [];
      assert outcomes + ReadMany(Stream(), n).0 == ReadMany(Stream(), n).0;
      for i := 0 to n
        invariant Valid()
        invariant var rest := ReadMany(Stream(), n - i);
                  ReadMany(old(Stream()), n) == (outcomes + rest.0, rest.1)
      {
        ghost var before, stream := outcomes, Stream();
        var r := ReadReply();
        outcomes := outcomes + [r];
        ghost var others := ReadMany(Stream(), n - i - 1);
        assert ReadMany(stream, n - i).0 == [r] + others.0;
        assert before + ([r] + others.0) == before + [r] + others.0;
      }
      assert outcomes + [] == outcomes;
    }

    /** command: one line out, one reply back. */
    method Command(line: string) returns (r: Outcome)
      requires Valid()
      modifies this`buf, sock
      ensures Valid()
      ensures sock.sent == old(sock.sent) + line + CRLF
      ensures Read(r, Stream()) == ReadFrom(old(Stream()), [])
    {
      sock.Send(line + CRLF);
      r := ReadReply();
      assert old(sock.sent) + (line + CRLF) == old(sock.sent) + line + CRLF;
    }
  }

  lemma FindInPrefix(a: string, b: string)
    requires Find(a, CRLF, 0) != -1
    ensures Find(a + b, CRLF, 0) == Find(a, CRLF, 0)
  {
    var i := Find(a, CRLF, 0);
    forall j: nat | j <= i ensures OccursAt(a + b, CRLF, j) <==> OccursAt(a, CRLF, j) {
      assert (a + b)[j..j + 2] == a[j..j + 2];
    }
    FindIs(a + b, CRLF, 0, i);
  }

  // --- well-formed replies ----------------------------------------------

  /**
   Items of a reply before its end line (section 2.3 of Tor's control-spec). The separator of a mid line
   is '-' there; the reader takes any but the two of the other lines.
   */
  datatype Item = Mid(code: string, sep: char, text: string) | Data(code: string, text: string, body: seq<string>)

  datatype FullReply = FullReply(items: seq<Item>, code: string, text: string)

  predicate NoCrlf(line: string) { Find(line, CRLF, 0) == -1 }

  predicate Success(code: string) { |code| == 3 && code[0] == '2' }

  predicate ItemOk(item: Item) {
    match item
    case Mid(code, sep, text) => Success(code) && sep != ' ' && sep != '+' && NoCrlf(code + [sep] + text)
    case Data(code, text, body) => Success(code) && NoCrlf(code + "+" + text) && BodyOk(body)
  }

  predicate BodyOk(body: seq<string>) {
    forall i :: 0 <= i < |body| ==> NoCrlf(body[i]) && body[i] != "."
  }

  predicate ReplyOk(r: FullReply) {
    && (forall i :: 0 <= i < |r.items| ==> ItemOk(r.items[i]))
    && Success(r.code) && NoCrlf(r.code + " " + r.text)
  }

  function PrintBody(body: seq<string>): string {
    if body == [] then "." + CRLF else body[0] + CRLF + PrintBody(body[1..])
  }

  function PrintItem(item: Item): string {
    match item
    case Mid(code, sep, text) => code + [sep] + text + CRLF
    case Data(code, text, body) => code + "+" + text + CRLF + PrintBody(body)
  }

  function PrintItems(items: seq<Item>): string {
    if items == [] then "" else PrintItem(items[0]) + PrintItems(items[1..])
  }

  function Print(r: FullReply): string {
    PrintItems(r.items) + r.code + " " + r.text + CRLF
  }

  function ItemLines(items: seq<Item>): seq<string> {
    if items == [] then [] else LinesOf(items[0]) + ItemLines(items[1..])
  }

  function LinesOf(item: Item): seq<string> {
    match item
    case Mid(_, _, text) => [text]
    case Data(_, text, body) => [text] + body
  }

  /** The payload of a reply, in order. */
  function Payload(r: FullReply): seq<string> { ItemLines(r.items) + [r.text] }

  lemma LineTaken(line: string, rest: string)
    requires NoCrlf(line)
    ensures TakeLine(line + CRLF + rest) == Some(Line(line, rest))
  {
    var s, n := line + CRLF + rest, |line|;
    assert s[n..n + 2] == CRLF;
    forall j: nat | j < n ensures !OccursAt(s, CRLF, j) {
      assert !OccursAt(line, CRLF, j);
      if j + 2 <= n {
        assert s[j..j + 2] == line[j..j + 2];
      } else {
        assert s[j..j + 2][1] == s[n] == '\r';
      }
    }
    FindIs(s, CRLF, 0, n);
    assert s[..n] == line && s[n + 2..] == rest;
  }

  lemma {:induction false} BodyRead(body: seq<string>, rest: string, lines: seq<string>)
    requires BodyOk(body)
    ensures ReadData(PrintBody(body) + rest, lines) == ReadFrom(rest, lines + body)
    decreases body
  {
    hide TakeLine, NoCrlf, CRLF, ReadFrom;
    if body == [] {
      DotTaken(rest);
      assert lines + body == lines;
    } else {
      LineTaken(body[0], PrintBody(body[1..]) + rest);
      assert PrintBody(body) + rest == body[0] + CRLF + (PrintBody(body[1..]) + rest);
      BodyRead(body[1..], rest, lines + [body[0]]);
      assert lines + [body[0]] + body[1..] == lines + body;
    }
  }

  lemma DotTaken(rest: string)
    ensures TakeLine("." + CRLF + rest) == Some(Line(".", rest))
  {
    LineTaken(".", rest);
  }

  /** A status line: three digits, a separator, the text. */
  lemma StatusTaken(code: string, sep: char, text: string, rest: string)
    requires Success(code) && NoCrlf(code + [sep] + text)
    ensures exists line :: TakeLine(code + [sep] + text + CRLF + rest) == Some(Line(line, rest))
                           && |line| >= 4 && line[0] == '2' && line[3] == sep && line[4..] == text
  {
    var line := code + [sep] + text;
    LineTaken(line, rest);
    assert line[4..] == text;
  }

  lemma ItemRead(item: Item, rest: string, lines: seq<string>)
    requires ItemOk(item)
    ensures ReadFrom(PrintItem(item) + rest, lines) == ReadFrom(rest, lines + LinesOf(item))
  {
    hide TakeLine, NoCrlf, CRLF, Success, ReadData, PrintBody, BodyOk;
    match item {
      case Mid(code, sep, text) =>
        StatusTaken(code, sep, text, rest);
        assert PrintItem(item) + rest == code + [sep] + text + CRLF + rest;
      case Data(code, text, body) =>
        StatusTaken(code, '+', text, PrintBody(body) + rest);
        assert PrintItem(item) + rest == code + ['+'] + text + CRLF + (PrintBody(body) + rest);
        BodyRead(body, rest, lines + [text]);
        assert lines + ([text] + body) == lines + [text] + body;
    }
  }

  lemma {:induction false} ItemsRead(items: seq<Item>, rest: string, lines: seq<string>)
    requires forall i :: 0 <= i < |items| ==> ItemOk(items[i])
    ensures ReadFrom(PrintItems(items) + rest, lines) == ReadFrom(rest, lines + ItemLines(items))
    decreases items
  {
    hide ItemOk, PrintItem, LinesOf, ReadFrom;
    if items == [] {
      assert PrintItems(items) + rest == rest && lines + ItemLines(items) == lines;
    } else {
      ItemRead(items[0], PrintItems(items[1..]) + rest, lines);
      ItemsRead(items[1..], rest, lines + LinesOf(items[0]));
      assert PrintItems(items) + rest == PrintItem(items[0]) + (PrintItems(items[1..]) + rest);
      assert lines + LinesOf(items[0]) + ItemLines(items[1..]) == lines + ItemLines(items);
    }
  }

  lemma ReplyRead(r: FullReply, rest: string)
    requires ReplyOk(r)
    ensures ReadFrom(Print(r) + rest, []) == Read(Reply(Payload(r)), rest)
  {
    hide TakeLine, NoCrlf, CRLF, Success, ReadData, PrintItems, ItemLines;
    var end := r.code + [' '] + r.text + CRLF + rest;
    assert Print(r) + rest == PrintItems(r.items) + end;
    ItemsRead(r.items, end, []);
    StatusTaken(r.code, ' ', r.text, rest);
    assert [] + ItemLines(r.items) == ItemLines(r.items);
  }

  function PrintReplies(rs: seq<FullReply>): string {
    if rs == [] then "" else Print(rs[0]) + PrintReplies(rs[1..])
  }

  /** Replies stay in step: each read returns its own reply's payload, and the unread bytes stay. */
  lemma {:induction false} RepliesInStep(rs: seq<FullReply>, tail: string)
    requires forall i :: 0 <= i < |rs| ==> ReplyOk(rs[i])
    ensures ReadMany(PrintReplies(rs) + tail, |rs|).1 == tail
    ensures |ReadMany(PrintReplies(rs) + tail, |rs|).0| == |rs|
    ensures forall i :: 0 <= i < |rs| ==> ReadMany(PrintReplies(rs) + tail, |rs|).0[i] == Reply(Payload(rs[i]))
    decreases rs
  {
    hide ReadFrom, Print, Payload, ReplyOk;
    if rs == [] {
      assert PrintReplies(rs) + tail == tail;
    } else {
      ReplyRead(rs[0], PrintReplies(rs[1..]) + tail);
      RepliesInStep(rs[1..], tail);
      assert PrintReplies(rs) + tail == Print(rs[0]) + (PrintReplies(rs[1..]) + tail);
    }
  }

  /** Once a reply has been read in full, bytes that arrive later do not change it. */
  lemma {:induction false} LaterBytesIrrelevant(stream: string, later: string, lines: seq<string>)
    requires ReadFrom(stream, lines).outcome != Closed
    ensures var r := ReadFrom(stream, lines);
            ReadFrom(stream + later, lines) == Read(r.outcome, r.rest + later)
    decreases |stream|, 1
  {
    LineKept(stream, later);
    match TakeLine(stream)
    case None =>
    case Some(Line(line, rest)) =>
      if |line| >= 4 && line[0] == '2' {
        if line[3] == '+' {
          LaterBytesIrrelevantInData(rest, later, lines + [line[4..]]);
        } else if line[3] != ' ' {
          LaterBytesIrrelevant(rest, later, lines + [line[4..]]);
        }
      }
  }

  lemma {:induction false} LaterBytesIrrelevantInData(stream: string, later: string, lines: seq<string>)
    requires ReadData(stream, lines).outcome != Closed
    ensures var r := ReadData(stream, lines);
            ReadData(stream + later, lines) == Read(r.outcome, r.rest + later)
    decreases |stream|, 0
  {
    LineKept(stream, later);
    match TakeLine(stream)
    case None =>
    case Some(Line(line, rest)) =>
      if line == "." {
        LaterBytesIrrelevant(rest, later, lines);
      } else {
        LaterBytesIrrelevantInData(rest, later, lines + [line]);
      }
  }

  lemma LineKept(stream: string, later: string)
    ensures TakeLine(stream).Some? ==>
              TakeLine(stream + later) == Some(Line(TakeLine(stream).value.text, TakeLine(stream).value.rest + later))
  {
    var i := Find(stream, CRLF, 0);
    if i != -1 {
      FindInPrefix(stream, later);
      assert (stream + later)[..i] == stream[..i];
      assert (stream + later)[i + 2..] == stream[i + 2..] + later;
    }
  }

  // --- replies that are no success --------------------------------------

  /** A status code that is not 2xx is an error, whatever items came before; the bytes behind its line stay. */
  lemma RefusedRead(items: seq<Item>, code: string, sep: char, text: string, rest: string)
    requires forall i :: 0 <= i < |items| ==> ItemOk(items[i])
    requires |code| == 3 && code[0] != '2' && NoCrlf(code + [sep] + text)
    ensures ReadFrom(PrintItems(items) + (code + [sep] + text + CRLF + rest), []) == Read(Refused(code, text), rest)
  {
    hide TakeLine, NoCrlf, CRLF, ReadData, PrintItems, ItemLines;
    var line := code + [sep] + text;
    LineTaken(line, rest);
    ItemsRead(items, line + CRLF + rest, []);
    assert line[0] == code[0] && line[..3] == code && line[4..] == text;
  }

  /** So is a line too short to hold a code. */
  lemma MalformedRead(items: seq<Item>, line: string, rest: string)
    requires forall i :: 0 <= i < |items| ==> ItemOk(items[i])
    requires |line| < 4 && NoCrlf(line)
    ensures ReadFrom(PrintItems(items) + (line + CRLF + rest), []) == Read(Malformed(line), rest)
  {
    hide TakeLine, NoCrlf, CRLF, ReadData, PrintItems, ItemLines;
    LineTaken(line, rest);
    ItemsRead(items, line + CRLF + rest, []);
  }

  lemma NoLine(cut: string)
    requires NoCrlf(cut)
    ensures TakeLine(cut) == None
  {
  }

  /** Bytes that end before a line does are an error and stay where they are. */
  lemma ClosedRead(items: seq<Item>, cut: string)
    requires forall i :: 0 <= i < |items| ==> ItemOk(items[i])
    requires NoCrlf(cut)
    ensures ReadFrom(PrintItems(items) + cut, []) == Read(Closed, cut)
  {
    hide TakeLine, NoCrlf, CRLF, ReadData, PrintItems, ItemLines;
    NoLine(cut);
    ItemsRead(items, cut, []);
  }

  function PrintLines(body: seq<string>): string {
    if body == [] then "" else body[0] + CRLF + PrintLines(body[1..])
  }

  lemma {:induction false} DataCut(body: seq<string>, cut: string, lines: seq<string>)
    requires BodyOk(body) && NoCrlf(cut)
    ensures ReadData(PrintLines(body) + cut, lines) == Read(Closed, cut)
    decreases body
  {
    hide TakeLine, NoCrlf, CRLF, ReadFrom;
    if body == [] {
      NoLine(cut);
      assert PrintLines(body) + cut == cut;
    } else {
      LineTaken(body[0], PrintLines(body[1..]) + cut);
      assert PrintLines(body) + cut == body[0] + CRLF + (PrintLines(body[1..]) + cut);
      DataCut(body[1..], cut, lines + [body[0]]);
    }
  }

  /** The same inside a data item, a single dot not having come yet. */
  lemma ClosedInData(items: seq<Item>, code: string, text: string, body: seq<string>, cut: string)
    requires forall i :: 0 <= i < |items| ==> ItemOk(items[i])
    requires Success(code) && NoCrlf(code + ['+'] + text) && BodyOk(body) && NoCrlf(cut)
    ensures ReadFrom(PrintItems(items) + (code + ['+'] + text + CRLF + (PrintLines(body) + cut)), [])
         == Read(Closed, cut)
  {
    hide TakeLine, NoCrlf, CRLF, ReadData, PrintItems, ItemLines, PrintLines;
    StatusTaken(code, '+', text, PrintLines(body) + cut);
    ItemsRead(items, code + ['+'] + text + CRLF + (PrintLines(body) + cut), []);
    DataCut(body, cut, [] + ItemLines(items) + [text]);
  }

  /** At an actual reply: a refused authentication is no success. */
  lemma RefusedAt(rest: string)
    ensures ReadFrom("515" + [' '] + "Authentication failed" + CRLF + rest, [])
         == Read(Refused("515", "Authentication failed"), rest)
  {
    var line := "515" + [' '] + "Authentication failed";
    assert '\r' !in line;
    forall i: nat ensures !OccursAt(line, CRLF, i) { OccursChar(line, CRLF, i, 0); }
    assert PrintItems([]) + (line + CRLF + rest) == line + CRLF + rest;
    RefusedRead([], "515", ' ', "Authentication failed", rest);
  }
}
