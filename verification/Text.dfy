/** First-occurrence search, and where a marker line can occur in a concatenation. */
module Text {
  predicate OccursAt(text: string, pat: string, i: nat) {
    i + |pat| <= |text| && text[i..i + |pat|] == pat
  }

  ghost predicate Absent(text: string, pat: string) {
    forall i: nat :: !OccursAt(text, pat, i)
  }

  /** text.find(pat, start): the first occurrence from start on, or -1. */
  function Find(text: string, pat: string, start: nat): (r: int)
    ensures r == -1 || (start <= r && OccursAt(text, pat, r))
    ensures forall i: nat :: start <= i && (r == -1 || i < r) ==> !OccursAt(text, pat, i)
    decreases |text| - start
  {
    if start + |pat| > |text| then -1
    else if OccursAt(text, pat, start) then start
    else Find(text, pat, start + 1)
  }

  function EndsWithNewline(text: string): bool {
    text != "" && text[|text| - 1] == '\n'
  }

  /** text, with a final newline unless it is empty or has one. */
  function EnsureNewline(text: string): string {
    if text == "" || EndsWithNewline(text) then text else text + "\n"
  }

  /** str.isspace for one character. */
  predicate IsSpace(c: char) {
    var n := c as int;
    || 9 <= n <= 13 || 28 <= n <= 32 || n == 0x85 || n == 0xA0 || n == 0x1680 || 0x2000 <= n <= 0x200A
    || n == 0x2028 || n == 0x2029 || n == 0x202F || n == 0x205F || n == 0x3000
  }

  function TrimLeft(s: string): string {
    if s != "" && IsSpace(s[0]) then TrimLeft(s[1..]) else s
  }

  function TrimRight(s: string): string {
    if s != "" && IsSpace(s[|s| - 1]) then TrimRight(s[..|s| - 1]) else s
  }

  /** s.strip() */
  function Trim(s: string): string { TrimRight(TrimLeft(s)) }

  predicate Blank(s: string) { forall i :: 0 <= i < |s| ==> IsSpace(s[i]) }

  lemma {:induction false} TrimLeftExactly(s: string) returns (n: nat)
    ensures n <= |s| && Blank(s[..n]) && TrimLeft(s) == s[n..] && (n < |s| ==> !IsSpace(s[n]))
  {
    n := 0;
    if s != "" && IsSpace(s[0]) {
      n := TrimLeftExactly(s[1..]);
      n := n + 1;
      assert forall i :: 0 < i < n ==> s[..n][i] == s[1..][..n - 1][i - 1];
    }
  }

  lemma {:induction false} TrimRightExactly(s: string) returns (n: nat)
    ensures n <= |s| && Blank(s[n..]) && TrimRight(s) == s[..n] && (n > 0 ==> !IsSpace(s[n - 1]))
  {
    n := |s|;
    if s != "" && IsSpace(s[|s| - 1]) {
      n := TrimRightExactly(s[..|s| - 1]);
      assert s[..|s| - 1][..n] == s[..n];
      forall i | 0 <= i < |s| - n ensures IsSpace(s[n..][i]) {
        if n + i < |s| - 1 { assert s[n..][i] == s[..|s| - 1][n..][i]; }
      }
    }
  }

  /** Stripping takes the white space off both ends, all of it and nothing else. */
  lemma TrimExactly(s: string) returns (i: nat, j: nat)
    ensures i <= j <= |s| && Trim(s) == s[i..j] && Blank(s[..i]) && Blank(s[j..])
    ensures Trim(s) != "" ==> !IsSpace(Trim(s)[0]) && !IsSpace(Trim(s)[|Trim(s)| - 1])
  {
    i := TrimLeftExactly(s);
    var n := TrimRightExactly(s[i..]);
    j := i + n;
    assert s[i..][..n] == s[i..j] && s[i..][n..] == s[j..];
  }

  /** A marker line: '#' opens it and comes nowhere else in it; it holds no newline. */
  predicate Marker(p: string) {
    p != "" && p[0] == '#' && forall k :: 1 <= k < |p| ==> p[k] != '#' && p[k] != '\n'
  }

  /** No marker can begin in a and end in b. */
  predicate Seam(a: string, b: string) {
    a == "" || b == "" || b[0] == '#' || b[0] == '\n' || EndsWithNewline(a)
  }

  lemma OccursChar(text: string, p: string, i: nat, k: nat)
    ensures OccursAt(text, p, i) && k < |p| ==> text[i + k] == p[k]
  {
    if OccursAt(text, p, i) && k < |p| {
      assert text[i..i + |p|][k] == text[i + k];
    }
  }

  lemma OccursInConcat(a: string, b: string, p: string, i: nat)
    requires Marker(p) && Seam(a, b)
    ensures OccursAt(a + b, p, i) <==>
            (i + |p| <= |a| && OccursAt(a, p, i)) || (i >= |a| && OccursAt(b, p, i - |a|))
  {
    var s := a + b;
    if i + |p| <= |a| {
      assert s[i..i + |p|] == a[i..i + |p|];
    } else if i >= |a| {
      if i + |p| <= |s| {
        assert s[i..i + |p|] == b[i - |a|..i - |a| + |p|];
      }
    } else {
      OccursChar(s, p, i, |a| - i);
      OccursChar(s, p, i, |a| - 1 - i);
    }
  }

  lemma AbsentInConcat(a: string, b: string, p: string)
    requires Marker(p) && Seam(a, b)
    ensures Absent(a + b, p) <==> Absent(a, p) && Absent(b, p)
  {
    if Absent(a + b, p) {
      forall i: nat ensures !OccursAt(a, p, i) { OccursInConcat(a, b, p, i); }
      forall i: nat ensures !OccursAt(b, p, i) { OccursInConcat(a, b, p, i + |a|); }
    }
    if Absent(a, p) && Absent(b, p) {
      forall i: nat ensures !OccursAt(a + b, p, i) { OccursInConcat(a, b, p, i); }
    }
  }

  /** Text without '#' cannot begin a marker, wherever it stands before other text. */
  lemma AbsentAfterPlain(a: string, b: string, p: string)
    requires Marker(p) && '#' !in a
    ensures Absent(a + b, p) <==> Absent(b, p)
  {
    forall i: nat ensures i < |a| ==> !OccursAt(a + b, p, i) {
      OccursChar(a + b, p, i, 0);
    }
    forall i: nat ensures OccursAt(a + b, p, i + |a|) <==> OccursAt(b, p, i) {
      if i + |p| <= |b| {
        assert (a + b)[i + |a|..i + |a| + |p|] == b[i..i + |p|];
      }
    }
    if Absent(a + b, p) {
      forall i: nat ensures !OccursAt(b, p, i) { assert !OccursAt(a + b, p, i + |a|); }
    }
    if Absent(b, p) {
      forall i: nat ensures !OccursAt(a + b, p, i) {
        if i >= |a| { assert OccursAt(a + b, p, (i - |a|) + |a|) <==> OccursAt(b, p, i - |a|); }
      }
    }
  }

  lemma AbsentInPrefix(text: string, p: string, n: nat)
    requires n <= |text|
    requires forall i: nat :: i < n ==> !OccursAt(text, p, i)
    requires p != ""
    ensures Absent(text[..n], p)
  {
    forall i: nat ensures !OccursAt(text[..n], p, i) {
      if i + |p| <= n {
        assert text[..n][i..i + |p|] == text[i..i + |p|];
        assert !OccursAt(text, p, i);
      }
    }
  }

  lemma AbsentPlain(text: string, p: string)
    requires Marker(p) && '#' !in text
    ensures Absent(text, p)
  {
    AbsentAfterPlain(text, "", p);
    assert text + "" == text;
  }

  /** Search from a known point: skip what holds no occurrence, stop at the one that is there. */
  lemma FindIs(text: string, p: string, start: nat, at: nat)
    requires start <= at && OccursAt(text, p, at)
    requires forall i: nat :: start <= i < at ==> !OccursAt(text, p, i)
    ensures Find(text, p, start) == at
  {
  }

  lemma FindNothing(text: string, p: string, start: nat)
    requires Absent(text, p)
    ensures Find(text, p, start) == -1
  {
  }

  lemma MarkerHash(t: string, p: string, i: nat)
    requires Marker(p) && OccursAt(t, p, i)
    ensures i + |p| <= |t| && t[i] == '#'
    ensures forall k :: i < k < i + |p| ==> t[k] != '#'
  {
    forall k: nat | k < |p| ensures t[i + k] == p[k] { OccursChar(t, p, i, k); }
    forall k | i < k < i + |p| ensures t[k] != '#' { assert t[i + (k - i)] == p[k - i]; }
  }

  /** An occurrence of a marker ends before the next one of any marker begins. */
  lemma Apart(t: string, p: string, q: string, i: nat, j: nat)
    requires Marker(p) && Marker(q) && OccursAt(t, p, i) && OccursAt(t, q, j)
    ensures i < j ==> i + |p| <= j
  {
    hide OccursAt, Marker;
    MarkerHash(t, p, i);
    MarkerHash(t, q, j);
  }

  /** Empty, or ending with a marker and a newline. */
  predicate Closed(t: string, end: string) {
    t == "" || (|t| > |end| && OccursAt(t, end, |t| - 1 - |end|) && t[|t| - 1] == '\n')
  }

  /** No marker begins behind the one that closes a text. */
  lemma ClosedLast(t: string, end: string, p: string, i: nat)
    requires Closed(t, end) && t != "" && Marker(end) && Marker(p) && OccursAt(t, p, i)
    ensures i <= |t| - 1 - |end|
  {
    hide OccursAt;
    Apart(t, end, p, |t| - 1 - |end|, i);
    MarkerHash(t, p, i);
  }

  /** Putting something in front of closed text closes the whole. */
  lemma ClosedBehind(a: string, t: string, end: string)
    requires Closed(t, end) && t != ""
    ensures Closed(a + t, end)
  {
    var n := |t| - 1 - |end|;
    assert (a + t)[|a| + n..|a| + n + |end|] == t[n..n + |end|];
  }

  /** So does cutting it off in front of the occurrence that closes it. */
  lemma ClosedRest(t: string, end: string, from: nat)
    requires Closed(t, end) && t != "" && from <= |t| - 1 - |end|
    ensures Closed(t[from..], end)
  {
    var n := |t| - 1 - |end|;
    assert t[from..][n - from..n - from + |end|] == t[n..n + |end|];
  }

  /** What is found in text that ends a line is found there whatever follows. */
  lemma FoundInFront(a: string, post: string, p: string, start: nat)
    requires Marker(p) && EndsWithNewline(a) && Find(a, p, start) != -1
    ensures Find(a + post, p, start) == Find(a, p, start)
  {
    var at := Find(a, p, start);
    OccursShort(a, p, at);
    forall i: nat | start <= i <= at ensures OccursAt(a + post, p, i) <==> OccursAt(a, p, i) {
      OccursInConcat(a, post, p, i);
      OccursShort(a, p, i);
    }
    hide OccursAt;
    FindIs(a + post, p, start, at);
  }

  /** An occurrence in the rest of a text is one in the text. */
  lemma OccursInRest(t: string, from: nat, p: string, i: nat)
    requires from <= |t|
    ensures OccursAt(t[from..], p, i) <==> OccursAt(t, p, from + i)
  {
    if i + |p| <= |t| - from { assert t[from..][i..i + |p|] == t[from + i..from + i + |p|]; }
  }

  // --- text framed by two marker lines ----------------------------------

  function Frame(begin: string, end: string, m: string): string {
    begin + "\n" + m + end + "\n"
  }

  predicate Frames(begin: string, end: string) {
    Marker(begin) && Marker(end) && |begin| > 2 && |end| > 2 && begin[2] != end[2]
  }

  /** Where a marker occurs in a frame: as the frame's own line, or in the text framed. */
  predicate InFrame(begin: string, end: string, m: string, p: string, i: nat) {
    || (p == begin && i == 0)
    || (p == end && i == |begin| + 1 + |m|)
    || (i >= |begin| + 1 && OccursAt(m, p, i - |begin| - 1))
  }

  lemma MarkerInMarker(q: string, p: string, i: nat)
    requires Frames(q, p) || Frames(p, q) || (p == q && Marker(p))
    ensures OccursAt(q, p, i) <==> p == q && i == 0
  {
    OccursChar(q, p, i, 0);
    OccursChar(q, p, i, 2);
  }

  lemma OccursInFrame(begin: string, end: string, m: string, p: string, i: nat)
    requires Frames(begin, end) && (p == begin || p == end)
    requires m == "" || EndsWithNewline(m)
    ensures OccursAt(Frame(begin, end, m), p, i) <==> InFrame(begin, end, m, p, i)
  {
    var front := begin + "\n";
    AbsentPlain("\n", p);
    OccursInConcat(front + m + end, "\n", p, i);
    OccursInConcat(front + m, end, p, i);
    OccursInConcat(front, m, p, i);
    OccursInConcat(begin, "\n", p, i);
    MarkerInMarker(begin, p, i);
    if i >= |front + m| { MarkerInMarker(end, p, i - |front + m|); }
    OccursShort(begin, p, i);
    OccursShort(end, p, 0);
    if i >= |front| { OccursShort(m, p, i - |front|); }
    assert forall j: nat :: !OccursAt("\n", p, j);
    hide OccursAt, Marker;
  }

  lemma OccursShort(t: string, p: string, i: nat)
    ensures OccursAt(t, p, i) ==> i + |p| <= |t|
  {
  }

  lemma OccurrencesInFrame(begin: string, end: string, m: string, p: string)
    requires Frames(begin, end) && (p == begin || p == end)
    requires m == "" || EndsWithNewline(m)
    ensures forall i: nat :: OccursAt(Frame(begin, end, m), p, i) <==> InFrame(begin, end, m, p, i)
  {
    hide OccursAt, Frame, InFrame;
    forall i: nat ensures OccursAt(Frame(begin, end, m), p, i) <==> InFrame(begin, end, m, p, i) {
      OccursInFrame(begin, end, m, p, i);
    }
  }
}
