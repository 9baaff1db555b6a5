/** Hooking the killswitch anchor into pf.conf, and unhooking it. */
module PfConf {
  import opened Text

  // written in two parts, each short enough for the verifier to look at all its characters
  const BEGIN: string := "# >>> torando-gui managed " + "anchor refs (do not edit by hand) >>>"
  const END: string := "# <<< torando-gui managed anchor refs <<<"

  lemma Markers()
    ensures Marker(BEGIN) && Marker(END)
    ensures Frames(BEGIN, END) && BEGIN[0] == '#' && BEGIN != END
  {
    BeginMarker();
    EndMarker();
    assert BEGIN[2] == '>' && END[2] == '<';
    hide Marker;
  }

  lemma BeginMarker()
    ensures Marker(BEGIN)
  {
  }

  lemma EndMarker()
    ensures Marker(END)
  {
  }

  lemma NoQuotes()
    ensures '"' !in BEGIN && '"' !in END
  {
    NoQuoteInBegin();
  }

  lemma NoQuoteInBegin()
    ensures '"' !in BEGIN
  {
  }

  predicate Contains(text: string, pat: string) { Find(text, pat, 0) != -1 }

  lemma ContainsMeans(text: string, pat: string)
    ensures Contains(text, pat) <==> !Absent(text, pat)
    ensures Contains(text, pat) <==> exists i: nat :: OccursAt(text, pat, i)
  {
    var i := Find(text, pat, 0);
    if i != -1 { assert OccursAt(text, pat, i); }
  }

  // --- the code ---------------------------------------------------------

  /** The two reference lines of an anchor. */
  function References(anchor: string, file: string): string {
    "anchor \"" + anchor + "\"\nload anchor \"" + anchor + "\" from \"" + file + "\"\n"
  }

  function ManagedBlock(anchor: string, file: string): string {
    Frame(BEGIN, END, References(anchor, file))
  }

  function Wire(existing: string, anchor: string, file: string): string {
    var want := ManagedBlock(anchor, file);
    if Contains(existing, BEGIN) && Contains(existing, want) then existing
    else EnsureNewline(if Contains(existing, BEGIN) then Unwire(existing) else existing) + want
  }

  function Unwire(existing: string): string {
    var begin := Find(existing, BEGIN, 0);
    if begin == -1 then existing
    else
      var end := Find(existing, END, begin);
      if end == -1 then existing[..begin]
      else
        var e := end + |END|;
        existing[..begin] + existing[if e < |existing| && existing[e] == '\n' then e + 1 else e..]
  }

  // --- wiring -----------------------------------------------------------

  lemma ContainsPart(a: string, b: string, c: string)
    ensures Contains(a + b + c, b)
  {
    assert (a + b + c)[|a|..|a| + |b|] == b;
    assert OccursAt(a + b + c, b, |a|);
    ContainsMeans(a + b + c, b);
  }

  /** Wiring twice is wiring once, whatever the file held before. */
  lemma WireIdempotent(conf: string, anchor: string, file: string)
    ensures Wire(Wire(conf, anchor, file), anchor, file) == Wire(conf, anchor, file)
  {
    hide Contains, Unwire, References, BEGIN, END;
    var want, wired := ManagedBlock(anchor, file), Wire(conf, anchor, file);
    if !(Contains(conf, BEGIN) && Contains(conf, want)) {
      var base := EnsureNewline(if Contains(conf, BEGIN) then Unwire(conf) else conf);
      assert wired == base + want + "";
      ContainsPart(base, want, "");
      assert wired == base + BEGIN + ("\n" + References(anchor, file) + END + "\n");
      ContainsPart(base, BEGIN, "\n" + References(anchor, file) + END + "\n");
    }
  }

  /** The wired text always evaluates the anchor that was asked for, from its file, between the two markers. */
  lemma WiredHoldsBlock(conf: string, anchor: string, file: string)
    ensures Contains(Wire(conf, anchor, file),
                     BEGIN + "\n"
                     + ("anchor \"" + anchor + "\"\nload anchor \"" + anchor + "\" from \"" + file + "\"\n")
                     + END + "\n")
  {
    WiredHoldsOurs(conf, anchor, file);
    hide Contains, Wire, BEGIN, END;
  }

  lemma WiredHoldsOurs(conf: string, anchor: string, file: string)
    ensures Contains(Wire(conf, anchor, file), ManagedBlock(anchor, file))
  {
    hide Contains, Unwire, ManagedBlock, BEGIN, END;
    var want := ManagedBlock(anchor, file);
    if !(Contains(conf, BEGIN) && Contains(conf, want)) {
      var base := EnsureNewline(if Contains(conf, BEGIN) then Unwire(conf) else conf);
      assert Wire(conf, anchor, file) == base + want + "";
      ContainsPart(base, want, "");
    }
  }

  // --- unwiring ---------------------------------------------------------

  lemma AbsentBeforeQuote(a: string, p: string)
    requires p != "" && '"' !in p
    ensures Absent(a + "\"", p) <==> Absent(a, p)
  {
    forall i: nat ensures OccursAt(a + "\"", p, i) <==> OccursAt(a, p, i) {
      if i + |p| <= |a| {
        assert (a + "\"")[i..i + |p|] == a[i..i + |p|];
      } else if i <= |a| {
        OccursChar(a + "\"", p, i, |a| - i);
      }
    }
    if Absent(a + "\"", p) {
      forall i: nat ensures !OccursAt(a, p, i) { assert !OccursAt(a + "\"", p, i); }
    }
  }

  /** Text that ends in a quote, before more text, cannot start a marker it does not hold. */
  lemma AbsentAcrossQuote(a: string, b: string, p: string)
    requires Marker(p) && '"' !in p
    ensures Absent(a + "\"" + b, p) <==> Absent(a, p) && Absent(b, p)
  {
    var s, q := a + "\"" + b, a + "\"";
    AbsentBeforeQuote(a, p);
    forall i: nat ensures OccursAt(s, p, i) <==> OccursAt(q, p, i) || (i >= |q| && OccursAt(b, p, i - |q|)) {
      if i + |p| <= |q| {
        assert s[i..i + |p|] == q[i..i + |p|];
      } else if i >= |q| {
        if i + |p| <= |s| { assert s[i..i + |p|] == b[i - |q|..i - |q| + |p|]; }
      } else {
        OccursChar(s, p, i, |a| - i);
      }
    }
    if Absent(s, p) {
      forall i: nat ensures !OccursAt(b, p, i) { assert !OccursAt(s, p, i + |q|); }
      forall i: nat ensures !OccursAt(q, p, i) { assert !OccursAt(s, p, i); }
    }
  }

  lemma ReferencesHold(anchor: string, file: string, p: string)
    requires Marker(p) && '"' !in p
    ensures Absent(References(anchor, file), p) <==> Absent(anchor, p) && Absent(file, p)
  {
    hide Absent, Marker;
    var mid := "\nload anchor \"" + anchor + "\" from \"" + file + "\"\n";
    var tail := " from \"" + file + "\"\n";
    assert References(anchor, file) == "anchor \"" + (anchor + "\"" + mid);
    AbsentAfterPlain("anchor \"", anchor + "\"" + mid, p);
    AbsentAcrossQuote(anchor, mid, p);
    assert mid == "\nload anchor \"" + (anchor + "\"" + tail);
    AbsentAfterPlain("\nload anchor \"", anchor + "\"" + tail, p);
    AbsentAcrossQuote(anchor, tail, p);
    assert tail == " from \"" + (file + "\"" + "\n");
    AbsentAfterPlain(" from \"", file + "\"" + "\n", p);
    AbsentAcrossQuote(file, "\n", p);
    AbsentPlain("\n", p);
  }

  /** Occurrences of a marker in a managed block whose names do not hold it. */
  lemma BlockMarker(anchor: string, file: string, p: string)
    requires p == BEGIN || p == END
    requires Absent(anchor, p) && Absent(file, p)
    ensures var at := if p == BEGIN then 0 else |ManagedBlock(anchor, file)| - 1 - |END|;
            forall i: nat :: OccursAt(ManagedBlock(anchor, file), p, i) <==> i == at
  {
    Markers();
    NoQuotes();
    hide BEGIN, END, OccursAt, References;
    var m := References(anchor, file);
    ReferencesEnd(anchor, file);
    ReferencesHold(anchor, file, p);
    OccurrencesInFrame(BEGIN, END, m, p);
  }

  lemma ReferencesEnd(anchor: string, file: string)
    ensures EndsWithNewline(References(anchor, file))
  {
  }

  /** A managed block starts with BEGIN and ends with END and a newline. */
  ghost predicate BlockShape(want: string) {
    && |want| > |BEGIN| + |END| && want[0] == '#'
    && OccursAt(want, BEGIN, 0) && OccursAt(want, END, |want| - 1 - |END|)
    && EndsWithNewline(want)
  }

  lemma ManagedShape(anchor: string, file: string)
    ensures BlockShape(ManagedBlock(anchor, file))
  {
    Markers();
    hide BEGIN, END, References;
    var want := ManagedBlock(anchor, file);
    assert want == BEGIN + ("\n" + References(anchor, file) + END + "\n");
    assert want[..|BEGIN|] == BEGIN;
    assert want[|want| - 1 - |END|..|want| - 1] == END;
  }

  /** Occurrences at or after the start of the block are the block's own. */
  lemma OccursFromBlock(base: string, want: string, p: string)
    requires Marker(p) && want != "" && want[0] == '#'
    ensures forall i: nat :: i < |base| ==> (OccursAt(base + want, p, i) ==> OccursAt(base, p, i))
    ensures forall i: nat :: OccursAt(base + want, p, |base| + i) <==> OccursAt(want, p, i)
  {
    hide Marker;
    forall i: nat ensures i < |base| ==> (OccursAt(base + want, p, i) ==> OccursAt(base, p, i)) {
      OccursInConcat(base, want, p, i);
    }
    forall i: nat ensures OccursAt(base + want, p, |base| + i) <==> OccursAt(want, p, i) {
      OccursInConcat(base, want, p, |base| + i);
    }
  }

  /** The hook's first BEGIN, when the text before it has none, and the first END from there on. */
  lemma FindHook(base: string, want: string)
    requires Absent(base, BEGIN) && want != "" && want[0] == '#' && OccursAt(want, BEGIN, 0) && Find(want, END, 0) != -1
    ensures Find(base + want, BEGIN, 0) == |base|
    ensures Find(want, END, 0) >= 0 && Find(base + want, END, |base|) == |base| + Find(want, END, 0)
  {
    Markers();
    hide BEGIN, END, OccursAt, Marker;
    OccursFromBlock(base, want, BEGIN);
    OccursFromBlock(base, want, END);
    assert OccursAt(base + want, BEGIN, |base| + 0);
    FindIs(base + want, BEGIN, 0, |base|);
    var at := Find(want, END, 0);
    assert OccursAt(base + want, END, |base| + at);
    forall i: nat | |base| <= i < |base| + at ensures !OccursAt(base + want, END, i) {
      assert OccursAt(base + want, END, |base| + (i - |base|)) <==> OccursAt(want, END, i - |base|);
    }
    FindIs(base + want, END, |base|, |base| + at);
  }

  lemma EnsureNewlineAbsent(conf: string, p: string)
    requires Marker(p) && Absent(conf, p)
    ensures Absent(EnsureNewline(conf), p)
  {
    AbsentPlain("\n", p);
    AbsentInConcat(conf, "\n", p);
  }

  /** The first END in the block is its last line exactly when no name holds an END. */
  lemma FirstEnd(anchor: string, file: string)
    ensures var want := ManagedBlock(anchor, file);
            Find(want, END, 0) == |want| - 1 - |END| <==> Absent(anchor, END) && Absent(file, END)
  {
    Markers();
    NoQuotes();
    var want, m := ManagedBlock(anchor, file), References(anchor, file);
    hide BEGIN, END, OccursAt, References;
    ReferencesEnd(anchor, file);
    ReferencesHold(anchor, file, END);
    OccurrencesInFrame(BEGIN, END, m, END);
    if Absent(m, END) {
      FindIs(want, END, 0, |want| - 1 - |END|);
    } else {
      var i: nat :| OccursAt(m, END, i);
      OccursShort(m, END, i);
      assert InFrame(BEGIN, END, m, END, i + |BEGIN| + 1);
      assert OccursAt(want, END, i + |BEGIN| + 1);
    }
  }

  /**
   Unhooking undoes hooking: for a file without our hook, the result is the file with its final
   newline ensured, exactly when the names in the hook hold no END marker.
   */
  lemma UnwireUndoesWire(conf: string, anchor: string, file: string)
    requires Absent(conf, BEGIN)
    ensures Unwire(Wire(conf, anchor, file)) == EnsureNewline(conf) <==> Absent(anchor, END) && Absent(file, END)
  {
    Markers();
    hide BEGIN, END, Find, ManagedBlock, Marker, Absent, OccursAt;
    var base, want := EnsureNewline(conf), ManagedBlock(anchor, file);
    ManagedShape(anchor, file);
    ContainsMeans(conf, BEGIN);
    EnsureNewlineAbsent(conf, BEGIN);
    FindHook(base, want);
    FirstEnd(anchor, file);
    FindBound(want, END);
    assert Wire(conf, anchor, file) == base + want;
    CutAfter(base, want, Find(want, END, 0) + |END|);
  }

  /** A file without our hook is kept, given a final newline, and the hook goes behind it. */
  lemma WireAppends(conf: string, anchor: string, file: string)
    requires Absent(conf, BEGIN)
    ensures Wire(conf, anchor, file)
         == (if conf == "" || EndsWithNewline(conf) then conf else conf + "\n")
            + (BEGIN + "\n" + ("anchor \"" + anchor + "\"\nload anchor \"" + anchor + "\" from \"" + file + "\"\n")
               + END + "\n")
  {
    ContainsMeans(conf, BEGIN);
    hide BEGIN, END, Contains;
  }

  /** Unhooking takes out the hook, wherever it stands, and keeps what is in front of it and behind it. */
  lemma UnwireKeepsAround(pre: string, anchor: string, file: string, post: string)
    requires Absent(pre, BEGIN) && Absent(anchor, END) && Absent(file, END)
    ensures Unwire(pre + ManagedBlock(anchor, file) + post) == pre + post
  {
    var want := ManagedBlock(anchor, file);
    Markers();
    ManagedShape(anchor, file);
    FirstEnd(anchor, file);
    FindBound(want, END);
    hide BEGIN, END, ManagedBlock, Marker, Absent;
    BeginsBlock(want, post);
    hide OccursAt, Find, Unwire;
    FoundInFront(want, post, END, 0);
    FindHook(pre, want + post);
    CutAround(pre, want, post, Find(want, END, 0) + |END|);
    UnwireAt(pre + (want + post), |pre|, |pre| + Find(want, END, 0));
  }

  lemma UnwireAt(text: string, begin: nat, end: nat)
    requires Find(text, BEGIN, 0) == begin && Find(text, END, begin) == end
    requires end + |END| < |text| && text[end + |END|] == '\n'
    ensures Unwire(text) == text[..begin] + text[end + |END| + 1..]
  {
    hide BEGIN, END, Find;
  }

  lemma BeginsBlock(want: string, post: string)
    requires OccursAt(want, BEGIN, 0)
    ensures OccursAt(want + post, BEGIN, 0)
  {
    hide BEGIN;
    assert (want + post)[..|BEGIN|] == want[..|BEGIN|];
  }

  lemma CutAround(pre: string, want: string, post: string, e: nat)
    requires e == |want| - 1 && EndsWithNewline(want)
    ensures pre + want + post == pre + (want + post)
    ensures var text := pre + (want + post);
            |pre| + e < |text| && text[|pre| + e] == '\n' && text[..|pre|] + text[|pre| + e + 1..] == pre + post
  {
    var text := pre + (want + post);
    assert text[|pre| + e] == want[e];
    assert text[|pre| + e + 1..] == post;
  }

  /** A BEGIN that no END follows takes the rest of the file along. */
  lemma UnwireDangling(pre: string, rest: string)
    requires Absent(pre, BEGIN) && Absent(rest, END) && Seam(BEGIN, rest)
    ensures Unwire(pre + (BEGIN + rest)) == pre
  {
    Markers();
    var text, tail := pre + (BEGIN + rest), BEGIN + rest;
    assert tail[..|BEGIN|] == BEGIN;
    assert OccursAt(tail, BEGIN, 0);
    assert tail[0] == '#';
    hide BEGIN, END, Marker, Frames;
    OccursFromBlock(pre, tail, BEGIN);
    OccursFromBlock(pre, tail, END);
    AbsentInConcat(BEGIN, rest, END);
    forall i: nat ensures !OccursAt(BEGIN, END, i) { MarkerInMarker(BEGIN, END, i); }
    hide OccursAt;
    assert OccursAt(text, BEGIN, |pre| + 0);
    FindIs(text, BEGIN, 0, |pre|);
    NotBehind(text, END, |pre|, tail);
    assert text[..|pre|] == pre;
  }

  lemma NotBehind(text: string, p: string, from: nat, tail: string)
    requires Absent(tail, p)
    requires forall i: nat :: OccursAt(text, p, from + i) <==> OccursAt(tail, p, i)
    ensures Find(text, p, from) == -1
  {
    hide OccursAt;
    forall i: nat | i >= from ensures !OccursAt(text, p, i) {
      assert OccursAt(text, p, from + (i - from)) <==> OccursAt(tail, p, i - from);
    }
  }

  /** At an actual input: an anchor named like the END marker leaves debris in an empty file. */
  lemma EndAsAnchor(file: string)
    ensures Unwire(Wire("", END, file)) != EnsureNewline("")
  {
    Markers();
    AbsentPlain("", BEGIN);
    hide BEGIN, END, Wire, Unwire;
    assert OccursAt(END, END, 0);
    UnwireUndoesWire("", END, file);
  }

  /** What is left of base + want once want is cut from its start to after position e. */
  lemma CutAfter(base: string, want: string, e: nat)
    requires e <= |want| && EndsWithNewline(want)
    ensures var text, at := base + want, |base| + e;
            (text[..|base|] + text[if at < |text| && text[at] == '\n' then at + 1 else at..] == base)
            <==> e >= |want| - 1
  {
    var text, at := base + want, |base| + e;
    assert text[..|base|] == base;
    var rest := text[if at < |text| && text[at] == '\n' then at + 1 else at..];
    assert |base + rest| == |base| + |rest|;
    if e >= |want| - 1 {
      assert rest == "";
      assert base + rest == base;
    }
  }

  lemma FindBound(text: string, p: string)
    ensures Find(text, p, 0) + |p| <= |text| || Find(text, p, 0) == -1
  {
  }

  // --- moving the hook --------------------------------------------------

  lemma BlockInsideBlock(base: string, anchor: string, file: string, other: string, i: nat)
    requires Absent(base, BEGIN) && BlockShape(other)
    requires Absent(anchor, BEGIN) && Absent(file, BEGIN) && Absent(anchor, END) && Absent(file, END)
    requires OccursAt(base + ManagedBlock(anchor, file), other, i)
    ensures other == ManagedBlock(anchor, file)
  {
    hide BEGIN, END, ManagedBlock, Marker, Frames, OccursAt, Absent;
    Markers();
    var want := ManagedBlock(anchor, file);
    ManagedShape(anchor, file);
    BlockMarker(anchor, file, BEGIN);
    BlockMarker(anchor, file, END);
    var last := |other| - 1 - |END|;
    OccursInside(base + want, other, BEGIN, i, 0);
    OccursInside(base + want, other, END, i, last);
    OneFromBlock(base, want, BEGIN, i);
    OneFromBlock(base, want, END, i + last);
    assert OccursAt(want, BEGIN, i - |base|) && OccursAt(want, END, i + last - |base|);
    SuffixIs(base, want, other);
  }

  lemma OneFromBlock(base: string, want: string, p: string, i: nat)
    requires Marker(p) && want != "" && want[0] == '#'
    requires OccursAt(base + want, p, i) && (i >= |base| || Absent(base, p))
    ensures i >= |base| && OccursAt(want, p, i - |base|)
  {
    OccursInConcat(base, want, p, i);
    hide Marker;
    assert i < |base| ==> !OccursAt(base, p, i);
  }

  lemma OccursInside(text: string, other: string, p: string, i: nat, k: nat)
    requires OccursAt(text, other, i) && OccursAt(other, p, k)
    ensures OccursAt(text, p, i + k)
  {
    forall j | 0 <= j < |p| ensures text[i + k + j] == p[j] {
      OccursChar(text, other, i, k + j);
      OccursChar(other, p, k, j);
    }
  }

  lemma SuffixIs(base: string, want: string, other: string)
    requires OccursAt(base + want, other, |base|) && |other| == |want|
    ensures other == want
  {
    assert (base + want)[|base|..] == want;
  }

  /** Moving the hook to other names is the same as hooking those names afresh. */
  lemma RewireIsWire(conf: string, anchor1: string, file1: string, anchor2: string, file2: string)
    requires Absent(conf, BEGIN)
    requires Absent(anchor1, BEGIN) && Absent(file1, BEGIN) && Absent(anchor1, END) && Absent(file1, END)
    ensures Wire(Wire(conf, anchor1, file1), anchor2, file2) == Wire(conf, anchor2, file2)
  {
    Markers();
    hide BEGIN, END, Find, ManagedBlock, Marker, Absent, Unwire, OccursAt, Contains;
    var base, want1, want2 := EnsureNewline(conf), ManagedBlock(anchor1, file1), ManagedBlock(anchor2, file2);
    ManagedShape(anchor2, file2);
    ContainsMeans(conf, BEGIN);
    EnsureNewlineAbsent(conf, BEGIN);
    assert Wire(conf, anchor1, file1) == base + want1;
    HoldsBegin(base, anchor1, file1);
    ContainsMeans(base + want1, want2);
    if Contains(base + want1, want2) {
      var i: nat :| OccursAt(base + want1, want2, i);
      BlockInsideBlock(base, anchor1, file1, want2, i);
    } else {
      UnwireUndoesWire(conf, anchor1, file1);
    }
  }

  lemma HoldsBegin(base: string, anchor: string, file: string)
    ensures Contains(base + ManagedBlock(anchor, file), BEGIN)
  {
    hide BEGIN, END, References, Contains;
    var rest := "\n" + References(anchor, file) + END + "\n";
    assert base + ManagedBlock(anchor, file) == base + BEGIN + rest;
    ContainsPart(base, BEGIN, rest);
  }
}
