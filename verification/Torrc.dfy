/** Editing torrc: the marker-delimited managed block and everything around it. */
module Torrc {
  import opened Text

  // written in two parts, each short enough for the verifier to look at all its characters
  const BEGIN: string := "# >>> torando-gui managed block" + " (do not edit by hand) >>>"
  const END: string := "# <<< torando-gui managed block <<<"

  lemma Markers()
    ensures Marker(BEGIN) && Marker(END)
    ensures |BEGIN| > 0 && |END| > 0 && BEGIN != END && Frames(BEGIN, END)
  {
  }

  /** Where the line after a marker that ends at e starts: the newline belongs to the block. */
  function SkipNewline(text: string, e: nat): (r: nat)
    requires e <= |text|
    ensures e <= r <= |text|
  {
    if e < |text| && text[e] == '\n' then e + 1 else e
  }

  // --- the code ---------------------------------------------------------

  /** text without its managed spans, taken out first to last; a dangling BEGIN takes the rest along. */
  function Strip(text: string): string
    decreases |text|
  {
    var b := Find(text, BEGIN, 0);
    if b == -1 then text
    else
      var e := Find(text, END, b);
      if e == -1 then text[..b]
      else Strip(text[..b] + text[SkipNewline(text, e + |END|)..])
  }

  /** _strip_managed_blocks: every round takes at least an END marker out of the text. */
  method StripManagedBlocks(text0: string) returns (text: string)
    ensures text == Strip(text0)
  {
    hide BEGIN, END, Find, Marker, Frames;
    Markers();
    text := text0;
    while true
      invariant Strip(text) == Strip(text0)
      decreases |text|
    {
      var b := Find(text, BEGIN, 0);
      if b == -1 { return; }
      var e := Find(text, END, b);
      if e == -1 { return text[..b]; }
      e := e + |END|;
      if e < |text| && text[e] == '\n' { e := e + 1; }
      text := text[..b] + text[e..];
    }
  }

  function Merge(existing: string, block: string): string {
    var begin := Find(existing, BEGIN, 0);
    if begin == -1 then
      EnsureNewline(existing) + (if existing == "" then "" else "\n") + block
    else
      var end := Find(existing, END, begin);
      if end == -1 then existing[..begin] + block
      else existing[..begin] + block + Strip(existing[SkipNewline(existing, end + |END|)..])
  }

  // --- what a merge keeps of the old text -------------------------------

  /** Everything a merge keeps before the block. */
  function Head(x: string): string {
    var begin := Find(x, BEGIN, 0);
    if begin == -1 then EnsureNewline(x) + (if x == "" then "" else "\n") else x[..begin]
  }

  /** Everything a merge keeps after the block. */
  function Tail(x: string): string {
    var begin := Find(x, BEGIN, 0);
    if begin == -1 then ""
    else
      var end := Find(x, END, begin);
      if end == -1 then "" else Strip(x[SkipNewline(x, end + |END|)..])
  }

  lemma MergeParts(x: string, b: string)
    ensures Merge(x, b) == Head(x) + b + Tail(x)
  {
    hide Strip, Find;
    assert Head(x) + b + "" == Head(x) + b;
  }

  /** Nothing that is left after stripping opens a managed block. */
  lemma {:induction false} StripLeavesNoBegin(text: string)
    ensures Absent(Strip(text), BEGIN)
    decreases |text|
  {
    hide BEGIN, END, Find, Marker, Frames;
    Markers();
    var b := Find(text, BEGIN, 0);
    if b != -1 {
      var e := Find(text, END, b);
      if e == -1 {
        AbsentInPrefix(text, BEGIN, b);
      } else {
        StripLeavesNoBegin(text[..b] + text[SkipNewline(text, e + |END|)..]);
      }
    }
  }

  lemma PartsHaveNoBegin(x: string)
    ensures Absent(Head(x), BEGIN) && Absent(Tail(x), BEGIN)
  {
    hide BEGIN, END, Find, Strip, Marker, Frames;
    Markers();
    var begin := Find(x, BEGIN, 0);
    AbsentPlain("", BEGIN);
    AbsentPlain("\n", BEGIN);
    if begin == -1 {
      AbsentInConcat(x, "\n", BEGIN);
      AbsentInConcat(EnsureNewline(x), "\n", BEGIN);
      assert EnsureNewline(x) + "" == EnsureNewline(x);
    } else {
      AbsentInPrefix(x, BEGIN, begin);
      var end := Find(x, END, begin);
      if end != -1 { StripLeavesNoBegin(x[SkipNewline(x, end + |END|)..]); }
    }
  }

  // --- blocks -----------------------------------------------------------

  /** Text that BEGIN opens and END and a newline close, whatever markers stand between. */
  predicate Framed(b: string) { OccursAt(b, BEGIN, 0) && b != "" && Closed(b, END) }

  /** No BEGIN but at the start. */
  predicate OneBegin(b: string) { forall i: nat :: i < |b| && OccursAt(b, BEGIN, i) ==> i == 0 }

  /** No END but as the last line. */
  predicate OneEnd(b: string)
    requires |b| > |END|
  {
    forall i: nat :: i < |b| && OccursAt(b, END, i) ==> i == |b| - 1 - |END|
  }

  /** A managed block: framed, with each marker once. */
  predicate IsBlock(b: string) { Framed(b) && OneBegin(b) && OneEnd(b) }

  lemma FramedStarts(b: string)
    requires Framed(b)
    ensures b != "" && b[0] == '#' && EndsWithNewline(b) && |b| > |END|
    ensures 0 <= Find(b, END, 0) <= |b| - 1 - |END|
  {
    Markers();
    hide BEGIN, END, OccursAt, Marker;
    MarkerHash(b, BEGIN, 0);
    assert OccursAt(b, END, |b| - 1 - |END|);
  }

  /** What a framed text holds behind its first END. */
  function Remainder(b: string): string
    requires Framed(b)
  {
    FramedStarts(b);
    b[SkipNewline(b, Find(b, END, 0) + |END|)..]
  }

  /** Where the markers are in text that has a framed part after text without BEGIN. */
  lemma FindFrame(pre: string, b: string, post: string)
    requires Framed(b) && Absent(pre, BEGIN)
    ensures Find(pre + b + post, BEGIN, 0) == |pre|
    ensures Find(b, END, 0) != -1 && Find(pre + b + post, END, |pre|) == |pre| + Find(b, END, 0)
    ensures (pre + b + post)[SkipNewline(pre + b + post, |pre| + Find(b, END, 0) + |END|)..] == Remainder(b) + post
  {
    FramedStarts(b);
    Markers();
    hide Framed, Find, BEGIN, END, OccursAt, Marker, Frames;
    FindFrameMarkers(pre, b, post);
    SkipInside(pre, b, post, Find(b, END, 0) + |END|);
  }

  /** Occurrences of a marker that start inside the block are the block's own. */
  lemma FindInParts(pre: string, b: string, post: string, p: string)
    requires Marker(p) && b != "" && b[0] == '#' && EndsWithNewline(b)
    ensures forall i: nat :: i < |pre| ==> (OccursAt(pre + b + post, p, i) ==> OccursAt(pre, p, i))
    ensures forall i: nat :: i < |b| ==> (OccursAt(pre + b + post, p, |pre| + i) <==> OccursAt(b, p, i))
    ensures forall i: nat :: OccursAt(pre + b + post, p, |pre| + |b| + i) <==> OccursAt(post, p, i)
  {
    hide Marker;
    assert pre + b + post == pre + (b + post);
    forall i: nat ensures i < |pre| ==> (OccursAt(pre + b + post, p, i) ==> OccursAt(pre, p, i)) {
      OccursInConcat(pre, b + post, p, i);
    }
    forall i: nat ensures i < |b| ==> (OccursAt(pre + b + post, p, |pre| + i) <==> OccursAt(b, p, i)) {
      OccursInConcat(pre, b + post, p, |pre| + i);
      OccursInConcat(b, post, p, i);
    }
    forall i: nat ensures OccursAt(pre + b + post, p, |pre| + |b| + i) <==> OccursAt(post, p, i) {
      OccursInConcat(pre, b + post, p, |pre| + |b| + i);
      OccursInConcat(b, post, p, |b| + i);
    }
  }

  lemma SkipInside(pre: string, b: string, post: string, e: nat)
    requires e < |b|
    ensures (pre + b + post)[SkipNewline(pre + b + post, |pre| + e)..] == b[SkipNewline(b, e)..] + post
  {
    var text := pre + b + post;
    assert text[|pre| + e] == b[e];
    assert text[|pre| + SkipNewline(b, e)..] == b[SkipNewline(b, e)..] + post;
  }

  lemma FindFrameMarkers(pre: string, b: string, post: string)
    requires Framed(b) && Absent(pre, BEGIN)
    ensures Find(pre + b + post, BEGIN, 0) == |pre|
    ensures Find(b, END, 0) != -1 && Find(pre + b + post, END, |pre|) == |pre| + Find(b, END, 0)
  {
    FramedStarts(b);
    Markers();
    hide OccursAt, BEGIN, END, Marker, Frames, Absent;
    assert OccursAt(b, BEGIN, 0);
    hide Framed;
    FindBehind(pre, b, post);
    FindInside(pre, b, post, END);
  }

  lemma FindBehind(pre: string, b: string, post: string)
    requires Marker(BEGIN) && b != "" && b[0] == '#' && EndsWithNewline(b)
    requires Absent(pre, BEGIN) && OccursAt(b, BEGIN, 0)
    ensures Find(pre + b + post, BEGIN, 0) == |pre|
  {
    hide OccursAt, BEGIN, END, Marker;
    FindInParts(pre, b, post, BEGIN);
    assert OccursAt(pre + b + post, BEGIN, |pre| + 0);
    FindIs(pre + b + post, BEGIN, 0, |pre|);
  }

  /** What a text holds is found there first when the search starts at that text. */
  lemma FindInside(pre: string, b: string, post: string, p: string)
    requires Marker(p) && b != "" && b[0] == '#' && EndsWithNewline(b) && 0 <= Find(b, p, 0) < |b|
    ensures Find(pre + b + post, p, |pre|) == |pre| + Find(b, p, 0)
  {
    hide OccursAt, Marker;
    FindInParts(pre, b, post, p);
    var text, first := pre + b + post, Find(b, p, 0);
    assert OccursAt(text, p, |pre| + first);
    forall i: nat | |pre| <= i < |pre| + first ensures !OccursAt(text, p, i) {
      assert OccursAt(text, p, |pre| + (i - |pre|)) <==> OccursAt(b, p, i - |pre|);
    }
    FindIs(text, p, |pre|, |pre| + first);
  }

  // --- theorems ---------------------------------------------------------

  /** A framed part is replaced up to its first END; what follows that is stripped with the rest. */
  lemma MergeOver(pre: string, former: string, post: string, b: string)
    requires Framed(former) && Absent(pre, BEGIN)
    ensures Merge(pre + former + post, b) == pre + b + Strip(Remainder(former) + post)
  {
    hide Absent, Framed, BEGIN, END, Strip, Find, Remainder;
    FindFrame(pre, former, post);
    assert (pre + former + post)[..|pre|] == pre;
  }

  /** Behind the first END of a framed text there is nothing, or text that the last END closes. */
  lemma RemainderClosed(b: string)
    requires Framed(b)
    ensures Closed(Remainder(b), END)
    ensures Strip(b) == Strip(Remainder(b))
  {
    hide BEGIN, END, OccursAt, Find, Closed;
    FramedStarts(b);
    CutCloses(b, Find(b, END, 0));
    FindIs(b, BEGIN, 0, 0);
    assert b[..0] + Remainder(b) == Remainder(b);
  }

  /** Cutting a closed text behind one of its ENDs leaves a closed text: markers do not overlap. */
  lemma CutCloses(t: string, e: nat)
    requires Closed(t, END) && t != "" && OccursAt(t, END, e)
    ensures e + |END| < |t| && Closed(t[SkipNewline(t, e + |END|)..], END)
    ensures e < |t| - 1 - |END| ==> SkipNewline(t, e + |END|) < |t|
  {
    var last := |t| - 1 - |END|;
    Markers();
    hide BEGIN, END, OccursAt, Marker;
    ClosedLast(t, END, END, e);
    Apart(t, END, END, e, last);
    MarkerHash(t, END, last);
    if e < last { ClosedRest(t, END, SkipNewline(t, e + |END|)); }
  }

  /** Closed text that strips to nothing does so in front of any text without BEGIN. */
  lemma {:induction false} StripBefore(a: string, post: string)
    requires Closed(a, END) && Strip(a) == "" && Absent(post, BEGIN)
    ensures Strip(a + post) == post
    decreases |a|
  {
    hide BEGIN, END, OccursAt, Find, Marker, Closed, Absent;
    Markers();
    if a == "" {
      assert a + post == post;
      FindNothing(post, BEGIN, 0);
    } else {
      var b := Find(a, BEGIN, 0);
      if b == -1 {
        StripPlainText(a);
      } else {
        BeginThenEnd(a, b);
        var from := SkipNewline(a, Find(a, END, b) + |END|);
        CutCloses(a, Find(a, END, b));
        StripCut(a, b, a[from..]);
        RoundInFront(a, post);
        StripBefore(a[..b] + a[from..], post);
      }
    }
  }

  lemma StripPlainText(a: string)
    requires Find(a, BEGIN, 0) == -1
    ensures Strip(a) == a
  {
  }

  lemma StripStep(text: string, b: nat, e: nat)
    requires b == Find(text, BEGIN, 0) && e == Find(text, END, b)
    ensures e + |END| <= |text| && Strip(text) == Strip(text[..b] + text[SkipNewline(text, e + |END|)..])
  {
    hide BEGIN, END, Find;
  }

  /** A round of stripping does the same whatever follows the closed text it works on. */
  lemma RoundInFront(a: string, post: string)
    requires Closed(a, END) && a != "" && Find(a, BEGIN, 0) != -1
    ensures var b := Find(a, BEGIN, 0);
            var e := Find(a, END, b);
            && e != -1
            && Strip(a + post) == Strip(a[..b] + a[SkipNewline(a, e + |END|)..] + post)
  {
    Markers();
    hide BEGIN, END, OccursAt, Find, Marker, Frames, Closed, Strip;
    var b := Find(a, BEGIN, 0);
    BeginThenEnd(a, b);
    var e := Find(a, END, b);
    FoundInFront(a, post, BEGIN, 0);
    FoundInFront(a, post, END, b);
    CutCloses(a, e);
    StripStep(a + post, b, e);
    CutInFront(a, post, b, e + |END|);
  }

  lemma CutInFront(a: string, post: string, b: nat, e: nat)
    requires b <= e < |a|
    ensures (a + post)[..b] + (a + post)[SkipNewline(a + post, e)..] == a[..b] + a[SkipNewline(a, e)..] + post
  {
    var from := SkipNewline(a, e);
    assert (a + post)[..b] == a[..b] && (a + post)[from..] == a[from..] + post;
    assert a[..b] + (a[from..] + post) == a[..b] + a[from..] + post;
  }

  /** In closed text every BEGIN is followed by an END. */
  lemma BeginThenEnd(a: string, b: int)
    requires Closed(a, END) && a != "" && b >= -1 && (b >= 0 ==> OccursAt(a, BEGIN, b))
    ensures b >= 0 ==> Find(a, END, b) != -1
    ensures EndsWithNewline(a)
  {
    Markers();
    hide BEGIN, END, OccursAt, Marker;
    if b >= 0 {
      ClosedLast(a, END, BEGIN, b);
      assert OccursAt(a, END, |a| - 1 - |END|);
    }
  }

  /** When a round of stripping reaches the end of the text, what was in front has to be empty. */
  lemma StripCut(a: string, b: nat, rest: string)
    requires Closed(rest, END) && b <= |a| && b == Find(a, BEGIN, 0) && Strip(a[..b] + rest) == ""
    ensures Closed(a[..b] + rest, END)
  {
    Markers();
    hide BEGIN, END, OccursAt, Marker, Closed, Find;
    if rest == "" {
      assert a[..b] + rest == a[..b];
      AbsentInPrefix(a, BEGIN, b);
      FindNothing(a[..b], BEGIN, 0);
      assert Closed("", END) by { NothingIsClosed(); }
    } else {
      ClosedBehind(a[..b], rest, END);
    }
  }

  lemma NothingIsClosed()
    ensures Closed("", END)
  {
    hide END;
  }

  /** A framed text without an END of its own strips to nothing; without a BEGIN of its own, only then. */
  lemma StripsToNothing(b: string)
    requires Framed(b)
    ensures OneEnd(b) ==> Remainder(b) == "" && Strip(b) == ""
    ensures OneBegin(b) && Strip(b) == "" ==> OneEnd(b)
  {
    hide BEGIN, END, OccursAt, Strip, Find, OneBegin, Framed, Closed;
    FramedStarts(b);
    RemainderClosed(b);
    var e, last := Find(b, END, 0), |b| - 1 - |END|;
    if e == last {
      assert Remainder(b) == "" by { CutAtLast(b); }
      StripNothing();
      forall i: nat | OccursAt(b, END, i) ensures i == last { EndsBy(b, i); }
    } else if OneBegin(b) {
      RemainderPlain(b);
    }
  }

  lemma CutAtLast(b: string)
    requires Framed(b) && Find(b, END, 0) == |b| - 1 - |END|
    ensures Remainder(b) == ""
  {
    hide BEGIN, END, OccursAt, Find;
  }

  lemma StripNothing()
    ensures Strip("") == ""
  {
    Markers();
    AbsentPlain("", BEGIN);
    FindNothing("", BEGIN, 0);
  }

  lemma EndsBy(b: string, i: nat)
    requires Framed(b) && OccursAt(b, END, i)
    ensures Find(b, END, 0) <= i <= |b| - 1 - |END|
  {
    Markers();
    hide BEGIN, END, OccursAt, Marker;
    ClosedLast(b, END, END, i);
  }

  lemma RemainderPlain(b: string)
    requires Framed(b) && 0 <= Find(b, END, 0) < |b| - 1 - |END| && OneBegin(b)
    ensures Remainder(b) != "" && Strip(Remainder(b)) == Remainder(b)
  {
    FramedStarts(b);
    Markers();
    hide BEGIN, END, OccursAt, Marker, Find;
    CutCloses(b, Find(b, END, 0));
    var from := SkipNewline(b, Find(b, END, 0) + |END|);
    forall i: nat ensures !OccursAt(Remainder(b), BEGIN, i) {
      OccursInRest(b, from, BEGIN, i);
      OccursShort(b, BEGIN, from + i);
    }
    FindNothing(Remainder(b), BEGIN, 0);
  }

  /**
   Merging over a framed text leaves no trace of it, on any torrc, exactly when the framed text strips
   to nothing; when it does not, a trace stays even on the empty torrc.
   */
  lemma MergeAbsorbs(x: string, b1: string, b2: string)
    requires Framed(b1)
    ensures Strip(b1) == "" ==> Merge(Merge(x, b1), b2) == Merge(x, b2)
    ensures Merge(Merge("", b1), b2) == Merge("", b2) <==> Strip(b1) == ""
  {
    MergeOnNothing(b1, b2);
    hide Find, Strip, Framed, Absent;
    if Strip(b1) == "" {
      MergeParts(x, b1);
      MergeParts(x, b2);
      PartsHaveNoBegin(x);
      MergeReplaces(Head(x), b1, Tail(x), b2);
    }
  }

  lemma MergeOnNothing(b1: string, b2: string)
    requires Framed(b1)
    ensures Merge("", b1) == b1 && Merge("", b2) == b2
    ensures Merge(b1, b2) == b2 + Strip(b1)
  {
    Markers();
    AbsentPlain("", BEGIN);
    RemainderClosed(b1);
    MergeOver("", b1, "", b2);
    MergeNothing(b1);
    MergeNothing(b2);
    hide *;
    assert "" + b1 + "" == b1 && Remainder(b1) + "" == Remainder(b1) && "" + b2 == b2;
  }

  lemma MergeNothing(b: string)
    ensures Merge("", b) == b
  {
    Markers();
    AbsentPlain("", BEGIN);
    FindNothing("", BEGIN, 0);
    hide BEGIN, END;
    assert "" + "" + b == b;
  }

  /** A framed text that strips to nothing is replaced in place; the text around it stays to the character. */
  lemma MergeReplaces(pre: string, former: string, post: string, b: string)
    requires Framed(former) && Strip(former) == ""
    requires Absent(pre, BEGIN) && Absent(post, BEGIN)
    ensures Merge(pre + former + post, b) == pre + b + post
  {
    hide Absent, Framed, Merge, BEGIN, END, Find, Remainder, Closed;
    MergeOver(pre, former, post, b);
    RemainderClosed(former);
    StripBefore(Remainder(former), post);
  }

  /** A proper block has nothing behind its END, and so strips to nothing. */
  lemma BlockStrips(b: string)
    requires IsBlock(b)
    ensures Framed(b) && Remainder(b) == "" && Strip(b) == ""
  {
    hide BEGIN, END, OccursAt, Closed, Strip;
    FramedStarts(b);
    StripsToNothing(b);
  }

  /**
   After a merge the text holds exactly one BEGIN: where the old text had its first, or else behind
   all of it. What stood before that place is kept verbatim.
   */
  lemma MergeHasOneBegin(x: string, b: string)
    requires IsBlock(b)
    ensures forall i: nat :: OccursAt(Merge(x, b), BEGIN, i) <==> i == |Head(x)|
    ensures var i := Find(x, BEGIN, 0);
            if i == -1 then |Head(x)| >= |x| && x <= Merge(x, b) else |Head(x)| == i && x[..i] <= Merge(x, b)
  {
    MergeKeepsText(x, b);
    hide Merge, Head, Tail, IsBlock, BEGIN, Absent;
    PartsHaveNoBegin(x);
    MergeParts(x, b);
    OneBeginIn(Head(x), b, Tail(x));
  }

  lemma OneBeginIn(pre: string, b: string, post: string)
    requires IsBlock(b) && Absent(pre, BEGIN) && Absent(post, BEGIN)
    ensures forall i: nat :: OccursAt(pre + b + post, BEGIN, i) <==> i == |pre|
  {
    Markers();
    FramedStarts(b);
    hide BEGIN, END, OccursAt;
    FindInParts(pre, b, post, BEGIN);
    forall i: nat ensures OccursAt(pre + b + post, BEGIN, i) <==> i == |pre| {
      if i < |pre| {
        assert !OccursAt(pre, BEGIN, i);
      } else if i < |pre| + |b| {
        assert OccursAt(pre + b + post, BEGIN, |pre| + (i - |pre|)) <==> OccursAt(b, BEGIN, i - |pre|);
      } else {
        var j := i - |pre| - |b|;
        assert OccursAt(pre + b + post, BEGIN, |pre| + |b| + j) <==> OccursAt(post, BEGIN, j);
      }
    }
  }

  /** Text before the first BEGIN, and a whole text without BEGIN, is kept verbatim. */
  lemma MergeKeepsText(x: string, b: string)
    ensures var i := Find(x, BEGIN, 0);
            if i == -1 then |Head(x)| >= |x| && x <= Merge(x, b) else |Head(x)| == i && x[..i] <= Merge(x, b)
  {
    hide Strip, Find, BEGIN, END;
  }

  /** A text without BEGIN is kept, ended, and the block set off from it by one blank line. */
  lemma MergeAppends(x: string, b: string)
    requires Absent(x, BEGIN)
    ensures Merge(x, b)
         == if x == "" then b else if x[|x| - 1] == '\n' then x + "\n" + b else x + "\n\n" + b
  {
    FindNothing(x, BEGIN, 0);
    hide BEGIN, END, Strip;
    MergeNothing(b);
    assert x + "\n" + "\n" + b == x + "\n\n" + b;
  }

  /** A BEGIN that no END follows takes the rest of the text along. */
  lemma MergeDangling(pre: string, rest: string, b: string)
    requires Absent(pre, BEGIN) && Absent(rest, END) && Seam(BEGIN, rest)
    ensures Merge(pre + (BEGIN + rest), b) == pre + b
    ensures Strip(pre + (BEGIN + rest)) == pre
  {
    FindDangling(pre, rest);
    hide BEGIN, END, Find;
    assert (pre + (BEGIN + rest))[..|pre|] == pre;
  }

  lemma FindDangling(pre: string, rest: string)
    requires Absent(pre, BEGIN) && Absent(rest, END) && Seam(BEGIN, rest)
    ensures Find(pre + (BEGIN + rest), BEGIN, 0) == |pre| && Find(pre + (BEGIN + rest), END, |pre|) == -1
  {
    FindOpening(pre, rest);
    NoClosing(rest);
    var tail := BEGIN + rest;
    assert tail[0] == '#' by { assert BEGIN[0] == '#'; }
    Markers();
    hide BEGIN, END, Marker, Frames, OccursAt;
    forall i: nat | i >= |pre| ensures !OccursAt(pre + tail, END, i) { OccursInConcat(pre, tail, END, i); }
  }

  lemma NoClosing(rest: string)
    requires Absent(rest, END) && Seam(BEGIN, rest)
    ensures Absent(BEGIN + rest, END)
  {
    Markers();
    hide BEGIN, END, Marker, Frames, OccursAt;
    forall i: nat ensures !OccursAt(BEGIN, END, i) { MarkerInMarker(BEGIN, END, i); }
    AbsentInConcat(BEGIN, rest, END);
  }

  lemma FindOpening(pre: string, rest: string)
    requires Absent(pre, BEGIN)
    ensures Find(pre + (BEGIN + rest), BEGIN, 0) == |pre|
  {
    var tail := BEGIN + rest;
    assert tail[0] == '#' by { assert BEGIN[0] == '#'; }
    Markers();
    hide BEGIN, Marker, Frames;
    assert OccursAt(tail, BEGIN, 0) by { assert tail[..|BEGIN|] == BEGIN; }
    hide OccursAt;
    forall i: nat | i <= |pre| ensures OccursAt(pre + tail, BEGIN, i) <==> i == |pre| {
      OccursInConcat(pre, tail, BEGIN, i);
      OccursShort(pre, BEGIN, i);
    }
    FindIs(pre + tail, BEGIN, 0, |pre|);
  }

  /** Own text, each piece preceded by a managed block. */
  datatype Piece = Piece(block: string, own: string)

  function Join(ps: seq<Piece>): string {
    if ps == [] then "" else ps[0].block + ps[0].own + Join(ps[1..])
  }

  function Own(ps: seq<Piece>): string {
    if ps == [] then "" else ps[0].own + Own(ps[1..])
  }

  predicate AllBlocks(ps: seq<Piece>) {
    forall i :: 0 <= i < |ps| ==> IsBlock(ps[i].block)
  }

  /** One round of stripping. */
  lemma StripRound(pre: string, b: string, post: string)
    requires Framed(b) && Absent(pre, BEGIN)
    ensures Strip(pre + b + post) == Strip(pre + (Remainder(b) + post))
  {
    hide Framed, Remainder, Find, BEGIN, END, Absent;
    FindFrame(pre, b, post);
    assert (pre + b + post)[..|pre|] == pre;
  }

  /** Stripping takes out every complete block and nothing else. */
  lemma {:induction false} StripKeepsOwnText(pre: string, ps: seq<Piece>)
    requires AllBlocks(ps) && Absent(pre + Own(ps), BEGIN)
    ensures Strip(pre + Join(ps)) == pre + Own(ps)
    decreases ps
  {
    Markers();
    hide IsBlock, Find, BEGIN, END, OccursAt, Marker, Frames, Framed, Remainder, Closed, Strip;
    if ps == [] {
      FindNothing(pre + Own(ps), BEGIN, 0);
      StripPlain(pre + Own(ps));
    } else {
      var p, rest := ps[0], Join(ps[1..]);
      assert pre + Join(ps) == pre + p.block + (p.own + rest);
      AbsentInPrefix(pre + Own(ps), BEGIN, |pre|);
      assert (pre + Own(ps))[..|pre|] == pre;
      BlockStrips(p.block);
      StripRound(pre, p.block, p.own + rest);
      assert pre + ("" + (p.own + rest)) == pre + p.own + Join(ps[1..]);
      assert pre + Own(ps) == pre + p.own + Own(ps[1..]);
      StripKeepsOwnText(pre + p.own, ps[1..]);
    }
  }

  lemma StripPlain(text: string)
    requires Absent(text, BEGIN)
    ensures Strip(text) == text
  {
    FindNothing(text, BEGIN, 0);
    hide BEGIN, END;
  }

  /** However many blocks a torrc has collected, a merge collapses them into one and keeps the rest. */
  lemma MergeCollapses(pre: string, ps: seq<Piece>, b: string)
    requires ps != [] && AllBlocks(ps)
    requires Absent(pre, BEGIN) && Absent(Own(ps), BEGIN)
    ensures Merge(pre + Join(ps), b) == pre + b + Own(ps)
  {
    hide IsBlock, Absent, BEGIN, END, Strip, Find;
    var p, rest := ps[0], ps[0].own + Join(ps[1..]);
    var x := pre + p.block + rest;
    assert pre + Join(ps) == x;
    BlockStrips(p.block);
    MergeOver(pre, p.block, rest, b);
    assert "" + rest == rest;
    StripKeepsOwnText(p.own, ps[1..]);
  }
}
