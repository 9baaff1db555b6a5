/** Which resolver files count as our pin, and what a lock and a restore leave in every case. */
module ResolverFiles {
  import opened Text
  import opened Wrappers
  import opened Host
  import opened Runs
  import opened Resolver

  /** A line of a file and what ends it. */
  datatype Ended = Ended(text: string, eol: string)

  predicate NoBreak(text: string) { forall i :: 0 <= i < |text| ==> !IsBreak(text[i]) }

  /** CR LF, or one character that breaks lines; a lone CR must not run into an LF. */
  predicate EndsLine(eol: string, rest: string) {
    eol == "\r\n" || (|eol| == 1 && IsBreak(eol[0]) && (eol[0] == '\r' ==> rest == "" || rest[0] != '\n'))
  }

  /** A file: its ended lines, and what stands behind the last end. */
  function FileOf(ls: seq<Ended>, last: string): string {
    if ls == [] then last else ls[0].text + ls[0].eol + FileOf(ls[1..], last)
  }

  predicate Lined(ls: seq<Ended>, last: string) {
    if ls == [] then NoBreak(last)
    else NoBreak(ls[0].text) && EndsLine(ls[0].eol, FileOf(ls[1..], last)) && Lined(ls[1..], last)
  }

  function TextsOf(ls: seq<Ended>, last: string): (ts: seq<string>)
    ensures |ts| == |ls| + 1
  {
    if ls == [] then [last] else [ls[0].text] + TextsOf(ls[1..], last)
  }

  /** A line counts if it is not blank and does not, once stripped, start a comment. */
  predicate Counts(line: string) { Trim(line) != "" && Trim(line)[0] != '#' }

  /** Exactly one line counts, and stripped it is this one. */
  predicate OnlyCounts(ts: seq<string>, line: string) {
    exists i :: 0 <= i < |ts| && Counts(ts[i]) && Trim(ts[i]) == line
                && forall j :: 0 <= j < |ts| && j != i ==> !Counts(ts[j])
  }

  function Counted(ts: seq<string>): seq<string> {
    if ts == [] then [] else (if Counts(ts[0]) then [Trim(ts[0])] else []) + Counted(ts[1..])
  }

  lemma {:induction false} MeaningfulUpTo(s: string, line: string, eol: string, rest: string)
    requires NoBreak(s) && EndsLine(eol, rest)
    ensures Meaningful(s + eol + rest, line) == Flush(line + s) + Meaningful(rest, "")
    decreases |s|
  {
    hide Flush;
    var text := s + eol + rest;
    if s == "" {
      assert line + s == line && text == eol + rest;
      assert text[0] == eol[0] && IsBreak(text[0]);
      if eol == "\r\n" {
        assert text[1] == '\n' && text[2..] == rest;
      } else {
        assert text[1..] == rest;
      }
    } else {
      assert text[0] == s[0] && text[1..] == s[1..] + eol + rest && !IsBreak(s[0]);
      assert line + [s[0]] + s[1..] == line + s;
      MeaningfulUpTo(s[1..], line + [s[0]], eol, rest);
    }
  }

  lemma {:induction false} MeaningfulLast(s: string, line: string)
    requires NoBreak(s)
    ensures Meaningful(s, line) == Flush(line + s)
    decreases |s|
  {
    hide Flush;
    if s == "" {
      assert line + s == line;
    } else {
      assert !IsBreak(s[0]) && line + [s[0]] + s[1..] == line + s;
      MeaningfulLast(s[1..], line + [s[0]]);
    }
  }

  lemma {:induction false} MeaningfulLines(ls: seq<Ended>, last: string)
    requires Lined(ls, last)
    ensures Meaningful(FileOf(ls, last), "") == Counted(TextsOf(ls, last))
    decreases ls
  {
    hide Meaningful, Trim;
    if ls == [] {
      MeaningfulLast(last, "");
      assert "" + last == last && [last][1..] == [];
      assert Counted([last]) == Flush(last);
    } else {
      MeaningfulUpTo(ls[0].text, "", ls[0].eol, FileOf(ls[1..], last));
      MeaningfulLines(ls[1..], last);
      assert "" + ls[0].text == ls[0].text && TextsOf(ls, last)[1..] == TextsOf(ls[1..], last);
    }
  }

  lemma {:induction false} CountedNone(ts: seq<string>)
    ensures Counted(ts) == [] <==> forall j :: 0 <= j < |ts| ==> !Counts(ts[j])
  {
    hide Counts, Trim;
    if ts != [] {
      CountedNone(ts[1..]);
      assert forall j :: 0 < j < |ts| ==> ts[j] == ts[1..][j - 1];
      if Counted(ts) != [] && !Counts(ts[0]) {
        var j :| 0 <= j < |ts[1..]| && Counts(ts[1..][j]);
        assert ts[j + 1] == ts[1..][j];
      }
    }
  }

  lemma {:induction false} CountedOne(ts: seq<string>, line: string)
    ensures Counted(ts) == [line] <==> OnlyCounts(ts, line)
  {
    hide Counts, Trim;
    if ts != [] {
      CountedOne(ts[1..], line);
      CountedNone(ts[1..]);
      OnlyStep(ts, ts[1..], line);
      hide OnlyCounts;
      if Counts(ts[0]) {
        assert Counted(ts) == [Trim(ts[0])] + Counted(ts[1..]);
        assert Counted(ts)[0] == Trim(ts[0]) && Counted(ts)[1..] == Counted(ts[1..]);
      }
    }
  }

  lemma OnlyStep(ts: seq<string>, rest: seq<string>, line: string)
    requires ts != [] && rest == ts[1..]
    ensures Counts(ts[0]) ==>
              (OnlyCounts(ts, line) <==> Trim(ts[0]) == line && forall j :: 0 <= j < |rest| ==> !Counts(rest[j]))
    ensures !Counts(ts[0]) ==> (OnlyCounts(ts, line) <==> OnlyCounts(rest, line))
  {
    hide Counts, Trim;
    assert forall j :: 0 <= j < |rest| ==> rest[j] == ts[j + 1];
    assert forall j :: 0 < j < |ts| ==> ts[j] == rest[j - 1];
    if OnlyCounts(ts, line) {
      var i :| 0 <= i < |ts| && Counts(ts[i]) && Trim(ts[i]) == line
               && forall j :: 0 <= j < |ts| && j != i ==> !Counts(ts[j]);
      if i > 0 { assert rest[i - 1] == ts[i]; }
    }
    if !Counts(ts[0]) && OnlyCounts(rest, line) {
      var i :| 0 <= i < |rest| && Counts(rest[i]) && Trim(rest[i]) == line
               && forall j :: 0 <= j < |rest| && j != i ==> !Counts(rest[j]);
      assert ts[i + 1] == rest[i];
    }
  }

  /** A file is our pin exactly if one single line of it counts, and that one reads, stripped, as the pin. */
  lemma OurPinExactly(ls: seq<Ended>, last: string)
    requires Lined(ls, last)
    ensures IsOnlyOurPin(FileOf(ls, last)) <==> OnlyCounts(TextsOf(ls, last), "nameserver 127.0.0.1")
  {
    MeaningfulLines(ls, last);
    CountedOne(TextsOf(ls, last), PIN_LINE);
    hide Meaningful, Counted, TextsOf, OnlyCounts, FileOf;
  }

  /** What a lock that works leaves: the pin, and in the backup whatever was there unless it was our pin. */
  lemma LockOutcome(w: World<Host>, faults: Faults<Command>)
    ensures LockResolv(w, faults).ok <==>
            if w.host.resolv.None? || IsOnlyOurPin(w.host.resolv.value) then faults(Pin, w.tick)
            else faults(Capture, w.tick) && faults(Pin, w.tick + 1)
    ensures LockResolv(w, faults).ok ==>
              LockResolv(w, faults).w.host == w.host.(
              resolv := Some("nameserver 127.0.0.1\n"),
              backup := if w.host.resolv.Some? && !IsOnlyOurPin(w.host.resolv.value) then w.host.resolv
              else w.host.backup)
  {
    hide IsOnlyOurPin;
  }

  /** A file with any counting line besides the pin is in the backup after a lock that works. */
  lemma LockBacksUp(w: World<Host>, ls: seq<Ended>, last: string, i: nat, faults: Faults<Command>)
    requires Lined(ls, last) && w.host.resolv == Some(FileOf(ls, last)) && LockResolv(w, faults).ok
    requires i < |TextsOf(ls, last)| && Counts(TextsOf(ls, last)[i])
    requires Trim(TextsOf(ls, last)[i]) != "nameserver 127.0.0.1"
    ensures LockResolv(w, faults).w.host.backup == Some(FileOf(ls, last))
  {
    hide LockResolv, IsOnlyOurPin, FileOf, TextsOf, Counts, Trim;
    OurPinExactly(ls, last);
    LockOutcome(w, faults);
  }

  /** At an actual file: a local cache with an upstream behind it is no pin of ours and is backed up. */
  lemma SecondServerAt(w: World<Host>, faults: Faults<Command>)
    requires w.host.resolv == Some("nameserver 127.0.0.1" + "\n" + ("nameserver 8.8.8.8" + "\n" + ""))
    requires LockResolv(w, faults).ok
    ensures LockResolv(w, faults).w.host.backup == w.host.resolv
  {
    UpstreamLine();
    TwoServers(w, "nameserver 127.0.0.1", "nameserver 8.8.8.8", faults);
  }

  lemma UpstreamLine()
    ensures NoBreak("nameserver 127.0.0.1") && NoBreak("nameserver 8.8.8.8")
    ensures Counts("nameserver 8.8.8.8") && Trim("nameserver 8.8.8.8") != "nameserver 127.0.0.1"
  {
    hide Trim;
    var second := "nameserver 8.8.8.8";
    assert second[0] == 'n' && second[|second| - 1] == '8' && second[11] == '8';
    assert "nameserver 127.0.0.1"[11] == '1';
    Unstripped(second);
  }

  lemma Unstripped(s: string)
    requires s != "" && !IsSpace(s[0]) && !IsSpace(s[|s| - 1])
    ensures Trim(s) == s
  {
  }

  /** A second line that counts and is not the pin keeps the file from being taken for our pin. */
  lemma TwoServers(w: World<Host>, first: string, second: string, faults: Faults<Command>)
    requires NoBreak(first) && NoBreak(second) && Counts(second) && Trim(second) != "nameserver 127.0.0.1"
    requires w.host.resolv == Some(first + "\n" + (second + "\n" + "")) && LockResolv(w, faults).ok
    ensures LockResolv(w, faults).w.host.backup == w.host.resolv
  {
    hide LockResolv, Trim, Counts, NoBreak, TextsOf, FileOf, Lined;
    TwoLines(first, second);
    LockBacksUp(w, [Ended(first, "\n"), Ended(second, "\n")], "", 1, faults);
  }

  lemma TwoLines(a: string, b: string)
    requires NoBreak(a) && NoBreak(b)
    ensures var ls := [Ended(a, "\n"), Ended(b, "\n")];
            && Lined(ls, "") && |TextsOf(ls, "")| == 3 && TextsOf(ls, "")[1] == b
            && FileOf(ls, "") == a + "\n" + (b + "\n" + "")
  {
    var ls := [Ended(a, "\n"), Ended(b, "\n")];
    NothingBreaks();
    hide NoBreak;
    assert ls[1..] == [ls[1]] && [ls[1]][1..] == [];
    assert Lined([], "") && Lined([ls[1]], "");
    assert FileOf([ls[1]], "") == b + "\n" + "" && TextsOf([ls[1]], "")[0] == b;
  }

  lemma NothingBreaks()
    ensures NoBreak("")
  {
  }

  /** What a restore leaves, in every case. */
  lemma RestoreOutcome(w: World<Host>, faults: Faults<Command>)
    ensures var s := RestoreResolv(w, faults);
            var restored := w.host.backup.Some? && faults(Restore, w.tick);
            var dropped := restored && faults(Unlink, w.tick + 1);
            && (s.ok <==> dropped)
            && s.w.host == w.host.(
                           resolv := if restored then Some(Universal(w.host.backup.value)) else w.host.resolv,
                           backup := if dropped then None else w.host.backup)
  {
    hide Universal;
  }

  /** Text mode makes a line feed of CR and of CR LF and touches nothing else. */
  lemma UniversalLine(line: string, eol: string, rest: string)
    requires NoBreak(line) && EndsLine(eol, rest)
    ensures Universal(line + eol + rest) == line + (if eol[0] == '\r' then "\n" else eol) + Universal(rest)
  {
    assert line + eol + rest == line + (eol + rest);
    UniversalAfter(line, eol + rest);
    var text := eol + rest;
    if eol == "\r\n" {
      assert text[0] == '\r' && text[1] == '\n' && text[2..] == rest;
      assert "\n" + Universal(rest) == Universal(text);
    } else {
      assert text[1..] == rest && [text[0]] == eol;
    }
    assert line + ((if eol[0] == '\r' then "\n" else eol) + Universal(rest))
        == line + (if eol[0] == '\r' then "\n" else eol) + Universal(rest);
  }
}
