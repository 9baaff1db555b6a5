/** Pinning resolv.conf to the loopback resolver and putting the real one back. */
module Resolver {
  import opened Text
  import opened Wrappers
  import opened Host
  import opened Runs

  const PINNED: string := "nameserver 127.0.0.1\n"
  const PIN_LINE: string := "nameserver 127.0.0.1"

  // --- the texts --------------------------------------------------------

  /** Where str.splitlines ends a line. */
  predicate IsBreak(c: char) {
    var n := c as int;
    10 <= n <= 13 || 28 <= n <= 30 || n == 0x85 || n == 0x2028 || n == 0x2029
  }

  /** A finished line counts if it is neither blank nor a comment. */
  function Flush(line: string): seq<string> {
    var s := Trim(line);
    if s == "" || s[0] == '#' then [] else [s]
  }

  /** The lines of `line + text` that count, stripped, where `line` is the line so far. */
  function Meaningful(text: string, line: string): seq<string>
    decreases |text|
  {
    if text == "" then Flush(line)
    else if text[0] == '\r' && |text| > 1 && text[1] == '\n' then Flush(line) + Meaningful(text[2..], "")
    else if IsBreak(text[0]) then Flush(line) + Meaningful(text[1..], "")
    else Meaningful(text[1..], line + [text[0]])
  }

  predicate IsOnlyOurPin(text: string) { Meaningful(text, "") == [PIN_LINE] }

  /** What reading a file in text mode makes of its line ends. */
  function Universal(text: string): string {
    if text == "" then ""
    else if text[0] == '\r' then
      "\n" + Universal(text[if |text| > 1 && text[1] == '\n' then 2 else 1..])
    else [text[0]] + Universal(text[1..])
  }

  // --- the code ---------------------------------------------------------

  /** resolv.conf holds nothing but our pin. */
  predicate Pinned(h: Host) { h.resolv.Some? && IsOnlyOurPin(Universal(h.resolv.value)) }

  /** _capture_resolver: an unreadable or already pinned file is not captured. */
  function CaptureResolver(w: World<Host>, faults: Faults<Command>): Step<Host> {
    if w.host.resolv.None? || IsOnlyOurPin(w.host.resolv.value) then Step(w, true)
    else Step(Issue(w, Capture, faults, w.host.(backup := w.host.resolv)), Succeeds(w, Capture, faults))
  }

  /** lock_resolv; the immutability commands never change the outcome and are not modelled. */
  function LockResolv(w: World<Host>, faults: Faults<Command>): Step<Host> {
    var s := CaptureResolver(w, faults);
    if !s.ok then s
    else Step(Issue(s.w, Pin, faults, s.w.host.(resolv := Some(PINNED))), Succeeds(s.w, Pin, faults))
  }

  /** restore_resolv: a failed write or unlink is noted, not raised. */
  function RestoreResolv(w: World<Host>, faults: Faults<Command>): Step<Host> {
    if w.host.backup.None? then Step(w, false)
    else
      var w1 := Issue(w, Restore, faults, w.host.(resolv := Some(Universal(w.host.backup.value))));
      if !Succeeds(w, Restore, faults) then Step(w1, false)
      else Step(Issue(w1, Unlink, faults, w1.host.(backup := None)), Succeeds(w1, Unlink, faults))
  }

  class ResolvConf {
    const m: Machine

    constructor (m: Machine)
      ensures this.m == m
    {
      this.m := m;
    }

    method CaptureCurrent() returns (ok: bool)
      modifies m
      ensures Step(m.W(), ok) == CaptureResolver(old(m.W()), m.faults)
    {
      if m.host.resolv.None? { return true; }
      if IsOnlyOurPin(m.host.resolv.value) { return true; }
      ok := m.Run(Capture, m.host.(backup := m.host.resolv));
    }

    /** false stands for the OSError of a failed write. */
    method Lock() returns (ok: bool)
      modifies m
      ensures Step(m.W(), ok) == LockResolv(old(m.W()), m.faults)
    {
      ok := CaptureCurrent();
      if ok { ok := m.Run(Pin, m.host.(resolv := Some(PINNED))); }
    }

    method Unlock() returns (restored: bool)
      modifies m
      ensures Step(m.W(), restored) == RestoreResolv(old(m.W()), m.faults)
    {
      restored := false;
      if m.host.backup.Some? {
        var written := m.Run(Restore, m.host.(resolv := Some(Universal(m.host.backup.value))));
        if written { restored := m.Run(Unlink, m.host.(backup := None)); }
      }
    }
  }

  // --- facts about the texts --------------------------------------------

  /** Translated line ends do not change which lines count. */
  lemma {:induction false} UniversalKeepsLines(text: string, line: string)
    ensures Meaningful(Universal(text), line) == Meaningful(text, line)
    decreases |text|
  {
    hide Flush;
    if text != "" {
      var n := if text[0] == '\r' && |text| > 1 && text[1] == '\n' then 2 else 1;
      var head := if text[0] == '\r' then '\n' else text[0];
      var rest := Universal(text[n..]);
      assert Universal(text) == [head] + rest && ([head] + rest)[1..] == rest;
      UniversalKeepsLines(text[n..], if IsBreak(head) then "" else line + [head]);
    }
  }

  /** Text mode gives a file back unchanged exactly when it holds no carriage return. */
  lemma {:induction false} UniversalExact(text: string)
    ensures '\r' !in Universal(text)
    ensures Universal(text) == text <==> '\r' !in text
  {
    if text != "" {
      var n := if text[0] == '\r' && |text| > 1 && text[1] == '\n' then 2 else 1;
      UniversalExact(text[n..]);
      assert text == [text[0]] + text[1..];
      if text[0] != '\r' { assert ([text[0]] + Universal(text[1..]))[1..] == Universal(text[1..]); }
    }
  }

  lemma UniversalTwice(text: string)
    ensures Universal(Universal(text)) == Universal(text)
  {
    UniversalExact(text);
    UniversalExact(Universal(text));
  }

  lemma {:induction false} MeaningfulLine(s: string, line: string)
    requires forall i :: 0 <= i < |s| ==> !IsBreak(s[i])
    ensures Meaningful(s + "\n", line) == Flush(line + s) + []
    decreases |s|
  {
    hide Flush;
    if s == "" {
      assert line + s == line && (s + "\n")[1..] == "";
      FlushNothing();
    } else {
      assert (s + "\n")[1..] == s[1..] + "\n" && line + [s[0]] + s[1..] == line + s;
      MeaningfulLine(s[1..], line + [s[0]]);
    }
  }

  lemma FlushNothing()
    ensures Flush("") == [] && Meaningful("", "") == []
  {
  }

  lemma PinLinePlain()
    ensures forall i :: 0 <= i < |PIN_LINE| ==> !IsBreak(PIN_LINE[i])
    ensures PINNED == PIN_LINE + "\n"
  {
  }

  lemma PinLineCounts()
    ensures Flush(PIN_LINE) == [PIN_LINE]
  {
    assert PIN_LINE[0] == 'n' && PIN_LINE[|PIN_LINE| - 1] == '1';
  }

  lemma PinIsOurs()
    ensures IsOnlyOurPin(PINNED) && Universal(PINNED) == PINNED
  {
    PinLinePlain();
    PinLineCounts();
    hide PINNED, PIN_LINE, Flush, Meaningful, Universal;
    MeaningfulLine(PIN_LINE, "");
    assert "" + PIN_LINE == PIN_LINE;
    UniversalExact(PINNED);
  }

  // --- conservation -----------------------------------------------------

  /** The real resolver's text, as it was found or as text mode rewrites it. */
  predicate Real(text: string, original: string) { text == original || text == Universal(original) }

  /** The real resolver is in place, or our pin is and the backup holds the real resolver. */
  predicate Conserved(h: Host, original: string) {
    && h.resolv.Some?
    && (h.backup.Some? ==> Real(h.backup.value, original))
    && (Real(h.resolv.value, original) || (h.resolv.value == PINNED && h.backup.Some?))
  }

  ghost predicate ConservedSince(w0: World<Host>, w: World<Host>, original: string) {
    && w0.seen <= w.seen && SameRules(w0.host, w.host) && Conserved(w.host, original)
    && forall i :: |w0.seen| <= i < |w.seen| ==> SameRules(w0.host, w.seen[i]) && Conserved(w.seen[i], original)
  }

  predicate SameRules(a: Host, b: Host) { a.v4 == b.v4 && a.v6 == b.v6 }

  /** Pinned means our pin: a real resolver never looks like it, however its line ends were rewritten. */
  lemma PinnedMeans(h: Host, original: string)
    requires Conserved(h, original) && !IsOnlyOurPin(original)
    ensures Pinned(h) <==> h.resolv == Some(PINNED)
    ensures Real(h.resolv.value, original) ==> !Pinned(h) && !IsOnlyOurPin(h.resolv.value)
  {
    UniversalKeepsLines(original, "");
    UniversalTwice(original);
    PinIsOurs();
    hide PINNED, PIN_LINE, Meaningful, Universal;
  }

  lemma IssueConserves(w0: World<Host>, w: World<Host>, cmd: Command, faults: Faults<Command>, next: Host,
                       original: string)
    requires ConservedSince(w0, w, original) && SameRules(w0.host, next) && Conserved(next, original)
    ensures ConservedSince(w0, Issue(w, cmd, faults, next), original)
  {
    hide Conserved, SameRules;
  }

  lemma StartConserves(w: World<Host>, original: string)
    requires Conserved(w.host, original)
    ensures ConservedSince(w, w, original)
  {
    hide Conserved;
  }

  lemma RealRestored(text: string, original: string)
    requires Real(text, original)
    ensures Universal(text) == Universal(original)
  {
    UniversalTwice(original);
  }

  /** lock_resolv, with any of its writes failing, visits only states that conserve the resolver. */
  lemma LockConserves(w: World<Host>, faults: Faults<Command>, original: string)
    requires Conserved(w.host, original) && !IsOnlyOurPin(original)
    ensures ConservedSince(w, LockResolv(w, faults).w, original)
    ensures LockResolv(w, faults).ok ==>
              LockResolv(w, faults).w.host.resolv == Some(PINNED) && Pinned(LockResolv(w, faults).w.host)
  {
    hide PINNED, PIN_LINE, Meaningful, Universal, IsOnlyOurPin, ConservedSince;
    PinnedMeans(w.host, original);
    PinIsOurs();
    StartConserves(w, original);
    var c := CaptureResolver(w, faults);
    if IsOnlyOurPin(w.host.resolv.value) {
      assert c.w == w;
    } else {
      IssueConserves(w, w, Capture, faults, w.host.(backup := w.host.resolv), original);
    }
    if c.ok {
      IssueConserves(w, c.w, Pin, faults, c.w.host.(resolv := Some(PINNED)), original);
    }
  }

  /** restore_resolv likewise; if its writes succeed the real resolver is back and the backup gone. */
  lemma RestoreConserves(w: World<Host>, faults: Faults<Command>, original: string)
    requires Conserved(w.host, original) && !IsOnlyOurPin(original)
    ensures ConservedSince(w, RestoreResolv(w, faults).w, original)
    ensures RestoreResolv(w, faults).ok ==>
              RestoreResolv(w, faults).w.host == w.host.(resolv := Some(Universal(original)), backup := None)
    ensures w.host.backup.None? ==> RestoreResolv(w, faults) == Step(w, false)
    ensures w.host.backup.Some? && faults(Restore, w.tick) && faults(Unlink, w.tick + 1) ==> RestoreResolv(w, faults).ok
  {
    hide PINNED, PIN_LINE, Meaningful, Universal, IsOnlyOurPin, ConservedSince;
    StartConserves(w, original);
    if w.host.backup.Some? {
      RealRestored(w.host.backup.value, original);
      var next := w.host.(resolv := Some(Universal(w.host.backup.value)));
      IssueConserves(w, w, Restore, faults, next, original);
      var w1 := Issue(w, Restore, faults, next);
      if Succeeds(w, Restore, faults) {
        IssueConserves(w, w1, Unlink, faults, w1.host.(backup := None), original);
      }
    }
  }

  /** A restore never writes the pin. */
  lemma RestoreNeverPins(w: World<Host>, faults: Faults<Command>, original: string)
    requires Conserved(w.host, original) && !IsOnlyOurPin(original)
    ensures var w1 := RestoreResolv(w, faults).w;
            && (Pinned(w1.host) ==> Pinned(w.host))
            && forall i :: |w.seen| <= i < |w1.seen| ==> (Pinned(w1.seen[i]) ==> Pinned(w.host))
  {
    hide PINNED, PIN_LINE, Meaningful, Universal, IsOnlyOurPin;
    if w.host.backup.Some? {
      RealRestored(w.host.backup.value, original);
      var next := w.host.(resolv := Some(Universal(original)));
      PinnedMeans(next, original);
      assert !Pinned(next);
    }
  }

  /** When the restoring write works, nothing is pinned after a restore, whatever becomes of the backup. */
  lemma RestoreUnpins(w: World<Host>, faults: Faults<Command>, original: string)
    requires Conserved(w.host, original) && !IsOnlyOurPin(original) && faults(Restore, w.tick)
    ensures var h := RestoreResolv(w, faults).w.host;
            h.resolv.Some? && Real(h.resolv.value, original) && !Pinned(h)
            && (faults(Unlink, w.tick + 1) ==> h.backup.None?)
  {
    hide PINNED, PIN_LINE, Meaningful, Universal, IsOnlyOurPin, ConservedSince;
    RestoreConserves(w, faults, original);
    if w.host.backup.Some? { RealRestored(w.host.backup.value, original); }
    PinnedMeans(RestoreResolv(w, faults).w.host, original);
  }

  /** A pin that is backed up is gone after a restore exactly if the restoring write worked. */
  lemma RestoreUnpinsExactly(w: World<Host>, faults: Faults<Command>, original: string)
    requires Conserved(w.host, original) && !IsOnlyOurPin(original) && Pinned(w.host)
    ensures Pinned(RestoreResolv(w, faults).w.host) <==> !faults(Restore, w.tick)
  {
    hide PINNED, PIN_LINE, Meaningful, Universal, IsOnlyOurPin;
    PinnedMeans(w.host, original);
    if faults(Restore, w.tick) { RestoreUnpins(w, faults, original); }
  }

  // --- runs cut anywhere ------------------------------------------------

  /** One call of lock or restore, cut short after some number of commands, or run to its end. */
  datatype Call = Call(lock: bool, cut: Option<nat>, faults: Faults<Command>)

  function RunCall(h: Host, c: Call): Host {
    var w0 := World(h, 0, []);
    var w := if c.lock then LockResolv(w0, c.faults).w else RestoreResolv(w0, c.faults).w;
    match c.cut
    case None => w.host
    case Some(n) => if n == 0 || w.seen == [] then h else if n <= |w.seen| then w.seen[n - 1] else w.host
  }

  function RunCalls(h: Host, cs: seq<Call>): Host
    decreases cs
  {
    if cs == [] then h else RunCalls(RunCall(h, cs[0]), cs[1..])
  }

  lemma CallConserves(h: Host, c: Call, original: string)
    requires Conserved(h, original) && !IsOnlyOurPin(original)
    ensures Conserved(RunCall(h, c), original)
  {
    hide Conserved, IsOnlyOurPin, LockResolv, RestoreResolv, SameRules;
    var w0 := World(h, 0, []);
    LockConserves(w0, c.faults, original);
    RestoreConserves(w0, c.faults, original);
  }

  /** No run of locks and restores, crash points included, ever loses the real resolver. */
  lemma {:induction false} RunConserves(h: Host, cs: seq<Call>, original: string)
    requires Conserved(h, original) && !IsOnlyOurPin(original)
    ensures Conserved(RunCalls(h, cs), original)
    decreases cs
  {
    hide Conserved, IsOnlyOurPin, RunCall;
    if cs != [] {
      CallConserves(h, cs[0], original);
      RunConserves(RunCall(h, cs[0]), cs[1..], original);
    }
  }

  /**
   From a fresh start, one complete restore after any run gives the real resolver back. A file that
   had been captured comes back to the character exactly when it held no carriage return.
   */
  lemma RestoreAfterRun(h: Host, cs: seq<Call>, faults: Faults<Command>)
    requires h.resolv.Some? && h.backup.None? && !IsOnlyOurPin(h.resolv.value)
    requires forall n :: faults(Restore, n) && faults(Unlink, n)
    ensures var before := RunCalls(h, cs);
            var after := RestoreResolv(World(before, 0, []), faults).w.host;
            && after.backup.None? && after.resolv.Some?
            && Real(after.resolv.value, h.resolv.value)
            && (before.backup.Some? ==> (after.resolv == h.resolv <==> '\r' !in h.resolv.value))
            && (before.backup.None? ==> after.resolv == before.resolv)
  {
    hide PINNED, PIN_LINE, Meaningful, Universal, IsOnlyOurPin, RunCalls, RestoreResolv, ConservedSince;
    var original := h.resolv.value;
    RunConserves(h, cs, original);
    RestoreConserves(World(RunCalls(h, cs), 0, []), faults, original);
    RestoreUnpins(World(RunCalls(h, cs), 0, []), faults, original);
    UniversalExact(original);
  }

  /** At an actual file: a resolver line ended the Windows way comes back without its carriage return. */
  lemma CarriageReturnAt(h: Host, faults: Faults<Command>)
    requires h.resolv == Some("nameserver 9.9.9.9" + "\r\n") && h.backup.None?
    requires forall c, n :: faults(c, n)
    ensures var pinned := RunCall(h, Call(true, None, faults));
            && Pinned(pinned)
            && RestoreResolv(World(pinned, 0, []), faults).w.host.resolv == Some("nameserver 9.9.9.9" + "\n")
  {
    var line := "nameserver 9.9.9.9";
    assert line[0] == 'n' && line[|line| - 1] == '9' && PIN_LINE[|PIN_LINE| - 1] == '1';
    assert forall i :: 0 <= i < |line| ==> !IsBreak(line[i]);
    NotAPin(line);
    PinIsOurs();
    hide PINNED, PIN_LINE, Meaningful, Universal, IsOnlyOurPin, IsBreak, Trim;
  }

  lemma NotAPin(line: string)
    requires line != "" && !IsSpace(line[0]) && !IsSpace(line[|line| - 1]) && line != PIN_LINE
    requires forall i :: 0 <= i < |line| ==> !IsBreak(line[i])
    ensures !IsOnlyOurPin(line + "\r\n") && Universal(line + "\r\n") == line + "\n"
  {
    hide PIN_LINE, Meaningful;
    assert Universal("\r\n") == "\n" by { assert "\r\n"[2..] == "" && "\n" + "" == "\n"; }
    UniversalAfter(line, "\r\n");
    UniversalKeepsLines(line + "\r\n", "");
    MeaningfulLine(line, "");
    assert "" + line == line && Trim(line) == line;
  }

  lemma {:induction false} UniversalAfter(line: string, rest: string)
    requires forall i :: 0 <= i < |line| ==> !IsBreak(line[i])
    ensures Universal(line + rest) == line + Universal(rest)
  {
    if line == "" {
      assert line + rest == rest && "" + Universal(rest) == Universal(rest);
    } else {
      assert (line + rest)[1..] == line[1..] + rest && !IsBreak(line[0]);
      UniversalAfter(line[1..], rest);
    }
  }
}
