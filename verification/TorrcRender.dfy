/** Rendering the managed torrc block from the configuration. */
module TorrcRender {
  import opened Text
  import opened Torrc

  datatype Settings = Settings(
    transPort: nat, dnsPort: nat, socksPort: nat, controlPort: nat,
    enableControlPort: bool, exitCountry: string, useBridges: bool, bridges: seq<string>)

  function Decimal(n: nat): (s: string)
    ensures '#' !in s
  {
    if n < 10 then [['0', '1', '2', '3', '4', '5', '6', '7', '8', '9'][n]]
    else Decimal(n / 10) + [['0', '1', '2', '3', '4', '5', '6', '7', '8', '9'][n % 10]]
  }

  function Lower(s: string): string {
    if s == "" then ""
    else [if 'A' <= s[0] <= 'Z' then (s[0] as int + 32) as char else s[0]] + Lower(s[1..])
  }

  /** [f"Bridge {b.strip()}" for b in bridges if b.strip()] */
  function BridgeLines(bridges: seq<string>): seq<string> {
    if bridges == [] then []
    else (if Trim(bridges[0]) == "" then [] else ["Bridge " + Trim(bridges[0])]) + BridgeLines(bridges[1..])
  }

  lemma NoBridgeLines()
    ensures BridgeLines([]) == []
  {
  }

  lemma BridgeLinesAppend(bridges: seq<string>, b: string)
    ensures BridgeLines(bridges + [b])
         == BridgeLines(bridges) + (if Trim(b) == "" then [] else ["Bridge " + Trim(b)])
  {
    hide Trim;
    if bridges == [] {
      assert [b][1..] == [];
      assert BridgeLines([b]) == BridgeLines([]) + (if Trim(b) == "" then [] else ["Bridge " + Trim(b)]);
    } else {
      assert (bridges + [b])[1..] == bridges[1..] + [b];
      BridgeLinesAppend(bridges[1..], b);
    }
  }

  function PortLines(s: Settings, windows: bool): seq<string> {
    ["VirtualAddrNetwork 10.192.0.0/10", "AutomapHostsOnResolve 1"]
    + (if windows then [] else ["TransPort " + Decimal(s.transPort)])
    + ["DNSPort " + Decimal(s.dnsPort), "SocksPort " + Decimal(s.socksPort)]
  }

  function ControlLines(s: Settings): seq<string> {
    if s.enableControlPort then ["ControlPort " + Decimal(s.controlPort), "CookieAuthentication 1"] else []
  }

  function ExitLines(s: Settings): seq<string> {
    if s.exitCountry == "" then []
    else ["ExitNodes {" + Lower(Trim(s.exitCountry)) + "}", "StrictNodes 1"]
  }

  /** The directives between the two markers. */
  function Directives(s: Settings, windows: bool): seq<string> {
    PortLines(s, windows) + ControlLines(s) + ExitLines(s)
    + (if s.useBridges then ["UseBridges 1"] + BridgeLines(s.bridges) else [])
  }

  /** "\n".join(lines) + "\n" */
  function Lines(lines: seq<string>): string {
    if lines == [] then "" else lines[0] + "\n" + Lines(lines[1..])
  }

  function Render(s: Settings, windows: bool): string {
    Lines([BEGIN] + Directives(s, windows) + [END])
  }

  /** render_torrc_block: the lines are appended one group, and one bridge, at a time. */
  method RenderTorrcBlock(s: Settings, windows: bool) returns (block: string)
    ensures block == Render(s, windows)
  {
    hide Trim, Lower, Decimal, Lines, BEGIN, END, BridgeLines;
    var lines := ["VirtualAddrNetwork 10.192.0.0/10", "AutomapHostsOnResolve 1"];
    if !windows { lines := lines + ["TransPort " + Decimal(s.transPort)]; }
    lines := lines + ["DNSPort " + Decimal(s.dnsPort), "SocksPort " + Decimal(s.socksPort)];
    assert lines == PortLines(s, windows);
    if s.enableControlPort {
      lines := lines + ["ControlPort " + Decimal(s.controlPort), "CookieAuthentication 1"];
    }
    if s.exitCountry != "" {
      var code := Lower(Trim(s.exitCountry));
      lines := lines + ["ExitNodes {" + code + "}", "StrictNodes 1"];
    }
    assert lines == PortLines(s, windows) + ControlLines(s) + ExitLines(s);
    hide PortLines, ControlLines, ExitLines;
    if s.useBridges {
      lines := lines + ["UseBridges 1"];
      ghost var before := lines;
      NoBridgeLines();
      assert s.bridges[..0] == [];
      for i := 0 to |s.bridges|
        invariant lines == before + BridgeLines(s.bridges[..i])
      {
        var b := Trim(s.bridges[i]);
        BridgeLinesAppend(s.bridges[..i], s.bridges[i]);
        assert s.bridges[..i + 1] == s.bridges[..i] + [s.bridges[i]];
        if b != "" { lines := lines + ["Bridge " + b]; }
      }
      assert s.bridges[..|s.bridges|] == s.bridges;
    }
    assert lines == Directives(s, windows);
    block := Lines([BEGIN] + lines + [END]);
  }

  // --- when the rendered text is a proper block -------------------------

  /** No free-text field carries this marker. */
  ghost predicate Without(s: Settings, p: string) {
    && (s.exitCountry != "" ==> Absent(Lower(Trim(s.exitCountry)), p))
    && (s.useBridges ==> forall i :: 0 <= i < |s.bridges| ==> Absent(Trim(s.bridges[i]), p))
  }

  ghost predicate AllWithout(lines: seq<string>, p: string) {
    forall i :: 0 <= i < |lines| ==> Absent(lines[i], p)
  }

  lemma {:induction false} LinesWithout(lines: seq<string>, p: string)
    requires Marker(p)
    ensures Absent(Lines(lines), p) <==> AllWithout(lines, p)
  {
    hide Absent, Marker;
    if lines == [] {
      AbsentPlain("", p);
    } else {
      LinesWithout(lines[1..], p);
      var rest := Lines(lines[1..]);
      AbsentPlain("\n", p);
      AbsentInConcat(lines[0], "\n", p);
      AbsentInConcat(lines[0] + "\n", rest, p);
      assert AllWithout(lines, p) <==> Absent(lines[0], p) && AllWithout(lines[1..], p) by {
        assert forall i :: 0 <= i < |lines| - 1 ==> lines[1..][i] == lines[i + 1];
      }
    }
  }

  lemma AllWithoutAppend(a: seq<string>, b: seq<string>, p: string)
    ensures AllWithout(a + b, p) <==> AllWithout(a, p) && AllWithout(b, p)
  {
    hide Absent;
    assert forall i :: 0 <= i < |a| ==> (a + b)[i] == a[i];
    assert forall i :: 0 <= i < |b| ==> (a + b)[|a| + i] == b[i];
  }

  lemma {:induction false} BridgesWithout(bridges: seq<string>, p: string)
    requires Marker(p)
    ensures AllWithout(BridgeLines(bridges), p) <==> forall i :: 0 <= i < |bridges| ==> Absent(Trim(bridges[i]), p)
  {
    hide Absent, Trim, Marker;
    if bridges != [] {
      var line := if Trim(bridges[0]) == "" then [] else ["Bridge " + Trim(bridges[0])];
      BridgesWithout(bridges[1..], p);
      AllWithoutAppend(line, BridgeLines(bridges[1..]), p);
      AbsentPlain("", p);
      AbsentAfterPlain("Bridge ", Trim(bridges[0]), p);
      assert forall i :: 0 <= i < |bridges| - 1 ==> bridges[1..][i] == bridges[i + 1];
    }
  }

  lemma {:induction false} LinesAppend(a: seq<string>, b: seq<string>)
    ensures Lines(a + b) == Lines(a) + Lines(b)
  {
    if a == [] {
      assert a + b == b;
    } else {
      LinesAppend(a[1..], b);
      assert (a + b)[1..] == a[1..] + b;
      Regroup(a[0] + "\n", Lines(a[1..]), Lines(b));
    }
  }

  lemma Regroup(a: string, b: string, c: string)
    ensures a + b + c == a + (b + c)
  {
  }

  lemma {:induction false} LinesEnd(lines: seq<string>)
    ensures Lines(lines) == "" || EndsWithNewline(Lines(lines))
  {
    if lines != [] { LinesEnd(lines[1..]); }
  }

  lemma PortLinesWithout(s: Settings, windows: bool, p: string)
    requires Marker(p)
    ensures AllWithout(PortLines(s, windows), p)
  {
    hide Absent, Decimal, Marker;
    AbsentPlain("VirtualAddrNetwork 10.192.0.0/10", p);
    AbsentPlain("AutomapHostsOnResolve 1", p);
    AbsentPlain("TransPort " + Decimal(s.transPort), p);
    AbsentPlain("DNSPort " + Decimal(s.dnsPort), p);
    AbsentPlain("SocksPort " + Decimal(s.socksPort), p);
  }

  lemma ControlLinesWithout(s: Settings, p: string)
    requires Marker(p)
    ensures AllWithout(ControlLines(s), p)
  {
    hide Absent, Decimal, Marker;
    AbsentPlain("ControlPort " + Decimal(s.controlPort), p);
    AbsentPlain("CookieAuthentication 1", p);
  }

  lemma ExitLinesWithout(s: Settings, p: string)
    requires Marker(p) && '}' !in p
    ensures AllWithout(ExitLines(s), p) <==> s.exitCountry == "" || Absent(Lower(Trim(s.exitCountry)), p)
  {
    hide Absent, Trim, Lower;
    var code := Lower(Trim(s.exitCountry));
    AbsentAfterPlain("ExitNodes {", code, p);
    AbsentBeforeForeign("ExitNodes {" + code, '}', p);
    AbsentPlain("StrictNodes 1", p);
    var lines := ExitLines(s);
    assert s.exitCountry != "" ==> (AllWithout(lines, p) <==> Absent(lines[0], p) && Absent(lines[1], p));
  }

  lemma AbsentBeforeForeign(a: string, c: char, p: string)
    requires c !in p && p != ""
    ensures Absent(a + [c], p) <==> Absent(a, p)
  {
    forall i: nat ensures OccursAt(a + [c], p, i) <==> OccursAt(a, p, i) {
      if i + |p| <= |a| {
        assert (a + [c])[i..i + |p|] == a[i..i + |p|];
      } else if i <= |a| {
        OccursChar(a + [c], p, i, |a| - i);
      }
    }
    if Absent(a + [c], p) {
      forall i: nat ensures !OccursAt(a, p, i) { assert !OccursAt(a + [c], p, i); }
    }
  }

  lemma DirectivesWithout(s: Settings, windows: bool, p: string)
    requires Marker(p) && '}' !in p
    ensures AllWithout(Directives(s, windows), p) <==> Without(s, p)
  {
    PortLinesWithout(s, windows, p);
    ControlLinesWithout(s, p);
    ExitLinesWithout(s, p);
    BridgesWithout(s.bridges, p);
    AbsentPlain("UseBridges 1", p);
    hide Absent, Marker, Trim, Lower, PortLines, ControlLines, ExitLines, BridgeLines;
    assert AllWithout(["UseBridges 1"], p) && AllWithout([], p);
    hide AllWithout;
    var bridges := if s.useBridges then ["UseBridges 1"] + BridgeLines(s.bridges) else [];
    AllWithoutAppend(["UseBridges 1"], BridgeLines(s.bridges), p);
    AllWithoutAppend(PortLines(s, windows), ControlLines(s), p);
    AllWithoutAppend(PortLines(s, windows) + ControlLines(s), ExitLines(s), p);
    AllWithoutAppend(PortLines(s, windows) + ControlLines(s) + ExitLines(s), bridges, p);
  }

  lemma NoBraces()
    ensures '}' !in BEGIN && '}' !in END
  {
  }

  lemma FrameMarkers(m: string)
    requires m == "" || EndsWithNewline(m)
    ensures Framed(Frame(BEGIN, END, m))
    ensures OneBegin(Frame(BEGIN, END, m)) <==> Absent(m, BEGIN)
    ensures OneEnd(Frame(BEGIN, END, m)) <==> Absent(m, END)
  {
    Markers();
    hide BEGIN, END, OccursAt, Marker;
    var text, front := Frame(BEGIN, END, m), |BEGIN| + 1;
    OccurrencesInFrame(BEGIN, END, m, BEGIN);
    OccurrencesInFrame(BEGIN, END, m, END);
    assert InFrame(BEGIN, END, m, BEGIN, 0) && InFrame(BEGIN, END, m, END, front + |m|);
    forall i: nat ensures OccursAt(m, BEGIN, i) ==> i + |BEGIN| <= |m| { OccursShort(m, BEGIN, i); }
    forall i: nat ensures OccursAt(m, END, i) ==> i + |END| <= |m| { OccursShort(m, END, i); }
    if OneBegin(text) {
      forall i: nat ensures !OccursAt(m, BEGIN, i) {
        assert InFrame(BEGIN, END, m, BEGIN, i + front) <==> OccursAt(text, BEGIN, i + front);
      }
    }
    if OneEnd(text) {
      forall i: nat ensures !OccursAt(m, END, i) {
        assert InFrame(BEGIN, END, m, END, i + front) <==> OccursAt(text, END, i + front);
      }
    }
  }

  /** The rendered text is framed; it holds each marker once exactly when no free-text field carries it. */
  lemma RenderMarkers(s: Settings, windows: bool)
    ensures Framed(Render(s, windows))
    ensures OneBegin(Render(s, windows)) <==> Without(s, BEGIN)
    ensures OneEnd(Render(s, windows)) <==> Without(s, END)
  {
    var d := Directives(s, windows);
    Markers();
    NoBraces();
    hide BEGIN, END, Framed, OneBegin, OneEnd, Absent, AllWithout, Without, Directives, Lines, Render, Marker;
    RenderIsFrame(s, windows);
    LinesEnd(d);
    LinesWithout(d, BEGIN);
    LinesWithout(d, END);
    DirectivesWithout(s, windows, BEGIN);
    DirectivesWithout(s, windows, END);
    FrameMarkers(Lines(d));
  }

  lemma RenderIsFrame(s: Settings, windows: bool)
    ensures Render(s, windows) == Frame(BEGIN, END, Lines(Directives(s, windows)))
  {
    var d := Directives(s, windows);
    hide BEGIN, END, Directives;
    LinesAppend([BEGIN] + d, [END]);
    LinesAppend([BEGIN], d);
    OneLine(BEGIN);
    OneLine(END);
  }

  lemma OneLine(line: string)
    ensures Lines([line]) == line + "\n"
  {
    assert [line][1..] == [] && line + "\n" + "" == line + "\n";
  }

  /** The rendered text is a proper managed block exactly when no free-text field carries a marker. */
  lemma RenderIsBlock(s: Settings, windows: bool)
    ensures IsBlock(Render(s, windows)) <==> Without(s, BEGIN) && Without(s, END)
  {
    hide Without, Framed, OneBegin, OneEnd, Render;
    RenderMarkers(s, windows);
  }

  // --- applying twice ---------------------------------------------------

  /**
   Applying a second configuration leaves what applying it alone would have left if no field of the
   first carries an END; and if none carries a BEGIN, only then, even on the empty torrc.
   */
  lemma ReapplyIsApply(torrc: string, first: Settings, second: Settings, windows: bool)
    ensures Without(first, END) ==>
              Merge(Merge(torrc, Render(first, windows)), Render(second, windows))
              == Merge(torrc, Render(second, windows))
    ensures Without(first, BEGIN) ==>
              (Merge(Merge("", Render(first, windows)), Render(second, windows)) == Merge("", Render(second, windows))
               <==> Without(first, END))
  {
    hide Without, Framed, OneBegin, OneEnd, Render, Merge, Strip;
    RenderMarkers(first, windows);
    StripsToNothing(Render(first, windows));
    MergeAbsorbs(torrc, Render(first, windows), Render(second, windows));
  }

  /** At an actual input: with END as a bridge line, a second apply leaves debris of the first. */
  lemma MarkerAsBridge(second: Settings)
    ensures var first := Settings(9040, 5353, 9050, 9051, false, "", true, [END]);
            && !IsBlock(Render(first, false))
            && Merge(Merge("", Render(first, false)), Render(second, false)) != Merge("", Render(second, false))
  {
    var first := Settings(9040, 5353, 9050, 9051, false, "", true, [END]);
    Trimmed();
    Markers();
    NotInOther();
    assert OccursAt(END, END, 0);
    assert !Absent(Trim(first.bridges[0]), END);
    assert Without(first, BEGIN) by { hide BEGIN, END; }
    hide Without, Render, Merge, IsBlock, BEGIN, END;
    RenderIsBlock(first, false);
    ReapplyIsApply("", first, second, false);
  }

  lemma Trimmed()
    ensures Trim(END) == END
  {
  }

  lemma NotInOther()
    ensures Absent(END, BEGIN)
  {
    Markers();
    hide BEGIN, END;
    forall i: nat ensures !OccursAt(END, BEGIN, i) { MarkerInMarker(END, BEGIN, i); }
  }
}
