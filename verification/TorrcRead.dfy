/** Reading the rendered torrc block back: every directive carries its own setting. */
module TorrcRead {
  import opened Text
  import opened Torrc
  import opened TorrcRender

  // --- numbers ----------------------------------------------------------

  predicate IsDigit(c: char) { '0' <= c <= '9' }

  /** int(s) of a string of digits. */
  function ReadDecimal(s: string): nat
    requires forall i :: 0 <= i < |s| ==> IsDigit(s[i])
  {
    if s == "" then 0
    else
      var last := s[|s| - 1];
      assert IsDigit(last);
      10 * ReadDecimal(s[..|s| - 1]) + (last as int - '0' as int)
  }

  /** A number is written in digits that read back as the number, without a leading zero. */
  lemma {:induction false} DecimalExactly(n: nat)
    ensures Decimal(n) != "" && forall i :: 0 <= i < |Decimal(n)| ==> IsDigit(Decimal(n)[i])
    ensures ReadDecimal(Decimal(n)) == n
    ensures Decimal(n)[0] == '0' ==> n == 0
  {
    DigitOf(n % 10);
    var s := Decimal(n);
    if n < 10 {
      assert s[..0] == "" && ReadDecimal("") == 0;
    } else {
      DecimalExactly(n / 10);
      assert s[..|s| - 1] == Decimal(n / 10);
    }
  }

  lemma DigitOf(d: nat)
    requires d < 10
    ensures IsDigit(Decimal(d)[0]) && Decimal(d)[0] as int - '0' as int == d && |Decimal(d)| == 1
  {
    var digits := ['0', '1', '2', '3', '4', '5', '6', '7', '8', '9'];
    assert digits[d] as int == '0' as int + d;
  }

  /** Lower-casing writes every capital letter small and leaves every other character as it is. */
  lemma {:induction false} LowerExactly(s: string, i: nat)
    requires i < |s|
    ensures |Lower(s)| == |s|
    ensures 'A' <= s[i] <= 'Z' ==> Lower(s)[i] as int - 'a' as int == s[i] as int - 'A' as int
    ensures !('A' <= s[i] <= 'Z') ==> Lower(s)[i] == s[i]
  {
    if |s| > 1 { LowerExactly(s[1..], if i > 0 then i - 1 else 0); }
  }

  // --- lines ------------------------------------------------------------

  /** The lines of a text whose every line is ended by a line feed. */
  function ReadLines(text: string): seq<string>
    decreases |text|
  {
    var i := Find(text, "\n", 0);
    if i == -1 then [] else [text[..i]] + ReadLines(text[i + 1..])
  }

  lemma {:induction false} LinesBack(lines: seq<string>)
    requires forall i :: 0 <= i < |lines| ==> '\n' !in lines[i]
    ensures ReadLines(Lines(lines)) == lines
  {
    if lines == [] {
      FindNothing("", "\n", 0);
    } else {
      var text, n := Lines(lines), |lines[0]|;
      LinesBack(lines[1..]);
      assert text == lines[0] + ("\n" + Lines(lines[1..]));
      assert text[n..n + 1] == "\n";
      forall i: nat | i < n ensures !OccursAt(text, "\n", i) {
        assert text[i] == lines[0][i];
        OccursChar(text, "\n", i, 0);
      }
      FindIs(text, "\n", 0, n);
      assert text[..n] == lines[0] && text[n + 1..] == Lines(lines[1..]);
    }
  }

  // --- directives -------------------------------------------------------

  /** Where the keyword of a directive ends. */
  function KeyEnd(line: string): (n: nat)
    ensures n <= |line|
  {
    if line == "" || line[0] == ' ' then 0 else 1 + KeyEnd(line[1..])
  }

  /** What the lines with this keyword say, in order. */
  function ArgsOf(lines: seq<string>, key: string): seq<string> {
    if lines == [] then []
    else
      var n := KeyEnd(lines[0]);
      (if n < |lines[0]| && lines[0][..n] == key then [lines[0][n + 1..]] else []) + ArgsOf(lines[1..], key)
  }

  lemma {:induction false} KeyEndOf(key: string, arg: string)
    requires ' ' !in key
    ensures KeyEnd(key + " " + arg) == |key|
  {
    var line := key + " " + arg;
    if key != "" {
      assert line[1..] == key[1..] + " " + arg && line[0] == key[0];
      KeyEndOf(key[1..], arg);
    }
  }

  lemma {:induction false} ArgsAppend(a: seq<string>, b: seq<string>, key: string)
    ensures ArgsOf(a + b, key) == ArgsOf(a, key) + ArgsOf(b, key)
  {
    hide KeyEnd;
    if a == [] {
      assert a + b == b;
    } else {
      assert (a + b)[1..] == a[1..] + b;
      ArgsAppend(a[1..], b, key);
    }
  }

  /** A directive is found under its own keyword and under no other. */
  lemma ArgsOne(mine: string, arg: string, key: string)
    requires ' ' !in mine
    ensures ArgsOf([mine + " " + arg], key) == if mine == key then [arg] else []
  {
    KeyEndOf(mine, arg);
    var line := mine + " " + arg;
    assert line[..|mine|] == mine && line[|mine| + 1..] == arg;
    var rest := [line][1..];
    assert rest == [] && ArgsOf(rest, key) == [];
  }

  /** The bridges that are not blank, stripped, in order. */
  function Bridges(bridges: seq<string>): seq<string> {
    if bridges == [] then [] else (if Trim(bridges[0]) == "" then [] else [Trim(bridges[0])]) + Bridges(bridges[1..])
  }

  lemma {:induction false} BridgeArgs(bridges: seq<string>, key: string)
    ensures ArgsOf(BridgeLines(bridges), key) == if key == "Bridge" then Bridges(bridges) else []
  {
    hide Trim, KeyEnd;
    if bridges != [] {
      var b := Trim(bridges[0]);
      var line := if b == "" then [] else ["Bridge " + b];
      BridgeArgs(bridges[1..], key);
      assert "Bridge " == "Bridge" + " ";
      ArgsOne("Bridge", b, key);
      ArgsAppend(line, BridgeLines(bridges[1..]), key);
    }
  }

  /** What each keyword is to be given. */
  function Wanted(s: Settings, windows: bool, key: string): seq<string> {
    if key == "VirtualAddrNetwork" then ["10.192.0.0/10"]
    else if key == "AutomapHostsOnResolve" then ["1"]
    else if key == "TransPort" then if windows then [] else [Decimal(s.transPort)]
    else if key == "DNSPort" then [Decimal(s.dnsPort)]
    else if key == "SocksPort" then [Decimal(s.socksPort)]
    else if key == "ControlPort" then if s.enableControlPort then [Decimal(s.controlPort)] else []
    else if key == "CookieAuthentication" then if s.enableControlPort then ["1"] else []
    else if key == "ExitNodes" then if s.exitCountry == "" then [] else ["{" + Lower(Trim(s.exitCountry)) + "}"]
    else if key == "StrictNodes" then if s.exitCountry == "" then [] else ["1"]
    else if key == "UseBridges" then if s.useBridges then ["1"] else []
    else if key == "Bridge" then if s.useBridges then Bridges(s.bridges) else []
    else []
  }

  function WantedPorts(s: Settings, windows: bool, key: string): seq<string> {
    if key == "VirtualAddrNetwork" then ["10.192.0.0/10"]
    else if key == "AutomapHostsOnResolve" then ["1"]
    else if key == "TransPort" then if windows then [] else [Decimal(s.transPort)]
    else if key == "DNSPort" then [Decimal(s.dnsPort)]
    else if key == "SocksPort" then [Decimal(s.socksPort)]
    else []
  }

  lemma PortArgs(s: Settings, windows: bool, key: string)
    ensures ArgsOf(PortLines(s, windows), key) == WantedPorts(s, windows, key)
  {
    hide ArgsOf, Decimal;
    FixedArgs(key);
    var a := ["VirtualAddrNetwork 10.192.0.0/10", "AutomapHostsOnResolve 1"];
    var b := if windows then [] else ["TransPort " + Decimal(s.transPort)];
    var c := ["DNSPort " + Decimal(s.dnsPort), "SocksPort " + Decimal(s.socksPort)];
    ArgsAppend(a, b, key);
    ArgsAppend(a + b, c, key);
    PairArgs("DNSPort", Decimal(s.dnsPort), "SocksPort", Decimal(s.socksPort), key);
    ArgsOne("TransPort", Decimal(s.transPort), key);
    NoArgs(key);
    assert "TransPort " == "TransPort" + " " && "DNSPort " == "DNSPort" + " " && "SocksPort " == "SocksPort" + " ";
  }

  lemma PairArgs(k1: string, a1: string, k2: string, a2: string, key: string)
    requires ' ' !in k1 && ' ' !in k2 && k1 != k2
    ensures ArgsOf([k1 + " " + a1, k2 + " " + a2], key) == if key == k1 then [a1] else if key == k2 then [a2] else []
  {
    hide ArgsOf;
    assert [k1 + " " + a1] + [k2 + " " + a2] == [k1 + " " + a1, k2 + " " + a2];
    ArgsAppend([k1 + " " + a1], [k2 + " " + a2], key);
    ArgsOne(k1, a1, key);
    ArgsOne(k2, a2, key);
  }

  lemma FixedArgs(key: string)
    ensures ArgsOf(["VirtualAddrNetwork 10.192.0.0/10", "AutomapHostsOnResolve 1"], key)
         == if key == "VirtualAddrNetwork" then ["10.192.0.0/10"]
            else if key == "AutomapHostsOnResolve" then ["1"] else []
  {
    hide ArgsOf;
    assert "VirtualAddrNetwork" + " " + "10.192.0.0/10" == "VirtualAddrNetwork 10.192.0.0/10";
    assert "AutomapHostsOnResolve" + " " + "1" == "AutomapHostsOnResolve 1";
    PairArgs("VirtualAddrNetwork", "10.192.0.0/10", "AutomapHostsOnResolve", "1", key);
  }

  lemma NoArgs(key: string)
    ensures ArgsOf([], key) == []
  {
  }

  function WantedControl(s: Settings, key: string): seq<string> {
    if !s.enableControlPort then []
    else if key == "ControlPort" then [Decimal(s.controlPort)]
    else if key == "CookieAuthentication" then ["1"]
    else []
  }

  lemma ControlArgs(s: Settings, key: string)
    ensures ArgsOf(ControlLines(s), key) == WantedControl(s, key)
  {
    hide ArgsOf, Decimal;
    var a, b := ["ControlPort " + Decimal(s.controlPort)], ["CookieAuthentication 1"];
    assert a + b == ["ControlPort " + Decimal(s.controlPort), "CookieAuthentication 1"];
    assert "ControlPort " == "ControlPort" + " " && "CookieAuthentication 1" == "CookieAuthentication" + " " + "1";
    ArgsAppend(a, b, key);
    ArgsOne("ControlPort", Decimal(s.controlPort), key);
    ArgsOne("CookieAuthentication", "1", key);
    NoArgs(key);
  }

  function WantedExit(s: Settings, key: string): seq<string> {
    if s.exitCountry == "" then []
    else if key == "ExitNodes" then ["{" + Lower(Trim(s.exitCountry)) + "}"]
    else if key == "StrictNodes" then ["1"]
    else []
  }

  lemma ExitArgs(s: Settings, key: string)
    ensures ArgsOf(ExitLines(s), key) == WantedExit(s, key)
  {
    hide ArgsOf, Lower, Trim;
    var code := Lower(Trim(s.exitCountry));
    var a, b := ["ExitNodes {" + code + "}"], ["StrictNodes 1"];
    assert a + b == ["ExitNodes {" + code + "}", "StrictNodes 1"];
    assert "ExitNodes {" + code + "}" == "ExitNodes" + " " + ("{" + code + "}");
    assert "StrictNodes 1" == "StrictNodes" + " " + "1";
    ArgsAppend(a, b, key);
    ArgsOne("ExitNodes", "{" + code + "}", key);
    ArgsOne("StrictNodes", "1", key);
    NoArgs(key);
  }

  function WantedBridges(s: Settings, key: string): seq<string> {
    if !s.useBridges then []
    else if key == "UseBridges" then ["1"]
    else if key == "Bridge" then Bridges(s.bridges)
    else []
  }

  lemma UseArgs(s: Settings, key: string)
    ensures ArgsOf(if s.useBridges then ["UseBridges 1"] + BridgeLines(s.bridges) else [], key) == WantedBridges(s, key)
  {
    hide ArgsOf, BridgeLines, Bridges;
    assert "UseBridges 1" == "UseBridges" + " " + "1";
    ArgsAppend(["UseBridges 1"], BridgeLines(s.bridges), key);
    ArgsOne("UseBridges", "1", key);
    BridgeArgs(s.bridges, key);
    NoArgs(key);
  }

  /** No keyword belongs to two groups. */
  lemma WantedTogether(s: Settings, windows: bool, key: string)
    ensures Wanted(s, windows, key)
         == WantedPorts(s, windows, key) + WantedControl(s, key) + WantedExit(s, key) + WantedBridges(s, key)
  {
    hide Decimal, Lower, Trim, Bridges;
  }

  /** Every directive of the block carries its own setting, once, and there are no others. */
  lemma DirectivesExactly(s: Settings, windows: bool, key: string)
    ensures ArgsOf(Directives(s, windows), key) == Wanted(s, windows, key)
  {
    WantedTogether(s, windows, key);
    hide ArgsOf, PortLines, ControlLines, ExitLines, BridgeLines;
    hide Wanted, WantedPorts, WantedControl, WantedExit, WantedBridges;
    var a, b, c := PortLines(s, windows), ControlLines(s), ExitLines(s);
    var d := if s.useBridges then ["UseBridges 1"] + BridgeLines(s.bridges) else [];
    PortArgs(s, windows, key);
    ControlArgs(s, key);
    ExitArgs(s, key);
    UseArgs(s, key);
    ArgsAppend(a, b, key);
    ArgsAppend(a + b, c, key);
    ArgsAppend(a + b + c, d, key);
    assert Directives(s, windows) == a + b + c + d;
  }

  /** No free-text field holds a line feed. */
  predicate OneLiners(s: Settings) {
    '\n' !in Lower(Trim(s.exitCountry)) && forall i :: 0 <= i < |s.bridges| ==> '\n' !in Trim(s.bridges[i])
  }

  predicate NoFeeds(lines: seq<string>) { forall i :: 0 <= i < |lines| ==> '\n' !in lines[i] }

  lemma {:induction false} BridgesNoFeeds(bridges: seq<string>)
    requires forall i :: 0 <= i < |bridges| ==> '\n' !in Trim(bridges[i])
    ensures NoFeeds(BridgeLines(bridges))
  {
    hide Trim;
    if bridges != [] {
      forall i | 0 <= i < |bridges[1..]| ensures '\n' !in Trim(bridges[1..][i]) {
        assert bridges[1..][i] == bridges[i + 1];
      }
      BridgesNoFeeds(bridges[1..]);
    }
  }

  lemma Joined(a: string, b: string)
    requires '\n' !in a && '\n' !in b
    ensures '\n' !in a + b
  {
  }

  lemma NoFeedsAppend(a: seq<string>, b: seq<string>)
    requires NoFeeds(a) && NoFeeds(b)
    ensures NoFeeds(a + b)
  {
  }

  lemma NumberNoFeed(key: string, n: nat)
    requires '\n' !in key
    ensures '\n' !in key + Decimal(n)
  {
    DecimalNoFeed(n);
    Joined(key, Decimal(n));
  }

  lemma FixedNoFeeds()
    ensures NoFeeds(["VirtualAddrNetwork 10.192.0.0/10", "AutomapHostsOnResolve 1"])
    ensures '\n' !in "CookieAuthentication 1"
  {
  }

  lemma PortsNoFeeds(s: Settings, windows: bool)
    ensures NoFeeds(PortLines(s, windows)) && NoFeeds(ControlLines(s))
  {
    FixedNoFeeds();
    NumberNoFeed("TransPort ", s.transPort);
    NumberNoFeed("DNSPort ", s.dnsPort);
    NumberNoFeed("SocksPort ", s.socksPort);
    NumberNoFeed("ControlPort ", s.controlPort);
    hide Decimal;
    var a := ["VirtualAddrNetwork 10.192.0.0/10", "AutomapHostsOnResolve 1"];
    var b := if windows then [] else ["TransPort " + Decimal(s.transPort)];
    var c := ["DNSPort " + Decimal(s.dnsPort), "SocksPort " + Decimal(s.socksPort)];
    assert NoFeeds(b) && NoFeeds(c) && NoFeeds(ControlLines(s));
    assert PortLines(s, windows) == a + b + c;
    hide *;
    NoFeedsAppend(a, b);
    NoFeedsAppend(a + b, c);
  }

  lemma ExitNoFeeds(s: Settings)
    requires '\n' !in Lower(Trim(s.exitCountry))
    ensures NoFeeds(ExitLines(s))
  {
    hide Lower, Trim;
    Joined("ExitNodes {", Lower(Trim(s.exitCountry)));
    Joined("ExitNodes {" + Lower(Trim(s.exitCountry)), "}");
  }

  lemma DirectivesNoFeeds(s: Settings, windows: bool)
    requires OneLiners(s)
    ensures NoFeeds(Directives(s, windows))
  {
    PortsNoFeeds(s, windows);
    ExitNoFeeds(s);
    BridgesNoFeeds(s.bridges);
    var use := ["UseBridges 1"];
    assert NoFeeds(use);
    hide PortLines, ControlLines, ExitLines, BridgeLines, NoFeeds, OneLiners;
    var bridges := if s.useBridges then use + BridgeLines(s.bridges) else [];
    assert NoFeeds(bridges) by { NoFeedsAppend(use, BridgeLines(s.bridges)); NoFeedsNone(); }
    NoFeedsAppend(PortLines(s, windows), ControlLines(s));
    NoFeedsAppend(PortLines(s, windows) + ControlLines(s), ExitLines(s));
    NoFeedsAppend(PortLines(s, windows) + ControlLines(s) + ExitLines(s), bridges);
  }

  lemma NoFeedsNone()
    ensures NoFeeds([])
  {
  }

  lemma DecimalNoFeed(n: nat)
    ensures '\n' !in Decimal(n)
  {
    DecimalExactly(n);
    hide Decimal;
  }

  lemma MarkerNoFeed(p: string)
    requires Marker(p)
    ensures '\n' !in p
  {
  }

  lemma MarkersSpaced()
    ensures |BEGIN| > 1 && |END| > 1 && BEGIN[1] == ' ' && END[1] == ' '
  {
  }

  /** Read back line by line from the rendered text, every directive carries its own setting. */
  lemma RenderReadsBack(s: Settings, windows: bool, key: string)
    requires OneLiners(s) && key != "#"
    ensures ArgsOf(ReadLines(Render(s, windows)), key) == Wanted(s, windows, key)
  {
    Markers();
    MarkersSpaced();
    MarkerNoFeed(BEGIN);
    MarkerNoFeed(END);
    DirectivesNoFeeds(s, windows);
    DirectivesExactly(s, windows, key);
    hide BEGIN, END, Directives, ReadLines, Lines, Wanted, Marker, ArgsOf;
    BlockReadsBack(BEGIN, Directives(s, windows), END, key);
  }

  lemma BlockReadsBack(begin: string, lines: seq<string>, end: string, key: string)
    requires NoFeeds(lines) && '\n' !in begin && '\n' !in end && key != "#"
    requires |begin| > 1 && |end| > 1 && begin[0] == end[0] == '#' && begin[1] == end[1] == ' '
    ensures ArgsOf(ReadLines(Lines([begin] + lines + [end])), key) == ArgsOf(lines, key)
  {
    hide ArgsOf, ReadLines, Lines;
    NoFeedsAppend([begin], lines);
    NoFeedsAppend([begin] + lines, [end]);
    LinesBack([begin] + lines + [end]);
    Comment(begin, key);
    Comment(end, key);
    ArgsAppend([begin], lines, key);
    ArgsAppend([begin] + lines, [end], key);
  }

  lemma Comment(line: string, key: string)
    requires |line| > 1 && line[0] == '#' && line[1] == ' ' && key != "#"
    ensures ArgsOf([line], key) == []
  {
    var rest := [line][1..];
    assert rest == [] && ArgsOf(rest, key) == [];
    assert KeyEnd(line[1..]) == 0 && KeyEnd(line) == 1;
    assert line[..1] == "#";
  }
}
