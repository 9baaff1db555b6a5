/** What the installed rules do to a packet, and that the engine's rulesets confine a user. */
module PacketFilter {
  import opened Netfilter
  import opened Wrappers
  import opened Host
  import opened Runs
  import opened Engine
  import T = Transaction

  /** A locally generated packet: sender, protocol, destination, and whether it leaves by lo. */
  datatype Packet = Packet(uid: int, proto: Proto, dst: bv32, dport: int, lo: bool)

  predicate Loopback(dst: bv32) { dst >> 24 == 127 }

  /** Routing sends 127.0.0.0/8 out by lo; other destinations may be local too. */
  predicate Routed(p: Packet) { Loopback(p.dst) ==> p.lo }

  /** What the matches nobody here writes mean. */
  type Meaning = (nat, Packet) -> bool

  predicate MatchHolds(m: Match, p: Packet, other: Meaning) {
    match m
    case Owner(uid) => p.uid == uid
    case ToLoopback => Loopback(p.dst)
    case OutLo => p.lo
    case OfProto(proto) => p.proto == proto
    case DPort(port) => p.dport == port
    case Opaque(id) => other(id, p)
  }

  predicate RuleHolds(r: Rule, p: Packet, other: Meaning) {
    forall i :: 0 <= i < |r.matches| ==> MatchHolds(r.matches[i], p, other)
  }

  /** The first rule of a chain that matches decides. */
  function FirstMatch(c: seq<Rule>, p: Packet, other: Meaning): (r: Option<Rule>)
    ensures r.Some? ==> r.value in c && RuleHolds(r.value, p, other)
    ensures r.None? ==> forall x :: x in c ==> !RuleHolds(x, p, other)
  {
    if c == [] then None
    else if RuleHolds(c[0], p, other) then Some(c[0])
    else FirstMatch(c[1..], p, other)
  }

  /** nat/OUTPUT: REDIRECT sends the packet to 127.0.0.1 at its port, by lo. */
  function Rewrite(t: Tables, p: Packet, other: Meaning): Packet {
    match FirstMatch(t.nats, p, other)
    case Some(Rule(_, _, Redirect(port))) => p.(dst := 0x7F00_0001, dport := port, lo := true)
    case _ => p
  }

  /** filter/OUTPUT: DROP drops, ACCEPT accepts, RETURN and no match leave it to the chain policy. */
  predicate Passes(t: Tables, p: Packet, other: Meaning, policy: bool) {
    match FirstMatch(t.filters, p, other)
    case Some(r) => if r.target == Drop then false else if r.target == Return then policy else true
    case None => policy
  }

  /** The packet as it leaves the host, if it does: nat first, then filter. */
  function Outcome(t: Tables, p: Packet, other: Meaning, policy: bool): Option<Packet> {
    var q := Rewrite(t, p, other);
    if Passes(t, q, other, policy) then Some(q) else None
  }

  /** All other rules of the chains leave this user's packets alone. */
  ghost predicate OthersIgnore(t: Tables, rs: seq<Rule>, uid: int, other: Meaning) {
    forall r, p: Packet :: (r in t.nats || r in t.filters) && r !in rs && p.uid == uid ==> !RuleHolds(r, p, other)
  }

  /** Every chain holds rules of its own table. */
  predicate Tabled(t: Tables) {
    (forall r :: r in t.nats ==> r.table == Nat) && (forall r :: r in t.filters ==> r.table == Filter)
  }

  /** Which packets each of the seven rules matches. */
  lemma RulesMean(uid: int, transPort: int, dnsPort: int, p: Packet, other: Meaning)
    ensures var rs := BuildRules(uid, transPort, dnsPort);
            && (RuleHolds(rs[0], p, other) <==> p.uid == uid && Loopback(p.dst))
            && (RuleHolds(rs[1], p, other) <==> p.uid == uid && p.proto == Tcp)
            && (RuleHolds(rs[2], p, other) <==> p.uid == uid && p.proto == Udp && p.dport == 53)
            && (RuleHolds(rs[3], p, other) <==> p.uid == uid && p.lo)
            && (RuleHolds(rs[4], p, other) <==> p.uid == uid && p.proto == Tcp && p.dport == transPort)
            && (RuleHolds(rs[5], p, other) <==> p.uid == uid && p.proto == Udp && p.dport == dnsPort)
            && (RuleHolds(rs[6], p, other) <==> p.uid == uid)
  {
    OneMatch(Rule(Filter, [Owner(uid)], Drop), p, other);
    TwoMatches(Rule(Nat, [Owner(uid), ToLoopback], Return), p, other);
    TwoMatches(Rule(Nat, [Owner(uid), OfProto(Tcp)], Redirect(transPort)), p, other);
    ThreeMatches(Rule(Nat, [Owner(uid), OfProto(Udp), DPort(53)], Redirect(dnsPort)), p, other);
    TwoMatches(Rule(Filter, [Owner(uid), OutLo], Accept), p, other);
    ThreeMatches(Rule(Filter, [Owner(uid), OfProto(Tcp), DPort(transPort)], Accept), p, other);
    ThreeMatches(Rule(Filter, [Owner(uid), OfProto(Udp), DPort(dnsPort)], Accept), p, other);
    hide RuleHolds, Loopback;
  }

  lemma OneMatch(r: Rule, p: Packet, other: Meaning)
    requires |r.matches| == 1
    ensures RuleHolds(r, p, other) <==> MatchHolds(r.matches[0], p, other)
  {
    hide MatchHolds;
  }

  lemma TwoMatches(r: Rule, p: Packet, other: Meaning)
    requires |r.matches| == 2
    ensures RuleHolds(r, p, other) <==> MatchHolds(r.matches[0], p, other) && MatchHolds(r.matches[1], p, other)
  {
    hide MatchHolds;
  }

  lemma ThreeMatches(r: Rule, p: Packet, other: Meaning)
    requires |r.matches| == 3
    ensures RuleHolds(r, p, other) <==>
            && MatchHolds(r.matches[0], p, other)
            && MatchHolds(r.matches[1], p, other)
            && MatchHolds(r.matches[2], p, other)
  {
    hide MatchHolds;
  }

  /** The rules the engine builds for a user under any of these port pairs. */
  function AllRules(uid: int, keys: seq<(int, int)>): seq<Rule> {
    if keys == [] then [] else BuildRules(uid, keys[0].0, keys[0].1) + AllRules(uid, keys[1..])
  }

  lemma {:induction false} InAllRules(uid: int, keys: seq<(int, int)>, r: Rule)
    ensures r in AllRules(uid, keys) <==>
            exists i :: 0 <= i < |keys| && r in BuildRules(uid, keys[i].0, keys[i].1)
  {
    hide BuildRules;
    if keys != [] {
      InAllRules(uid, keys[1..], r);
      if i: nat :| i < |keys| - 1 && r in BuildRules(uid, keys[1..][i].0, keys[1..][i].1) {
        assert keys[1..][i] == keys[i + 1];
      }
      if i: nat :| i < |keys| && r in BuildRules(uid, keys[i].0, keys[i].1) {
        if i > 0 { assert keys[i] == keys[1..][i - 1]; }
      }
    }
  }

  /**
   All seven rules of one port pair are there, in whatever order, among rules that never match the user
   and rules the engine has left behind for the user under other port pairs.
   */
  ghost predicate Armed(t: Tables, uid: int, keys: seq<(int, int)>, transPort: int, dnsPort: int, other: Meaning) {
    && Tabled(t) && StatusOf(t, BuildRules(uid, transPort, dnsPort)).active
    && OthersIgnore(t, AllRules(uid, keys), uid, other)
  }

  /** A user's packet is decided by one of the engine's own rules of that table. */
  lemma OwnRuleDecides(t: Tables, rs: seq<Rule>, table: Table, p: Packet, other: Meaning)
    requires Tabled(t) && OthersIgnore(t, rs, p.uid, other)
    ensures var f := FirstMatch(Chain(t, table), p, other);
            f.Some? ==> f.value in rs && f.value.table == table && RuleHolds(f.value, p, other)
  {
    hide RuleHolds;
  }

  /** A rule that is present and matches keeps the search from coming up empty. */
  lemma SomeRuleDecides(t: Tables, r: Rule, p: Packet, other: Meaning)
    requires Present(t, r) && RuleHolds(r, p, other)
    ensures FirstMatch(Chain(t, r.table), p, other).Some?
  {
    hide RuleHolds;
  }

  /** Of the engine's own rules, these can stand in nat and match a packet. */
  lemma OwnNatRule(uid: int, keys: seq<(int, int)>, r: Rule, p: Packet, other: Meaning)
    requires r in AllRules(uid, keys) && r.table == Nat && RuleHolds(r, p, other)
    ensures (r.target == Return && Loopback(p.dst))
            || (r.target.Redirect? && (p.proto == Tcp || (p.proto == Udp && p.dport == 53)))
  {
    InAllRules(uid, keys, r);
    var i :| 0 <= i < |keys| && r in BuildRules(uid, keys[i].0, keys[i].1);
    var rs := BuildRules(uid, keys[i].0, keys[i].1);
    RulesMean(uid, keys[i].0, keys[i].1, p, other);
    hide RuleHolds, Loopback;
    assert r in [rs[0], rs[1], rs[2]];
  }

  function AcceptUdp(uid: int, port: int): Rule { Rule(Filter, [Owner(uid), OfProto(Udp), DPort(port)], Accept) }

  function DropAll(uid: int): Rule { Rule(Filter, [Owner(uid)], Drop) }

  /** And these in filter; the accepts name a port of some pair. */
  lemma OwnFilterRule(uid: int, keys: seq<(int, int)>, r: Rule, p: Packet, other: Meaning)
    requires r in AllRules(uid, keys) && r.table == Filter && RuleHolds(r, p, other)
    ensures r == DropAll(uid) || (r.target == Accept && (p.lo || ToTor(keys, p)))
    ensures !p.lo && p.proto == Udp ==> r == DropAll(uid) || r == AcceptUdp(uid, p.dport)
  {
    InAllRules(uid, keys, r);
    var i :| 0 <= i < |keys| && r in BuildRules(uid, keys[i].0, keys[i].1);
    var rs := BuildRules(uid, keys[i].0, keys[i].1);
    RulesMean(uid, keys[i].0, keys[i].1, p, other);
    hide RuleHolds, Loopback;
    assert r in [rs[3], rs[4], rs[5], rs[6]];
  }

  /** Addressed to the Tor ports of one of the pairs. */
  predicate ToTor(keys: seq<(int, int)>, p: Packet) {
    exists i :: 0 <= i < |keys|
                && ((p.proto == Tcp && p.dport == keys[i].0) || (p.proto == Udp && p.dport == keys[i].1))
  }

  /** After nat/OUTPUT: all TCP, all DNS and all loopback traffic of the user leaves by lo. */
  lemma NatSendsToLo(t: Tables, uid: int, keys: seq<(int, int)>, transPort: int, dnsPort: int, p: Packet,
                     other: Meaning)
    requires Armed(t, uid, keys, transPort, dnsPort, other) && p.uid == uid && Routed(p)
    ensures var q := Rewrite(t, p, other);
            && q.uid == uid && q.proto == p.proto
            && (q == p || q.lo)
            && (p.proto == Tcp || (p.proto == Udp && p.dport == 53) ==> q.lo)
            && (p.lo ==> q.lo)
  {
    var rs := BuildRules(uid, transPort, dnsPort);
    RulesMean(uid, transPort, dnsPort, p, other);
    OwnRuleDecides(t, AllRules(uid, keys), Nat, p, other);
    assert Present(t, rs[1]) && Present(t, rs[2]);
    if p.proto == Tcp { SomeRuleDecides(t, rs[1], p, other); }
    if p.proto == Udp && p.dport == 53 { SomeRuleDecides(t, rs[2], p, other); }
    hide RuleHolds, OthersIgnore, Tabled, Loopback, AllRules;
    var f := FirstMatch(t.nats, p, other);
    if f.Some? { OwnNatRule(uid, keys, f.value, p, other); }
  }

  /** Behind the drop alone, filter/OUTPUT lets a packet of the user out only by lo or to the Tor ports. */
  lemma FilterConfines(t: Tables, uid: int, keys: seq<(int, int)>, q: Packet, other: Meaning, policy: bool)
    requires Tabled(t) && OthersIgnore(t, AllRules(uid, keys), uid, other)
    requires Present(t, DropAll(uid)) && q.uid == uid
    ensures Passes(t, q, other, policy) ==> q.lo || ToTor(keys, q)
  {
    OneMatch(DropAll(uid), q, other);
    OwnRuleDecides(t, AllRules(uid, keys), Filter, q, other);
    SomeRuleDecides(t, DropAll(uid), q, other);
    hide RuleHolds, OthersIgnore, Tabled, Loopback, AllRules, ToTor;
    OwnFilterRule(uid, keys, FirstMatch(t.filters, q, other).value, q, other);
  }

  /**
   Active means confined, whatever the order of the rules and whatever the chain policy: what leaves
   of the user's packets leaves by lo, except UDP to the DNS port of some pair when that is not 53.
   */
  lemma ActiveConfines(t: Tables, uid: int, keys: seq<(int, int)>, transPort: int, dnsPort: int, p: Packet,
                       other: Meaning, policy: bool)
    requires Armed(t, uid, keys, transPort, dnsPort, other) && p.uid == uid && Routed(p)
    ensures var q := Outcome(t, p, other, policy);
            q.Some? && !q.value.lo ==>
              && q.value == p && p.proto == Udp && p.dport != 53
              && exists i :: 0 <= i < |keys| && p.dport == keys[i].1
  {
    NatSendsToLo(t, uid, keys, transPort, dnsPort, p, other);
    assert Present(t, BuildRules(uid, transPort, dnsPort)[6]);
    hide OthersIgnore, AllRules, Loopback;
    FilterConfines(t, uid, keys, Rewrite(t, p, other), other, policy);
  }

  // --- when the exception is real ---------------------------------------

  /** Where a rule first stands in a chain. */
  function Place(c: seq<Rule>, r: Rule): nat
    requires r in c
  {
    if c[0] == r then 0 else 1 + Place(c[1..], r)
  }

  lemma {:induction false} EarlierOfTwo(c: seq<Rule>, a: Rule, b: Rule, p: Packet, other: Meaning)
    requires a in c && b in c && a != b
    requires RuleHolds(a, p, other) && RuleHolds(b, p, other)
    requires forall r :: r in c && RuleHolds(r, p, other) ==> r == a || r == b
    ensures FirstMatch(c, p, other) == Some(if Place(c, a) < Place(c, b) then a else b)
  {
    hide RuleHolds;
    assert c == [c[0]] + c[1..];
    if c[0] != a && c[0] != b { EarlierOfTwo(c[1..], a, b, p, other); }
  }

  /** The accept for UDP to this port stands before the drop, whatever configuration put it there. */
  predicate Overtakes(t: Tables, uid: int, port: int) {
    var accept, drop := AcceptUdp(uid, port), DropAll(uid);
    accept in t.filters && drop in t.filters && Place(t.filters, accept) < Place(t.filters, drop)
  }

  /** A packet leaves other than by lo exactly if it is UDP, not DNS, and an accept for its port overtakes the drop. */
  lemma EscapeExactly(t: Tables, uid: int, keys: seq<(int, int)>, transPort: int, dnsPort: int, p: Packet,
                      other: Meaning, policy: bool)
    requires Armed(t, uid, keys, transPort, dnsPort, other) && p.uid == uid && Routed(p)
    ensures var q := Outcome(t, p, other, policy);
            (q.Some? && !q.value.lo) <==> !p.lo && p.proto == Udp && p.dport != 53 && Overtakes(t, uid, p.dport)
  {
    ActiveConfines(t, uid, keys, transPort, dnsPort, p, other, policy);
    NatSendsToLo(t, uid, keys, transPort, dnsPort, p, other);
    if !p.lo && p.proto == Udp && p.dport != 53 {
      assert Present(t, BuildRules(uid, transPort, dnsPort)[6]);
      PlainUdp(t, uid, keys, p, other);
      DropOrAccept(t, uid, keys, p, other);
    }
  }

  /** No rule of nat rewrites UDP that is not DNS. */
  lemma PlainUdp(t: Tables, uid: int, keys: seq<(int, int)>, p: Packet, other: Meaning)
    requires Tabled(t) && OthersIgnore(t, AllRules(uid, keys), uid, other) && p.uid == uid
    requires p.proto == Udp && p.dport != 53
    ensures Rewrite(t, p, other) == p
  {
    OwnRuleDecides(t, AllRules(uid, keys), Nat, p, other);
    hide RuleHolds, OthersIgnore, Tabled, Loopback, AllRules;
    var f := FirstMatch(t.nats, p, other);
    if f.Some? { OwnNatRule(uid, keys, f.value, p, other); }
  }

  /** What decides about UDP that does not leave by lo: the accept for its port, if that comes first, or the drop. */
  lemma DropOrAccept(t: Tables, uid: int, keys: seq<(int, int)>, p: Packet, other: Meaning)
    requires Tabled(t) && OthersIgnore(t, AllRules(uid, keys), uid, other) && p.uid == uid
    requires Present(t, DropAll(uid)) && p.proto == Udp && !p.lo
    ensures FirstMatch(t.filters, p, other)
         == Some(if Overtakes(t, uid, p.dport) then AcceptUdp(uid, p.dport) else DropAll(uid))
  {
    var accept, drop := AcceptUdp(uid, p.dport), DropAll(uid);
    OneMatch(drop, p, other);
    ThreeMatches(accept, p, other);
    SomeRuleDecides(t, drop, p, other);
    forall x | x in t.filters && RuleHolds(x, p, other) ensures x == drop || x == accept {
      OwnFilterRule(uid, keys, x, p, other);
    }
    hide RuleHolds, OthersIgnore, AllRules;
    if accept in t.filters { EarlierOfTwo(t.filters, accept, drop, p, other); }
  }

  // --- the rules in the order they are built ----------------------------

  /** No rule of these chains ever matches a packet of the user. */
  ghost predicate Ignores(c: seq<Rule>, uid: int, other: Meaning) {
    forall r, p: Packet :: r in c && p.uid == uid ==> !RuleHolds(r, p, other)
  }

  lemma {:induction false} SkipIgnored(c: seq<Rule>, d: seq<Rule>, p: Packet, other: Meaning)
    requires Ignores(c, p.uid, other)
    ensures FirstMatch(c + d, p, other) == FirstMatch(d, p, other)
  {
    hide RuleHolds;
    if c == [] {
      assert c + d == d;
    } else {
      assert (c + d)[1..] == c[1..] + d;
      SkipIgnored(c[1..], d, p, other);
    }
  }

  /** What the ruleset is meant to do with a packet of the user. */
  function Torified(p: Packet, transPort: int, dnsPort: int): Option<Packet> {
    if Loopback(p.dst) then Some(p)
    else if p.proto == Tcp then Some(p.(dst := 0x7F00_0001, dport := transPort, lo := true))
    else if p.proto == Udp && p.dport == 53 then Some(p.(dst := 0x7F00_0001, dport := dnsPort, lo := true))
    else if p.lo || (p.proto == Udp && p.dport == dnsPort) then Some(p)
    else None
  }

  lemma FirstOfThree(a: Rule, b: Rule, c: Rule, p: Packet, other: Meaning)
    ensures FirstMatch([a, b, c], p, other)
         == if RuleHolds(a, p, other) then Some(a) else if RuleHolds(b, p, other) then Some(b)
            else if RuleHolds(c, p, other) then Some(c) else None
  {
    hide RuleHolds;
    assert [a, b, c][1..] == [b, c] && [b, c][1..] == [c] && [c][1..] == [];
  }

  lemma FirstOfFour(a: Rule, b: Rule, c: Rule, d: Rule, p: Packet, other: Meaning)
    ensures FirstMatch([a, b, c, d], p, other)
         == if RuleHolds(a, p, other) then Some(a) else FirstMatch([b, c, d], p, other)
  {
    hide RuleHolds;
    assert [a, b, c, d][1..] == [b, c, d];
  }

  lemma RulesByTable(uid: int, transPort: int, dnsPort: int)
    ensures var rs := BuildRules(uid, transPort, dnsPort);
            && T.OfTable(rs, Nat) == [rs[0], rs[1], rs[2]]
            && T.OfTable(rs, Filter) == [rs[3], rs[4], rs[5], rs[6]]
  {
    var rs := BuildRules(uid, transPort, dnsPort);
    var nats, filters := [rs[0], rs[1], rs[2]], [rs[3], rs[4], rs[5], rs[6]];
    assert rs == nats + filters;
    T.OfTableAppend(nats, filters, Nat);
    T.OfTableAppend(nats, filters, Filter);
    AllOfTable(nats, Nat);
    AllOfTable(filters, Filter);
    NoneOfTable(nats, Filter);
    NoneOfTable(filters, Nat);
  }

  lemma {:induction false} AllOfTable(rs: seq<Rule>, table: Table)
    requires forall i :: 0 <= i < |rs| ==> rs[i].table == table
    ensures T.OfTable(rs, table) == rs
  {
    if rs != [] { AllOfTable(rs[1..], table); }
  }

  lemma {:induction false} NoneOfTable(rs: seq<Rule>, table: Table)
    requires forall i :: 0 <= i < |rs| ==> rs[i].table != table
    ensures T.OfTable(rs, table) == []
  {
    if rs != [] { NoneOfTable(rs[1..], table); }
  }

  lemma BuiltNat(t: Tables, uid: int, transPort: int, dnsPort: int, p: Packet, other: Meaning)
    requires Ignores(t.nats, uid, other) && p.uid == uid
    ensures Rewrite(T.Extend(t, BuildRules(uid, transPort, dnsPort)), p, other)
         == if Loopback(p.dst) then p
            else if p.proto == Tcp then p.(dst := 0x7F00_0001, dport := transPort, lo := true)
            else if p.proto == Udp && p.dport == 53 then p.(dst := 0x7F00_0001, dport := dnsPort, lo := true)
            else p
  {
    var rs := BuildRules(uid, transPort, dnsPort);
    RulesByTable(uid, transPort, dnsPort);
    RulesMean(uid, transPort, dnsPort, p, other);
    SkipIgnored(t.nats, [rs[0], rs[1], rs[2]], p, other);
    FirstOfThree(rs[0], rs[1], rs[2], p, other);
    hide RuleHolds, FirstMatch, Loopback;
  }

  lemma BuiltFilter(t: Tables, uid: int, transPort: int, dnsPort: int, q: Packet, other: Meaning, policy: bool)
    requires Ignores(t.filters, uid, other) && q.uid == uid
    ensures Passes(T.Extend(t, BuildRules(uid, transPort, dnsPort)), q, other, policy) <==>
            q.lo || (q.proto == Tcp && q.dport == transPort) || (q.proto == Udp && q.dport == dnsPort)
  {
    var rs := BuildRules(uid, transPort, dnsPort);
    RulesByTable(uid, transPort, dnsPort);
    RulesMean(uid, transPort, dnsPort, q, other);
    SkipIgnored(t.filters, [rs[3], rs[4], rs[5], rs[6]], q, other);
    FirstOfFour(rs[3], rs[4], rs[5], rs[6], q, other);
    FirstOfThree(rs[4], rs[5], rs[6], q, other);
    hide RuleHolds, FirstMatch, Loopback;
  }

  /** Appended to chains that ignore the user, the built ruleset does exactly what it is meant to do. */
  lemma BuiltOrderTorifies(t: Tables, uid: int, transPort: int, dnsPort: int, p: Packet, other: Meaning, policy: bool)
    requires Ignores(t.nats, uid, other) && Ignores(t.filters, uid, other)
    requires p.uid == uid && Routed(p)
    ensures Outcome(T.Extend(t, BuildRules(uid, transPort, dnsPort)), p, other, policy)
         == Torified(p, transPort, dnsPort)
  {
    BuiltNat(t, uid, transPort, dnsPort, p, other);
    var q := Rewrite(T.Extend(t, BuildRules(uid, transPort, dnsPort)), p, other);
    BuiltFilter(t, uid, transPort, dnsPort, q, other, policy);
  }

  /** A successful apply arms the confinement, whatever part of the ruleset was there already. */
  lemma ApplyArmsConfinement(w: World<Host>, uid: int, keys: seq<(int, int)>, transPort: int, dnsPort: int,
                             other: Meaning, faults: Faults<Command>)
    requires Tabled(w.host.v4) && OthersIgnore(w.host.v4, AllRules(uid, keys), uid, other)
    requires (transPort, dnsPort) in keys && ApplyList(w, V4, BuildRules(uid, transPort, dnsPort), faults).ok
    ensures var a := ApplyList(w, V4, BuildRules(uid, transPort, dnsPort), faults);
            Armed(a.w.host.v4, uid, keys, transPort, dnsPort, other)
  {
    hide RuleHolds, ApplyList, T.GrownSince, T.Subsequence, T.Extend, AllRules;
    var rs, t := BuildRules(uid, transPort, dnsPort), w.host.v4;
    T.ApplyIsTransaction(w, V4, rs, faults);
    T.ApplyArms(w, V4, rs, faults);
    hide BuildRules;
    var added := T.Missing(t, [], rs);
    forall r ensures r in added ==> r in AllRules(uid, keys) {
      T.MissingCovers(t, [], rs, r);
      InAllRules(uid, keys, r);
    }
    ExtendTabled(t, added);
  }

  lemma ExtendTabled(t: Tables, rs: seq<Rule>)
    requires Tabled(t)
    ensures Tabled(T.Extend(t, rs))
    ensures forall r :: r in T.Extend(t, rs).nats ==> r in t.nats || r in rs
    ensures forall r :: r in T.Extend(t, rs).filters ==> r in t.filters || r in rs
  {
    forall r, table ensures r in T.OfTable(rs, table) <==> r in rs && r.table == table {
      T.OfTableMember(rs, table, r);
    }
  }

  /** The exception at an actual packet: with the DNS port at 5353, UDP to it leaves by any interface. */
  lemma EscapeAt(other: Meaning, policy: bool)
    ensures var t := T.Extend(Tables([], []), BuildRules(1000, 9040, 5353));
            var p := Packet(1000, Udp, 0x0909_0909, 5353, false);
            Outcome(t, p, other, policy) == Some(p)
  {
    var p := Packet(1000, Udp, 0x0909_0909, 5353, false);
    assert !Loopback(p.dst);
    assert Torified(p, 9040, 5353) == Some(p);
    hide T.Extend, BuildRules, Outcome, Torified;
    BuiltOrderTorifies(Tables([], []), 1000, 9040, 5353, p, other, policy);
  }

  // --- IPv6 -------------------------------------------------------------

  /** With the IPv6 drop present, wherever it stands, the user's IPv6 packets leave only by lo. */
  lemma V6Confines(t: Tables, uid: int, p: Packet, other: Meaning, policy: bool)
    requires Tabled(t) && StatusOf(t, BuildV6Rules(uid)).killswitch && OthersIgnore(t, BuildV6Rules(uid), uid, other)
    requires p.uid == uid
    ensures Rewrite(t, p, other) == p
    ensures Passes(t, p, other, policy) ==> p.lo
  {
    var rs := BuildV6Rules(uid);
    OneMatch(rs[1], p, other);
    TwoMatches(rs[0], p, other);
    OwnRuleDecides(t, rs, Nat, p, other);
    OwnRuleDecides(t, rs, Filter, p, other);
    assert Present(t, rs[1]);
    SomeRuleDecides(t, rs[1], p, other);
    hide RuleHolds, OthersIgnore;
    assert FirstMatch(t.filters, p, other).value in [rs[0], rs[1]];
  }

  /** Behind rules that ignore the user, the two IPv6 rules pass a packet of the user exactly if it leaves by lo. */
  lemma BuiltV6Passes(t: Tables, uid: int, p: Packet, other: Meaning, policy: bool)
    requires Ignores(t.nats, uid, other) && Ignores(t.filters, uid, other) && p.uid == uid
    ensures Outcome(T.Extend(t, BuildV6Rules(uid)), p, other, policy) == if p.lo then Some(p) else None
  {
    var rs := BuildV6Rules(uid);
    AllOfTable(rs, Filter);
    NoneOfTable(rs, Nat);
    OneMatch(rs[1], p, other);
    TwoMatches(rs[0], p, other);
    SkipIgnored(t.filters, [rs[0], rs[1]], p, other);
    SkipIgnored(t.nats, [], p, other);
    assert [rs[0], rs[1]] == rs && rs[1..] == [rs[1]] && [rs[1]][1..] == [];
    hide RuleHolds;
  }
}
