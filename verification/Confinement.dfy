/** What the state of a run means for a user's packets: the killswitch, the runs and the filter together. */
module Confinement {
  import opened Netfilter
  import opened Wrappers
  import opened Host
  import opened Runs
  import opened Engine
  import opened Firewall
  import opened Resolver
  import opened App
  import opened AppRuns
  import PF = PacketFilter
  import T = Transaction

  /** A user to be confined, with the port pairs that configurations name for that user. */
  datatype User = User(uid: int, keys: seq<(int, int)>)

  predicate Agrees(cfg: Config, u: User) { cfg.uid == Some(u.uid) ==> (cfg.transPort, cfg.dnsPort) in u.keys }

  /** The rules the engine may have for the user, from any of those configurations. */
  function ListOf(fam: Family, u: User): seq<Rule> {
    match fam case V4 => PF.AllRules(u.uid, u.keys) case V6 => BuildV6Rules(u.uid)
  }

  /** All rules stand in their own table, and all but the user's list leave the user alone. */
  ghost predicate TidyTables(t: Tables, fam: Family, u: User, other: PF.Meaning) {
    PF.Tabled(t) && PF.OthersIgnore(t, ListOf(fam, u), u.uid, other)
  }

  ghost predicate Tidy(h: Host, u: User, other: PF.Meaning) {
    forall fam :: TidyTables(TablesOf(h, fam), fam, u, other)
  }

  ghost predicate Harmless(r: Rule, fam: Family, u: User, other: PF.Meaning) {
    r in ListOf(fam, u) || forall p: PF.Packet :: p.uid == u.uid ==> !PF.RuleHolds(r, p, other)
  }

  ghost predicate AllHarmless(rs: seq<Rule>, fam: Family, u: User, other: PF.Meaning) {
    forall i :: 0 <= i < |rs| ==> Harmless(rs[i], fam, u, other)
  }

  ghost predicate TidySince(w0: World<Host>, w: World<Host>, u: User, other: PF.Meaning) {
    && w0.seen <= w.seen && Tidy(w.host, u, other)
    && forall i :: |w0.seen| <= i < |w.seen| ==> Tidy(w.seen[i], u, other)
  }

  lemma TidyTrans(w0: World<Host>, w1: World<Host>, w2: World<Host>, u: User, other: PF.Meaning)
    requires TidySince(w0, w1, u, other) && TidySince(w1, w2, u, other)
    ensures TidySince(w0, w2, u, other)
  {
    hide Tidy;
    forall i | |w0.seen| <= i < |w2.seen| ensures Tidy(w2.seen[i], u, other) {
      if i < |w1.seen| { assert w2.seen[i] == w1.seen[i]; }
    }
  }

  // --- commands ---------------------------------------------------------

  lemma TidyWith(h: Host, fam: Family, t: Tables, u: User, other: PF.Meaning)
    requires Tidy(h, u, other) && TidyTables(t, fam, u, other)
    ensures Tidy(WithTables(h, fam, t), u, other)
  {
    hide TidyTables;
    forall f ensures TidyTables(TablesOf(WithTables(h, fam, t), f), f, u, other) {
      if f != fam { assert TablesOf(WithTables(h, fam, t), f) == TablesOf(h, f); }
    }
  }

  lemma AppendTidy(t: Tables, r: Rule, fam: Family, u: User, other: PF.Meaning)
    requires TidyTables(t, fam, u, other) && Harmless(r, fam, u, other)
    ensures TidyTables(Appended(t, r), fam, u, other)
  {
    hide PF.RuleHolds, ListOf;
  }

  lemma DeleteTidy(t: Tables, r: Rule, fam: Family, u: User, other: PF.Meaning)
    requires TidyTables(t, fam, u, other)
    ensures TidyTables(Deleted(t, r), fam, u, other)
  {
    hide PF.RuleHolds, ListOf, RemoveFirst;
    T.RemoveFirstOnly(Chain(t, r.table), r, []);
  }

  lemma {:induction false} DelTidy(w: World<Host>, fam: Family, r: Rule, faults: Faults<Command>, u: User,
                                   other: PF.Meaning)
    requires Tidy(w.host, u, other)
    ensures TidySince(w, Del(w, fam, r, faults).w, u, other)
    decreases Copies(TablesOf(w.host, fam), r)
  {
    var t := TablesOf(w.host, fam);
    if Present(t, r) {
      DeleteTidy(t, r, fam, u, other);
      TidyWith(w.host, fam, Deleted(t, r), u, other);
      hide Tidy, Deleted;
      var w1 := Issue(w, Delete(fam, r), faults, WithTables(w.host, fam, Deleted(t, r)));
      if Succeeds(w, Delete(fam, r), faults) {
        DeleteLowersCopies(t, r);
        DelTidy(w1, fam, r, faults, u, other);
        TidyTrans(w, w1, Del(w1, fam, r, faults).w, u, other);
      }
    }
  }

  lemma {:induction false} RemoveListTidy(w: World<Host>, fam: Family, rs: seq<Rule>, faults: Faults<Command>, u: User,
                                          other: PF.Meaning)
    requires Tidy(w.host, u, other)
    ensures TidySince(w, RemoveList(w, fam, rs, faults), u, other)
    decreases |rs|
  {
    hide Tidy, Del;
    if rs != [] {
      var n := |rs| - 1;
      var w1 := Del(w, fam, rs[n], faults).w;
      DelTidy(w, fam, rs[n], faults, u, other);
      RemoveListTidy(w1, fam, rs[..n], faults, u, other);
      TidyTrans(w, w1, RemoveList(w1, fam, rs[..n], faults), u, other);
    }
  }

  lemma AddTidy(w: World<Host>, fam: Family, r: Rule, faults: Faults<Command>, u: User, other: PF.Meaning)
    requires Tidy(w.host, u, other) && Harmless(r, fam, u, other)
    ensures TidySince(w, Add(w, fam, r, faults), u, other)
  {
    var t := TablesOf(w.host, fam);
    AppendTidy(t, r, fam, u, other);
    TidyWith(w.host, fam, Appended(t, r), u, other);
    hide Tidy, Appended;
  }

  lemma {:induction false} ApplyFromTidy(w: World<Host>, fam: Family, rs: seq<Rule>, added: seq<Rule>,
                                         faults: Faults<Command>, u: User, other: PF.Meaning)
    requires Tidy(w.host, u, other) && AllHarmless(rs, fam, u, other)
    ensures TidySince(w, ApplyFrom(w, fam, rs, added, faults).w, u, other)
    decreases |rs|
  {
    hide Tidy, Harmless, Add, RemoveList;
    if rs != [] {
      var r := rs[0];
      var w1 := Add(w, fam, r, faults);
      AddTidy(w, fam, r, faults, u, other);
      assert AllHarmless(rs[1..], fam, u, other);
      if Present(TablesOf(w.host, fam), r) {
        ApplyFromTidy(w, fam, rs[1..], added, faults, u, other);
      } else if Succeeds(w, Append(fam, r), faults) {
        ApplyFromTidy(w1, fam, rs[1..], added + [r], faults, u, other);
        TidyTrans(w, w1, ApplyFrom(w1, fam, rs[1..], added + [r], faults).w, u, other);
      } else {
        RemoveListTidy(w1, fam, added, faults, u, other);
        TidyTrans(w, w1, RemoveList(w1, fam, added, faults), u, other);
      }
    }
  }

  /** A configuration for someone else, or under one of the user's port pairs, only writes harmless rules. */
  lemma RulesHarmless(cfg: Config, u: User, other: PF.Meaning)
    requires cfg.uid.Some? && Agrees(cfg, u)
    ensures AllHarmless(Rules(cfg), V4, u, other) && AllHarmless(V6Rules(cfg), V6, u, other)
  {
    if cfg.uid == Some(u.uid) {
      forall i | 0 <= i < |Rules(cfg)| ensures Rules(cfg)[i] in ListOf(V4, u) {
        var k :| 0 <= k < |u.keys| && u.keys[k] == (cfg.transPort, cfg.dnsPort);
        PF.InAllRules(u.uid, u.keys, Rules(cfg)[i]);
      }
    } else {
      forall i | 0 <= i < |Rules(cfg)| ensures Harmless(Rules(cfg)[i], V4, u, other) {
        OwnedByOther(Rules(cfg)[i], V4, cfg.uid.value, u, other);
      }
      forall i | 0 <= i < |V6Rules(cfg)| ensures Harmless(V6Rules(cfg)[i], V6, u, other) {
        OwnedByOther(V6Rules(cfg)[i], V6, cfg.uid.value, u, other);
      }
    }
  }

  lemma OwnedByOther(r: Rule, fam: Family, uid: int, u: User, other: PF.Meaning)
    requires r.matches != [] && r.matches[0] == Owner(uid) && uid != u.uid
    ensures Harmless(r, fam, u, other)
  {
    forall p: PF.Packet | p.uid == u.uid ensures !PF.RuleHolds(r, p, other) {
      assert !PF.MatchHolds(r.matches[0], p, other);
    }
  }

  // --- operations -------------------------------------------------------

  lemma ApplyTidy(w: World<Host>, cfg: Config, probes: Probes, faults: Faults<Command>, u: User, other: PF.Meaning)
    requires cfg.uid.Some? && Agrees(cfg, u) && Tidy(w.host, u, other)
    ensures TidySince(w, ApplyRules(w, cfg, probes, faults).w, u, other)
  {
    RulesHarmless(cfg, u, other);
    hide Tidy, ApplyFrom, RemoveList, AllHarmless, Rules, V6Rules;
    if ValidConfig(cfg) {
      var a := ApplyList(w, V4, Rules(cfg), faults);
      ApplyFromTidy(w, V4, Rules(cfg), [], faults, u, other);
      if a.ok {
        ApplyFromTidy(a.w, V6, V6Rules(cfg), [], faults, u, other);
        var s := ApplyV6(a.w, cfg, probes, faults);
        TidyTrans(w, a.w, s.w, u, other);
        if !s.ok {
          RemoveListTidy(s.w, V4, a.added, faults, u, other);
          TidyTrans(w, s.w, RemoveList(s.w, V4, a.added, faults), u, other);
        }
      }
    }
  }

  lemma RemoveTidy(w: World<Host>, cfg: Config, probes: Probes, faults: Faults<Command>, u: User, other: PF.Meaning)
    requires cfg.uid.Some? && Tidy(w.host, u, other)
    ensures TidySince(w, RemoveRules(w, cfg, probes, faults).w, u, other)
  {
    hide Tidy, RemoveList, Rules, V6Rules;
    var w1 := if probes.ip6tables && cfg.uid.value >= 0 then RemoveList(w, V6, V6Rules(cfg), faults) else w;
    RemoveListTidy(w, V6, V6Rules(cfg), faults, u, other);
    if ValidConfig(cfg) {
      RemoveListTidy(w1, V4, Rules(cfg), faults, u, other);
      TidyTrans(w, w1, RemoveList(w1, V4, Rules(cfg), faults), u, other);
    }
  }

  lemma SameTidy(h: Host, g: Host, u: User, other: PF.Meaning)
    requires Tidy(h, u, other) && SameRules(h, g)
    ensures Tidy(g, u, other)
  {
    hide TidyTables;
    forall fam ensures TidyTables(TablesOf(g, fam), fam, u, other) { assert TablesOf(g, fam) == TablesOf(h, fam); }
  }

  lemma ResolverTidy(w: World<Host>, faults: Faults<Command>, u: User, other: PF.Meaning)
    requires Tidy(w.host, u, other)
    ensures TidySince(w, LockResolv(w, faults).w, u, other)
    ensures TidySince(w, RestoreResolv(w, faults).w, u, other)
  {
    hide Tidy, IsOnlyOurPin, Universal;
    forall resolv, backup ensures Tidy(w.host.(resolv := resolv, backup := backup), u, other) {
      SameTidy(w.host, w.host.(resolv := resolv, backup := backup), u, other);
    }
  }

  lemma RollbackTidy(w: World<Host>, cfg: Config, probes: Probes, applied: bool, faults: Faults<Command>, u: User,
                     other: PF.Meaning)
    requires cfg.uid.Some? && Tidy(w.host, u, other)
    ensures TidySince(w, Rollback(w, cfg, probes, applied, faults), u, other)
  {
    hide Tidy, RestoreResolv, RemoveRules;
    ResolverTidy(w, faults, u, other);
    var w1 := if cfg.lockResolv then RestoreResolv(w, faults).w else w;
    if applied {
      RemoveTidy(w1, cfg, probes, faults, u, other);
      TidyTrans(w, w1, RemoveRules(w1, cfg, probes, faults).w, u, other);
    }
  }

  lemma ConnectTidy(w: World<Host>, cfg: Config, probes: Probes, env: Surroundings, faults: Faults<Command>, u: User,
                    other: PF.Meaning)
    requires Agrees(cfg, u) && Tidy(w.host, u, other)
    ensures TidySince(w, Connect(w, cfg, probes, env, faults).w, u, other)
  {
    hide Tidy, ApplyRules, LockResolv, Rollback;
    if cfg.uid.Some? {
      RollbackTidy(w, cfg, probes, false, faults, u, other);
      ApplyTidy(w, cfg, probes, faults, u, other);
      var rules := ApplyRules(w, cfg, probes, faults);
      RollbackTidy(rules.w, cfg, probes, false, faults, u, other);
      TidyTrans(w, rules.w, Rollback(rules.w, cfg, probes, false, faults), u, other);
      ResolverTidy(rules.w, faults, u, other);
      var pin := LockResolv(rules.w, faults);
      TidyTrans(w, rules.w, pin.w, u, other);
      RollbackTidy(pin.w, cfg, probes, true, faults, u, other);
      TidyTrans(w, pin.w, Rollback(pin.w, cfg, probes, true, faults), u, other);
    }
  }

  lemma DisconnectTidy(w: World<Host>, cfg: Config, probes: Probes, faults: Faults<Command>, u: User, other: PF.Meaning)
    requires Tidy(w.host, u, other)
    ensures TidySince(w, Disconnect(w, cfg, probes, faults).w, u, other)
  {
    hide Tidy, RestoreResolv, RemoveRules;
    ResolverTidy(w, faults, u, other);
    var w1 := RestoreResolv(w, faults).w;
    if cfg.uid.Some? {
      RemoveTidy(w1, cfg, probes, faults, u, other);
      TidyTrans(w, w1, RemoveRules(w1, cfg, probes, faults).w, u, other);
    }
  }

  // --- runs -------------------------------------------------------------

  lemma VisitedTidy(s: State, op: Op, probes: Probes, faults: Faults<Command>, u: User, other: PF.Meaning)
    requires Agrees(s.cfg, u) && Tidy(s.host, u, other)
    ensures forall h :: h in Visited(s, op, probes, faults) ==> Tidy(h, u, other)
    ensures Tidy(Finish(s, op, probes, faults).host, u, other)
  {
    hide Tidy, Connect, Disconnect, Update;
    var w := World(s.host, 0, []);
    match op {
      case ConnectOp(env) => ConnectTidy(w, s.cfg, probes, env, faults, u, other);
      case DisconnectOp => DisconnectTidy(w, s.cfg, probes, faults, u, other);
      case UpdateOp(_) =>
    }
  }

  lemma RecoveringTidy(h: Host, cfg: Config, probes: Probes, start: Start, u: User, other: PF.Meaning)
    requires Tidy(h, u, other)
    ensures forall g :: g in Recovering(h, cfg, probes, start) ==> Tidy(g, u, other)
    ensures Tidy(Started(h, cfg, probes, start), u, other)
  {
    EmptyTidy(h, u, other);
    hide Tidy, RestoreResolv, Routing, RulesStatus, Pinned;
    ResolverTidy(World(Booted(h, start), 0, []), start.faults, u, other);
  }

  lemma EmptyTidy(h: Host, u: User, other: PF.Meaning)
    ensures Tidy(Rebooted(h), u, other)
  {
    hide PF.RuleHolds, ListOf;
    forall fam ensures TidyTables(TablesOf(Rebooted(h), fam), fam, u, other) {
      assert TablesOf(Rebooted(h), fam) == Tables([], []);
    }
  }

  lemma {:induction false} AfterDeadTidy(h: Host, cfg: Config, probes: Probes, dead: seq<DeadStart>, u: User,
                                         other: PF.Meaning)
    requires Tidy(h, u, other)
    ensures Tidy(AfterDead(h, cfg, probes, dead), u, other)
    decreases dead
  {
    hide Tidy, Recovering;
    if dead != [] {
      RecoveringTidy(h, cfg, probes, dead[0].start, u, other);
      AfterDeadTidy(StateAt(Recovering(h, cfg, probes, dead[0].start), dead[0].at), cfg, probes, dead[1..], u, other);
    }
  }

  /** The port pair a configuration names for this user. */
  function KeyOf(cfg: Config, uid: int): seq<(int, int)> {
    if cfg.uid == Some(uid) then [(cfg.transPort, cfg.dnsPort)] else []
  }

  function RequestedKeys(es: seq<Event>, uid: int): seq<(int, int)> {
    if es == [] then []
    else (if es[0].op.UpdateOp? then KeyOf(es[0].op.request.config, uid) else []) + RequestedKeys(es[1..], uid)
  }

  /** The user with the port pairs that the configurations of a run name. */
  function UserOf(cfg: Config, es: seq<Event>, uid: int): User { User(uid, KeyOf(cfg, uid) + RequestedKeys(es, uid)) }

  /** Every configuration an update of the run asks for is covered. */
  predicate AllAgree(es: seq<Event>, u: User) {
    forall i :: 0 <= i < |es| && es[i].op.UpdateOp? ==> Agrees(es[i].op.request.config, u)
  }

  lemma {:induction false} RequestedCovered(es: seq<Event>, uid: int, i: nat)
    requires i < |es| && es[i].op.UpdateOp? && es[i].op.request.config.uid == Some(uid)
    ensures (es[i].op.request.config.transPort, es[i].op.request.config.dnsPort) in RequestedKeys(es, uid)
    decreases es
  {
    if i > 0 { RequestedCovered(es[1..], uid, i - 1); }
  }

  lemma UserCovers(cfg: Config, es: seq<Event>, uid: int)
    ensures Agrees(cfg, UserOf(cfg, es, uid)) && AllAgree(es, UserOf(cfg, es, uid))
  {
    forall i: nat | i < |es| && es[i].op.UpdateOp? && es[i].op.request.config.uid == Some(uid)
      ensures Agrees(es[i].op.request.config, UserOf(cfg, es, uid))
    {
      RequestedCovered(es, uid, i);
    }
  }

  lemma NextTidy(s: State, e: Event, probes: Probes, u: User, other: PF.Meaning)
    requires Agrees(s.cfg, u) && Tidy(s.host, u, other)
    requires e.op.UpdateOp? ==> Agrees(e.op.request.config, u)
    ensures forall h :: h in Reached(s, e, probes) ==> Tidy(h, u, other)
    ensures Agrees(Next(s, e, probes).cfg, u) && Tidy(Next(s, e, probes).host, u, other)
  {
    hide Tidy, Visited, Agrees, AfterDead, Started, Connect, Disconnect;
    VisitedTidy(s, e.op, probes, e.faults, u, other);
    if e.Died? {
      var hs := Reached(s, e, probes);
      assert hs[|hs| - 1] in hs;
      AfterDeadTidy(hs[|hs| - 1], s.cfg, probes, e.dead, u, other);
      RecoveringTidy(LeftBehind(s, e, probes), s.cfg, probes, e.last, u, other);
    }
  }

  /** Over every run, all rules but those the engine builds for the user leave the user alone. */
  lemma {:induction false} RunStaysTidy(s: State, es: seq<Event>, probes: Probes, u: User, other: PF.Meaning)
    requires Agrees(s.cfg, u) && AllAgree(es, u) && Tidy(s.host, u, other)
    ensures forall i :: 0 <= i < |Trail(s, es, probes)| ==>
                          Agrees(Trail(s, es, probes)[i].cfg, u) && Tidy(Trail(s, es, probes)[i].host, u, other)
    ensures Tidy(Run(s, es, probes).host, u, other)
    decreases es
  {
    hide Tidy, Reached, Agrees, Next;
    if es != [] {
      NextTidy(s, es[0], probes, u, other);
      assert AllAgree(es[1..], u) by {
        forall i | 0 <= i < |es[1..]| ensures es[1..][i] == es[i + 1] { }
      }
      RunStaysTidy(Next(s, es[0], probes), es[1..], probes, u, other);
    }
  }

  // --- what the states mean for packets ---------------------------------

  /** IPv4: the packet leaves other than by lo. */
  predicate Escapes(t: Tables, p: PF.Packet, other: PF.Meaning, policy: bool) {
    var q := PF.Outcome(t, p, other, policy);
    q.Some? && !q.value.lo
  }

  /** IPv6: the packet leaves by lo. */
  predicate ConfinedV6(h: Host, p: PF.Packet, other: PF.Meaning, policy: bool) {
    var q := PF.Outcome(h.v6, p, other, policy);
    q.Some? ==> q.value.lo
  }

  /** Behind the whole killswitch, packets escape exactly as UDP to a port whose accept overtakes the drop. */
  lemma ArmedConfines(h: Host, cfg: Config, probes: Probes, u: User, p: PF.Packet, other: PF.Meaning, policy: bool)
    requires Armed(h, cfg, probes) && Tidy(h, u, other)
    requires cfg.uid == Some(u.uid) && p.uid == u.uid
    ensures PF.Routed(p) ==>
              (Escapes(h.v4, p, other, policy) <==>
               !p.lo && p.proto == Udp && p.dport != 53 && PF.Overtakes(h.v4, u.uid, p.dport))
    ensures PF.Routed(p) && Escapes(h.v4, p, other, policy) ==>
              PF.Outcome(h.v4, p, other, policy) == Some(p) && exists k :: k in u.keys && k.1 == p.dport
    ensures V6Required(cfg, probes) ==> ConfinedV6(h, p, other, policy)
  {
    assert TidyTables(TablesOf(h, V4), V4, u, other) && TidyTables(TablesOf(h, V6), V6, u, other);
    assert PF.Armed(h.v4, u.uid, u.keys, cfg.transPort, cfg.dnsPort, other);
    hide PF.RuleHolds, PF.OthersIgnore, PF.Outcome, PF.Loopback, PF.Overtakes, PF.AllRules, Tidy;
    if PF.Routed(p) {
      PF.EscapeExactly(h.v4, u.uid, u.keys, cfg.transPort, cfg.dnsPort, p, other, policy);
      PF.ActiveConfines(h.v4, u.uid, u.keys, cfg.transPort, cfg.dnsPort, p, other, policy);
    }
    if V6Required(cfg, probes) { V6Armed(h, cfg, p, other, policy); }
  }

  lemma V6Armed(h: Host, cfg: Config, p: PF.Packet, other: PF.Meaning, policy: bool)
    requires cfg.uid == Some(p.uid) && PF.Tabled(h.v6) && PF.OthersIgnore(h.v6, BuildV6Rules(p.uid), p.uid, other)
    requires StatusOf(h.v6, V6Rules(cfg)).killswitch
    ensures ConfinedV6(h, p, other, policy)
  {
    PF.V6Confines(h.v6, p.uid, p, other, policy);
  }

  /**
   In every state of every run in which resolv.conf is pinned by us, if the rules the host started with
   leave the user alone: IPv6 packets of the user leave only by lo where IPv6 is required, and an IPv4
   packet leaves otherwise exactly if it is UDP, not DNS, and an accept for its port stands before the
   drop. It then leaves as it is, and some configuration of the run has named that port.
   */
  lemma PinnedMeansConfined(s: State, es: seq<Event>, probes: Probes, original: string, i: nat, uid: int,
                            p: PF.Packet, other: PF.Meaning, policy: bool)
    requires SafeState(s, probes, original) && !IsOnlyOurPin(original) && RunOk(s, es, probes)
    requires Tidy(s.host, UserOf(s.cfg, es, uid), other)
    requires i < |Trail(s, es, probes)| && p.uid == uid
    ensures var now := Trail(s, es, probes)[i];
            Pinned(now.host) && now.cfg.uid == Some(uid) ==>
              && (PF.Routed(p) ==>
                    (Escapes(now.host.v4, p, other, policy) <==>
                     !p.lo && p.proto == Udp && p.dport != 53 && PF.Overtakes(now.host.v4, uid, p.dport)))
              && (PF.Routed(p) && Escapes(now.host.v4, p, other, policy) ==>
                    && PF.Outcome(now.host.v4, p, other, policy) == Some(p)
                    && exists k :: k in UserOf(s.cfg, es, uid).keys && k.1 == p.dport)
              && (V6Required(now.cfg, probes) ==> ConfinedV6(now.host, p, other, policy))
  {
    hide Trail, RunOk, Tidy, Agrees, AllAgree, IsOnlyOurPin, Armed, Pinned, Conserved;
    hide Escapes, ConfinedV6, PF.Routed, PF.Outcome, PF.Overtakes, RequestedKeys;
    var u := UserOf(s.cfg, es, uid);
    UserCovers(s.cfg, es, uid);
    RunIsSafe(s, es, probes, original);
    RunStaysTidy(s, es, probes, u, other);
    var now := Trail(s, es, probes)[i];
    if Pinned(now.host) && now.cfg.uid == Some(uid) {
      ArmedConfines(now.host, now.cfg, probes, u, p, other, policy);
    }
  }

  /**
   What _is_routing tells a caller: the drops are in force, so whatever rules are missing or left over,
   nothing of the user leaves but by lo or to Tor ports that some configuration has named, and in IPv6,
   where required, only by lo.
   */
  lemma RoutingConfines(h: Host, cfg: Config, probes: Probes, u: User, p: PF.Packet, other: PF.Meaning, policy: bool)
    requires Routing(h, cfg, probes) && Tidy(h, u, other)
    requires cfg.uid == Some(u.uid) && p.uid == u.uid
    ensures var q := PF.Outcome(h.v4, p, other, policy);
            q.Some? ==> q.value.lo || PF.ToTor(u.keys, q.value)
    ensures V6Required(cfg, probes) ==> ConfinedV6(h, p, other, policy)
  {
    assert TidyTables(TablesOf(h, V4), V4, u, other) && TidyTables(TablesOf(h, V6), V6, u, other);
    assert Present(h.v4, PF.DropAll(u.uid));
    hide PF.RuleHolds, PF.OthersIgnore, PF.FirstMatch, PF.AllRules, PF.ToTor, Tidy;
    PF.FilterConfines(h.v4, u.uid, u.keys, PF.Rewrite(h.v4, p, other), other, policy);
    if V6Required(cfg, probes) { V6Armed(h, cfg, p, other, policy); }
  }

  /**
   After every crash-free run from a firewall that leaves the user alone, a status that reports routing
   means that each packet of the user goes exactly where the ruleset is meant to send it.
   */
  lemma RoutingTorifies(s: State, steps: seq<FaultyOp>, probes: Probes, base: Host, p: PF.Packet, other: PF.Meaning,
                        policy: bool)
    requires Clean(base) && Exact(s.host, s.cfg, probes, base) && CrashFree(s, steps, probes)
    requires PF.Ignores(base.v4.nats, p.uid, other) && PF.Ignores(base.v4.filters, p.uid, other) && PF.Routed(p)
    ensures var e := RunSteps(s, steps, probes);
            Routing(e.host, e.cfg, probes) && e.cfg.uid == Some(p.uid) ==>
              PF.Outcome(e.host.v4, p, other, policy) == PF.Torified(p, e.cfg.transPort, e.cfg.dnsPort)
  {
    hide Clean, Exact, PF.Ignores, PF.Outcome, PF.Torified, PF.Routed, CrashFree, RunSteps, Routing;
    RunIsAllOrNothing(s, steps, probes, base, (c, n) => true);
    var e := RunSteps(s, steps, probes);
    if Routing(e.host, e.cfg, probes) && e.cfg.uid == Some(p.uid) {
      RoutingIsOn(e.host, e.cfg, probes, base);
      PF.BuiltOrderTorifies(base.v4, p.uid, e.cfg.transPort, e.cfg.dnsPort, p, other, policy);
    }
  }

  lemma RoutingIsOn(h: Host, cfg: Config, probes: Probes, base: Host)
    requires Clean(base) && Exact(h, cfg, probes, base) && Routing(h, cfg, probes)
    ensures h.v4 == T.Extend(base.v4, Rules(cfg))
  {
    hide T.Extend;
    BaseFacts(cfg, base);
    assert |Rules(cfg)| == 7 && !Present(base.v4, Rules(cfg)[6]);
  }

  // --- a rule left over -------------------------------------------------

  lemma ExtendTwice(t: Tables, a: seq<Rule>, b: seq<Rule>)
    ensures T.Extend(T.Extend(t, a), b) == T.Extend(t, a + b)
  {
    T.OfTableAppend(a, b, Nat);
    T.OfTableAppend(a, b, Filter);
    hide T.OfTable;
  }

  /** Appends that work bring the missing rules in one by one. */
  lemma {:induction false} AppendsOneByOne(w: World<Host>, fam: Family, rs: seq<Rule>, added: seq<Rule>,
                                           faults: Faults<Command>, n: nat)
    requires NonePresent(TablesOf(w.host, fam), rs) && Distinct(rs) && 0 < n <= |rs|
    requires forall r, k :: faults(Append(fam, r), k)
    ensures var a := ApplyFrom(w, fam, rs, added, faults);
            && a.ok && w.seen <= a.w.seen && |a.w.seen| == |w.seen| + |rs|
            && a.w.seen[|w.seen| + n - 1]
               == WithTables(w.host, fam, T.Extend(TablesOf(w.host, fam), rs[..n]))
    decreases |rs|
  {
    hide T.Extend, Appended, Present;
    var r, t := rs[0], TablesOf(w.host, fam);
    var w1 := Add(w, fam, r, faults);
    T.ExtendNothing(t);
    T.ExtendOne(t, [], r);
    assert [] + [r] == [r] && rs[..1] == [r];
    assert w1 == World(WithTables(w.host, fam, T.Extend(t, [r])), w.tick + 1, w.seen + [w1.host]);
    if |rs| > 1 {
      forall i | 0 <= i < |rs[1..]| ensures rs[1..][i] == rs[i + 1] && !Present(T.Extend(t, [r]), rs[1..][i]) {
        T.PresentExtend(t, [r], rs[i + 1]);
      }
      assert forall i, j :: 0 <= i < j < |rs[1..]| ==> rs[1..][i] == rs[i + 1] && rs[1..][j] == rs[j + 1];
      AppendsOneByOne(w1, fam, rs[1..], added + [r], faults, if n == 1 then 1 else n - 1);
      if n > 1 {
        ExtendTwice(t, [r], rs[1..][..n - 1]);
        assert [r] + rs[1..][..n - 1] == rs[..n];
      }
    }
  }

  lemma {:induction false} AppendsSucceed(w: World<Host>, fam: Family, rs: seq<Rule>, added: seq<Rule>,
                                          faults: Faults<Command>)
    requires forall r, k :: faults(Append(fam, r), k)
    ensures ApplyFrom(w, fam, rs, added, faults).ok
    decreases |rs|
  {
    hide Present, Add;
    if rs != [] {
      AppendsSucceed(w, fam, rs[1..], added, faults);
      AppendsSucceed(Add(w, fam, rs[0], faults), fam, rs[1..], added + [rs[0]], faults);
    }
  }

  lemma {:induction false} PlacedInFront(c: seq<Rule>, d: seq<Rule>, a: Rule, b: Rule)
    requires a in c && b !in c && b in d
    ensures a in c + d && b in c + d && PF.Place(c + d, a) < PF.Place(c + d, b)
  {
    assert c == [c[0]] + c[1..] && (c + d)[1..] == c[1..] + d;
    if c[0] != a { PlacedInFront(c[1..], d, a, b); }
  }

  const OLD: Config := Config(Some(1000), 9040, 5353, false, false, true)
  const NEW: Config := Config(Some(1000), 9040, 53, false, false, true)
  const READY: Surroundings := Surroundings(true, true, true)

  function SixRules(h: Host): Host { h.(v4 := T.Extend(h.v4, Rules(OLD)[..6])) }

  /** A connect that gets its rules in goes on from there to the pin. */
  lemma ApplyThenPin(w: World<Host>, cfg: Config, probes: Probes, faults: Faults<Command>)
    requires ValidConfig(cfg) && !V6Required(cfg, probes) && cfg.lockResolv && GoesAhead(cfg, READY)
    requires ApplyList(w, V4, Rules(cfg), faults).ok
    ensures Connect(w, cfg, probes, READY, faults) == Rolled(w, cfg, probes, faults)
  {
    hide ApplyList, LockResolv, Rollback, Rules, V6Rules;
  }

  function Rolled(w: World<Host>, cfg: Config, probes: Probes, faults: Faults<Command>): Step<Host>
    requires cfg.uid.Some?
  {
    var pin := LockResolv(ApplyList(w, V4, Rules(cfg), faults).w, faults);
    if pin.ok then pin else Step(Rollback(pin.w, cfg, probes, true, faults), false)
  }

  /** The state a connect is in after six of its seven appends. */
  lemma SixVisited(h: Host, probes: Probes, faults: Faults<Command>)
    requires NonePresent(h.v4, Rules(OLD)) && forall c, n :: faults(c, n)
    ensures var hs := Visited(State(OLD, h), ConnectOp(READY), probes, faults);
            |hs| > 6 && hs[6] == SixRules(h)
  {
    var w := World(h, 0, []);
    hide Visited, Connect, ApplyList, Rules, SixRules, LockResolv, NonePresent;
    ConnectVisits(h, probes, faults);
    SixAppended(h, faults);
    var a := ApplyList(w, V4, Rules(OLD), faults);
    LockGrows(a.w, faults);
    ThroughToThePin(w, probes, faults);
    var c := Connect(w, OLD, probes, READY, faults).w.seen;
    OneBehind(h, a.w.seen, c);
  }

  lemma OneBehind(h: Host, a: seq<Host>, c: seq<Host>)
    requires |a| == 7 && a <= c
    ensures |[h] + c| > 6 && ([h] + c)[6] == a[5]
  {
  }

  lemma ConnectVisits(h: Host, probes: Probes, faults: Faults<Command>)
    ensures Visited(State(OLD, h), ConnectOp(READY), probes, faults)
         == [h] + Connect(World(h, 0, []), OLD, probes, READY, faults).w.seen
  {
    hide Connect;
  }

  lemma ThroughToThePin(w: World<Host>, probes: Probes, faults: Faults<Command>)
    requires ApplyList(w, V4, Rules(OLD), faults).ok && LockResolv(ApplyList(w, V4, Rules(OLD), faults).w, faults).ok
    ensures Connect(w, OLD, probes, READY, faults) == LockResolv(ApplyList(w, V4, Rules(OLD), faults).w, faults)
  {
    assert ValidConfig(OLD);
    hide ApplyList, LockResolv, Rules, Rollback, Connect;
    ApplyThenPin(w, OLD, probes, faults);
  }

  lemma SixAppended(h: Host, faults: Faults<Command>)
    requires NonePresent(h.v4, Rules(OLD)) && forall c, n :: faults(c, n)
    ensures var a := ApplyList(World(h, 0, []), V4, Rules(OLD), faults);
            a.ok && |a.w.seen| == 7 && a.w.seen[5] == SixRules(h)
  {
    RulesDistinct(1000, 9040, 5353);
    SevenRules();
    hide Rules, ApplyFrom, NonePresent, Distinct;
    AppendsOneByOne(World(h, 0, []), V4, Rules(OLD), [], faults, 6);
  }

  lemma SevenRules()
    ensures Rules(OLD) == BuildRules(1000, 9040, 5353) && |Rules(OLD)| == 7
  {
    assert |BuildRules(1000, 9040, 5353)| == 7;
    hide BuildRules;
  }

  lemma LockGrows(w: World<Host>, faults: Faults<Command>)
    ensures w.seen <= LockResolv(w, faults).w.seen
    ensures (forall c, n :: faults(c, n)) ==> LockResolv(w, faults).ok
  {
    hide IsOnlyOurPin;
  }

  /** A start that finds no pin leaves the host as it is. */
  lemma NothingToRecover(s: State, op: Op, probes: Probes, faults: Faults<Command>, at: nat)
    requires at < |Visited(s, op, probes, faults)| && !Pinned(Visited(s, op, probes, faults)[at])
    ensures Next(s, Died(op, faults, at, [], Start(false, faults)), probes)
         == State(s.cfg, Visited(s, op, probes, faults)[at])
  {
    hide Visited, Pinned, RestoreResolv, Routing, RulesStatus;
  }

  /** Six rules are no killswitch, so the DNS port may change. */
  lemma PortMayChange(h: Host, probes: Probes, faults: Faults<Command>)
    requires NonePresent(h.v4, Rules(OLD))
    ensures Next(State(OLD, SixRules(h)), Done(UpdateOp(Request(NEW, true)), faults), probes) == State(NEW, SixRules(h))
    ensures PF.AcceptUdp(1000, 5353) in SixRules(h).v4.filters && PF.DropAll(1000) !in SixRules(h).v4.filters
  {
    RulesDistinct(1000, 9040, 5353);
    var rs := Rules(OLD);
    assert rs[6] !in rs[..6] && rs[5] in rs[..6] && rs[6] == PF.DropAll(1000) && rs[5] == PF.AcceptUdp(1000, 5353);
    T.PresentExtend(h.v4, rs[..6], rs[6]);
    T.PresentExtend(h.v4, rs[..6], rs[5]);
    hide T.Extend;
    assert !Present(SixRules(h).v4, Rules(OLD)[6]);
    assert !Routing(SixRules(h), OLD, probes);
  }

  /** The next connect completes the rules behind those left over, and pins. */
  lemma Completes(g: Host, probes: Probes, faults: Faults<Command>, original: string)
    requires Conserved(g, original) && !IsOnlyOurPin(original) && forall c, n :: faults(c, n)
    requires PF.AcceptUdp(1000, 5353) in g.v4.filters && PF.DropAll(1000) !in g.v4.filters
    ensures var h := Connect(World(g, 0, []), NEW, probes, READY, faults).w.host;
            && Pinned(h) && Armed(h, NEW, probes) && PF.Overtakes(h.v4, 1000, 5353)
  {
    var w := World(g, 0, []);
    var a := ApplyList(w, V4, Rules(NEW), faults);
    AppendsSucceed(w, V4, Rules(NEW), [], faults);
    ApplyCompletes(w, probes, faults);
    ApplyThenPin(w, NEW, probes, faults);
    hide ApplyList, LockResolv, Rules, Armed, Connect, Pinned, IsOnlyOurPin, PF.Overtakes;
    assert Conserved(a.w.host, original);
    hide Conserved;
    CompletesPin(a.w, faults, original);
    ArmedV4(a.w.host, LockResolv(a.w, faults).w.host, NEW, probes);
  }

  lemma ApplyCompletes(w: World<Host>, probes: Probes, faults: Faults<Command>)
    requires PF.AcceptUdp(1000, 5353) in w.host.v4.filters && PF.DropAll(1000) !in w.host.v4.filters
    requires ApplyList(w, V4, Rules(NEW), faults).ok
    ensures var h := ApplyList(w, V4, Rules(NEW), faults).w.host;
            && h == w.host.(v4 := h.v4)
            && Armed(h, NEW, probes) && PF.Overtakes(h.v4, 1000, 5353)
  {
    hide ApplyList, T.Extend, T.Missing, T.Subsequence, T.GrownSince, PF.Overtakes, Rules;
    T.ApplyIsTransaction(w, V4, Rules(NEW), faults);
    T.ApplyArms(w, V4, Rules(NEW), faults);
    CompletedOrder(w.host.v4);
    GrownV4(w, ApplyList(w, V4, Rules(NEW), faults).w);
  }

  lemma GrownV4(w: World<Host>, w1: World<Host>)
    requires T.GrownSince(w, w1, V4)
    ensures w1.host == w.host.(v4 := w1.host.v4)
  {
  }

  lemma CompletesPin(w: World<Host>, faults: Faults<Command>, original: string)
    requires Conserved(w.host, original) && !IsOnlyOurPin(original) && forall c, n :: faults(c, n)
    ensures var s := LockResolv(w, faults);
            s.ok && Pinned(s.w.host) && SameRules(w.host, s.w.host)
  {
    LockGrows(w, faults);
    LockConserves(w, faults, original);
  }

  lemma ArmedV4(g: Host, h: Host, cfg: Config, probes: Probes)
    requires Armed(g, cfg, probes) && SameRules(g, h)
    ensures Armed(h, cfg, probes)
  {
    hide Rules, V6Rules;
  }

  lemma CompletedOrder(t: Tables)
    requires PF.AcceptUdp(1000, 5353) in t.filters && PF.DropAll(1000) !in t.filters
    ensures PF.Overtakes(T.Extend(t, T.Missing(t, [], Rules(NEW))), 1000, 5353)
  {
    var missing, drop := T.Missing(t, [], Rules(NEW)), PF.DropAll(1000);
    assert Rules(NEW)[6] == drop;
    T.MissingCovers(t, [], Rules(NEW), drop);
    T.OfTableMember(missing, Filter, drop);
    PlacedInFront(t.filters, T.OfTable(missing, Filter), PF.AcceptUdp(1000, 5353), drop);
  }

  /**
   How an accept is left over: a connect with DNS port 5353 dies after six appends, an update to port
   53 is accepted as no killswitch is reported, and the next connect succeeds. The host is pinned, the
   status active and the DNS port 53; yet UDP to port 5353 leaves unchanged on any interface.
   */
  lemma LeftoverEscapesAt(h: Host, probes: Probes, faults: Faults<Command>, p: PF.Packet, other: PF.Meaning,
                          policy: bool)
    requires h == Host(Tables([], []), Tables([], []), Some(""), None) && forall c, n :: faults(c, n)
    requires p.uid == 1000 && p.proto == Udp && p.dport == 5353 && !p.lo && PF.Routed(p)
    ensures var es := [Died(ConnectOp(READY), faults, 6, [], Start(false, faults)),
                       Done(UpdateOp(Request(NEW, true)), faults),
                       Done(ConnectOp(READY), faults)];
            var end := Run(State(OLD, h), es, probes);
            && end.cfg == NEW && Pinned(end.host) && Armed(end.host, NEW, probes)
            && PF.Outcome(end.host.v4, p, other, policy) == Some(p)
  {
    var died := Died(ConnectOp(READY), faults, 6, [], Start(false, faults));
    var update, connect := Done(UpdateOp(Request(NEW, true)), faults), Done(ConnectOp(READY), faults);
    var s := State(OLD, h);
    SixVisited(h, probes, faults);
    EmptyIsReal();
    PinnedMeans(SixRules(h), "");
    NothingToRecover(s, ConnectOp(READY), probes, faults, 6);
    PortMayChange(h, probes, faults);
    Completes(SixRules(h), probes, faults, "");
    ThreeEvents(s, died, update, connect, probes);
    StartsTidy(h, User(1000, [(9040, 5353), (9040, 53)]), other);
    hide Next, SixRules, Tidy, Armed, Visited, PF.Outcome, PF.Overtakes, IsOnlyOurPin, AllAgree;
    assert AllAgree([died, update, connect], User(1000, [(9040, 5353), (9040, 53)])) by {
      ThreeAgree(died, update, connect);
    }
    var end := Run(s, [died, update, connect], probes);
    RunStaysTidy(s, [died, update, connect], probes, User(1000, [(9040, 5353), (9040, 53)]), other);
    ArmedConfines(end.host, NEW, probes, User(1000, [(9040, 5353), (9040, 53)]), p, other, policy);
  }

  lemma ThreeAgree(a: Event, b: Event, c: Event)
    requires !a.op.UpdateOp? && !c.op.UpdateOp? && b.op == UpdateOp(Request(NEW, true))
    ensures AllAgree([a, b, c], User(1000, [(9040, 5353), (9040, 53)]))
  {
  }

  lemma StartsTidy(h: Host, u: User, other: PF.Meaning)
    requires h.v4 == Tables([], []) && h.v6 == Tables([], [])
    ensures Tidy(h, u, other)
  {
    EmptyTidy(h, u, other);
    assert Rebooted(h) == h;
  }

  lemma ThreeEvents(s: State, a: Event, b: Event, c: Event, probes: Probes)
    ensures Run(s, [a, b, c], probes) == Next(Next(Next(s, a, probes), b, probes), c, probes)
  {
    hide Next;
    assert [a, b, c][1..] == [b, c] && [b, c][1..] == [c] && [c][1..] == [];
    var t := Next(s, a, probes);
    var u := Next(t, b, probes);
    assert Run(s, [a, b, c], probes) == Run(t, [b, c], probes);
    assert Run(t, [b, c], probes) == Run(u, [c], probes);
    assert Run(u, [c], probes) == Run(Next(u, c, probes), [], probes);
  }
}
