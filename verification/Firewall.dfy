/** The Linux firewall: the IPv4 ruleset and, where it is required, the IPv6 killswitch. */
module Firewall {
  import opened Netfilter
  import opened Wrappers
  import opened Host
  import opened Runs
  import opened Engine
  import T = Transaction

  /** The configuration fields the orchestration depends on. */
  datatype Config = Config(
    uid: Option<int>, transPort: int, dnsPort: int,
    ipv6Killswitch: bool, manageTorrc: bool, lockResolv: bool)

  /** What probing the host says: whether the kernel has IPv6, and whether ip6tables works. */
  datatype Probes = Probes(kernelIpv6: bool, ip6tables: bool)

  predicate V6Required(cfg: Config, probes: Probes) { cfg.ipv6Killswitch && probes.kernelIpv6 }

  predicate ValidConfig(cfg: Config) {
    cfg.uid.Some? && ValidKey(cfg.uid.value, cfg.transPort, cfg.dnsPort)
  }

  function Rules(cfg: Config): seq<Rule>
    requires cfg.uid.Some?
  {
    BuildRules(cfg.uid.value, cfg.transPort, cfg.dnsPort)
  }

  function V6Rules(cfg: Config): seq<Rule>
    requires cfg.uid.Some?
  {
    BuildV6Rules(cfg.uid.value)
  }

  // --- what the firewall does -------------------------------------------

  function ApplyV6(w: World<Host>, cfg: Config, probes: Probes, faults: Faults<Command>): Step<Host>
    requires ValidConfig(cfg)
  {
    if !V6Required(cfg, probes) then Step(w, true)
    else if !probes.ip6tables then Step(w, false)
    else
      var a := ApplyList(w, V6, V6Rules(cfg), faults);
      Step(a.w, a.ok)
  }

  /** A failure in the second family takes back what the first family got, and no more. */
  function ApplyRules(w: World<Host>, cfg: Config, probes: Probes, faults: Faults<Command>): Step<Host>
    requires cfg.uid.Some?
  {
    if !ValidConfig(cfg) then Step(w, false)
    else
      var a := ApplyList(w, V4, Rules(cfg), faults);
      if !a.ok then Step(a.w, false)
      else
        var s := ApplyV6(a.w, cfg, probes, faults);
        if s.ok then s else Step(RemoveList(s.w, V4, a.added, faults), false)
  }

  function RemoveRules(w: World<Host>, cfg: Config, probes: Probes, faults: Faults<Command>): Step<Host>
    requires cfg.uid.Some?
  {
    var w1 := if probes.ip6tables && cfg.uid.value >= 0 then RemoveList(w, V6, V6Rules(cfg), faults) else w;
    if ValidConfig(cfg) then Step(RemoveList(w1, V4, Rules(cfg), faults), true) else Step(w1, false)
  }

  /** None stands for the error that building the rules of an unusable configuration raises. */
  function RulesStatus(h: Host, cfg: Config, probes: Probes): Option<Status>
    requires cfg.uid.Some?
  {
    if !ValidConfig(cfg) then None
    else
      var s := StatusOf(h.v4, Rules(cfg));
      if !V6Required(cfg, probes) then Some(s)
      else if !probes.ip6tables then Some(s.(active := false, killswitch := false))
      else
        var s6 := StatusOf(h.v6, V6Rules(cfg));
        Some(Status(s.total + s6.total, s.present + s6.present, s.active && s6.active, s.killswitch && s6.killswitch))
  }

  class LinuxFirewall {
    const v4: Engine
    const v6: Engine
    const probes: Probes

    constructor (v4: Engine, v6: Engine, probes: Probes)
      ensures this.v4 == v4 && this.v6 == v6 && this.probes == probes
    {
      this.v4, this.v6, this.probes := v4, v6, probes;
    }

    /** Both engines run their commands on the same host, each on its own family. */
    predicate Valid() {
      v4.m == v6.m && v4.fam == V4 && v6.fam == V6
    }

    method ApplySix(cfg: Config) returns (ok: bool)
      requires Valid() && ValidConfig(cfg)
      modifies v6.m
      ensures Step(v6.m.W(), ok) == ApplyV6(old(v6.m.W()), cfg, probes, v6.m.faults)
    {
      if !V6Required(cfg, probes) { return true; }
      if !probes.ip6tables { return false; }
      var added := v6.Apply(V6Rules(cfg));
      ok := added.Some?;
    }

    method Apply(cfg: Config) returns (ok: bool)
      requires Valid() && cfg.uid.Some?
      modifies v4.m
      ensures Step(v4.m.W(), ok) == ApplyRules(old(v4.m.W()), cfg, probes, v4.m.faults)
    {
      if !ValidConfig(cfg) { return false; }
      var added := v4.Apply(Rules(cfg));
      if added.None? { return false; }
      ok := ApplySix(cfg);
      if !ok { v4.Remove(added.value); }
    }

    method Remove(cfg: Config) returns (ok: bool)
      requires Valid() && cfg.uid.Some?
      modifies v4.m
      ensures Step(v4.m.W(), ok) == RemoveRules(old(v4.m.W()), cfg, probes, v4.m.faults)
    {
      if probes.ip6tables {
        if cfg.uid.value >= 0 { v6.Remove(V6Rules(cfg)); }
      }
      if !ValidConfig(cfg) { return false; }
      v4.Remove(Rules(cfg));
      ok := true;
    }

    method GetStatus(cfg: Config) returns (r: Option<Status>)
      requires Valid() && cfg.uid.Some?
      ensures r == RulesStatus(v4.m.host, cfg, probes)
    {
      if !ValidConfig(cfg) { return None; }
      var s := v4.StatusList(Rules(cfg));
      var total, present, active, killswitch := s.total, s.present, s.active, s.killswitch;
      if V6Required(cfg, probes) {
        if probes.ip6tables {
          var s6 := v6.StatusList(V6Rules(cfg));
          total, present := total + |V6Rules(cfg)|, present + s6.present;
          active, killswitch := active && s6.active, killswitch && s6.killswitch;
        } else {
          active, killswitch := false, false;
        }
      }
      r := Some(Status(total, present, active, killswitch));
    }
  }

  // --- two families, one transaction ------------------------------------

  /** Tables only grew behind what they held, and the resolver is untouched. */
  predicate Grew(h0: Host, h: Host) {
    && h0.v4.nats <= h.v4.nats && h0.v4.filters <= h.v4.filters
    && h0.v6.nats <= h.v6.nats && h0.v6.filters <= h.v6.filters
    && SameResolver(h0, h)
  }

  predicate SameResolver(h0: Host, h: Host) { h0.resolv == h.resolv && h0.backup == h.backup }

  ghost predicate GrewSince(w0: World<Host>, w: World<Host>) {
    && w0.seen <= w.seen && Grew(w0.host, w.host)
    && forall i :: |w0.seen| <= i < |w.seen| ==> Grew(w0.host, w.seen[i])
  }

  lemma FamilyGrew(w0: World<Host>, w1: World<Host>, w2: World<Host>, fam: Family)
    requires GrewSince(w0, w1) && T.GrownSince(w1, w2, fam)
    ensures GrewSince(w0, w2)
  {
    forall h | T.Grown(w1.host, h, fam) ensures Grew(w0.host, h) { }
    hide Grew, T.Grown;
    forall i | |w0.seen| <= i < |w2.seen| ensures Grew(w0.host, w2.seen[i]) {
      if i < |w1.seen| { assert w2.seen[i] == w1.seen[i]; }
    }
  }

  ghost predicate AllDeletesWork(faults: Faults<Command>) {
    forall fam, r, n :: faults(Delete(fam, r), n)
  }

  /**
   Either all IPv4 rules and, where required, all IPv6 rules are there, or the call fails. Every rule
   that stood in either family before still stands, in place, at every point on the way.
   */
  lemma ApplyArmsBoth(w: World<Host>, cfg: Config, probes: Probes, faults: Faults<Command>)
    requires cfg.uid.Some?
    ensures var s := ApplyRules(w, cfg, probes, faults);
            && GrewSince(w, s.w)
            && (s.ok ==> ValidConfig(cfg) && AllPresent(s.w.host.v4, Rules(cfg)))
            && (s.ok && V6Required(cfg, probes) ==> probes.ip6tables && AllPresent(s.w.host.v6, V6Rules(cfg)))
  {
    hide ApplyList, RemoveList, GrewSince, T.GrownSince, T.Extend, T.Subsequence, Rules, V6Rules;
    StartGrew(w);
    if ValidConfig(cfg) {
      var a := ApplyList(w, V4, Rules(cfg), faults);
      T.ApplyIsTransaction(w, V4, Rules(cfg), faults);
      FamilyGrew(w, w, a.w, V4);
      if a.ok {
        T.ApplyArms(w, V4, Rules(cfg), faults);
        var s := ApplyV6(a.w, cfg, probes, faults);
        T.ApplyIsTransaction(a.w, V6, V6Rules(cfg), faults);
        SixthKeepsFour(a.w, cfg, probes, faults);
        if V6Required(cfg, probes) && probes.ip6tables {
          FamilyGrew(w, a.w, s.w, V6);
          if s.ok { T.ApplyArms(a.w, V6, V6Rules(cfg), faults); }
        }
        if !s.ok { UnwindGrew(w, s.w, cfg, faults); }
      }
    }
  }

  lemma StartGrew(w: World<Host>)
    ensures GrewSince(w, w)
  {
  }

  lemma SixthKeepsFour(w: World<Host>, cfg: Config, probes: Probes, faults: Faults<Command>)
    requires ValidConfig(cfg)
    ensures ApplyV6(w, cfg, probes, faults).w.host.v4 == w.host.v4
    ensures SameResolver(w.host, ApplyV6(w, cfg, probes, faults).w.host)
  {
    T.ApplyIsTransaction(w, V6, V6Rules(cfg), faults);
    hide ApplyList, T.Extend, T.Subsequence;
  }

  lemma UnwindBehind(w: World<Host>, w2: World<Host>, added: seq<Rule>, faults: Faults<Command>)
    requires w2.host.v4 == T.Extend(w.host.v4, added) && T.Extend(w.host.v4, []) == w.host.v4
    requires NonePresent(w.host.v4, added) && GrewSince(w, w2)
    ensures GrewSince(w, RemoveList(w2, V4, added, faults))
    ensures T.TouchedSince(w2, RemoveList(w2, V4, added, faults), V4)
  {
    var start := w2.(host := w2.host.(v4 := w.host.v4));
    assert GrewSince(w, start);
    T.ExtendGrows(w.host.v4, added);
    assert T.GrownSince(start, w2, V4);
    hide RemoveList, GrewSince, T.GrownSince, T.Extend, T.Subsequence;
    var left := T.RemoveBehind(start, w2, V4, added, faults, w.host.v4, added);
    FamilyGrew(w, start, RemoveList(w2, V4, added, faults), V4);
    T.RemoveIsRobust(w2, V4, added, added, faults);
  }

  /** Taking back the IPv4 additions after an IPv6 failure never reaches into the old rules. */
  lemma UnwindGrew(w: World<Host>, w2: World<Host>, cfg: Config, faults: Faults<Command>)
    requires ValidConfig(cfg)
    requires var a := ApplyList(w, V4, Rules(cfg), faults);
             a.ok && w2.host.v4 == a.w.host.v4 && GrewSince(w, w2)
    ensures GrewSince(w, RemoveList(w2, V4, ApplyList(w, V4, Rules(cfg), faults).added, faults))
    ensures RemoveList(w2, V4, ApplyList(w, V4, Rules(cfg), faults).added, faults).host.v6 == w2.host.v6
    ensures T.DeletesWork(V4, faults) ==>
              RemoveList(w2, V4, ApplyList(w, V4, Rules(cfg), faults).added, faults).host.v4 == w.host.v4
  {
    hide ApplyList, RemoveList, T.Subsequence, T.Extend, T.KeepOthers, T.DeletesWork, Rules;
    var a := ApplyList(w, V4, Rules(cfg), faults);
    T.ApplyIsTransaction(w, V4, Rules(cfg), faults);
    T.ExtendNothing(w.host.v4);
    UnwindBehind(w, w2, a.added, faults);
    if T.DeletesWork(V4, faults) {
      T.RemoveExact(w2, V4, a.added, faults);
      T.KeepUndoesExtend(w.host.v4, a.added);
    }
  }

  /** With working deletes a failed apply leaves both families exactly as they were. */
  lemma ApplyIsAtomic(w: World<Host>, cfg: Config, probes: Probes, faults: Faults<Command>)
    requires cfg.uid.Some? && AllDeletesWork(faults)
    ensures var s := ApplyRules(w, cfg, probes, faults);
            && (!s.ok ==> s.w.host == w.host)
            && (s.ok ==> ValidConfig(cfg) && SameResolver(w.host, s.w.host))
            && (s.ok ==> s.w.host.v4 == T.Extend(w.host.v4, T.Missing(w.host.v4, [], Rules(cfg))))
            && (s.ok && V6Required(cfg, probes) ==>
                  probes.ip6tables && s.w.host.v6 == T.Extend(w.host.v6, T.Missing(w.host.v6, [], V6Rules(cfg))))
            && (s.ok && !V6Required(cfg, probes) ==> s.w.host.v6 == w.host.v6)
  {
    hide ApplyList, RemoveList, GrewSince, T.GrownSince, T.Extend, T.Subsequence, T.Missing, Rules, V6Rules;
    assert T.DeletesWork(V4, faults) && T.DeletesWork(V6, faults);
    hide AllDeletesWork, T.DeletesWork;
    ApplyArmsBoth(w, cfg, probes, faults);
    GrewEnds(w, ApplyRules(w, cfg, probes, faults).w);
    if ValidConfig(cfg) {
      var a := ApplyList(w, V4, Rules(cfg), faults);
      T.ApplyIsTransaction(w, V4, Rules(cfg), faults);
      if a.ok {
        GrownEnds(w, a.w, V4);
        var s := ApplyV6(a.w, cfg, probes, faults);
        T.ApplyIsTransaction(a.w, V6, V6Rules(cfg), faults);
        SixthKeepsFour(a.w, cfg, probes, faults);
        if !s.ok {
          FamilyGrewBoth(w, a.w, s.w, cfg, probes, faults);
          UnwindGrew(w, s.w, cfg, faults);
        }
      }
    }
  }

  lemma GrewEnds(w0: World<Host>, w: World<Host>)
    requires GrewSince(w0, w)
    ensures Grew(w0.host, w.host)
  {
  }

  lemma GrownEnds(w0: World<Host>, w: World<Host>, fam: Family)
    requires T.GrownSince(w0, w, fam)
    ensures T.SameElse(w0.host, w.host, fam)
  {
  }

  lemma FamilyGrewBoth(w: World<Host>, w1: World<Host>, w2: World<Host>, cfg: Config, probes: Probes,
                       faults: Faults<Command>)
    requires ValidConfig(cfg) && T.GrownSince(w, w1, V4) && w2 == ApplyV6(w1, cfg, probes, faults).w
    ensures GrewSince(w, w2)
  {
    hide ApplyList, GrewSince, T.GrownSince, T.Extend, T.Subsequence;
    StartGrew(w);
    FamilyGrew(w, w, w1, V4);
    T.ApplyIsTransaction(w1, V6, V6Rules(cfg), faults);
    if V6Required(cfg, probes) && probes.ip6tables { FamilyGrew(w, w1, w2, V6); }
  }

  // --- removal ----------------------------------------------------------

  /** Only tables changed, at every point. */
  ghost predicate RulesOnlySince(w0: World<Host>, w: World<Host>) {
    && w0.seen <= w.seen && SameResolver(w0.host, w.host)
    && forall i :: |w0.seen| <= i < |w.seen| ==> SameResolver(w0.host, w.seen[i])
  }

  lemma TouchedIsRulesOnly(w0: World<Host>, w1: World<Host>, w2: World<Host>, fam: Family)
    requires RulesOnlySince(w0, w1) && T.TouchedSince(w1, w2, fam)
    ensures RulesOnlySince(w0, w2)
  {
    forall i | |w0.seen| <= i < |w2.seen| ensures SameResolver(w0.host, w2.seen[i]) {
      if i < |w1.seen| { assert w2.seen[i] == w1.seen[i]; }
    }
  }

  /** Removal touches tables only; with working deletes exactly the listed rules go, in both families. */
  lemma RemoveIsExact(w: World<Host>, cfg: Config, probes: Probes, faults: Faults<Command>)
    requires cfg.uid.Some?
    ensures var s := RemoveRules(w, cfg, probes, faults);
            && RulesOnlySince(w, s.w)
            && (s.ok <==> ValidConfig(cfg))
            && (AllDeletesWork(faults) ==>
                  && s.w.host.v4 == (if ValidConfig(cfg) then T.KeepOthers(w.host.v4, Rules(cfg)) else w.host.v4)
                  && s.w.host.v6 == (if probes.ip6tables && cfg.uid.value >= 0
                                     then T.KeepOthers(w.host.v6, V6Rules(cfg)) else w.host.v6))
  {
    hide RemoveList, T.KeepOthers, Rules, V6Rules;
    var w1 := if probes.ip6tables && cfg.uid.value >= 0 then RemoveList(w, V6, V6Rules(cfg), faults) else w;
    T.RemoveIsRobust(w, V6, V6Rules(cfg), V6Rules(cfg), faults);
    T.RemoveIsRobust(w1, V4, Rules(cfg), Rules(cfg), faults);
    if w1 != w { TouchedIsRulesOnly(w, w, w1, V6); }
    if ValidConfig(cfg) { TouchedIsRulesOnly(w, w1, RemoveList(w1, V4, Rules(cfg), faults), V4); }
    if AllDeletesWork(faults) {
      assert T.DeletesWork(V4, faults) && T.DeletesWork(V6, faults);
      T.RemoveExact(w, V6, V6Rules(cfg), faults);
      T.RemoveExact(w1, V4, Rules(cfg), faults);
    }
  }
}
