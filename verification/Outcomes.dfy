/** How operations end: when a connect succeeds and when not, what a status and an update say. */
module Outcomes {
  import opened Netfilter
  import opened Wrappers
  import opened Host
  import opened Runs
  import opened Engine
  import opened Firewall
  import opened Resolver
  import opened App
  import F = ResolverFiles
  import T = Transaction

  // --- applying ---------------------------------------------------------

  /** Appending these rules one after another, from this point of the run on, works. */
  predicate AppendsWork(fam: Family, rs: seq<Rule>, tick: nat, faults: Faults<Command>) {
    forall i :: 0 <= i < |rs| ==> faults(Append(fam, rs[i]), tick + i)
  }

  lemma {:induction false} ApplyFromOk(w0: World<Host>, w: World<Host>, fam: Family, before: seq<Rule>, rs: seq<Rule>,
                                       added: seq<Rule>, faults: Faults<Command>)
    requires T.Progress(w0, w, fam, before, added)
    ensures var missing := T.Missing(TablesOf(w0.host, fam), before, rs);
            ApplyFrom(w, fam, rs, added, faults).ok <==> AppendsWork(fam, missing, w.tick, faults)
    ensures var a := ApplyFrom(w, fam, rs, added, faults);
            a.ok ==> a.w.tick == w.tick + |T.Missing(TablesOf(w0.host, fam), before, rs)|
    decreases |rs|
  {
    hide T.Extend, T.GrownSince, RemoveList;
    if rs != [] {
      var t, r := TablesOf(w0.host, fam), rs[0];
      T.PresentExtend(t, added, r);
      if Present(TablesOf(w.host, fam), r) {
        assert T.Missing(t, before, rs) == T.Missing(t, before + [r], rs[1..]);
        ApplyFromOk(w0, w, fam, before + [r], rs[1..], added, faults);
      } else {
        T.StepProgress(w0, w, fam, before, added, r, faults);
        var rest := T.Missing(t, before + [r], rs[1..]);
        assert T.Missing(t, before, rs) == [r] + rest;
        if Succeeds(w, Append(fam, r), faults) {
          ApplyFromOk(w0, Add(w, fam, r, faults), fam, before + [r], rs[1..], added + [r], faults);
          AppendsSplit(fam, r, rest, w.tick, faults);
        } else {
          assert ([r] + rest)[0] == r;
        }
      }
    }
  }

  lemma AppendsSplit(fam: Family, r: Rule, rest: seq<Rule>, tick: nat, faults: Faults<Command>)
    requires faults(Append(fam, r), tick)
    ensures AppendsWork(fam, [r] + rest, tick, faults) <==> AppendsWork(fam, rest, tick + 1, faults)
  {
    var rs := [r] + rest;
    assert rs[0] == r && forall i :: 0 <= i < |rest| ==> rs[i + 1] == rest[i];
    SplitAt(fam, rs, rest, tick, faults);
  }

  lemma SplitAt(fam: Family, rs: seq<Rule>, rest: seq<Rule>, tick: nat, faults: Faults<Command>)
    requires |rs| == |rest| + 1 && faults(Append(fam, rs[0]), tick)
    requires forall i :: 0 <= i < |rest| ==> rs[i + 1] == rest[i]
    ensures AppendsWork(fam, rs, tick, faults) <==> AppendsWork(fam, rest, tick + 1, faults)
  {
    if AppendsWork(fam, rs, tick, faults) {
      forall i | 0 <= i < |rest| ensures faults(Append(fam, rest[i]), tick + 1 + i) {
        assert faults(Append(fam, rs[i + 1]), tick + (i + 1));
      }
    }
    if AppendsWork(fam, rest, tick + 1, faults) {
      forall i | 0 <= i < |rs| ensures faults(Append(fam, rs[i]), tick + i) {
        if i > 0 { assert rs[i - 1 + 1] == rest[i - 1] && faults(Append(fam, rest[i - 1]), tick + 1 + (i - 1)); }
      }
    }
  }

  /** Applying a list succeeds exactly if appending its missing rules, each in its turn, works. */
  lemma ApplyOkExactly(w: World<Host>, fam: Family, rs: seq<Rule>, faults: Faults<Command>)
    ensures var missing := T.Missing(TablesOf(w.host, fam), [], rs);
            var a := ApplyList(w, fam, rs, faults);
            && (a.ok <==> AppendsWork(fam, missing, w.tick, faults))
            && (a.ok ==> a.w.tick == w.tick + |missing|)
  {
    T.ExtendNothing(TablesOf(w.host, fam));
    assert T.Progress(w, w, fam, [], []);
    ApplyFromOk(w, w, fam, [], rs, [], faults);
  }

  /** Both families apply exactly if the key is valid, IPv6 available where required, and every append works. */
  lemma ApplyRulesOkExactly(w: World<Host>, cfg: Config, probes: Probes, faults: Faults<Command>)
    requires cfg.uid.Some?
    ensures var m4, m6 := T.Missing(w.host.v4, [], Rules(cfg)), T.Missing(w.host.v6, [], V6Rules(cfg));
            ApplyRules(w, cfg, probes, faults).ok <==>
            && cfg.uid.value >= 0 && 1 <= cfg.transPort <= 65535 && 1 <= cfg.dnsPort <= 65535
            && AppendsWork(V4, m4, w.tick, faults)
            && (cfg.ipv6Killswitch && probes.kernelIpv6 ==>
                  probes.ip6tables && AppendsWork(V6, m6, w.tick + |m4|, faults))
  {
    hide ApplyList, RemoveList, T.Missing, T.Extend, T.Subsequence, T.GrownSince, AppendsWork, Rules, V6Rules;
    ApplyOkExactly(w, V4, Rules(cfg), faults);
    var a := ApplyList(w, V4, Rules(cfg), faults);
    if a.ok {
      T.ApplyIsTransaction(w, V4, Rules(cfg), faults);
      OtherFamilySame(w, a.w);
      ApplyOkExactly(a.w, V6, V6Rules(cfg), faults);
    }
  }

  lemma OtherFamilySame(w: World<Host>, w1: World<Host>)
    requires T.GrownSince(w, w1, V4)
    ensures w1.host.v6 == w.host.v6
  {
  }

  // --- connecting -------------------------------------------------------

  /** What a connect that succeeds had, and when it succeeds. */
  lemma ConnectOkExactly(w: World<Host>, cfg: Config, probes: Probes, env: Surroundings, faults: Faults<Command>)
    ensures Connect(w, cfg, probes, env, faults).ok <==>
            && cfg.uid.Some? && env.iptables && (env.torrcWritten || !cfg.manageTorrc) && env.torListening
            && ApplyRules(w, cfg, probes, faults).ok
            && (cfg.lockResolv ==> LockResolv(ApplyRules(w, cfg, probes, faults).w, faults).ok)
  {
    hide ApplyRules, LockResolv, Rollback;
  }

  /** With all it needs at hand, and appends and resolver writes that work, a connect succeeds. */
  lemma ConnectSucceeds(w: World<Host>, cfg: Config, probes: Probes, env: Surroundings, faults: Faults<Command>)
    requires cfg.uid.Some? && cfg.uid.value >= 0 && 1 <= cfg.transPort <= 65535 && 1 <= cfg.dnsPort <= 65535
    requires env.iptables && (cfg.manageTorrc ==> env.torrcWritten) && env.torListening
    requires cfg.ipv6Killswitch && probes.kernelIpv6 ==> probes.ip6tables
    requires forall fam, r, n :: faults(Append(fam, r), n)
    requires forall n :: faults(Capture, n) && faults(Pin, n)
    ensures Connect(w, cfg, probes, env, faults).ok
  {
    ApplyRulesOkExactly(w, cfg, probes, faults);
    ConnectOkExactly(w, cfg, probes, env, faults);
    hide ApplyRules, LockResolv, Connect, T.Missing, Rules, V6Rules;
    F.LockOutcome(ApplyRules(w, cfg, probes, faults).w, faults);
  }

  /**
   Without a user, iptables, the torrc it manages or a listening Tor, a connect fails before it touches
   the firewall or pins: at most it takes a pin back.
   */
  lemma ConnectRefused(w: World<Host>, cfg: Config, probes: Probes, env: Surroundings, faults: Faults<Command>)
    requires cfg.uid.None? || !env.iptables || (cfg.manageTorrc && !env.torrcWritten) || !env.torListening
    ensures var rolls := cfg.uid.Some? && env.iptables && cfg.lockResolv;
            Connect(w, cfg, probes, env, faults) == Step(if rolls then RestoreResolv(w, faults).w else w, false)
    ensures SameRules(w.host, Connect(w, cfg, probes, env, faults).w.host)
    ensures var before, after := w.host, Connect(w, cfg, probes, env, faults).w.host;
            after.resolv == before.resolv
            || (before.backup.Some? && after.resolv == Some(Universal(before.backup.value)))
  {
    hide ApplyRules, LockResolv, Universal;
  }

  /** A connect that is not to pin leaves the resolver alone, however it ends. */
  lemma NoLockNoTouch(w: World<Host>, cfg: Config, probes: Probes, env: Surroundings, faults: Faults<Command>)
    requires !cfg.lockResolv
    ensures SameResolver(w.host, Connect(w, cfg, probes, env, faults).w.host)
  {
    hide ApplyRules, LockResolv;
    if cfg.uid.Some? {
      ApplyArmsBoth(w, cfg, probes, faults);
      GrewEnds(w, ApplyRules(w, cfg, probes, faults).w);
    }
  }

  // --- disconnecting and recovering -------------------------------------

  /** A disconnect reports failure exactly for a configuration whose rules cannot be named. */
  lemma DisconnectOkExactly(w: World<Host>, cfg: Config, probes: Probes, faults: Faults<Command>)
    ensures Disconnect(w, cfg, probes, faults).ok <==>
            cfg.uid.None? || (cfg.uid.value >= 0 && 1 <= cfg.transPort <= 65535 && 1 <= cfg.dnsPort <= 65535)
    ensures cfg.uid.None? ==> Disconnect(w, cfg, probes, faults).w == RestoreResolv(w, faults).w
  {
    hide RestoreResolv, RemoveList;
  }

  /** A start touches nothing but an orphaned pin: a pin with no user configured, or one without its killswitch. */
  lemma RecoverExactly(w: World<Host>, cfg: Config, probes: Probes, faults: Faults<Command>)
    ensures var orphaned := Pinned(w.host) && (cfg.uid.None? || (ValidConfig(cfg) && !Routing(w.host, cfg, probes)));
            Recover(w, cfg, probes, faults) == if orphaned then RestoreResolv(w, faults).w else w
  {
    hide RestoreResolv, Pinned, StatusOf, Rules, V6Rules;
  }

  // --- status -----------------------------------------------------------

  /** The count of a list is the sum over its parts, one for a rule that is present and none for another. */
  lemma {:induction false} CountExactly(t: Tables, a: seq<Rule>, b: seq<Rule>, r: Rule)
    ensures CountPresent(t, a + b) == CountPresent(t, a) + CountPresent(t, b)
    ensures CountPresent(t, [r]) == if Present(t, r) then 1 else 0
    ensures CountPresent(t, a) <= |a|
    ensures CountPresent(t, a) == |a| <==> AllPresent(t, a)
    ensures CountPresent(t, a) == 0 <==> NonePresent(t, a)
  {
    hide Present;
    assert [r][1..] == [];
    if a == [] {
      assert a + b == b;
    } else {
      CountExactly(t, a[1..], b, r);
      assert (a + b)[1..] == a[1..] + b;
      assert forall i :: 0 < i < |a| ==> a[i] == a[1..][i - 1];
      assert forall i :: 0 <= i < |a[1..]| ==> a[1..][i] == a[i + 1];
    }
  }

  /** What the status of both families says of the tables. */
  lemma StatusExactly(h: Host, cfg: Config, probes: Probes)
    requires cfg.uid.Some?
    ensures RulesStatus(h, cfg, probes).Some? <==>
            cfg.uid.value >= 0 && 1 <= cfg.transPort <= 65535 && 1 <= cfg.dnsPort <= 65535
    ensures RulesStatus(h, cfg, probes).Some? ==>
              var s := RulesStatus(h, cfg, probes).value;
              var drop := Rule(Filter, [Owner(cfg.uid.value)], Drop);
              var six := cfg.ipv6Killswitch && probes.kernelIpv6 && probes.ip6tables;
              && s.total == (if six then 9 else 7)
              && s.present == CountPresent(h.v4, Rules(cfg)) + (if six then CountPresent(h.v6, V6Rules(cfg)) else 0)
              && (s.active <==> Armed(h, cfg, probes))
              && (s.killswitch <==>
                  && Present(h.v4, drop)
                  && (cfg.ipv6Killswitch && probes.kernelIpv6 ==> probes.ip6tables && Present(h.v6, drop)))
  {
    assert ValidConfig(cfg) ==> |Rules(cfg)| == 7 && Rules(cfg)[6] == Rule(Filter, [Owner(cfg.uid.value)], Drop);
    assert |V6Rules(cfg)| == 2 && V6Rules(cfg)[1] == Rule(Filter, [Owner(cfg.uid.value)], Drop);
    hide Rules, V6Rules, CountPresent, Present;
  }

  /**
   Routing is the killswitch alone: the drop is in, for IPv6 as well where that is required, whichever of
   the other rules are missing.
   */
  lemma RoutingExactly(h: Host, cfg: Config, probes: Probes)
    ensures Routing(h, cfg, probes) <==>
            && cfg.uid.Some? && cfg.uid.value >= 0 && 1 <= cfg.transPort <= 65535 && 1 <= cfg.dnsPort <= 65535
            && Rule(Filter, [Owner(cfg.uid.value)], Drop) in h.v4.filters
            && (cfg.ipv6Killswitch && probes.kernelIpv6 ==>
                  probes.ip6tables && Rule(Filter, [Owner(cfg.uid.value)], Drop) in h.v6.filters)
  {
    if cfg.uid.Some? { StatusExactly(h, cfg, probes); }
    hide RulesStatus;
  }

  // --- updating ---------------------------------------------------------

  /** An update takes over the requested configuration, all of it, and is accepted exactly in these cases. */
  lemma UpdateExactly(h: Host, cfg: Config, request: Request, probes: Probes)
    ensures var next := request.config;
            var usable := request.accepted && 1 <= next.transPort <= 65535 && 1 <= next.dnsPort <= 65535
                          && (next.uid.Some? ==> next.uid.value >= 0);
            var sameKey := next.uid == cfg.uid && next.transPort == cfg.transPort && next.dnsPort == cfg.dnsPort;
            var accepted := usable && (Routing(h, cfg, probes) ==> sameKey);
            Update(h, cfg, request, probes) == if accepted then Some(next) else None
  {
    hide Routing;
  }
}
