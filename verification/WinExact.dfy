/** Runs of the Windows killswitch without any assumption: what the last remove brings back, and why. */
module WinExact {
  import opened Wrappers
  import opened Runs
  import opened WinFirewall
  import opened WinRuns

  // --- what one call can do to a host -----------------------------------

  /**
   A host some way into a call that started from h0: its profiles and the user's rules are all there,
   and the state file is as it was, or gone, or an apply that found no capture has just written one.
   */
  ghost predicate Came(h0: WinHost, h: WinHost, apply: bool) {
    && Complete(h.policy)
    && ForeignOf(h.rules) == ForeignOf(h0.rules)
    && (h.state == h0.state || h.state.None?
        || (apply && Captured(h0) == map[] && (h.state == Some(map[]) || h.state == Some(h0.policy))))
  }

  ghost predicate CameSince(h0: WinHost, w0: World<WinHost>, w: World<WinHost>, apply: bool) {
    && w0.seen <= w.seen && Came(h0, w.host, apply)
    && forall i :: |w0.seen| <= i < |w.seen| ==> Came(h0, w.seen[i], apply)
  }

  lemma CameTrans(h0: WinHost, w0: World<WinHost>, w1: World<WinHost>, w2: World<WinHost>, apply: bool)
    requires CameSince(h0, w0, w1, apply) && CameSince(h0, w1, w2, apply)
    ensures CameSince(h0, w0, w2, apply)
  {
    hide Came;
    forall i | |w0.seen| <= i < |w2.seen| ensures Came(h0, w2.seen[i], apply) {
      if i < |w1.seen| { assert w2.seen[i] == w1.seen[i]; }
    }
  }

  lemma SetCame(h0: WinHost, w: World<WinHost>, p: Profile, policy: Policy, apply: bool, faults: Faults<Command>)
    requires Came(h0, w.host, apply)
    ensures CameSince(h0, w, SetTo(w, p, policy, faults), apply)
  {
    hide ForeignOf;
    AllProfiles(p);
    assert w.host.policy[p := policy].Keys == w.host.policy.Keys;
  }

  lemma {:induction false} RestoreCame(h0: WinHost, w: World<WinHost>, captured: Policies, ps: seq<Profile>,
                                       apply: bool,
                                       faults: Faults<Command>)
    requires Came(h0, w.host, apply)
    ensures CameSince(h0, w, RestorePolicies(w, captured, ps, faults).w, apply)
    decreases ps
  {
    hide Came;
    if ps != [] {
      var policy := RestoredPolicy(captured, ps[0]);
      SetCame(h0, w, ps[0], policy, apply, faults);
      var w1 := SetTo(w, ps[0], policy, faults);
      RestoreCame(h0, w1, captured, ps[1..], apply, faults);
      CameTrans(h0, w, w1, RestorePolicies(w1, captured, ps[1..], faults).w, apply);
    }
  }

  lemma {:induction false} DeleteCame(h0: WinHost, w: World<WinHost>, names: seq<RuleName>, apply: bool,
                                      faults: Faults<Command>)
    requires Came(h0, w.host, apply) && forall i :: 0 <= i < |names| ==> !names[i].Foreign?
    ensures CameSince(h0, w, DeleteNames(w, names, faults), apply)
    decreases names
  {
    hide ForeignOf, Purged;
    if names != [] {
      var next := w.host.(rules := Purged(w.host.rules, names[0]));
      ForeignOfPurged(w.host.rules, names[0]);
      assert Came(h0, next, apply);
      hide Came;
      var w1 := Issue(w, DeleteRule(names[0]), faults, next);
      DeleteCame(h0, w1, names[1..], apply, faults);
      CameTrans(h0, w, w1, DeleteNames(w1, names[1..], faults), apply);
    }
  }

  /** Deleting our rules and dropping the state file. */
  lemma CleanupCame(h0: WinHost, w: World<WinHost>, apply: bool, faults: Faults<Command>)
    requires Came(h0, w.host, apply)
    ensures CameSince(h0, w, DropState(DeleteNames(w, OURS, faults), faults), apply)
  {
    AllOursPlain();
    hide OURS, ForeignOf;
    DeleteCame(h0, w, OURS, apply, faults);
    var w1 := DeleteNames(w, OURS, faults);
    assert Came(h0, w1.host.(state := None), apply);
    CameTrans(h0, w, w1, DropState(w1, faults), apply);
  }

  lemma TeardownCame(h0: WinHost, w: World<WinHost>, apply: bool, faults: Faults<Command>)
    requires Came(h0, w.host, apply)
    ensures CameSince(h0, w, Teardown(w, faults), apply)
  {
    hide Came, OURS, PROFILES;
    RestoreCame(h0, w, Captured(w.host), PROFILES, apply, faults);
    var w1 := RestorePolicies(w, Captured(w.host), PROFILES, faults).w;
    CleanupCame(h0, w1, apply, faults);
    CameTrans(h0, w, w1, Teardown(w, faults), apply);
  }

  lemma RemoveCame(h: WinHost, faults: Faults<Command>)
    requires Complete(h.policy)
    ensures CameSince(h, World(h, 0, []), Remove(World(h, 0, []), faults).w, false)
  {
    assert Came(h, h, false);
    hide Came, OURS, PROFILES;
    var w := World(h, 0, []);
    RestoreCame(h, w, Captured(h), PROFILES, false, faults);
    var s := RestorePolicies(w, Captured(h), PROFILES, faults);
    if s.ok {
      CleanupCame(h, s.w, false, faults);
      CameTrans(h, w, s.w, Remove(w, faults).w, false);
    }
  }

  lemma {:induction false} AddCame(h0: WinHost, w: World<WinHost>, names: seq<RuleName>, faults: Faults<Command>)
    requires Came(h0, w.host, true) && forall i :: 0 <= i < |names| ==> !names[i].Foreign?
    ensures CameSince(h0, w, AddNames(w, names, faults).w, true)
    decreases names
  {
    hide ForeignOf;
    if names != [] {
      var next := w.host.(rules := w.host.rules + [names[0]]);
      ForeignOfAppend(w.host.rules, names[0]);
      assert Came(h0, next, true);
      hide Came;
      var w1 := Issue(w, AddRule(names[0]), faults, next);
      if Succeeds(w, AddRule(names[0]), faults) {
        AddCame(h0, w1, names[1..], faults);
        CameTrans(h0, w, w1, AddNames(w1, names[1..], faults).w, true);
      }
    }
  }

  lemma {:induction false} BlockCame(h0: WinHost, w: World<WinHost>, prior: Policies, ps: seq<Profile>,
                                     faults: Faults<Command>)
    requires Came(h0, w.host, true)
    ensures CameSince(h0, w, BlockProfiles(w, prior, ps, faults).w, true)
    decreases ps
  {
    hide Came;
    if ps != [] {
      var policy := Policy(InboundToken(prior, ps[0]), BlockOutbound);
      SetCame(h0, w, ps[0], policy, true, faults);
      var w1 := SetTo(w, ps[0], policy, faults);
      if Succeeds(w, SetPolicy(ps[0], policy), faults) {
        BlockCame(h0, w1, prior, ps[1..], faults);
        CameTrans(h0, w, w1, BlockProfiles(w1, prior, ps[1..], faults).w, true);
      }
    }
  }

  lemma ApplyCame(h: WinHost, cfg: Config, faults: Faults<Command>)
    requires Complete(h.policy)
    ensures CameSince(h, World(h, 0, []), Apply(World(h, 0, []), cfg, faults).w, true)
  {
    var w := World(h, 0, []);
    var c := Capture(w, faults);
    assert CameSince(h, w, c.w, true) by { hide ForeignOf; }
    if cfg.torFound && c.ok {
      AllowedNames(cfg);
      hide Came, Allowed, PROFILES, Teardown;
      AddCame(h, c.w, Allowed(cfg), faults);
      var a := AddNames(c.w, Allowed(cfg), faults);
      CameTrans(h, w, c.w, a.w, true);
      if !a.ok {
        TeardownCame(h, a.w, true, faults);
        CameTrans(h, w, a.w, Teardown(a.w, faults), true);
      } else {
        BlockCame(h, a.w, Captured(c.w.host), PROFILES, faults);
        var b := BlockProfiles(a.w, Captured(c.w.host), PROFILES, faults);
        CameTrans(h, w, a.w, b.w, true);
        if !b.ok {
          TeardownCame(h, b.w, true, faults);
          CameTrans(h, w, b.w, Teardown(b.w, faults), true);
        }
      }
    }
  }

  lemma AfterCame(h: WinHost, c: Call)
    requires Complete(h.policy)
    ensures Came(h, After(h, c), c.apply)
  {
    assert Came(h, h, c.apply);
    hide Came, Apply, Remove;
    if c.apply { ApplyCame(h, c.cfg, c.faults); } else { RemoveCame(h, c.faults); }
  }

  // --- whole runs -------------------------------------------------------

  lemma {:induction false} RunSnoc(h: WinHost, cs: seq<Call>)
    requires cs != []
    ensures RunCalls(h, cs) == After(RunCalls(h, cs[..|cs| - 1]), cs[|cs| - 1])
    decreases cs
  {
    hide After;
    if |cs| > 1 {
      RunSnoc(After(h, cs[0]), cs[1..]);
      assert cs[1..][..|cs| - 2] == cs[..|cs| - 1][1..];
    }
  }

  lemma {:induction false} RunSound(h0: WinHost, cs: seq<Call>)
    requires Complete(h0.policy) && h0.state.None?
    ensures Complete(RunCalls(h0, cs).policy) && ForeignOf(RunCalls(h0, cs).rules) == ForeignOf(h0.rules)
    ensures var captured := Captured(RunCalls(h0, cs)); captured == map[] || Complete(captured)
    decreases |cs|
  {
    hide After, ForeignOf;
    if cs != [] {
      var n := |cs| - 1;
      RunSound(h0, cs[..n]);
      RunSnoc(h0, cs);
      AfterCame(RunCalls(h0, cs[..n]), cs[n]);
    }
  }

  /** The capture held at the end was taken by this apply, which found none, from the policy it found. */
  predicate TakenBy(h0: WinHost, cs: seq<Call>, i: nat) {
    && i < |cs| && cs[i].apply
    && Captured(RunCalls(h0, cs[..i])) == map[]
    && Captured(RunCalls(h0, cs)) == RunCalls(h0, cs[..i]).policy
  }

  /** Every capture that is held was taken by some apply of the run. */
  lemma {:induction false} CaptureTaken(h0: WinHost, cs: seq<Call>) returns (i: nat)
    requires Complete(h0.policy) && h0.state.None? && Captured(RunCalls(h0, cs)) != map[]
    ensures TakenBy(h0, cs, i)
    decreases |cs|
  {
    hide After;
    var n := |cs| - 1;
    var before, now := RunCalls(h0, cs[..n]), RunCalls(h0, cs);
    RunSnoc(h0, cs);
    RunSound(h0, cs[..n]);
    AfterCame(before, cs[n]);
    if now.state == before.state {
      i := CaptureTaken(h0, cs[..n]);
      assert cs[..n][..i] == cs[..i];
    } else {
      i := n;
    }
  }

  const FALLBACK: Policies := map[Domain := DEFAULT, Private := DEFAULT, Public := DEFAULT]

  /**
   After any run whatever, showing the policy and every other command failing as they like and each
   call cut anywhere, a remove in which everything works leaves no rule of ours, no state file and the
   user's rules. The original policy is back exactly when the capture that is held was taken by an
   apply that found the original in force, or when none is held and the original is the fallback.
   */
  lemma RemoveAfterAnyRun(h0: WinHost, cs: seq<Call>, faults: Faults<Command>)
    requires Complete(h0.policy) && h0.state.None? && Unwinds(faults)
    ensures var h := RunCalls(h0, cs);
            var after := Remove(World(h, 0, []), faults).w.host;
            && after.state.None? && (forall i :: 0 <= i < |OURS| ==> OURS[i] !in after.rules)
            && ForeignOf(after.rules) == ForeignOf(h0.rules)
            && after.policy == (if Captured(h) == map[] then FALLBACK else Captured(h))
            && (after.policy == h0.policy <==>
                (Captured(h) == map[] && IsDefault(h0.policy))
                || exists i: nat :: TakenBy(h0, cs, i) && RunCalls(h0, cs[..i]).policy == h0.policy)
  {
    var h := RunCalls(h0, cs);
    RunSound(h0, cs);
    RemoveWorks(h, faults);
    hide RunCalls, Remove, Unwinds, OURS, ForeignOf;
    if Captured(h) != map[] {
      var i := CaptureTaken(h0, cs);
    } else {
      Fallback(h0.policy);
      forall i: nat ensures !TakenBy(h0, cs, i) || RunCalls(h0, cs[..i]).policy != h0.policy {
        assert Domain in h0.policy && Domain !in Captured(h);
      }
    }
  }

  lemma Fallback(policy: Policies)
    requires Complete(policy)
    ensures IsDefault(policy) <==> policy == FALLBACK
  {
    assert FALLBACK.Keys == policy.Keys;
    if IsDefault(policy) { assert forall p :: p in policy ==> policy[p] == FALLBACK[p]; }
    forall p | p in FALLBACK ensures FALLBACK[p] == DEFAULT { AllProfiles(p); }
  }

  lemma RemoveWorks(h: WinHost, faults: Faults<Command>)
    requires Complete(h.policy) && (Captured(h) == map[] || Complete(Captured(h))) && Unwinds(faults)
    ensures var after := Remove(World(h, 0, []), faults).w.host;
            && after.state.None? && (forall i :: 0 <= i < |OURS| ==> OURS[i] !in after.rules)
            && ForeignOf(after.rules) == ForeignOf(h.rules)
            && after.policy == (if Captured(h) == map[] then FALLBACK else Captured(h))
  {
    hide RestorePolicies, DeleteNames, ForeignOf, OURS, PROFILES, Complete, FALLBACK;
    var s := RestorePolicies(World(h, 0, []), Captured(h), PROFILES, faults);
    RestoreWorks(World(h, 0, []), Captured(h), faults);
    AllOursPlain();
    Purges(s.w, OURS, faults);
  }

  lemma RestoreWorks(w: World<WinHost>, captured: Policies, faults: Faults<Command>)
    requires Complete(w.host.policy) && (captured == map[] || Complete(captured)) && Unwinds(faults)
    ensures var s := RestorePolicies(w, captured, PROFILES, faults);
            && s.ok && s.w.host.rules == w.host.rules
            && s.w.host.policy == (if captured == map[] then FALLBACK else captured)
  {
    RestoreSets(w, captured, PROFILES, faults);
    forall p ensures p in PROFILES { AllProfiles(p); }
    hide RestorePolicies, PROFILES, Unwinds;
    var policy := RestorePolicies(w, captured, PROFILES, faults).w.host.policy;
    if captured == map[] { Fallback(policy); } else { assert policy.Keys == captured.Keys; }
  }

  // --- when the first capture fails -------------------------------------

  lemma {:induction false} AddKeepsState(w: World<WinHost>, names: seq<RuleName>, faults: Faults<Command>)
    ensures AddNames(w, names, faults).w.host.state == w.host.state
    ensures AddNames(w, names, faults).w.host.policy == w.host.policy
    ensures (forall c, n :: c != Show ==> faults(c, n)) ==> AddNames(w, names, faults).ok
    decreases names
  {
    if names != [] {
      var next := w.host.(rules := w.host.rules + [names[0]]);
      AddKeepsState(Issue(w, AddRule(names[0]), faults, next), names[1..], faults);
    }
  }

  lemma {:induction false} BlockSets(w: World<WinHost>, prior: Policies, ps: seq<Profile>, faults: Faults<Command>)
    requires Complete(w.host.policy)
    ensures var b := BlockProfiles(w, prior, ps, faults);
            && b.w.host.state == w.host.state && Complete(b.w.host.policy)
            && (b.ok ==> forall p :: p in ps ==> p in b.w.host.policy && b.w.host.policy[p].outbound == BlockOutbound)
            && (forall p :: p in w.host.policy && w.host.policy[p].outbound == BlockOutbound ==>
                              p in b.w.host.policy && b.w.host.policy[p].outbound == BlockOutbound)
            && ((forall c, n :: c != Show ==> faults(c, n)) ==> b.ok)
    decreases ps
  {
    if ps != [] {
      AllProfiles(ps[0]);
      var policy := Policy(InboundToken(prior, ps[0]), BlockOutbound);
      var w1 := SetTo(w, ps[0], policy, faults);
      assert w.host.policy[ps[0] := policy].Keys == w.host.policy.Keys;
      BlockSets(w1, prior, ps[1..], faults);
      assert ps == [ps[0]] + ps[1..];
    }
  }

  /** A successful apply that finds no capture saves what it is shown, nothing if that fails, and blocks. */
  lemma FirstApply(h: WinHost, cfg: Config, faults: Faults<Command>)
    requires Complete(h.policy) && Captured(h) == map[]
    ensures var s := Apply(World(h, 0, []), cfg, faults);
            && (s.ok ==> s.w.host.state == Some(if faults(Show, 0) then h.policy else map[]))
            && (s.ok ==> Complete(s.w.host.policy))
            && (s.ok ==> forall p :: p in s.w.host.policy && s.w.host.policy[p].outbound == BlockOutbound)
            && (cfg.torFound && (forall c, n :: c != Show ==> faults(c, n)) ==> s.ok)
  {
    var c := Capture(World(h, 0, []), faults);
    var a := AddNames(c.w, Allowed(cfg), faults);
    AddKeepsState(c.w, Allowed(cfg), faults);
    BlockSets(a.w, Captured(c.w.host), PROFILES, faults);
    hide AddNames, BlockProfiles, PROFILES, Allowed, Teardown;
    forall p ensures p in PROFILES { AllProfiles(p); }
  }

  /**
   If the policy cannot be shown, an apply goes through all the same with nothing captured, and a
   fully working remove right after it brings the policy back exactly when it was the fallback.
   */
  lemma FailedCaptureLosesPolicy(h0: WinHost, cfg: Config, faults: Faults<Command>, later: Faults<Command>)
    requires Complete(h0.policy) && h0.state.None? && !faults(Show, 0) && Unwinds(later)
    requires Apply(World(h0, 0, []), cfg, faults).ok
    ensures var h := Apply(World(h0, 0, []), cfg, faults).w.host;
            && h.state == Some(map[])
            && (Remove(World(h, 0, []), later).w.host.policy == h0.policy <==> IsDefault(h0.policy))
  {
    hide Apply, Remove, Unwinds, ForeignOf, OURS;
    FirstApply(h0, cfg, faults);
    RemoveWorks(Apply(World(h0, 0, []), cfg, faults).w.host, later);
    Fallback(h0.policy);
  }

  /**
   A second apply after such a first one captures our own block: whatever the policy was, a fully
   working remove then leaves every profile blocked and the whitelist gone.
   */
  lemma RecaptureLocksOut(h0: WinHost, cfg1: Config, faults1: Faults<Command>, cfg2: Config, faults2: Faults<Command>,
                          later: Faults<Command>)
    requires Complete(h0.policy) && h0.state.None? && !faults1(Show, 0) && faults2(Show, 0) && Unwinds(later)
    requires Apply(World(h0, 0, []), cfg1, faults1).ok
    requires Apply(World(Apply(World(h0, 0, []), cfg1, faults1).w.host, 0, []), cfg2, faults2).ok
    ensures var h1 := Apply(World(h0, 0, []), cfg1, faults1).w.host;
            var h2 := Apply(World(h1, 0, []), cfg2, faults2).w.host;
            var after := Remove(World(h2, 0, []), later).w.host;
            && h2.state == Some(h1.policy)
            && (forall p :: p in after.policy && after.policy[p].outbound == BlockOutbound)
            && (forall i :: 0 <= i < |OURS| ==> OURS[i] !in after.rules)
  {
    hide Apply, Remove, Unwinds, ForeignOf, OURS;
    FirstApply(h0, cfg1, faults1);
    var h1 := Apply(World(h0, 0, []), cfg1, faults1).w.host;
    FirstApply(h1, cfg2, faults2);
    assert Domain in h1.policy;
    RemoveWorks(Apply(World(h1, 0, []), cfg2, faults2).w.host, later);
  }

  const STRICT: Policies := FALLBACK[Public := Policy(BlockInboundAlways, AllowOutbound)]

  lemma StrictIsNoFallback()
    ensures Complete(STRICT) && !IsDefault(STRICT) && Complete(FALLBACK) && IsDefault(FALLBACK)
    ensures Domain in FALLBACK && FALLBACK[Domain].outbound == AllowOutbound
  {
    assert STRICT.Keys == FALLBACK.Keys;
    assert Public in STRICT && STRICT[Public] != DEFAULT;
    Fallback(FALLBACK);
  }

  /** At a concrete machine: with the showing blind, a policy that is not the fallback is lost. */
  lemma CaptureLostAt(cfg: Config)
    requires cfg.torFound
    ensures var blind, working := (c: Command, n: nat) => c != Show, (c: Command, n: nat) => true;
            var h1 := Apply(World(WinHost(STRICT, [], None), 0, []), cfg, blind).w.host;
            Remove(World(h1, 0, []), working).w.host.policy != STRICT
  {
    var blind, working := (c: Command, n: nat) => c != Show, (c: Command, n: nat) => true;
    StrictIsNoFallback();
    hide Apply, Remove, STRICT, FALLBACK, Complete, IsDefault;
    FirstApply(WinHost(STRICT, [], None), cfg, blind);
    FailedCaptureLosesPolicy(WinHost(STRICT, [], None), cfg, blind, working);
  }

  /** And the fallback itself comes back after one such apply, but not after a second apply. */
  lemma FallbackLostAt(cfg: Config)
    requires cfg.torFound
    ensures var blind, working := (c: Command, n: nat) => c != Show, (c: Command, n: nat) => true;
            var h1 := Apply(World(WinHost(FALLBACK, [], None), 0, []), cfg, blind).w.host;
            var h2 := Apply(World(h1, 0, []), cfg, working).w.host;
            && Remove(World(h1, 0, []), working).w.host.policy == FALLBACK
            && Remove(World(h2, 0, []), working).w.host.policy != FALLBACK
  {
    var blind, working := (c: Command, n: nat) => c != Show, (c: Command, n: nat) => true;
    StrictIsNoFallback();
    hide Apply, Remove, FALLBACK, Complete, IsDefault;
    FirstApply(WinHost(FALLBACK, [], None), cfg, blind);
    FailedCaptureLosesPolicy(WinHost(FALLBACK, [], None), cfg, blind, working);
    FirstApply(Apply(World(WinHost(FALLBACK, [], None), 0, []), cfg, blind).w.host, cfg, working);
    RecaptureLocksOut(WinHost(FALLBACK, [], None), cfg, blind, cfg, working, working);
  }

  // --- when the teardown of a failed apply fails ------------------------

  predicate Different<T(==)>(xs: seq<T>) { forall i, j :: 0 <= i < j < |xs| ==> xs[i] != xs[j] }

  /** A profile is restored exactly if its own write works. */
  lemma {:induction false} RestoreOne(w: World<WinHost>, captured: Policies, ps: seq<Profile>, faults: Faults<Command>,
                                      i: nat)
    requires Different(ps) && i <= |ps| && (i < |ps| ==> ps[i] in w.host.policy)
    ensures var w1 := RestorePolicies(w, captured, ps, faults).w;
            && w1.tick == w.tick + |ps| && w1.host.rules == w.host.rules && w1.host.state == w.host.state
            && (i < |ps| ==>
                  && ps[i] in w1.host.policy
                  && var policy := RestoredPolicy(captured, ps[i]);
                  w1.host.policy[ps[i]] ==
                  if faults(SetPolicy(ps[i], policy), w.tick + i) then policy else w.host.policy[ps[i]])
    decreases ps
  {
    hide RestoredPolicy;
    if ps != [] {
      var w1 := SetTo(w, ps[0], RestoredPolicy(captured, ps[0]), faults);
      if i == 0 {
        RestoreOthers(w1, captured, ps[1..], faults, ps[0]);
        RestoreOne(w1, captured, ps[1..], faults, |ps| - 1);
      } else {
        RestoreOne(w1, captured, ps[1..], faults, i - 1);
      }
    }
  }

  lemma {:induction false} RestoreOthers(w: World<WinHost>, captured: Policies, ps: seq<Profile>,
                                         faults: Faults<Command>, p: Profile)
    requires p !in ps && p in w.host.policy
    ensures var policy := RestorePolicies(w, captured, ps, faults).w.host.policy;
            p in policy && policy[p] == w.host.policy[p]
    decreases ps
  {
    hide RestoredPolicy;
    if ps != [] {
      var w1 := SetTo(w, ps[0], RestoredPolicy(captured, ps[0]), faults);
      RestoreOthers(w1, captured, ps[1..], faults, p);
    }
  }

  lemma {:induction false} InPurged(rules: seq<RuleName>, name: RuleName, n: RuleName)
    ensures n in Purged(rules, name) <==> n in rules && n != name
  {
    if rules != [] {
      InPurged(rules[1..], name, n);
      assert rules == [rules[0]] + rules[1..];
    }
  }

  /** A rule goes exactly if its own delete works. */
  lemma {:induction false} DeleteOne(w: World<WinHost>, names: seq<RuleName>, faults: Faults<Command>, i: nat)
    requires Different(names) && i <= |names|
    ensures var w1 := DeleteNames(w, names, faults);
            && w1.tick == w.tick + |names| && w1.host.policy == w.host.policy && w1.host.state == w.host.state
            && (i < |names| ==>
                  (names[i] in w1.host.rules
                   <==> names[i] in w.host.rules && !faults(DeleteRule(names[i]), w.tick + i)))
    decreases names
  {
    hide Purged;
    if names != [] {
      var w1 := Issue(w, DeleteRule(names[0]), faults, w.host.(rules := Purged(w.host.rules, names[0])));
      if i == 0 {
        InPurged(w.host.rules, names[0], names[0]);
        DeleteOthers(w1, names[1..], faults, names[0]);
        DeleteOne(w1, names[1..], faults, |names| - 1);
      } else {
        DeleteOne(w1, names[1..], faults, i - 1);
        if i < |names| { InPurged(w.host.rules, names[0], names[i]); }
      }
    }
  }

  lemma {:induction false} DeleteOthers(w: World<WinHost>, names: seq<RuleName>, faults: Faults<Command>,
                                        name: RuleName)
    requires name !in names
    ensures name in DeleteNames(w, names, faults).host.rules <==> name in w.host.rules
    decreases names
  {
    hide Purged;
    if names != [] {
      InPurged(w.host.rules, names[0], name);
      DeleteOthers(Issue(w, DeleteRule(names[0]), faults, w.host.(rules := Purged(w.host.rules, names[0]))),
                   names[1..], faults, name);
    }
  }

  /** Outbound is blocked where it was allowed before, and the whitelist is not in force. */
  ghost predicate BareBlock(h: WinHost, o: Original) {
    && !Whitelisted(h.rules)
    && exists p :: p in o.policy && p in h.policy && Blocks(h.policy[p], o.policy[p])
  }

  predicate Blocks(now: Policy, before: Policy) { now.outbound == BlockOutbound && before.outbound == AllowOutbound }

  /** A profile that ends up blocked: by what is written back, or because that write fails. */
  predicate EndsBlocked(w: World<WinHost>, faults: Faults<Command>, o: Original, i: nat)
    requires i < |PROFILES|
  {
    var p := PROFILES[i];
    var policy := RestoredPolicy(Captured(w.host), p);
    && p in o.policy && p in w.host.policy
    && Blocks(if faults(SetPolicy(p, policy), w.tick + i) then policy else w.host.policy[p], o.policy[p])
  }

  /** A whitelist rule that ends up missing: it was, or its delete works. */
  predicate EndsMissing(w: World<WinHost>, faults: Faults<Command>, i: nat)
    requires i < |WHITELIST|
  {
    WHITELIST[i] !in w.host.rules || faults(DeleteRule(WHITELIST[i]), w.tick + |PROFILES| + i)
  }

  /**
   The teardown of an apply that failed checks nothing. Whatever is captured, it leaves a bare block
   exactly when some profile ends up blocked and some whitelist rule missing. The capture goes exactly
   if its unlink works, whatever became of the policies.
   */
  lemma TeardownBareBlock(w: World<WinHost>, faults: Faults<Command>, o: Original)
    requires Complete(w.host.policy) && Complete(o.policy)
    ensures BareBlock(Teardown(w, faults).host, o) <==>
            && (exists i :: 0 <= i < |PROFILES| && EndsBlocked(w, faults, o, i))
            && (exists i :: 0 <= i < |WHITELIST| && EndsMissing(w, faults, i))
    ensures Teardown(w, faults).host.state.None? <==>
            w.host.state.None? || faults(Unlink, w.tick + |PROFILES| + |OURS|)
  {
    hide Teardown, RestorePolicies, DeleteNames, OURS, PROFILES, EndsBlocked, EndsMissing, Blocks;
    forall p ensures p in PROFILES && p in o.policy && p in w.host.policy { AllProfiles(p); }
    TeardownState(w, faults);
    forall i | 0 <= i < |PROFILES| { TeardownPolicy(w, faults, o, i); }
    forall i | 0 <= i < |WHITELIST| { TeardownRule(w, faults, i); }
    var h := Teardown(w, faults).host;
    if BareBlock(h, o) {
      var p :| p in o.policy && p in h.policy && Blocks(h.policy[p], o.policy[p]);
      assert p in PROFILES;
      var i :| 0 <= i < |PROFILES| && PROFILES[i] == p;
      assert EndsBlocked(w, faults, o, i);
    } else if exists i :: 0 <= i < |PROFILES| && EndsBlocked(w, faults, o, i) {
      var i :| 0 <= i < |PROFILES| && EndsBlocked(w, faults, o, i);
      assert Blocks(h.policy[PROFILES[i]], o.policy[PROFILES[i]]);
    }
  }

  lemma TeardownPolicy(w: World<WinHost>, faults: Faults<Command>, o: Original, i: nat)
    requires i < |PROFILES| && PROFILES[i] in w.host.policy && PROFILES[i] in o.policy
    ensures var h := Teardown(w, faults).host;
            && PROFILES[i] in h.policy
            && (EndsBlocked(w, faults, o, i) <==> Blocks(h.policy[PROFILES[i]], o.policy[PROFILES[i]]))
  {
    hide RestorePolicies, DeleteNames;
    RestoreOne(w, Captured(w.host), PROFILES, faults, i);
    DeleteOne(RestorePolicies(w, Captured(w.host), PROFILES, faults).w, OURS, faults, 0);
  }

  lemma TeardownRule(w: World<WinHost>, faults: Faults<Command>, i: nat)
    requires i < |WHITELIST| && Domain in w.host.policy
    ensures WHITELIST[i] in Teardown(w, faults).host.rules <==> !EndsMissing(w, faults, i)
  {
    hide RestorePolicies, DeleteNames;
    RestoreOne(w, Captured(w.host), PROFILES, faults, 0);
    assert OURS[i] == WHITELIST[i];
    DeleteOne(RestorePolicies(w, Captured(w.host), PROFILES, faults).w, OURS, faults, i);
  }

  lemma TeardownState(w: World<WinHost>, faults: Faults<Command>)
    requires Domain in w.host.policy
    ensures Teardown(w, faults).host.state.None? <==>
            w.host.state.None? || faults(Unlink, w.tick + |PROFILES| + |OURS|)
  {
    hide RestorePolicies, DeleteNames;
    RestoreOne(w, Captured(w.host), PROFILES, faults, 0);
    DeleteOne(RestorePolicies(w, Captured(w.host), PROFILES, faults).w, OURS, faults, 0);
  }

  /** A teardown in which everything works goes back to the capture, whatever that holds. */
  lemma TeardownWorks(w: World<WinHost>, faults: Faults<Command>)
    requires Complete(w.host.policy) && (Captured(w.host) == map[] || Complete(Captured(w.host))) && Unwinds(faults)
    ensures var after := Teardown(w, faults).host;
            && after.state.None? && (forall i :: 0 <= i < |OURS| ==> OURS[i] !in after.rules)
            && after.policy == (if Captured(w.host) == map[] then FALLBACK else Captured(w.host))
  {
    hide RestorePolicies, DeleteNames, ForeignOf, OURS, PROFILES, Complete, FALLBACK;
    RestoreWorks(w, Captured(w.host), faults);
    AllOursPlain();
    Purges(RestorePolicies(w, Captured(w.host), PROFILES, faults).w, OURS, faults);
  }

  /**
   No failing write is needed for that: after a first apply whose policy could not be shown, a second
   one that fails at its first rule takes our own block for the original and tears down to it. On every
   host this leaves every profile blocked, no whitelist and nothing captured.
   */
  lemma RecaptureTearsDownToBlock(h0: WinHost, cfg1: Config, faults1: Faults<Command>, cfg2: Config,
                                  faults2: Faults<Command>)
    requires Complete(h0.policy) && h0.state.None? && !faults1(Show, 0)
    requires Apply(World(h0, 0, []), cfg1, faults1).ok
    requires cfg2.torFound && forall c, n :: faults2(c, n) <==> c != AddRule(TorOut)
    ensures var h1 := Apply(World(h0, 0, []), cfg1, faults1).w.host;
            var s := Apply(World(h1, 0, []), cfg2, faults2);
            && !s.ok && s.w.host.state.None?
            && (forall p :: p in s.w.host.policy && s.w.host.policy[p].outbound == BlockOutbound)
            && (forall i :: 0 <= i < |OURS| ==> OURS[i] !in s.w.host.rules)
  {
    FirstApply(h0, cfg1, faults1);
    var h1 := Apply(World(h0, 0, []), cfg1, faults1).w.host;
    assert Domain in h1.policy;
    assert Unwinds(faults2);
    var c := Capture(World(h1, 0, []), faults2);
    var a := AddNames(c.w, Allowed(cfg2), faults2);
    assert Allowed(cfg2)[0] == TorOut;
    hide Teardown, OURS, PROFILES, BlockProfiles, Unwinds;
    assert c.ok && c.w.host.state == Some(h1.policy);
    assert !a.ok && a.w.host == c.w.host;
    TeardownWorks(a.w, faults2);
    assert Apply(World(h1, 0, []), cfg2, faults2) == Step(Teardown(a.w, faults2), false);
  }

  /** At a concrete machine: blocked for good, though not one restoring write has failed. */
  lemma TeardownBlocksAt(cfg: Config)
    requires cfg.torFound
    ensures var blind, noTor := (c: Command, n: nat) => c != Show, (c: Command, n: nat) => c != AddRule(TorOut);
            var h1 := Apply(World(WinHost(FALLBACK, [], None), 0, []), cfg, blind).w.host;
            BareBlock(Apply(World(h1, 0, []), cfg, noTor).w.host, Original(FALLBACK, []))
  {
    var blind, noTor := (c: Command, n: nat) => c != Show, (c: Command, n: nat) => c != AddRule(TorOut);
    var h0 := WinHost(FALLBACK, [], None);
    hide Apply;
    FirstApply(h0, cfg, blind);
    RecaptureTearsDownToBlock(h0, cfg, blind, cfg, noTor);
    assert OURS[0] == TorOut && WHITELIST[0] == TorOut;
    assert Domain in FALLBACK && FALLBACK[Domain] == DEFAULT;
  }
}
