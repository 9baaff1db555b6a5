/** What an apply and a remove that succeed come to, and when they do. */
module WinOutcomes {
  import opened Wrappers
  import opened Runs
  import opened WinFirewall
  import opened WinRuns
  import opened WinExact

  lemma {:induction false} AddedAll(w: World<WinHost>, names: seq<RuleName>, faults: Faults<Command>)
    ensures var s := AddNames(w, names, faults);
            s.ok ==> s.w.host == w.host.(rules := w.host.rules + names)
    decreases names
  {
    if names == [] {
      assert w.host.rules + names == w.host.rules;
    } else {
      AddedAll(Issue(w, AddRule(names[0]), faults, w.host.(rules := w.host.rules + [names[0]])), names[1..], faults);
      assert w.host.rules + [names[0]] + names[1..] == w.host.rules + names;
    }
  }

  lemma {:induction false} BlockedAll(w: World<WinHost>, prior: Policies, ps: seq<Profile>, faults: Faults<Command>,
                                      p: Profile)
    requires p in w.host.policy
    ensures var b := BlockProfiles(w, prior, ps, faults);
            && b.w.host.rules == w.host.rules && b.w.host.state == w.host.state && p in b.w.host.policy
            && (b.ok ==> b.w.host.policy[p] == if p in ps then Policy(InboundToken(prior, p), BlockOutbound)
                                               else w.host.policy[p])
    decreases ps
  {
    hide InboundToken;
    if ps != [] {
      assert ps == [ps[0]] + ps[1..];
      BlockedAll(SetTo(w, ps[0], Policy(InboundToken(prior, ps[0]), BlockOutbound), faults), prior, ps[1..], faults, p);
    }
  }

  /** The capture an apply works with: the one it finds, or what it is shown, or none. */
  function CaptureUsed(h: WinHost, faults: Faults<Command>): Policies {
    if Captured(h) != map[] then Captured(h) else if faults(Show, 0) then h.policy else map[]
  }

  /** Which rule an apply under this configuration adds. */
  predicate Wanted(cfg: Config, name: RuleName) {
    match name
    case TorOut => true
    case Loopback4Out => true
    case Loopback6Out => true
    case DhcpOut => cfg.allowDhcp
    case LanOut => cfg.allowLan
    case Foreign(_) => false
  }

  lemma AllowedExactly(cfg: Config, name: RuleName)
    ensures name in Allowed(cfg) <==> Wanted(cfg, name)
  {
    assert Allowed(cfg)[0] == TorOut && Allowed(cfg)[1] == Loopback4Out && Allowed(cfg)[2] == Loopback6Out;
    if cfg.allowDhcp { assert Allowed(cfg)[3] == DhcpOut; }
    if cfg.allowLan { assert Allowed(cfg)[|Allowed(cfg)| - 1] == LanOut; }
  }

  /**
   An apply that succeeds: outbound is blocked on every profile, inbound as captured or blocking; the
   capture it used is saved; and a rule is in force exactly if it was before or the configuration asks
   for it: the whitelist always, DHCP and LAN as allowed.
   */
  lemma AppliedExactly(h: WinHost, cfg: Config, faults: Faults<Command>, p: Profile, name: RuleName)
    requires Complete(h.policy) && Apply(World(h, 0, []), cfg, faults).ok
    ensures var after := Apply(World(h, 0, []), cfg, faults).w.host;
            var captured := CaptureUsed(h, faults);
            && cfg.torFound && after.state == Some(captured)
            && p in after.policy && after.policy[p].outbound == BlockOutbound
            && after.policy[p].inbound == (if p in captured then captured[p].inbound else BlockInbound)
            && (name in after.rules <==> name in h.rules || Wanted(cfg, name))
  {
    var c := Capture(World(h, 0, []), faults);
    var a := AddNames(c.w, Allowed(cfg), faults);
    AllProfiles(p);
    assert c.ok && Captured(c.w.host) == CaptureUsed(h, faults);
    assert c.w.host.rules == h.rules && c.w.host.policy == h.policy;
    AllowedExactly(cfg, name);
    hide Capture, CaptureUsed, AddNames, BlockProfiles, Allowed, PROFILES, Teardown, Wanted;
    AddedAll(c.w, Allowed(cfg), faults);
    BlockedAll(a.w, Captured(c.w.host), PROFILES, faults, p);
  }

  /** Without tor.exe an apply fails and does nothing; with it, and with every command but Show working, it succeeds. */
  lemma ApplySucceeds(w: World<WinHost>, cfg: Config, faults: Faults<Command>)
    ensures !cfg.torFound ==> Apply(w, cfg, faults) == Step(w, false)
    ensures Complete(w.host.policy) && cfg.torFound && (forall c, n :: c != Show ==> faults(c, n)) ==>
              Apply(w, cfg, faults).ok
  {
    if Complete(w.host.policy) && cfg.torFound && forall c, n :: c != Show ==> faults(c, n) {
      var c := Capture(w, faults);
      var a := AddNames(c.w, Allowed(cfg), faults);
      AddKeepsState(c.w, Allowed(cfg), faults);
      BlockSets(a.w, Captured(c.w.host), PROFILES, faults);
      hide AddNames, BlockProfiles, PROFILES, Allowed, Teardown;
    }
  }

  /** A remove succeeds exactly if all three policies are written back; otherwise rules and capture stay. */
  lemma RemoveOkExactly(w: World<WinHost>, faults: Faults<Command>)
    ensures var captured := Captured(w.host);
            Remove(w, faults).ok <==>
            forall i :: 0 <= i < 3 ==>
                          faults(SetPolicy(PROFILES[i], RestoredPolicy(captured, PROFILES[i])), w.tick + i)
    ensures !Remove(w, faults).ok ==>
              Remove(w, faults).w.host.rules == w.host.rules && Remove(w, faults).w.host.state == w.host.state
  {
    hide RestoredPolicy, DeleteNames;
    var captured := Captured(w.host);
    RestoreOk(w, captured, PROFILES, faults);
  }

  lemma {:induction false} RestoreOk(w: World<WinHost>, captured: Policies, ps: seq<Profile>, faults: Faults<Command>)
    ensures var s := RestorePolicies(w, captured, ps, faults);
            && (s.ok <==>
                forall i :: 0 <= i < |ps| ==> faults(SetPolicy(ps[i], RestoredPolicy(captured, ps[i])), w.tick + i))
            && s.w.host.rules == w.host.rules && s.w.host.state == w.host.state
    decreases ps
  {
    hide RestoredPolicy;
    if ps != [] {
      var w1 := SetTo(w, ps[0], RestoredPolicy(captured, ps[0]), faults);
      RestoreOk(w1, captured, ps[1..], faults);
      var s := RestorePolicies(w, captured, ps, faults);
      if s.ok {
        forall i | 0 <= i < |ps| ensures faults(SetPolicy(ps[i], RestoredPolicy(captured, ps[i])), w.tick + i) {
          if i > 0 { assert ps[i] == ps[1..][i - 1] && w1.tick + (i - 1) == w.tick + i; }
        }
      }
      if forall i :: 0 <= i < |ps| ==> faults(SetPolicy(ps[i], RestoredPolicy(captured, ps[i])), w.tick + i) {
        forall i | 0 <= i < |ps[1..]|
          ensures faults(SetPolicy(ps[1..][i], RestoredPolicy(captured, ps[1..][i])), w1.tick + i)
        {
          assert faults(SetPolicy(ps[i + 1], RestoredPolicy(captured, ps[i + 1])), w.tick + (i + 1));
        }
        assert faults(SetPolicy(ps[0], RestoredPolicy(captured, ps[0])), w.tick + 0);
      }
    }
  }

  /**
   A remove in which everything works: every profile has its captured policy back, or blocks inbound and
   allows outbound if none was captured; every rule but those of others is gone, and so is the capture.
   */
  lemma RemovedExactly(h: WinHost, faults: Faults<Command>, p: Profile, name: RuleName)
    requires Unwinds(faults)
    ensures var s := Remove(World(h, 0, []), faults);
            && s.ok && s.w.host.state.None? && p in s.w.host.policy
            && s.w.host.policy[p] == (if p in Captured(h) then Captured(h)[p] else Policy(BlockInbound, AllowOutbound))
            && (name in s.w.host.rules <==> name in h.rules && name.Foreign?)
  {
    var w := World(h, 0, []);
    var s := RestorePolicies(w, Captured(h), PROFILES, faults);
    RestoreSets(w, Captured(h), PROFILES, faults);
    AllProfiles(p);
    OursExactly(name);
    hide OURS, PROFILES, RestorePolicies;
    Purges(s.w, OURS, faults);
    hide DeleteNames;
  }

  lemma OursExactly(name: RuleName)
    ensures name in OURS <==> !name.Foreign?
  {
    assert OURS[0] == TorOut && OURS[1] == Loopback4Out && OURS[2] == Loopback6Out;
    assert OURS[3] == DhcpOut && OURS[4] == LanOut;
  }
}
