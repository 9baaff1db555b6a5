/** The Windows killswitch: whitelist, then block; capture the policy once, restore it last. */
module WinFirewall {
  import opened Wrappers
  import opened Runs

  datatype Inbound = BlockInbound | BlockInboundAlways | AllowInbound | AllowInboundAlways
  datatype Outbound = BlockOutbound | AllowOutbound
  datatype Policy = Policy(inbound: Inbound, outbound: Outbound)

  datatype Profile = Domain | Private | Public
  const PROFILES: seq<Profile> := [Domain, Private, Public]

  type Policies = map<Profile, Policy>

  datatype RuleName = TorOut | Loopback4Out | Loopback6Out | DhcpOut | LanOut | Foreign(name: string)
  const OURS: seq<RuleName> := [TorOut, Loopback4Out, Loopback6Out, DhcpOut, LanOut]
  const WHITELIST: seq<RuleName> := [TorOut, Loopback4Out, Loopback6Out]

  /** Each profile's policy, the outbound rules by name, and the captured policy in the state file. */
  datatype WinHost = WinHost(policy: Policies, rules: seq<RuleName>, state: Option<Policies>) {
    predicate Valid() { forall p :: p in PROFILES ==> p in policy }
  }

  datatype Command =
    | Show
    | Save
    | AddRule(name: RuleName)
    | SetPolicy(profile: Profile, policy: Policy)
    | DeleteRule(name: RuleName)
    | Unlink

  datatype Config = Config(torFound: bool, allowDhcp: bool, allowLan: bool)

  // --- what the firewall does -------------------------------------------

  const DEFAULT: Policy := Policy(BlockInbound, AllowOutbound)

  /** The inbound half of a captured policy, blocking if there is none. */
  function InboundToken(captured: Policies, p: Profile): Inbound {
    if p in captured then captured[p].inbound else BlockInbound
  }

  /** What a restore sets a profile to. */
  function RestoredPolicy(captured: Policies, p: Profile): Policy {
    if p in captured then captured[p] else DEFAULT
  }

  function SetTo(w: World<WinHost>, p: Profile, policy: Policy, faults: Faults<Command>): World<WinHost> {
    Issue(w, SetPolicy(p, policy), faults, w.host.(policy := w.host.policy[p := policy]))
  }

  /** All rules of that name go, if any. */
  function Purged(rules: seq<RuleName>, name: RuleName): seq<RuleName> {
    if rules == [] then []
    else if rules[0] == name then Purged(rules[1..], name)
    else [rules[0]] + Purged(rules[1..], name)
  }

  function DeleteNames(w: World<WinHost>, names: seq<RuleName>, faults: Faults<Command>): World<WinHost>
    decreases names
  {
    if names == [] then w
    else
      var w1 := Issue(w, DeleteRule(names[0]), faults, w.host.(rules := Purged(w.host.rules, names[0])));
      DeleteNames(w1, names[1..], faults)
  }

  /** Set every profile to its captured policy, going on after a failure; ok if none failed. */
  function RestorePolicies(w: World<WinHost>, captured: Policies, ps: seq<Profile>,
                           faults: Faults<Command>): Step<WinHost>
    decreases ps
  {
    if ps == [] then Step(w, true)
    else
      var policy := RestoredPolicy(captured, ps[0]);
      var rest := RestorePolicies(SetTo(w, ps[0], policy, faults), captured, ps[1..], faults);
      Step(rest.w, rest.ok && Succeeds(w, SetPolicy(ps[0], policy), faults))
  }

  function Captured(h: WinHost): Policies { if h.state.Some? then h.state.value else map[] }

  function DropState(w: World<WinHost>, faults: Faults<Command>): World<WinHost> {
    Issue(w, Unlink, faults, w.host.(state := None))
  }

  /** _teardown: nothing is checked on the way. */
  function Teardown(w: World<WinHost>, faults: Faults<Command>): World<WinHost> {
    var w1 := RestorePolicies(w, Captured(w.host), PROFILES, faults).w;
    DropState(DeleteNames(w1, OURS, faults), faults)
  }

  /** remove: rules and state file go only once every profile is restored. */
  function Remove(w: World<WinHost>, faults: Faults<Command>): Step<WinHost> {
    var s := RestorePolicies(w, Captured(w.host), PROFILES, faults);
    if !s.ok then s
    else Step(DropState(DeleteNames(s.w, OURS, faults), faults), true)
  }

  /** Keep an earlier capture; otherwise capture now. A failed show counts as an empty capture. */
  function Capture(w: World<WinHost>, faults: Faults<Command>): Step<WinHost> {
    if w.host.state.Some? && w.host.state.value != map[] then Step(w, true)
    else
      var w1 := Issue(w, Show, faults, w.host);
      var shown := if Succeeds(w, Show, faults) then w.host.policy else map[];
      Step(Issue(w1, Save, faults, w.host.(state := Some(shown))), Succeeds(w1, Save, faults))
  }

  function Allowed(cfg: Config): seq<RuleName> {
    WHITELIST + (if cfg.allowDhcp then [DhcpOut] else []) + (if cfg.allowLan then [LanOut] else [])
  }

  function AddNames(w: World<WinHost>, names: seq<RuleName>, faults: Faults<Command>): Step<WinHost>
    decreases names
  {
    if names == [] then Step(w, true)
    else
      var w1 := Issue(w, AddRule(names[0]), faults, w.host.(rules := w.host.rules + [names[0]]));
      if Succeeds(w, AddRule(names[0]), faults) then AddNames(w1, names[1..], faults) else Step(w1, false)
  }

  function BlockProfiles(w: World<WinHost>, prior: Policies, ps: seq<Profile>, faults: Faults<Command>): Step<WinHost>
    decreases ps
  {
    if ps == [] then Step(w, true)
    else
      var policy := Policy(InboundToken(prior, ps[0]), BlockOutbound);
      var w1 := SetTo(w, ps[0], policy, faults);
      if Succeeds(w, SetPolicy(ps[0], policy), faults) then BlockProfiles(w1, prior, ps[1..], faults)
      else Step(w1, false)
  }

  function Apply(w: World<WinHost>, cfg: Config, faults: Faults<Command>): Step<WinHost> {
    if !cfg.torFound then Step(w, false)
    else
      var c := Capture(w, faults);
      if !c.ok then c
      else
        var a := AddNames(c.w, Allowed(cfg), faults);
        if !a.ok then Step(Teardown(a.w, faults), false)
        else
          var b := BlockProfiles(a.w, Captured(c.w.host), PROFILES, faults);
          if !b.ok then Step(Teardown(b.w, faults), false) else b
  }

  // --- the same as the program runs it ----------------------------------

  class WindowsFirewall {
    var host: WinHost
    var tick: nat
    ghost var seen: seq<WinHost>
    const faults: Faults<Command>

    constructor (host: WinHost, faults: Faults<Command>)
      ensures this.host == host && this.faults == faults && W() == World(host, 0, [])
    {
      this.host, this.faults, tick, seen := host, faults, 0, [];
    }

    ghost function W(): World<WinHost>
      reads this
    {
      World(host, tick, seen)
    }

    method RunOk(cmd: Command, next: WinHost) returns (ok: bool)
      modifies this
      ensures ok == Succeeds(old(W()), cmd, faults)
      ensures W() == Issue(old(W()), cmd, faults, next)
    {
      ok := faults(cmd, tick);
      tick := tick + 1;
      if ok { host := next; }
      seen := seen + [host];
    }

    method RestoreAll(captured: Policies) returns (complete: bool)
      modifies this
      ensures Step(W(), complete) == RestorePolicies(old(W()), captured, PROFILES, faults)
    {
      complete := true;
      for i := 0 to |PROFILES|
        invariant RestorePolicies(old(W()), captured, PROFILES, faults)
               == var s := RestorePolicies(W(), captured, PROFILES[i..], faults); Step(s.w, s.ok && complete)
      {
        var p := PROFILES[i];
        assert PROFILES[i..][1..] == PROFILES[i + 1..];
        var policy := RestoredPolicy(captured, p);
        var ok := RunOk(SetPolicy(p, policy), host.(policy := host.policy[p := policy]));
        if !ok { complete := false; }
      }
    }

    method DeleteOurs()
      modifies this
      ensures W() == DeleteNames(old(W()), OURS, faults)
    {
      for i := 0 to |OURS|
        invariant DeleteNames(old(W()), OURS, faults) == DeleteNames(W(), OURS[i..], faults)
      {
        assert OURS[i..][1..] == OURS[i + 1..];
        var _ := RunOk(DeleteRule(OURS[i]), host.(rules := Purged(host.rules, OURS[i])));
      }
    }

    method TearDown()
      modifies this
      ensures W() == Teardown(old(W()), faults)
    {
      var _ := RestoreAll(Captured(host));
      DeleteOurs();
      var _ := RunOk(Unlink, host.(state := None));
    }

    /** false stands for the FirewallError that asks for a retry. */
    method RunRemove() returns (ok: bool)
      modifies this
      ensures Step(W(), ok) == Remove(old(W()), faults)
    {
      ok := RestoreAll(Captured(host));
      if ok {
        DeleteOurs();
        var _ := RunOk(Unlink, host.(state := None));
      }
    }

    /** The captured policy, taken over from an earlier session if its state file survives. */
    method CaptureOnce() returns (ok: bool)
      modifies this
      ensures Step(W(), ok) == Capture(old(W()), faults)
      ensures ok ==> host.state.Some?
    {
      if host.state.Some? && host.state.value != map[] { return true; }
      var shown := RunOk(Show, host);
      ok := RunOk(Save, host.(state := Some(if shown then host.policy else map[])));
    }

    method AddAll(names: seq<RuleName>) returns (ok: bool)
      modifies this
      ensures Step(W(), ok) == AddNames(old(W()), names, faults)
    {
      for i := 0 to |names|
        invariant AddNames(old(W()), names, faults) == AddNames(W(), names[i..], faults)
      {
        assert names[i..][1..] == names[i + 1..];
        var added := RunOk(AddRule(names[i]), host.(rules := host.rules + [names[i]]));
        if !added { return false; }
      }
      ok := true;
    }

    method BlockAll(prior: Policies) returns (ok: bool)
      modifies this
      ensures Step(W(), ok) == BlockProfiles(old(W()), prior, PROFILES, faults)
    {
      for i := 0 to |PROFILES|
        invariant BlockProfiles(old(W()), prior, PROFILES, faults) == BlockProfiles(W(), prior, PROFILES[i..], faults)
      {
        assert PROFILES[i..][1..] == PROFILES[i + 1..];
        var policy := Policy(InboundToken(prior, PROFILES[i]), BlockOutbound);
        var done := RunOk(SetPolicy(PROFILES[i], policy), host.(policy := host.policy[PROFILES[i] := policy]));
        if !done { return false; }
      }
      ok := true;
    }

    /** apply: false stands for an error; a whitelist or block command that fails is undone first. */
    method RunApply(cfg: Config) returns (ok: bool)
      modifies this
      ensures Step(W(), ok) == Apply(old(W()), cfg, faults)
    {
      if !cfg.torFound { return false; }
      ok := CaptureOnce();
      if !ok { return; }
      var prior := host.state.value;
      ok := AddAll(Allowed(cfg));
      if ok { ok := BlockAll(prior); }
      if !ok { TearDown(); }
    }
  }
}
