/** Whole runs of the Windows killswitch, cut anywhere: the captured policy and the user's rules survive. */
module WinRuns {
  import opened Wrappers
  import opened Runs
  import opened WinFirewall

  /** What the user had before the first apply: a policy for each profile, and rules of their own. */
  datatype Original = Original(policy: Policies, foreign: seq<RuleName>)

  predicate Complete(policy: Policies) { policy.Keys == {Domain, Private, Public} }

  function ForeignOf(rules: seq<RuleName>): seq<RuleName> {
    if rules == [] then []
    else if rules[0].Foreign? then [rules[0]] + ForeignOf(rules[1..])
    else ForeignOf(rules[1..])
  }

  predicate Whitelisted(rules: seq<RuleName>) { forall i :: 0 <= i < |WHITELIST| ==> WHITELIST[i] in rules }

  /** Every profile has its original policy, or that with outbound blocked. */
  predicate NearOriginal(h: WinHost, o: Original) {
    && Complete(h.policy) && Complete(o.policy)
    && forall p :: p in o.policy ==>
                     h.policy[p] == o.policy[p] || h.policy[p] == Policy(o.policy[p].inbound, BlockOutbound)
  }

  /**
   The user's rules are untouched; a capture holds the original policy; and unless every profile is
   as it was, there is a capture to go back to and the whitelist is in force.
   */
  predicate Inv(h: WinHost, o: Original) {
    && NearOriginal(h, o)
    && ForeignOf(h.rules) == o.foreign
    && (h.state.Some? ==> h.state.value == o.policy)
    && (h.policy != o.policy ==> h.state.Some? && Whitelisted(h.rules))
  }

  ghost predicate InvSince(w0: World<WinHost>, w: World<WinHost>, o: Original) {
    && w0.seen <= w.seen && Inv(w.host, o)
    && forall i :: |w0.seen| <= i < |w.seen| ==> Inv(w.seen[i], o)
  }

  /** Writing an original policy back works whenever it is tried. */
  ghost predicate RestoresWork(o: Original, faults: Faults<Command>) {
    forall p, n :: p in o.policy ==> faults(SetPolicy(p, o.policy[p]), n)
  }

  /** A machine whose policy, rule for rule, is what remove falls back to. */
  predicate IsDefault(policy: Policies) { forall p :: p in policy ==> policy[p] == DEFAULT }

  lemma InvTrans(w0: World<WinHost>, w1: World<WinHost>, w2: World<WinHost>, o: Original)
    requires InvSince(w0, w1, o) && InvSince(w1, w2, o)
    ensures InvSince(w0, w2, o)
  {
    hide Inv;
    forall i | |w0.seen| <= i < |w2.seen| ensures Inv(w2.seen[i], o) {
      if i < |w1.seen| { assert w2.seen[i] == w1.seen[i]; }
    }
  }

  lemma InvStart(w: World<WinHost>, o: Original)
    requires Inv(w.host, o)
    ensures InvSince(w, w, o)
  {
    hide Inv;
  }

  lemma InvIssue(w: World<WinHost>, cmd: Command, faults: Faults<Command>, next: WinHost, o: Original)
    requires Inv(w.host, o) && Inv(next, o)
    ensures InvSince(w, Issue(w, cmd, faults, next), o)
  {
    hide Inv;
  }

  // --- single commands --------------------------------------------------

  lemma {:induction false} ForeignOfAppend(a: seq<RuleName>, name: RuleName)
    requires !name.Foreign?
    ensures ForeignOf(a + [name]) == ForeignOf(a)
  {
    if a == [] {
      assert [name][1..] == [] && [] + [name] == [name];
    } else {
      assert (a + [name])[1..] == a[1..] + [name];
      ForeignOfAppend(a[1..], name);
    }
  }

  lemma {:induction false} ForeignOfPurged(rules: seq<RuleName>, name: RuleName)
    requires !name.Foreign?
    ensures ForeignOf(Purged(rules, name)) == ForeignOf(rules)
    ensures forall n :: n in Purged(rules, name) <==> n in rules && n != name
  {
    if rules != [] {
      ForeignOfPurged(rules[1..], name);
      assert rules == [rules[0]] + rules[1..];
      if rules[0] != name { assert Purged(rules, name)[1..] == Purged(rules[1..], name); }
    }
  }

  lemma SetKeepsInv(h: WinHost, p: Profile, policy: Policy, o: Original)
    requires Inv(h, o) && h.state.Some?
    requires policy == o.policy[p] || (Whitelisted(h.rules) && policy == Policy(o.policy[p].inbound, BlockOutbound))
    ensures Inv(h.(policy := h.policy[p := policy]), o)
  {
    hide Whitelisted, ForeignOf;
    AllProfiles(p);
    assert h.policy[p := policy].Keys == h.policy.Keys;
  }

  // --- restoring --------------------------------------------------------

  /** Putting captured policies back, failures included, stays within the invariant. */
  lemma {:induction false} RestoreKeepsInv(w: World<WinHost>, ps: seq<Profile>, faults: Faults<Command>, o: Original)
    requires Inv(w.host, o) && w.host.state == Some(o.policy)
    ensures var s := RestorePolicies(w, o.policy, ps, faults);
            && InvSince(w, s.w, o)
            && s.w.host.state == w.host.state && s.w.host.rules == w.host.rules
            && (forall p :: p in o.policy && s.ok && p in ps ==> s.w.host.policy[p] == o.policy[p])
            && (forall p :: p in o.policy && w.host.policy[p] == o.policy[p] ==> s.w.host.policy[p] == o.policy[p])
            && (RestoresWork(o, faults) ==> s.ok)
    decreases ps
  {
    hide Inv, Whitelisted, ForeignOf;
    InvGives(w.host, o);
    if ps == [] {
      InvStart(w, o);
    } else {
      var p := ps[0];
      var w1 := SetTo(w, p, o.policy[p], faults);
      SetKeepsInv(w.host, p, o.policy[p], o);
      InvIssue(w, SetPolicy(p, o.policy[p]), faults, w.host.(policy := w.host.policy[p := o.policy[p]]), o);
      RestoreKeepsInv(w1, ps[1..], faults, o);
      InvTrans(w, w1, RestorePolicies(w1, o.policy, ps[1..], faults).w, o);
      InvGives(w1.host, o);
      InvGives(RestorePolicies(w1, o.policy, ps[1..], faults).w.host, o);
    }
  }

  lemma InvGives(h: WinHost, o: Original)
    requires Inv(h, o)
    ensures Complete(h.policy) && Complete(o.policy)
    ensures forall p :: p in o.policy && p in h.policy
  {
    forall p ensures p in o.policy && p in h.policy { AllProfiles(p); }
  }

  lemma AllProfiles(p: Profile)
    ensures p in PROFILES && p in {Domain, Private, Public}
  {
    assert PROFILES[0] == Domain && PROFILES[1] == Private && PROFILES[2] == Public;
    match p { case Domain => case Private => case Public => }
  }

  /** With every profile as it was, deleting our rules is safe at every point. */
  lemma {:induction false} DeleteKeepsInv(w: World<WinHost>, names: seq<RuleName>, faults: Faults<Command>, o: Original)
    requires Inv(w.host, o) && w.host.policy == o.policy
    requires forall i :: 0 <= i < |names| ==> !names[i].Foreign?
    ensures var w1 := DeleteNames(w, names, faults);
            && InvSince(w, w1, o) && w1.host.policy == o.policy && w1.host.state == w.host.state
            && ((forall n, t :: faults(DeleteRule(n), t)) ==>
                  forall n :: n in w1.host.rules <==> n in w.host.rules && n !in names)
    decreases names
  {
    if names == [] {
      InvStart(w, o);
    } else {
      var next := w.host.(rules := Purged(w.host.rules, names[0]));
      ForeignOfPurged(w.host.rules, names[0]);
      assert Inv(next, o);
      hide Inv, ForeignOf, Purged;
      var w1 := Issue(w, DeleteRule(names[0]), faults, next);
      InvIssue(w, DeleteRule(names[0]), faults, next, o);
      DeleteKeepsInv(w1, names[1..], faults, o);
      InvTrans(w, w1, DeleteNames(w1, names[1..], faults), o);
      assert names == [names[0]] + names[1..];
    }
  }

  /** Deleting our rules and dropping the state file, once the policy is back. */
  lemma CleanupKeepsInv(w: World<WinHost>, faults: Faults<Command>, o: Original)
    requires Inv(w.host, o) && w.host.policy == o.policy
    ensures var w2 := DropState(DeleteNames(w, OURS, faults), faults);
            InvSince(w, w2, o) && w2.host.policy == o.policy
  {
    DeleteKeepsInv(w, OURS, faults, o);
    var w1 := DeleteNames(w, OURS, faults);
    assert Inv(w1.host.(state := None), o);
    hide Inv, DeleteNames;
    InvIssue(w1, Unlink, faults, w1.host.(state := None), o);
    InvTrans(w, w1, DropState(w1, faults), o);
  }

  lemma RestoredAll(h: WinHost, o: Original)
    requires Complete(h.policy) && Complete(o.policy)
    requires forall p :: p in o.policy && p in PROFILES ==> h.policy[p] == o.policy[p]
    ensures h.policy == o.policy
  {
    forall p | p in o.policy ensures h.policy[p] == o.policy[p] { AllProfiles(p); }
  }

  lemma TeardownKeepsInv(w: World<WinHost>, faults: Faults<Command>, o: Original)
    requires Inv(w.host, o) && w.host.state == Some(o.policy) && RestoresWork(o, faults)
    ensures InvSince(w, Teardown(w, faults), o) && Teardown(w, faults).host.policy == o.policy
  {
    hide Inv, DeleteNames, RestorePolicies, RestoresWork;
    RestoreKeepsInv(w, PROFILES, faults, o);
    var w1 := RestorePolicies(w, o.policy, PROFILES, faults).w;
    InvGives(w1.host, o);
    RestoredAll(w1.host, o);
    CleanupKeepsInv(w1, faults, o);
    InvTrans(w, w1, Teardown(w, faults), o);
  }

  /** remove, whatever fails in it, as long as there is a capture to go back to. */
  lemma RemoveKeepsInv(w: World<WinHost>, faults: Faults<Command>, o: Original)
    requires Inv(w.host, o) && (w.host.state.Some? || IsDefault(o.policy))
    ensures InvSince(w, Remove(w, faults).w, o)
    ensures Remove(w, faults).ok ==> Remove(w, faults).w.host.policy == o.policy
  {
    hide DeleteNames, RestorePolicies, ForeignOf, Whitelisted;
    if w.host.state.Some? {
      RestoreKeepsInv(w, PROFILES, faults, o);
    } else {
      FallbackKeepsInv(w, PROFILES, faults, o);
    }
    var s := RestorePolicies(w, Captured(w.host), PROFILES, faults);
    InvGives(s.w.host, o);
    if s.ok {
      if w.host.state.Some? { RestoredAll(s.w.host, o); }
      CleanupKeepsInv(s.w, faults, o);
      InvTrans(w, s.w, Remove(w, faults).w, o);
    }
  }

  /** Without a capture, remove writes the default policy, which changes nothing if that was the original. */
  lemma {:induction false} FallbackKeepsInv(w: World<WinHost>, ps: seq<Profile>, faults: Faults<Command>, o: Original)
    requires Inv(w.host, o) && w.host.state.None? && IsDefault(o.policy)
    ensures var s := RestorePolicies(w, map[], ps, faults); InvSince(w, s.w, o) && s.w.host.policy == o.policy
    decreases ps
  {
    if ps == [] {
      InvStart(w, o);
    } else {
      var p := ps[0];
      InvGives(w.host, o);
      assert w.host.policy[p := DEFAULT] == w.host.policy;
      hide Inv;
      InvIssue(w, SetPolicy(p, DEFAULT), faults, w.host.(policy := w.host.policy[p := DEFAULT]), o);
      var w1 := SetTo(w, p, DEFAULT, faults);
      assert w1.host == w.host;
      FallbackKeepsInv(w1, ps[1..], faults, o);
      InvTrans(w, w1, RestorePolicies(w1, map[], ps[1..], faults).w, o);
    }
  }

  // --- applying ---------------------------------------------------------

  /** A capture is taken once; while it exists it is the original policy. */
  lemma CaptureKeepsInv(w: World<WinHost>, faults: Faults<Command>, o: Original)
    requires Inv(w.host, o) && (w.host.state.None? ==> forall n :: faults(Show, n))
    ensures InvSince(w, Capture(w, faults).w, o)
    ensures Capture(w, faults).ok ==> Capture(w, faults).w.host == w.host.(state := Some(o.policy))
    ensures Capture(w, faults).w.host.policy == w.host.policy
  {
    InvGives(w.host, o);
    InvStart(w, o);
    assert Domain in o.policy;
    if w.host.state.None? {
      assert Inv(w.host.(state := Some(o.policy)), o);
      hide Inv;
      var w1 := Issue(w, Show, faults, w.host);
      InvIssue(w, Show, faults, w.host, o);
      InvIssue(w1, Save, faults, w1.host.(state := Some(o.policy)), o);
      InvTrans(w, w1, Capture(w, faults).w, o);
    }
  }

  lemma {:induction false} AddKeepsInv(w: World<WinHost>, names: seq<RuleName>, faults: Faults<Command>, o: Original)
    requires Inv(w.host, o) && forall i :: 0 <= i < |names| ==> !names[i].Foreign?
    ensures var s := AddNames(w, names, faults);
            && InvSince(w, s.w, o) && s.w.host.policy == w.host.policy && s.w.host.state == w.host.state
            && (forall n :: n in w.host.rules ==> n in s.w.host.rules)
            && (s.ok ==> forall n :: n in names ==> n in s.w.host.rules)
    decreases names
  {
    if names == [] {
      InvStart(w, o);
    } else {
      var next := w.host.(rules := w.host.rules + [names[0]]);
      ForeignOfAppend(w.host.rules, names[0]);
      assert Inv(next, o);
      hide Inv, ForeignOf;
      var w1 := Issue(w, AddRule(names[0]), faults, next);
      InvIssue(w, AddRule(names[0]), faults, next, o);
      if Succeeds(w, AddRule(names[0]), faults) {
        AddKeepsInv(w1, names[1..], faults, o);
        InvTrans(w, w1, AddNames(w1, names[1..], faults).w, o);
        assert names == [names[0]] + names[1..];
      }
    }
  }

  lemma {:induction false} BlockKeepsInv(w: World<WinHost>, ps: seq<Profile>, faults: Faults<Command>, o: Original)
    requires Inv(w.host, o) && w.host.state == Some(o.policy) && Whitelisted(w.host.rules)
    ensures var s := BlockProfiles(w, o.policy, ps, faults);
            && InvSince(w, s.w, o) && s.w.host.state == w.host.state && s.w.host.rules == w.host.rules
            && (forall p :: p in o.policy && p in s.w.host.policy)
            && (s.ok ==> forall p :: p in ps ==> s.w.host.policy[p] == Policy(o.policy[p].inbound, BlockOutbound))
            && (forall p :: && w.host.policy.Keys == o.policy.Keys
                            && w.host.policy[p] == Policy(o.policy[p].inbound, BlockOutbound)
                            ==> s.w.host.policy[p] == Policy(o.policy[p].inbound, BlockOutbound))
    decreases ps
  {
    hide Inv, Whitelisted, ForeignOf;
    InvGives(w.host, o);
    if ps == [] {
      InvStart(w, o);
    } else {
      var p := ps[0];
      var policy := Policy(o.policy[p].inbound, BlockOutbound);
      SetKeepsInv(w.host, p, policy, o);
      InvIssue(w, SetPolicy(p, policy), faults, w.host.(policy := w.host.policy[p := policy]), o);
      var w1 := SetTo(w, p, policy, faults);
      InvGives(w1.host, o);
      if Succeeds(w, SetPolicy(p, policy), faults) {
        BlockKeepsInv(w1, ps[1..], faults, o);
        InvTrans(w, w1, BlockProfiles(w1, o.policy, ps[1..], faults).w, o);
        assert ps == [p] + ps[1..];
      }
    }
  }

  lemma AllowedNames(cfg: Config)
    ensures forall i :: 0 <= i < |Allowed(cfg)| ==> !Allowed(cfg)[i].Foreign?
    ensures forall i :: 0 <= i < |WHITELIST| ==> WHITELIST[i] in Allowed(cfg)
  {
    var rest := (if cfg.allowDhcp then [DhcpOut] else []) + (if cfg.allowLan then [LanOut] else []);
    assert Allowed(cfg) == WHITELIST + rest;
    assert WHITELIST[0] == TorOut && WHITELIST[1] == Loopback4Out && WHITELIST[2] == Loopback6Out;
  }

  /** Every state an apply visits keeps the invariant; when it succeeds everything is blocked but the whitelist. */
  lemma ApplyKeepsInv(w: World<WinHost>, cfg: Config, faults: Faults<Command>, o: Original)
    requires Inv(w.host, o) && RestoresWork(o, faults) && (w.host.state.None? ==> forall n :: faults(Show, n))
    ensures InvSince(w, Apply(w, cfg, faults).w, o)
    ensures Apply(w, cfg, faults).ok ==> AllBlocked(Apply(w, cfg, faults).w.host, o)
  {
    hide Inv, AddNames, BlockProfiles, Teardown, Capture, RestoresWork, Allowed;
    InvStart(w, o);
    CaptureKeepsInv(w, faults, o);
    var c := Capture(w, faults);
    if cfg.torFound && c.ok {
      AllowedNames(cfg);
      AddKeepsInv(c.w, Allowed(cfg), faults, o);
      var a := AddNames(c.w, Allowed(cfg), faults);
      InvTrans(w, c.w, a.w, o);
      if !a.ok {
        TeardownKeepsInv(a.w, faults, o);
        InvTrans(w, a.w, Teardown(a.w, faults), o);
      } else {
        ApplyBlocks(w, a.w, faults, o);
      }
    }
  }

  /** The killswitch is up: outbound blocked everywhere, inbound as it was, whitelist and capture in place. */
  predicate AllBlocked(h: WinHost, o: Original) {
    && h.state == Some(o.policy) && Whitelisted(h.rules) && Complete(h.policy) && Complete(o.policy)
    && forall p :: p in o.policy ==> h.policy[p] == Policy(o.policy[p].inbound, BlockOutbound)
  }

  lemma ApplyBlocks(w: World<WinHost>, w1: World<WinHost>, faults: Faults<Command>, o: Original)
    requires InvSince(w, w1, o) && w1.host.state == Some(o.policy)
    requires Whitelisted(w1.host.rules) && RestoresWork(o, faults)
    ensures var b := BlockProfiles(w1, o.policy, PROFILES, faults);
            InvSince(w, if b.ok then b.w else Teardown(b.w, faults), o) && (b.ok ==> AllBlocked(b.w.host, o))
  {
    hide Inv, BlockProfiles, Teardown, RestoresWork, Whitelisted;
    BlockKeepsInv(w1, PROFILES, faults, o);
    var b := BlockProfiles(w1, o.policy, PROFILES, faults);
    InvTrans(w, w1, b.w, o);
    InvGives(b.w.host, o);
    if b.ok {
      forall p ensures p in PROFILES { AllProfiles(p); }
    } else {
      TeardownKeepsInv(b.w, faults, o);
      InvTrans(w, b.w, Teardown(b.w, faults), o);
    }
  }

  // --- runs -------------------------------------------------------------

  /** One apply or remove, run to its end or cut short after some number of commands. */
  datatype Call = Call(apply: bool, cfg: Config, faults: Faults<Command>, cut: Option<nat>)

  function Visited(h: WinHost, c: Call): seq<WinHost> {
    var w := World(h, 0, []);
    [h] + (if c.apply then Apply(w, c.cfg, c.faults).w.seen else Remove(w, c.faults).w.seen)
  }

  function After(h: WinHost, c: Call): WinHost {
    var hs := Visited(h, c);
    if c.cut.Some? && c.cut.value < |hs| then hs[c.cut.value] else hs[|hs| - 1]
  }

  function RunCalls(h: WinHost, cs: seq<Call>): WinHost
    decreases cs
  {
    if cs == [] then h else RunCalls(After(h, cs[0]), cs[1..])
  }

  /** All states a run visits. */
  function Trail(h: WinHost, cs: seq<Call>): seq<WinHost>
    decreases cs
  {
    if cs == [] then [h]
    else
      var hs := Visited(h, cs[0]);
      (if cs[0].cut.Some? && cs[0].cut.value < |hs| then hs[..cs[0].cut.value + 1] else hs)
      + Trail(After(h, cs[0]), cs[1..])
  }

  /** An apply can read the policy it captures and can put it back; nothing is removed without a capture. */
  ghost predicate CallOk(h: WinHost, c: Call, o: Original) {
    && (c.apply ==> RestoresWork(o, c.faults))
    && (c.apply && h.state.None? ==> forall n :: c.faults(Show, n))
    && (!c.apply ==> h.state.Some? || IsDefault(o.policy))
  }

  ghost predicate RunOk(h: WinHost, cs: seq<Call>, o: Original)
    decreases cs
  {
    cs == [] || (CallOk(h, cs[0], o) && RunOk(After(h, cs[0]), cs[1..], o))
  }

  lemma CallKeepsInv(h: WinHost, c: Call, o: Original)
    requires Inv(h, o) && CallOk(h, c, o)
    ensures forall i :: 0 <= i < |Visited(h, c)| ==> Inv(Visited(h, c)[i], o)
    ensures Inv(After(h, c), o)
  {
    hide Inv, Apply, Remove, RestoresWork;
    var w := World(h, 0, []);
    if c.apply { ApplyKeepsInv(w, c.cfg, c.faults, o); } else { RemoveKeepsInv(w, c.faults, o); }
  }

  /** The invariant holds in every state of every run, crash points included. */
  lemma {:induction false} RunKeepsInv(h: WinHost, cs: seq<Call>, o: Original)
    requires Inv(h, o) && RunOk(h, cs, o)
    ensures Inv(RunCalls(h, cs), o)
    ensures forall i :: 0 <= i < |Trail(h, cs)| ==> Inv(Trail(h, cs)[i], o)
    decreases cs
  {
    hide Inv, After, Visited, CallOk;
    if cs != [] {
      CallKeepsInv(h, cs[0], o);
      RunKeepsInv(After(h, cs[0]), cs[1..], o);
    }
  }

  lemma FirstState(h: WinHost, o: Original)
    requires Complete(h.policy) && h.state.None?
    requires o == Original(h.policy, ForeignOf(h.rules))
    ensures Inv(h, o)
  {
  }

  /** Never blocked without the whitelist: a profile whose outbound policy was changed has it in force. */
  lemma NeverBareBlock(h0: WinHost, cs: seq<Call>, i: nat, p: Profile)
    requires Complete(h0.policy) && h0.state.None?
    requires RunOk(h0, cs, Original(h0.policy, ForeignOf(h0.rules))) && i < |Trail(h0, cs)|
    ensures var h := Trail(h0, cs)[i];
            p in h0.policy && p in h.policy
            && (h.policy[p].outbound != h0.policy[p].outbound ==>
                  TorOut in h.rules && Loopback4Out in h.rules && Loopback6Out in h.rules && h.state == Some(h0.policy))
  {
    hide RunOk, Trail;
    var o := Original(h0.policy, ForeignOf(h0.rules));
    FirstState(h0, o);
    RunKeepsInv(h0, cs, o);
    var h := Trail(h0, cs)[i];
    InvGives(h, o);
    assert WHITELIST[0] == TorOut && WHITELIST[1] == Loopback4Out && WHITELIST[2] == Loopback6Out;
  }

  // --- the last remove --------------------------------------------------

  /** Everything an undo issues works. */
  ghost predicate Unwinds(faults: Faults<Command>) {
    && (forall p, policy, n :: faults(SetPolicy(p, policy), n))
    && (forall name, n :: faults(DeleteRule(name), n))
    && (forall n :: faults(Unlink, n))
  }

  /** From any state of a run, a remove in which everything works. */
  lemma FullRemove(h: WinHost, faults: Faults<Command>, o: Original)
    requires Inv(h, o) && Unwinds(faults)
    ensures var after := Remove(World(h, 0, []), faults).w.host;
            && after.state.None?
            && (forall i :: 0 <= i < |OURS| ==> OURS[i] !in after.rules)
            && ForeignOf(after.rules) == o.foreign
            && (after.policy == o.policy <==> h.state.Some? || IsDefault(o.policy))
  {
    hide Whitelisted;
    var w := World(h, 0, []);
    InvGives(h, o);
    var s := RestorePolicies(w, Captured(h), PROFILES, faults);
    RestoreSets(w, Captured(h), PROFILES, faults);
    forall p ensures p in PROFILES { AllProfiles(p); }
    assert s.ok;
    Purges(s.w, OURS, faults);
    hide Inv, Purged, ForeignOf, RestorePolicies, DeleteNames;
    if h.state.Some? || IsDefault(o.policy) { RemoveKeepsInv(w, faults, o); }
    else {
      var p :| p in o.policy && o.policy[p] != DEFAULT;
      InvNone(h, o);
      assert s.w.host.policy[p] == DEFAULT;
    }
    ForeignKept(h, o);
  }

  lemma InvNone(h: WinHost, o: Original)
    requires Inv(h, o)
    ensures h.state.None? ==> h.policy == o.policy
  {
  }

  lemma ForeignKept(h: WinHost, o: Original)
    requires Inv(h, o)
    ensures ForeignOf(h.rules) == o.foreign
  {
  }

  lemma {:induction false} RestoreSets(w: World<WinHost>, captured: Policies, ps: seq<Profile>, faults: Faults<Command>)
    requires Unwinds(faults)
    ensures var s := RestorePolicies(w, captured, ps, faults);
            && s.ok && s.w.host.rules == w.host.rules && s.w.host.state == w.host.state
            && (Complete(w.host.policy) ==> Complete(s.w.host.policy))
            && (forall p :: p in ps ==> p in s.w.host.policy && s.w.host.policy[p] == RestoredPolicy(captured, p))
            && (forall p :: p in w.host.policy && w.host.policy[p] == RestoredPolicy(captured, p) ==>
                              p in s.w.host.policy && s.w.host.policy[p] == RestoredPolicy(captured, p))
    decreases ps
  {
    hide RestoredPolicy;
    if ps != [] {
      AllProfiles(ps[0]);
      RestoreSets(SetTo(w, ps[0], RestoredPolicy(captured, ps[0]), faults), captured, ps[1..], faults);
      assert ps == [ps[0]] + ps[1..];
    }
  }

  lemma {:induction false} Purges(w: World<WinHost>, names: seq<RuleName>, faults: Faults<Command>)
    requires Unwinds(faults) && forall i :: 0 <= i < |names| ==> !names[i].Foreign?
    ensures var h := DeleteNames(w, names, faults).host;
            && h.policy == w.host.policy && ForeignOf(h.rules) == ForeignOf(w.host.rules)
            && (forall n :: n in h.rules <==> n in w.host.rules && n !in names)
    decreases names
  {
    hide Purged, ForeignOf;
    if names != [] {
      ForeignOfPurged(w.host.rules, names[0]);
      var next := w.host.(rules := Purged(w.host.rules, names[0]));
      Purges(Issue(w, DeleteRule(names[0]), faults, next), names[1..], faults);
      assert names == [names[0]] + names[1..];
    }
  }

  /**
   Captured once, restored last: after any run, however cut, a remove in which everything works
   leaves no rule of ours, no state file, the user's own rules, and the original policy exactly when
   there was a capture to go back to or the original is what remove falls back to.
   */
  lemma CaptureOnceSurvivesCrashes(h0: WinHost, cs: seq<Call>, faults: Faults<Command>)
    requires Complete(h0.policy) && h0.state.None?
    requires RunOk(h0, cs, Original(h0.policy, ForeignOf(h0.rules))) && Unwinds(faults)
    ensures var h := RunCalls(h0, cs);
            var after := Remove(World(h, 0, []), faults).w.host;
            && after.state.None? && (forall i :: 0 <= i < |OURS| ==> OURS[i] !in after.rules)
            && ForeignOf(after.rules) == ForeignOf(h0.rules)
            && (after.policy == h0.policy <==> h.state.Some? || IsDefault(h0.policy))
  {
    hide RunOk, Inv, Remove, Unwinds;
    var o := Original(h0.policy, ForeignOf(h0.rules));
    FirstState(h0, o);
    RunKeepsInv(h0, cs, o);
    FullRemove(RunCalls(h0, cs), faults, o);
  }

  /** Removing before anything was captured replaces a policy that blocks outbound: a concrete case. */
  lemma RemoveWithoutCapture(faults: Faults<Command>)
    requires Unwinds(faults)
    ensures var strict := map[Domain := Policy(BlockInbound, BlockOutbound), Private := DEFAULT, Public := DEFAULT];
            Remove(World(WinHost(strict, [], None), 0, []), faults).w.host.policy != strict
  {
    var strict := map[Domain := Policy(BlockInbound, BlockOutbound), Private := DEFAULT, Public := DEFAULT];
    var o := Original(strict, []);
    FirstState(WinHost(strict, [], None), o);
    assert Domain in strict && strict[Domain] != DEFAULT;
    FullRemove(WinHost(strict, [], None), faults, o);
  }

  lemma AllOursPlain()
    ensures forall i :: 0 <= i < |OURS| ==> !OURS[i].Foreign?
  {
  }
}
