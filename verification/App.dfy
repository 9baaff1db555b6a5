/** Connecting, disconnecting, recovering and reconfiguring: rules and resolver in step. */
module App {
  import opened Netfilter
  import opened Wrappers
  import opened Host
  import opened Runs
  import opened Firewall
  import opened Resolver

  /** What the rest of the host answers during one connect. */
  datatype Surroundings = Surroundings(iptables: bool, torrcWritten: bool, torListening: bool)

  // --- what the operations do -------------------------------------------

  /** Undo a connect that failed: resolver first, then the rules if they had been applied. */
  function Rollback(w: World<Host>, cfg: Config, probes: Probes, applied: bool, faults: Faults<Command>): World<Host>
    requires cfg.uid.Some?
  {
    var w1 := if cfg.lockResolv then RestoreResolv(w, faults).w else w;
    if applied then RemoveRules(w1, cfg, probes, faults).w else w1
  }

  function Connect(w: World<Host>, cfg: Config, probes: Probes, env: Surroundings,
                   faults: Faults<Command>): Step<Host> {
    if cfg.uid.None? || !env.iptables then Step(w, false)
    else if (cfg.manageTorrc && !env.torrcWritten) || !env.torListening then
      Step(Rollback(w, cfg, probes, false, faults), false)
    else
      var rules := ApplyRules(w, cfg, probes, faults);
      if !rules.ok then Step(Rollback(rules.w, cfg, probes, false, faults), false)
      else if !cfg.lockResolv then rules
      else
        var pin := LockResolv(rules.w, faults);
        if pin.ok then pin else Step(Rollback(pin.w, cfg, probes, true, faults), false)
  }

  /** Resolver first and unconditionally, then the rules. */
  function Disconnect(w: World<Host>, cfg: Config, probes: Probes, faults: Faults<Command>): Step<Host> {
    var w1 := RestoreResolv(w, faults).w;
    if cfg.uid.None? then Step(w1, true) else RemoveRules(w1, cfg, probes, faults)
  }

  /** _is_routing: a status that cannot be taken counts as not routing. */
  predicate Routing(h: Host, cfg: Config, probes: Probes) {
    cfg.uid.Some? && RulesStatus(h, cfg, probes).Some? && RulesStatus(h, cfg, probes).value.killswitch
  }

  /** At startup: take a pin back that no killswitch goes with; leave it if the status cannot be taken. */
  function Recover(w: World<Host>, cfg: Config, probes: Probes, faults: Faults<Command>): World<Host> {
    if !Pinned(w.host) then w
    else if cfg.uid.Some? && RulesStatus(w.host, cfg, probes).None? then w
    else if Routing(w.host, cfg, probes) then w
    else RestoreResolv(w, faults).w
  }

  /** A requested configuration; `accepted` says its other fields and its account passed validation. */
  datatype Request = Request(config: Config, accepted: bool)

  predicate SameKey(a: Config, b: Config) {
    a.uid == b.uid && a.transPort == b.transPort && a.dnsPort == b.dnsPort
  }

  /** The configuration after an update, None when it is refused. */
  function Update(h: Host, cfg: Config, request: Request, probes: Probes): Option<Config> {
    var next := request.config;
    if !request.accepted || !PortInRange(next.transPort) || !PortInRange(next.dnsPort) then None
    else if next.uid.Some? && next.uid.value < 0 then None
    else if Routing(h, cfg, probes) && !SameKey(next, cfg) then None
    else Some(next)
  }

  class App {
    var cfg: Config
    const fw: LinuxFirewall
    const dns: ResolvConf

    constructor (cfg: Config, fw: LinuxFirewall, dns: ResolvConf)
      ensures this.cfg == cfg && this.fw == fw && this.dns == dns
    {
      this.cfg, this.fw, this.dns := cfg, fw, dns;
    }

    predicate Valid() { fw.Valid() && dns.m == fw.v4.m }

    /** connect: false stands for the error that is raised again after the rollback. */
    method RunConnect(env: Surroundings) returns (ok: bool)
      requires Valid()
      modifies dns.m
      ensures Step(dns.m.W(), ok) == Connect(old(dns.m.W()), cfg, fw.probes, env, dns.m.faults)
    {
      if cfg.uid.None? { return false; }
      if !env.iptables { return false; }
      var rulesApplied := false;
      ok := true;
      if cfg.manageTorrc && !env.torrcWritten { ok := false; }
      if ok && !env.torListening { ok := false; }
      if ok {
        ok := fw.Apply(cfg);
        if ok {
          rulesApplied := true;
          if cfg.lockResolv { ok := dns.Lock(); }
        }
      }
      if !ok {
        if cfg.lockResolv { var _ := dns.Unlock(); }
        if rulesApplied { var _ := fw.Remove(cfg); }
      }
    }

    method RunDisconnect() returns (ok: bool)
      requires Valid()
      modifies dns.m
      ensures Step(dns.m.W(), ok) == Disconnect(old(dns.m.W()), cfg, fw.probes, dns.m.faults)
    {
      var _ := dns.Unlock();
      ok := true;
      if cfg.uid.Some? { ok := fw.Remove(cfg); }
    }

    method IsRouting() returns (b: bool)
      requires Valid()
      ensures b == Routing(dns.m.host, cfg, fw.probes)
    {
      if cfg.uid.None? { return false; }
      var s := fw.GetStatus(cfg);
      b := s.Some? && s.value.killswitch;
    }

    method RecoverOrphanedDns()
      requires Valid()
      modifies dns.m
      ensures dns.m.W() == Recover(old(dns.m.W()), cfg, fw.probes, dns.m.faults)
    {
      if !Pinned(dns.m.host) { return; }
      var routing := false;
      if cfg.uid.Some? {
        var s := fw.GetStatus(cfg);
        if s.None? { return; }
        routing := s.value.killswitch;
      }
      if routing { return; }
      var _ := dns.Unlock();
    }

    /** update_config: refused while routing if it would change what the installed rules are keyed by. */
    method UpdateConfig(request: Request) returns (ok: bool)
      requires Valid()
      modifies this`cfg
      ensures var r := Update(dns.m.host, old(cfg), request, fw.probes);
              ok == r.Some? && cfg == if ok then r.value else old(cfg)
    {
      var next := request.config;
      if !request.accepted || !PortInRange(next.transPort) || !PortInRange(next.dnsPort) { return false; }
      if next.uid.Some? {
        if next.uid.value < 0 { return false; }
      }
      var routing := IsRouting();
      if routing {
        if !SameKey(next, cfg) { return false; }
      }
      cfg := next;
      ok := true;
    }
  }

  // --- pin last, unpin first --------------------------------------------

  /** The whole killswitch of this configuration is up. */
  predicate Armed(h: Host, cfg: Config, probes: Probes) {
    && ValidConfig(cfg)
    && AllPresent(h.v4, Rules(cfg))
    && (V6Required(cfg, probes) ==> probes.ip6tables && AllPresent(h.v6, V6Rules(cfg)))
  }

  /** The resolver is conserved, and pinned only behind the whole killswitch. */
  predicate Safe(h: Host, cfg: Config, probes: Probes, original: string) {
    Conserved(h, original) && (Pinned(h) ==> Armed(h, cfg, probes))
  }

  ghost predicate SafeSince(w0: World<Host>, w: World<Host>, cfg: Config, probes: Probes, original: string) {
    && w0.seen <= w.seen && Safe(w.host, cfg, probes, original)
    && forall i :: |w0.seen| <= i < |w.seen| ==> Safe(w.seen[i], cfg, probes, original)
  }

  lemma SafeTrans(w0: World<Host>, w1: World<Host>, w2: World<Host>, cfg: Config, probes: Probes, original: string)
    requires SafeSince(w0, w1, cfg, probes, original) && SafeSince(w1, w2, cfg, probes, original)
    ensures SafeSince(w0, w2, cfg, probes, original)
  {
    hide Safe;
    forall i | |w0.seen| <= i < |w2.seen| ensures Safe(w2.seen[i], cfg, probes, original) {
      if i < |w1.seen| { assert w2.seen[i] == w1.seen[i]; }
    }
  }

  lemma SafeStart(w: World<Host>, cfg: Config, probes: Probes, original: string)
    requires Safe(w.host, cfg, probes, original)
    ensures SafeSince(w, w, cfg, probes, original)
  {
    hide Safe;
  }

  lemma ArmedGrows(h0: Host, h: Host, cfg: Config, probes: Probes)
    requires Armed(h0, cfg, probes) && Grew(h0, h)
    ensures Armed(h, cfg, probes)
  {
    hide Rules, V6Rules;
    forall r | Present(h0.v4, r) ensures Present(h.v4, r) { }
    forall r | Present(h0.v6, r) ensures Present(h.v6, r) { }
  }

  lemma SafeGrows(h0: Host, h: Host, cfg: Config, probes: Probes, original: string)
    requires Safe(h0, cfg, probes, original) && Grew(h0, h)
    ensures Safe(h, cfg, probes, original)
  {
    hide Armed, IsOnlyOurPin;
    if Armed(h0, cfg, probes) { ArmedGrows(h0, h, cfg, probes); }
  }

  lemma ApplySafe(w: World<Host>, cfg: Config, probes: Probes, faults: Faults<Command>, original: string)
    requires Safe(w.host, cfg, probes, original) && cfg.uid.Some?
    ensures var s := ApplyRules(w, cfg, probes, faults);
            SafeSince(w, s.w, cfg, probes, original) && (s.ok ==> Armed(s.w.host, cfg, probes))
  {
    hide ApplyRules, Safe, Grew, Rules, V6Rules;
    ApplyArmsBoth(w, cfg, probes, faults);
    var w1 := ApplyRules(w, cfg, probes, faults).w;
    SafeGrows(w.host, w1.host, cfg, probes, original);
    forall i | |w.seen| <= i < |w1.seen| ensures Safe(w1.seen[i], cfg, probes, original) {
      SafeGrows(w.host, w1.seen[i], cfg, probes, original);
    }
  }

  /** With the killswitch up, whatever happens to the resolver is safe. */
  lemma LockSafe(w: World<Host>, cfg: Config, probes: Probes, faults: Faults<Command>, original: string)
    requires Conserved(w.host, original) && !IsOnlyOurPin(original) && Armed(w.host, cfg, probes)
    ensures SafeSince(w, LockResolv(w, faults).w, cfg, probes, original)
    ensures Armed(LockResolv(w, faults).w.host, cfg, probes)
  {
    hide LockResolv, IsOnlyOurPin, Rules, V6Rules, Conserved;
    LockConserves(w, faults, original);
  }

  lemma UnlockSafe(w: World<Host>, cfg: Config, probes: Probes, faults: Faults<Command>, original: string)
    requires Safe(w.host, cfg, probes, original) && !IsOnlyOurPin(original)
    ensures var w1 := RestoreResolv(w, faults).w;
            && SafeSince(w, w1, cfg, probes, original)
            && (Pinned(w1.host) <==> Pinned(w.host) && !faults(Restore, w.tick))
  {
    hide RestoreResolv, IsOnlyOurPin, Rules, V6Rules, Conserved, Pinned;
    RestoreConserves(w, faults, original);
    RestoreNeverPins(w, faults, original);
    if Pinned(w.host) { RestoreUnpinsExactly(w, faults, original); }
  }

  lemma RemoveSafe(w: World<Host>, cfg: Config, probes: Probes, faults: Faults<Command>, original: string)
    requires Conserved(w.host, original) && !Pinned(w.host) && cfg.uid.Some?
    ensures SafeSince(w, RemoveRules(w, cfg, probes, faults).w, cfg, probes, original)
  {
    hide RemoveRules, IsOnlyOurPin, Armed;
    RemoveIsExact(w, cfg, probes, faults);
  }

  lemma RollbackSafe(w: World<Host>, cfg: Config, probes: Probes, applied: bool, faults: Faults<Command>,
                     original: string)
    requires Safe(w.host, cfg, probes, original) && !IsOnlyOurPin(original)
    requires cfg.uid.Some? && (applied ==> cfg.lockResolv && (Pinned(w.host) ==> faults(Restore, w.tick)))
    ensures SafeSince(w, Rollback(w, cfg, probes, applied, faults), cfg, probes, original)
  {
    hide RestoreResolv, RemoveRules, IsOnlyOurPin, Armed, Pinned, Conserved;
    SafeStart(w, cfg, probes, original);
    if cfg.lockResolv {
      UnlockSafe(w, cfg, probes, faults, original);
      if applied {
        var w1 := RestoreResolv(w, faults).w;
        RemoveSafe(w1, cfg, probes, faults, original);
        SafeTrans(w, w1, RemoveRules(w1, cfg, probes, faults).w, cfg, probes, original);
      }
    }
  }

  /** A connect gets as far as changing the firewall. */
  predicate GoesAhead(cfg: Config, env: Surroundings) {
    cfg.uid.Some? && env.iptables && (cfg.manageTorrc ==> env.torrcWritten) && env.torListening
  }

  /**
   How a connect strands a pin: it finds one and the rules go through, but writing the pin anew fails
   and so does writing the backup back right after; the rollback then takes the rules away all the same.
   */
  predicate Strands(w: World<Host>, cfg: Config, probes: Probes, env: Surroundings, faults: Faults<Command>) {
    && Pinned(w.host) && cfg.lockResolv && GoesAhead(cfg, env)
    && var rules := ApplyRules(w, cfg, probes, faults);
    rules.ok && !faults(Pin, rules.w.tick) && !faults(Restore, rules.w.tick + 1)
  }

  /** A connect up to the restoring write of its rollback. */
  function UntilRestore(w: World<Host>, cfg: Config, probes: Probes, faults: Faults<Command>): World<Host>
    requires cfg.uid.Some?
  {
    RestoreResolv(LockResolv(ApplyRules(w, cfg, probes, faults).w, faults).w, faults).w
  }

  /** A pin write that fails leaves the resolver as it was; over a pin it is the first command. */
  lemma LockFails(w: World<Host>, faults: Faults<Command>, original: string)
    requires Conserved(w.host, original) && !IsOnlyOurPin(original) && !LockResolv(w, faults).ok
    ensures var pin := LockResolv(w, faults);
            && (Pinned(pin.w.host) <==> Pinned(w.host))
            && (Pinned(w.host) ==> pin.w.tick == w.tick + 1 && !faults(Pin, w.tick))
  {
    PinnedMeans(w.host, original);
    PinIsOurs();
    hide IsOnlyOurPin, Universal, PINNED;
  }

  lemma LockOverPin(w: World<Host>, faults: Faults<Command>, original: string)
    requires Conserved(w.host, original) && !IsOnlyOurPin(original) && Pinned(w.host)
    ensures LockResolv(w, faults).ok <==> faults(Pin, w.tick)
  {
    PinnedMeans(w.host, original);
    PinIsOurs();
    hide IsOnlyOurPin, Universal, PINNED;
  }

  /** Applying rules leaves the resolver alone. */
  lemma ApplyKeepsPin(w: World<Host>, cfg: Config, probes: Probes, faults: Faults<Command>)
    requires cfg.uid.Some?
    ensures Pinned(ApplyRules(w, cfg, probes, faults).w.host) <==> Pinned(w.host)
  {
    hide ApplyRules, IsOnlyOurPin, Universal;
    ApplyArmsBoth(w, cfg, probes, faults);
    GrewEnds(w, ApplyRules(w, cfg, probes, faults).w);
  }

  /** Every state a connect visits, its rollback included, is safe, whatever fails, unless it strands a pin. */
  lemma ConnectSafe(w: World<Host>, cfg: Config, probes: Probes, env: Surroundings, faults: Faults<Command>,
                    original: string)
    requires Safe(w.host, cfg, probes, original) && !IsOnlyOurPin(original)
    requires !Strands(w, cfg, probes, env, faults)
    ensures SafeSince(w, Connect(w, cfg, probes, env, faults).w, cfg, probes, original)
    ensures Connect(w, cfg, probes, env, faults).ok ==> Armed(Connect(w, cfg, probes, env, faults).w.host, cfg, probes)
  {
    hide ApplyRules, LockResolv, Rollback, IsOnlyOurPin, Armed, Pinned, Conserved, SafeSince;
    SafeStart(w, cfg, probes, original);
    if cfg.uid.Some? && env.iptables {
      if GoesAhead(cfg, env) {
        ConnectArmedSafe(w, cfg, probes, env, faults, original);
      } else {
        RollbackSafe(w, cfg, probes, false, faults, original);
      }
    }
  }

  lemma ConnectArmedSafe(w: World<Host>, cfg: Config, probes: Probes, env: Surroundings, faults: Faults<Command>,
                         original: string)
    requires Safe(w.host, cfg, probes, original) && !IsOnlyOurPin(original)
    requires GoesAhead(cfg, env) && !Strands(w, cfg, probes, env, faults)
    ensures var s := Connect(w, cfg, probes, env, faults);
            SafeSince(w, s.w, cfg, probes, original) && (s.ok ==> Armed(s.w.host, cfg, probes))
  {
    hide ApplyRules, LockResolv, Rollback, IsOnlyOurPin, Armed, Pinned, Conserved;
    var rules := ApplyRules(w, cfg, probes, faults);
    ApplySafe(w, cfg, probes, faults, original);
    ApplyKeepsPin(w, cfg, probes, faults);
    if !rules.ok {
      RollbackSafe(rules.w, cfg, probes, false, faults, original);
      SafeTrans(w, rules.w, Rollback(rules.w, cfg, probes, false, faults), cfg, probes, original);
    } else if cfg.lockResolv {
      var pin := LockResolv(rules.w, faults);
      LockSafe(rules.w, cfg, probes, faults, original);
      SafeTrans(w, rules.w, pin.w, cfg, probes, original);
      if !pin.ok {
        LockFails(rules.w, faults, original);
        RollbackSafe(pin.w, cfg, probes, true, faults, original);
        SafeTrans(w, pin.w, Rollback(pin.w, cfg, probes, true, faults), cfg, probes, original);
      }
    }
  }

  /** A connect that strands a pin ends with the pin, and with what its rollback leaves of the rules. */
  lemma StrandedByConnect(w: World<Host>, cfg: Config, probes: Probes, env: Surroundings, faults: Faults<Command>,
                          original: string)
    requires Safe(w.host, cfg, probes, original) && !IsOnlyOurPin(original)
    requires Strands(w, cfg, probes, env, faults)
    ensures var w1 := UntilRestore(w, cfg, probes, faults);
            && Pinned(w1.host) && SafeSince(w, w1, cfg, probes, original)
            && Connect(w, cfg, probes, env, faults) == Step(RemoveRules(w1, cfg, probes, faults).w, false)
            && w1.seen <= Connect(w, cfg, probes, env, faults).w.seen
  {
    hide ApplyRules, LockResolv, RestoreResolv, RemoveRules, IsOnlyOurPin, Armed, Pinned, Conserved;
    var rules := ApplyRules(w, cfg, probes, faults);
    ApplySafe(w, cfg, probes, faults, original);
    ApplyKeepsPin(w, cfg, probes, faults);
    LockOverPin(rules.w, faults, original);
    LockFails(rules.w, faults, original);
    LockSafe(rules.w, cfg, probes, faults, original);
    var pin := LockResolv(rules.w, faults);
    SafeTrans(w, rules.w, pin.w, cfg, probes, original);
    UnlockSafe(pin.w, cfg, probes, faults, original);
    var w1 := RestoreResolv(pin.w, faults).w;
    SafeTrans(w, pin.w, w1, cfg, probes, original);
    RemoveIsExact(w1, cfg, probes, faults);
  }

  /** Every state of a disconnect is safe, unless it finds a pin and cannot write the backup back. */
  lemma DisconnectSafe(w: World<Host>, cfg: Config, probes: Probes, faults: Faults<Command>, original: string)
    requires Safe(w.host, cfg, probes, original) && !IsOnlyOurPin(original)
    requires Pinned(w.host) ==> faults(Restore, w.tick)
    ensures SafeSince(w, Disconnect(w, cfg, probes, faults).w, cfg, probes, original)
    ensures !Pinned(Disconnect(w, cfg, probes, faults).w.host)
  {
    hide RestoreResolv, RemoveRules, IsOnlyOurPin, Armed, Conserved;
    UnlockSafe(w, cfg, probes, faults, original);
    if cfg.uid.Some? {
      var w1 := RestoreResolv(w, faults).w;
      RemoveSafe(w1, cfg, probes, faults, original);
      RemoveIsExact(w1, cfg, probes, faults);
      SafeTrans(w, w1, RemoveRules(w1, cfg, probes, faults).w, cfg, probes, original);
    }
  }

  lemma ArmedRoutes(h: Host, cfg: Config, probes: Probes)
    requires Armed(h, cfg, probes)
    ensures Routing(h, cfg, probes)
  {
  }
}
