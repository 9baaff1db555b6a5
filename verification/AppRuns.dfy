/** Whole runs of the daemon: what holds in every state, crashes included, and what disconnecting leaves. */
module AppRuns {
  import opened Netfilter
  import opened Wrappers
  import opened Host
  import opened Runs
  import opened Engine
  import opened Firewall
  import opened Resolver
  import opened App
  import T = Transaction

  datatype Op =
    | ConnectOp(env: Surroundings)
    | DisconnectOp
    | UpdateOp(request: Request)

  /** The daemon starting, after a reboot or not; its recovery runs first. */
  datatype Start = Start(reboot: bool, faults: Faults<Command>)

  /** A start whose recovery dies after some number of states. */
  datatype DeadStart = DeadStart(start: Start, at: nat)

  /**
   An operation that ran to its end, or the daemon dying at some point of it and starting again: any
   number of starts that die in turn, and one that gets through its recovery.
   */
  datatype Event =
    | Done(op: Op, faults: Faults<Command>)
    | Died(op: Op, faults: Faults<Command>, at: nat, dead: seq<DeadStart>, last: Start)

  /** The daemon's configuration and the host. */
  datatype State = State(cfg: Config, host: Host)

  /** The states an operation visits, the one it starts from first. */
  function Visited(s: State, op: Op, probes: Probes, faults: Faults<Command>): (hs: seq<Host>)
    ensures hs != []
  {
    var w := World(s.host, 0, []);
    [s.host] + (match op
                case ConnectOp(env) => Connect(w, s.cfg, probes, env, faults).w.seen
                case DisconnectOp => Disconnect(w, s.cfg, probes, faults).w.seen
                case UpdateOp(_) => [])
  }

  function Finish(s: State, op: Op, probes: Probes, faults: Faults<Command>): State {
    var w := World(s.host, 0, []);
    match op
    case ConnectOp(env) => State(s.cfg, Connect(w, s.cfg, probes, env, faults).w.host)
    case DisconnectOp => State(s.cfg, Disconnect(w, s.cfg, probes, faults).w.host)
    case UpdateOp(request) =>
      var next := Update(s.host, s.cfg, request, probes);
      if next.Some? then State(next.value, s.host) else s
  }

  /** A reboot takes every firewall rule with it and leaves the files. */
  function Rebooted(h: Host): Host { h.(v4 := Tables([], []), v6 := Tables([], [])) }

  function Booted(h: Host, start: Start): Host { if start.reboot then Rebooted(h) else h }

  function StateAt(hs: seq<Host>, at: nat): Host
    requires hs != []
  {
    if at < |hs| then hs[at] else hs[|hs| - 1]
  }

  /** The states a start visits until its recovery is through. */
  function Recovering(h: Host, cfg: Config, probes: Probes, start: Start): (hs: seq<Host>)
    ensures hs != []
  {
    var w := World(Booted(h, start), 0, []);
    [w.host] + Recover(w, cfg, probes, start.faults).seen
  }

  function Started(h: Host, cfg: Config, probes: Probes, start: Start): Host {
    Recover(World(Booted(h, start), 0, []), cfg, probes, start.faults).host
  }

  /** Where starts that die one after another leave the host. */
  function AfterDead(h: Host, cfg: Config, probes: Probes, dead: seq<DeadStart>): Host
    decreases dead
  {
    if dead == [] then h
    else AfterDead(StateAt(Recovering(h, cfg, probes, dead[0].start), dead[0].at), cfg, probes, dead[1..])
  }

  /** The states an event visits until its operation ends or dies. */
  function Reached(s: State, e: Event, probes: Probes): (hs: seq<Host>)
    ensures hs != []
  {
    var hs := Visited(s, e.op, probes, e.faults);
    if e.Died? && e.at < |hs| then hs[..e.at + 1] else hs
  }

  /** The host a death leaves behind once all starts that die in turn are over. */
  function LeftBehind(s: State, e: Event, probes: Probes): Host
    requires e.Died?
  {
    var hs := Reached(s, e, probes);
    AfterDead(hs[|hs| - 1], s.cfg, probes, e.dead)
  }

  function Next(s: State, e: Event, probes: Probes): State {
    match e
    case Done(op, faults) => Finish(s, op, probes, faults)
    case Died(_, _, _, _, last) => State(s.cfg, Started(LeftBehind(s, e, probes), s.cfg, probes, last))
  }

  function Run(s: State, es: seq<Event>, probes: Probes): State
    decreases es
  {
    if es == [] then s else Run(Next(s, es[0], probes), es[1..], probes)
  }

  /** Every state a run visits, except those between a death and the end of the recovery after it. */
  function Trail(s: State, es: seq<Event>, probes: Probes): seq<State>
    decreases es
  {
    if es == [] then [s]
    else
      var here := Reached(s, es[0], probes);
      seq(|here|, i requires 0 <= i < |here| => State(s.cfg, here[i])) + Trail(Next(s, es[0], probes), es[1..], probes)
  }

  /** Over a pin, an update that is accepted may require IPv6 only if the IPv6 rules stand. */
  predicate UpdateFits(s: State, request: Request, probes: Probes) {
    Pinned(s.host) && Update(s.host, s.cfg, request, probes).Some? && V6Required(request.config, probes) ==>
      && probes.ip6tables && request.config.uid.Some?
      && AllPresent(s.host.v6, V6Rules(request.config))
  }

  /**
   The operation does not strand a pin: it finds none, or manages to take it back or write it anew, or
   dies before it has touched the rules.
   */
  predicate Unpins(s: State, e: Event, probes: Probes) {
    var w := World(s.host, 0, []);
    match e.op
    case ConnectOp(env) =>
      Strands(w, s.cfg, probes, env, e.faults) ==>
        e.Died? && e.at <= |UntilRestore(w, s.cfg, probes, e.faults).seen|
    case DisconnectOp =>
      Pinned(s.host) && !e.faults(Restore, 0) ==> e.Died? && e.at <= |RestoreResolv(w, e.faults).w.seen|
    case UpdateOp(_) => true
  }

  /** A recovery that gets through and finds a pin without its killswitch manages to take the pin back. */
  predicate StartUnpins(h: Host, cfg: Config, probes: Probes, start: Start) {
    Pinned(h) && !Armed(Booted(h, start), cfg, probes) ==> start.faults(Restore, 0)
  }

  predicate EventOk(s: State, e: Event, probes: Probes) {
    && Unpins(s, e, probes)
    && (e.Done? && e.op.UpdateOp? ==> UpdateFits(s, e.op.request, probes))
    && (e.Died? ==> StartUnpins(LeftBehind(s, e, probes), s.cfg, probes, e.last))
  }

  predicate RunOk(s: State, es: seq<Event>, probes: Probes)
    decreases es
  {
    es == [] || (EventOk(s, es[0], probes) && RunOk(Next(s, es[0], probes), es[1..], probes))
  }

  predicate SafeState(s: State, probes: Probes, original: string) { Safe(s.host, s.cfg, probes, original) }

  // --- pin last, unpin first --------------------------------------------

  /** An update of a safe state is safe exactly if it fits. */
  lemma UpdateSafeExactly(s: State, request: Request, probes: Probes, faults: Faults<Command>, original: string)
    requires SafeState(s, probes, original)
    ensures SafeState(Finish(s, UpdateOp(request), probes, faults), probes, original) <==>
            UpdateFits(s, request, probes)
  {
    hide Conserved, Pinned, Routing;
    if Armed(s.host, s.cfg, probes) { ArmedRoutes(s.host, s.cfg, probes); }
  }

  /** Every state an operation reaches is safe. */
  lemma ReachedSafe(s: State, e: Event, probes: Probes, original: string)
    requires SafeState(s, probes, original) && !IsOnlyOurPin(original) && Unpins(s, e, probes)
    ensures forall h :: h in Reached(s, e, probes) ==> Safe(h, s.cfg, probes, original)
    ensures e.Done? && !e.op.UpdateOp? ==> SafeState(Finish(s, e.op, probes, e.faults), probes, original)
  {
    hide Safe, IsOnlyOurPin, Connect, Disconnect, Strands, ApplyRules, LockResolv, RestoreResolv, RemoveRules, Pinned;
    var w := World(s.host, 0, []);
    match e.op {
      case ConnectOp(env) =>
        if Strands(w, s.cfg, probes, env, e.faults) {
          StrandedByConnect(w, s.cfg, probes, env, e.faults, original);
        } else {
          ConnectSafe(w, s.cfg, probes, env, e.faults, original);
        }
      case DisconnectOp =>
        if Pinned(s.host) && !e.faults(Restore, 0) {
          UnlockSafe(w, s.cfg, probes, e.faults, original);
          DisconnectStarts(w, s.cfg, probes, e.faults);
        } else {
          DisconnectSafe(w, s.cfg, probes, e.faults, original);
        }
      case UpdateOp(_) =>
    }
  }

  lemma DisconnectStarts(w: World<Host>, cfg: Config, probes: Probes, faults: Faults<Command>)
    ensures RestoreResolv(w, faults).w.seen <= Disconnect(w, cfg, probes, faults).w.seen
  {
    hide RestoreResolv, RemoveRules;
    if cfg.uid.Some? { RemoveIsExact(RestoreResolv(w, faults).w, cfg, probes, faults); }
  }

  // --- recovery ---------------------------------------------------------

  /** What a death, a reboot and a recovery that dies leave true: a pin without rules can be told and taken back. */
  predicate Recoverable(h: Host, cfg: Config, probes: Probes, original: string) {
    && Conserved(h, original)
    && (Pinned(h) ==> Armed(h, cfg, probes) || (ValidConfig(cfg) && h.v4 == Tables([], [])))
  }

  lemma BootedRecoverable(h: Host, cfg: Config, probes: Probes, start: Start, original: string)
    requires Recoverable(h, cfg, probes, original)
    ensures Recoverable(Booted(h, start), cfg, probes, original)
  {
    hide IsOnlyOurPin, Rules, V6Rules;
  }

  /** Every state of a recovery, whatever fails in it, is one the next recovery can start from. */
  lemma RecoveringKeeps(h: Host, cfg: Config, probes: Probes, start: Start, original: string)
    requires Recoverable(h, cfg, probes, original) && !IsOnlyOurPin(original)
    ensures forall g :: g in Recovering(h, cfg, probes, start) ==> Recoverable(g, cfg, probes, original)
  {
    BootedRecoverable(h, cfg, probes, start, original);
    var w := World(Booted(h, start), 0, []);
    RestoreConserves(w, start.faults, original);
    RestoreNeverPins(w, start.faults, original);
    hide RestoreResolv, Routing, RulesStatus, Rules, V6Rules, Conserved, Pinned, IsOnlyOurPin;
    forall i | 0 <= i < |RestoreResolv(w, start.faults).w.seen|
      ensures Recoverable(RestoreResolv(w, start.faults).w.seen[i], cfg, probes, original)
    {
    }
  }

  lemma {:induction false} AfterDeadRecoverable(h: Host, cfg: Config, probes: Probes, dead: seq<DeadStart>,
                                                original: string)
    requires Recoverable(h, cfg, probes, original) && !IsOnlyOurPin(original)
    ensures Recoverable(AfterDead(h, cfg, probes, dead), cfg, probes, original)
    decreases dead
  {
    hide Recoverable, Recovering, IsOnlyOurPin;
    if dead != [] {
      RecoveringKeeps(h, cfg, probes, dead[0].start, original);
      var next := StateAt(Recovering(h, cfg, probes, dead[0].start), dead[0].at);
      AfterDeadRecoverable(next, cfg, probes, dead[1..], original);
    }
  }

  /** A recovery that gets through makes the host safe exactly if it takes back a pin that has lost its rules. */
  lemma RecoverSafeExactly(h: Host, cfg: Config, probes: Probes, start: Start, original: string)
    requires Recoverable(h, cfg, probes, original) && !IsOnlyOurPin(original)
    ensures Safe(Started(h, cfg, probes, start), cfg, probes, original) <==> StartUnpins(h, cfg, probes, start)
  {
    hide RestoreResolv, IsOnlyOurPin;
    BootedRecoverable(h, cfg, probes, start, original);
    var w := World(Booted(h, start), 0, []);
    assert Conserved(w.host, original);
    RestoreConserves(w, start.faults, original);
    assert Pinned(w.host) <==> Pinned(h);
    if Pinned(h) { RestoreUnpinsExactly(w, start.faults, original); }
    ResolverKeepsRules(w, start.faults);
    if w.host.v4 == Tables([], []) && cfg.uid.Some? { NoKillswitch(w.host, cfg, probes); }
    if Armed(w.host, cfg, probes) { ArmedRoutes(w.host, cfg, probes); }
    hide Conserved, Pinned, Routing, RulesStatus, Rules, V6Rules;
  }

  lemma NoKillswitch(h: Host, cfg: Config, probes: Probes)
    requires h.v4 == Tables([], []) && cfg.uid.Some?
    ensures !Routing(h, cfg, probes)
    ensures RulesStatus(h, cfg, probes).None? <==> !ValidConfig(cfg)
  {
  }

  /** However many starts die in their recovery, the first that gets through it leaves a safe host. */
  lemma DeathSafe(s: State, e: Event, probes: Probes, original: string)
    requires e.Died? && !IsOnlyOurPin(original) && StartUnpins(LeftBehind(s, e, probes), s.cfg, probes, e.last)
    requires forall h :: h in Reached(s, e, probes) ==> Safe(h, s.cfg, probes, original)
    ensures SafeState(Next(s, e, probes), probes, original)
  {
    var hs := Reached(s, e, probes);
    assert Recoverable(hs[|hs| - 1], s.cfg, probes, original) by {
      assert hs[|hs| - 1] in hs;
    }
    hide Safe, Recoverable, IsOnlyOurPin, Reached, AfterDead, Started, StartUnpins;
    AfterDeadRecoverable(hs[|hs| - 1], s.cfg, probes, e.dead, original);
    RecoverSafeExactly(LeftBehind(s, e, probes), s.cfg, probes, e.last, original);
  }

  // --- the run ----------------------------------------------------------

  lemma EventSafe(s: State, e: Event, probes: Probes, original: string)
    requires SafeState(s, probes, original) && !IsOnlyOurPin(original) && EventOk(s, e, probes)
    ensures SafeState(Next(s, e, probes), probes, original)
  {
    hide Safe, IsOnlyOurPin, Finish, Reached, UpdateFits, Unpins, StartUnpins, Started, LeftBehind;
    ReachedSafe(s, e, probes, original);
    if e.Died? {
      DeathSafe(s, e, probes, original);
    } else if e.op.UpdateOp? {
      UpdateSafeExactly(s, e.op.request, probes, e.faults, original);
    }
  }

  /**
   In every state of every run, crash points included, resolv.conf is pinned by us only while the
   whole killswitch of the current configuration is up, and the real resolver is never lost. A reboot
   breaks the first half only until a recovery after it is through.
   */
  lemma {:induction false} RunIsSafe(s: State, es: seq<Event>, probes: Probes, original: string)
    requires SafeState(s, probes, original) && !IsOnlyOurPin(original) && RunOk(s, es, probes)
    ensures forall i :: 0 <= i < |Trail(s, es, probes)| ==> SafeState(Trail(s, es, probes)[i], probes, original)
    ensures SafeState(Run(s, es, probes), probes, original)
    decreases es
  {
    hide Safe, IsOnlyOurPin, Unpins, UpdateFits, StartUnpins, LeftBehind, Next, Reached;
    if es != [] {
      ReachedSafe(s, es[0], probes, original);
      EventSafe(s, es[0], probes, original);
      RunIsSafe(Next(s, es[0], probes), es[1..], probes, original);
    }
  }

  // --- all or nothing ---------------------------------------------------

  /** The host's own firewall, without any rule a Torando configuration could install. */
  ghost predicate Clean(base: Host) {
    && (forall u, t, d :: NonePresent(base.v4, BuildRules(u, t, d)))
    && (forall u :: NonePresent(base.v6, BuildV6Rules(u)))
  }

  predicate Off(h: Host, base: Host) { h.v4 == base.v4 && h.v6 == base.v6 }

  /** The user's IPv6 rules stand behind the host's own. */
  predicate V6Stands(h: Host, cfg: Config, probes: Probes, base: Host) {
    cfg.uid.Some? && probes.ip6tables && h.v6 == T.Extend(base.v6, V6Rules(cfg))
  }

  /**
   The host's own rules, followed by exactly those of the configuration. The IPv6 ones may stand though
   they are no longer required.
   */
  predicate On(h: Host, cfg: Config, probes: Probes, base: Host) {
    && ValidConfig(cfg)
    && h.v4 == T.Extend(base.v4, Rules(cfg))
    && (V6Stands(h, cfg, probes, base) || (h.v6 == base.v6 && !V6Required(cfg, probes)))
  }

  predicate Exact(h: Host, cfg: Config, probes: Probes, base: Host) { Off(h, base) || On(h, cfg, probes, base) }

  /** No IPv6 rule of ours stands that is not required. */
  predicate Tight(h: Host, cfg: Config, probes: Probes, base: Host) { V6Required(cfg, probes) || h.v6 == base.v6 }

  lemma {:induction false} MissingAll(t: Tables, before: seq<Rule>, rs: seq<Rule>)
    requires NonePresent(t, rs) && Distinct(rs) && forall r :: r in rs ==> r !in before
    ensures T.Missing(t, before, rs) == rs
    decreases |rs|
  {
    hide Present;
    if rs != [] {
      forall i | 0 <= i < |rs[1..]| ensures rs[1..][i] != rs[0] && !Present(t, rs[1..][i]) {
        assert rs[1..][i] == rs[i + 1];
      }
      assert forall i, j :: 0 <= i < j < |rs[1..]| ==> rs[1..][i] == rs[i + 1] && rs[1..][j] == rs[j + 1];
      MissingAll(t, before + [rs[0]], rs[1..]);
    }
  }

  lemma {:induction false} MissingNone(t: Tables, before: seq<Rule>, rs: seq<Rule>)
    requires AllPresent(t, rs)
    ensures T.Missing(t, before, rs) == []
    decreases |rs|
  {
    hide Present;
    if rs != [] {
      assert forall i :: 0 <= i < |rs[1..]| ==> rs[1..][i] == rs[i + 1];
      MissingNone(t, before + [rs[0]], rs[1..]);
    }
  }

  lemma ExtendHolds(t: Tables, rs: seq<Rule>)
    ensures AllPresent(T.Extend(t, rs), rs)
  {
    forall i | 0 <= i < |rs| ensures Present(T.Extend(t, rs), rs[i]) { T.PresentExtend(t, rs, rs[i]); }
  }

  /** Asking for rules that are all there, or none of which is there, gives the one full set. */
  lemma OnceOrTwice(t: Tables, rs: seq<Rule>)
    requires NonePresent(t, rs) && Distinct(rs)
    ensures T.Extend(t, T.Missing(t, [], rs)) == T.Extend(t, rs)
    ensures T.Extend(T.Extend(t, rs), T.Missing(T.Extend(t, rs), [], rs)) == T.Extend(t, rs)
    ensures T.KeepOthers(T.Extend(t, rs), rs) == t
    ensures T.KeepOthers(t, rs) == t
  {
    MissingAll(t, [], rs);
    ExtendHolds(t, rs);
    MissingNone(T.Extend(t, rs), [], rs);
    T.ExtendNothing(T.Extend(t, rs));
    T.KeepUndoesExtend(t, rs);
    KeepAbsent(t, rs);
  }

  lemma KeepAbsent(t: Tables, rs: seq<Rule>)
    requires NonePresent(t, rs)
    ensures T.KeepOthers(t, rs) == t
  {
    forall table, r ensures r in T.OfTable(rs, table) ==> r !in Chain(t, table) {
      T.OfTableMember(rs, table, r);
      if r in rs && r.table == table { assert !Present(t, r); }
    }
    T.KeepUnlisted(t.nats, T.OfTable(rs, Nat));
    T.KeepUnlisted(t.filters, T.OfTable(rs, Filter));
  }

  lemma BaseFacts(cfg: Config, base: Host)
    requires Clean(base) && cfg.uid.Some?
    ensures NonePresent(base.v4, Rules(cfg)) && Distinct(Rules(cfg))
    ensures NonePresent(base.v6, V6Rules(cfg)) && Distinct(V6Rules(cfg))
  {
    hide NonePresent, Distinct;
    RulesDistinct(cfg.uid.value, cfg.transPort, cfg.dnsPort);
  }

  lemma ApplyExact(w: World<Host>, cfg: Config, probes: Probes, faults: Faults<Command>, base: Host)
    requires Clean(base) && cfg.uid.Some? && AllDeletesWork(faults) && Exact(w.host, cfg, probes, base)
    ensures var s := ApplyRules(w, cfg, probes, faults);
            && (!s.ok ==> s.w.host == w.host)
            && (s.ok ==> On(s.w.host, cfg, probes, base))
            && (Tight(w.host, cfg, probes, base) ==> Tight(s.w.host, cfg, probes, base))
  {
    hide ApplyRules, T.Extend, T.Missing, T.KeepOthers, Rules, V6Rules, NonePresent, Distinct, AllDeletesWork, Clean;
    ApplyIsAtomic(w, cfg, probes, faults);
    BaseFacts(cfg, base);
    OnceOrTwice(base.v4, Rules(cfg));
    OnceOrTwice(base.v6, V6Rules(cfg));
  }

  lemma RemoveExactly(w: World<Host>, cfg: Config, probes: Probes, faults: Faults<Command>, base: Host)
    requires Clean(base) && cfg.uid.Some? && AllDeletesWork(faults) && Exact(w.host, cfg, probes, base)
    ensures Off(RemoveRules(w, cfg, probes, faults).w.host, base)
  {
    hide RemoveRules, T.Extend, T.Missing, T.KeepOthers, Rules, V6Rules, NonePresent, Distinct, AllDeletesWork, Clean;
    RemoveIsExact(w, cfg, probes, faults);
    BaseFacts(cfg, base);
    OnceOrTwice(base.v4, Rules(cfg));
    OnceOrTwice(base.v6, V6Rules(cfg));
  }

  /** The resolver steps leave the firewall alone. */
  lemma ResolverKeepsRules(w: World<Host>, faults: Faults<Command>)
    ensures SameRules(w.host, LockResolv(w, faults).w.host) && SameRules(w.host, RestoreResolv(w, faults).w.host)
  {
    hide IsOnlyOurPin;
  }

  lemma RollbackExact(w: World<Host>, cfg: Config, probes: Probes, applied: bool, faults: Faults<Command>, base: Host)
    requires Clean(base) && cfg.uid.Some? && AllDeletesWork(faults) && Exact(w.host, cfg, probes, base)
    ensures applied ==> Off(Rollback(w, cfg, probes, applied, faults).host, base)
    ensures !applied ==> SameRules(w.host, Rollback(w, cfg, probes, applied, faults).host)
  {
    hide RestoreResolv, RemoveRules, T.Extend, Rules, V6Rules, AllDeletesWork, Clean;
    ResolverKeepsRules(w, faults);
    var w1 := if cfg.lockResolv then RestoreResolv(w, faults).w else w;
    RemoveExactly(w1, cfg, probes, faults, base);
  }

  /** A connect ends with the full ruleset, or fails with either what was there before or nothing. */
  lemma ConnectExact(w: World<Host>, cfg: Config, probes: Probes, env: Surroundings, faults: Faults<Command>,
                     base: Host)
    requires Clean(base) && AllDeletesWork(faults) && Exact(w.host, cfg, probes, base)
    ensures var s := Connect(w, cfg, probes, env, faults);
            && (s.ok ==> On(s.w.host, cfg, probes, base))
            && (!s.ok ==> SameRules(w.host, s.w.host) || Off(s.w.host, base))
            && Exact(s.w.host, cfg, probes, base)
            && (Tight(w.host, cfg, probes, base) ==> Tight(s.w.host, cfg, probes, base))
  {
    hide ApplyRules, LockResolv, Rollback, T.Extend, Rules, V6Rules, AllDeletesWork, Clean;
    if cfg.uid.Some? {
      RollbackExact(w, cfg, probes, false, faults, base);
      ApplyExact(w, cfg, probes, faults, base);
      var rules := ApplyRules(w, cfg, probes, faults);
      RollbackExact(rules.w, cfg, probes, false, faults, base);
      ResolverKeepsRules(rules.w, faults);
      RollbackExact(LockResolv(rules.w, faults).w, cfg, probes, true, faults, base);
    }
  }

  /** A disconnect leaves the host's own rules and none of ours. */
  lemma DisconnectExact(w: World<Host>, cfg: Config, probes: Probes, faults: Faults<Command>, base: Host)
    requires Clean(base) && AllDeletesWork(faults) && Exact(w.host, cfg, probes, base)
    ensures Off(Disconnect(w, cfg, probes, faults).w.host, base)
  {
    hide RestoreResolv, RemoveRules, T.Extend, Rules, V6Rules, AllDeletesWork, Clean;
    ResolverKeepsRules(w, faults);
    if cfg.uid.Some? { RemoveExactly(RestoreResolv(w, faults).w, cfg, probes, faults, base); }
  }

  lemma OnRoutes(h: Host, cfg: Config, probes: Probes, base: Host)
    requires On(h, cfg, probes, base)
    ensures Routing(h, cfg, probes)
  {
    hide T.Extend;
    ExtendHolds(base.v4, Rules(cfg));
    ExtendHolds(base.v6, V6Rules(cfg));
    assert Armed(h, cfg, probes);
    ArmedRoutes(h, cfg, probes);
  }

  lemma ExtendIsMore(t: Tables, uid: int)
    ensures T.Extend(t, BuildV6Rules(uid)) != t
  {
    var rs := BuildV6Rules(uid);
    T.OfTableMember(rs, Filter, rs[0]);
    assert |T.OfTable(rs, Filter)| > 0;
    assert |T.Extend(t, rs).filters| > |t.filters|;
  }

  /**
   While the rules are installed, an update that gets through keeps rules and configuration in agreement
   exactly when it requires IPv6 only if the IPv6 rules stand; and to the letter, with no IPv6 rule left
   over, exactly when it does not change whether IPv6 is required.
   */
  lemma UpdateAgreesExactly(h: Host, cfg: Config, request: Request, probes: Probes, base: Host)
    requires On(h, cfg, probes, base) && Update(h, cfg, request, probes).Some?
    ensures Exact(h, request.config, probes, base) <==>
            (V6Required(request.config, probes) ==> V6Stands(h, cfg, probes, base))
    ensures Tight(h, cfg, probes, base) ==>
              (Exact(h, request.config, probes, base) && Tight(h, request.config, probes, base) <==>
               V6Required(request.config, probes) == V6Required(cfg, probes))
  {
    hide T.Extend;
    OnRoutes(h, cfg, probes, base);
    ExtendIsMore(base.v6, cfg.uid.value);
    NotOff(base.v4, cfg);
  }

  /** After an update of a connected host the status still reports routing exactly if the rules still agree. */
  lemma RoutingAfterUpdate(h: Host, cfg: Config, request: Request, probes: Probes, base: Host)
    requires Clean(base) && On(h, cfg, probes, base) && Update(h, cfg, request, probes).Some?
    ensures Routing(h, request.config, probes) <==>
            (V6Required(request.config, probes) ==> V6Stands(h, cfg, probes, base))
  {
    hide T.Extend;
    OnRoutes(h, cfg, probes, base);
    BaseFacts(cfg, base);
    ExtendHolds(base.v4, Rules(cfg));
    ExtendHolds(base.v6, V6Rules(cfg));
    assert Rules(request.config) == Rules(cfg) && V6Rules(request.config) == V6Rules(cfg);
    assert !Present(base.v6, V6Rules(cfg)[1]);
  }

  /** What an update has to meet apart from the state of the host. */
  predicate Acceptable(request: Request) {
    && request.accepted && PortInRange(request.config.transPort) && PortInRange(request.config.dnsPort)
    && (request.config.uid.Some? ==> request.config.uid.value >= 0)
  }

  /**
   From a connected host, a disconnect in which deletes work cleans up under any configuration that has
   the key of the rules, IPv6 switched on or off since, and under no other.
   */
  lemma DisconnectCleansExactly(h: Host, cfg: Config, later: Config, probes: Probes, base: Host,
                                faults: Faults<Command>)
    requires Clean(base) && On(h, cfg, probes, base) && AllDeletesWork(faults)
    ensures Off(Disconnect(World(h, 0, []), later, probes, faults).w.host, base) <==> SameKey(later, cfg)
  {
    hide T.Extend, Clean, AllDeletesWork, Disconnect, Rules, V6Rules;
    var w := World(h, 0, []);
    if SameKey(later, cfg) {
      SameKeySameDisconnect(w, cfg, later, probes, faults);
      DisconnectExact(w, cfg, probes, faults, base);
    } else {
      OtherKeyLeavesRules(h, cfg, later, probes, base, faults);
    }
  }

  lemma SameKeySameDisconnect(w: World<Host>, cfg: Config, later: Config, probes: Probes, faults: Faults<Command>)
    requires SameKey(later, cfg)
    ensures Disconnect(w, later, probes, faults) == Disconnect(w, cfg, probes, faults)
  {
    hide RestoreResolv, RemoveList;
  }

  /** A disconnect under another key leaves some rule of the connection, whatever works; for another user, all. */
  lemma OtherKeyLeavesRules(h: Host, cfg: Config, later: Config, probes: Probes, base: Host, faults: Faults<Command>)
    requires Clean(base) && On(h, cfg, probes, base) && !SameKey(later, cfg)
    ensures var after := Disconnect(World(h, 0, []), later, probes, faults).w.host;
            && !Off(after, base)
            && (later.uid != cfg.uid ==> AllPresent(after.v4, Rules(cfg)))
  {
    var after := Disconnect(World(h, 0, []), later, probes, faults).w.host;
    ExtendHolds(base.v4, Rules(cfg));
    BaseFacts(cfg, base);
    DisconnectKeeps(h, later, probes, faults);
    hide T.Extend, Rules, V6Rules, Clean, Disconnect;
    var i := UnlistedRule(cfg, later);
    assert Present(after.v4, Rules(cfg)[i]) && !Present(base.v4, Rules(cfg)[i]);
    if later.uid != cfg.uid && later.uid.Some? { OtherUserRules(cfg, later); }
  }

  /** A disconnect takes out no IPv4 rule but those of its configuration. */
  lemma DisconnectKeeps(h: Host, cfg: Config, probes: Probes, faults: Faults<Command>)
    ensures forall r :: Present(h.v4, r) && (cfg.uid.Some? ==> r !in Rules(cfg)) ==>
                          Present(Disconnect(World(h, 0, []), cfg, probes, faults).w.host.v4, r)
  {
    hide RestoreResolv, RemoveList, Rules, V6Rules, T.KeepOthers, Present;
    var w := RestoreResolv(World(h, 0, []), faults).w;
    ResolverKeepsRules(World(h, 0, []), faults);
    if cfg.uid.Some? {
      var w1 := if probes.ip6tables && cfg.uid.value >= 0 then RemoveList(w, V6, V6Rules(cfg), faults) else w;
      T.RemoveIsRobust(w, V6, V6Rules(cfg), V6Rules(cfg), faults);
      T.RemoveIsRobust(w1, V4, Rules(cfg), Rules(cfg), faults);
      forall r | Present(h.v4, r) && r !in Rules(cfg)
        ensures Present(RemoveList(w1, V4, Rules(cfg), faults).host.v4, r)
      {
        KeptAlike(w1.host.v4, RemoveList(w1, V4, Rules(cfg), faults).host.v4, Rules(cfg), r);
      }
    }
  }

  /** Configurations with different keys do not have all their rules in common. */
  lemma UnlistedRule(a: Config, b: Config) returns (i: nat)
    requires a.uid.Some? && !SameKey(b, a)
    ensures i < |Rules(a)| && (b.uid.Some? ==> Rules(a)[i] !in Rules(b))
  {
    i := if b.uid != a.uid then 6 else if b.transPort != a.transPort then 1 else 2;
    if b.uid.Some? {
      if b.uid != a.uid { OtherUserRules(a, b); }
      forall j | 0 <= j < |Rules(b)| ensures Rules(b)[j] != Rules(a)[i] {
        if b.uid == a.uid {
          assert Rules(a)[i].target == Redirect(if i == 1 then a.transPort else a.dnsPort);
          assert |Rules(a)[i].matches| == i + 1 && (j == 1 || j == 2 ==> |Rules(b)[j].matches| == j + 1);
        }
      }
    }
  }

  /**
   The harm an update of a connected host can do. A further update may change the key of the rules
   exactly if the first one requires IPv6 without its rules standing; the status then reports no
   killswitch. The next disconnect works on other rules and leaves some of the connection's in place,
   all of them if the user has changed.
   */
  lemma ToggleStrandsRules(h: Host, cfg: Config, toggle: Request, change: Request, probes: Probes, base: Host,
                           faults: Faults<Command>)
    requires Clean(base) && On(h, cfg, probes, base) && Update(h, cfg, toggle, probes).Some?
    requires Acceptable(change) && !SameKey(change.config, cfg)
    ensures Update(h, toggle.config, change, probes).Some? <==>
            V6Required(toggle.config, probes) && !V6Stands(h, cfg, probes, base)
    ensures var after := Disconnect(World(h, 0, []), change.config, probes, faults).w.host;
            && !Off(after, base)
            && (change.config.uid != cfg.uid ==> AllPresent(after.v4, Rules(cfg)))
  {
    OnRoutes(h, cfg, probes, base);
    RoutingAfterUpdate(h, cfg, toggle, probes, base);
    hide On, Clean, Off, Routing, Disconnect, V6Stands;
    OtherKeyLeavesRules(h, cfg, change.config, probes, base, faults);
  }

  lemma OtherUserRules(a: Config, b: Config)
    requires a.uid.Some? && b.uid.Some? && a.uid != b.uid
    ensures forall i :: 0 <= i < |Rules(a)| ==> Rules(a)[i] !in Rules(b)
  {
    forall i | 0 <= i < |Rules(a)| ensures Rules(a)[i] !in Rules(b) {
      assert Rules(a)[i].matches[0] == Owner(a.uid.value);
      forall j | 0 <= j < |Rules(b)| ensures Rules(b)[j] != Rules(a)[i] {
        assert Rules(b)[j].matches[0] == Owner(b.uid.value);
      }
    }
  }

  /** A rule that is not listed is present in both or neither of two tables that agree but for the list. */
  lemma KeptAlike(t: Tables, u: Tables, rs: seq<Rule>, r: Rule)
    requires T.KeepOthers(t, rs) == T.KeepOthers(u, rs) && r !in rs
    ensures Present(t, r) <==> Present(u, r)
  {
    KeptPresent(t, rs, r);
    KeptPresent(u, rs, r);
  }

  lemma KeptPresent(t: Tables, rs: seq<Rule>, r: Rule)
    ensures Present(T.KeepOthers(t, rs), r) <==> Present(t, r) && r !in rs
  {
    T.OfTableMember(rs, r.table, r);
    InKeep(Chain(t, r.table), T.OfTable(rs, r.table), r);
  }

  lemma {:induction false} InKeep(c: seq<Rule>, rs: seq<Rule>, r: Rule)
    ensures r in T.Keep(c, rs) <==> r in c && r !in rs
  {
    if c != [] {
      InKeep(c[1..], rs, r);
      assert c == [c[0]] + c[1..];
    }
  }

  /** The disagreement at an actual host. */
  lemma ToggleAt()
    ensures var cfg := Config(Some(1000), 9040, 5353, false, false, true);
            var toggled := cfg.(ipv6Killswitch := true);
            var base := Host(Tables([], []), Tables([], []), None, None);
            var h := base.(v4 := T.Extend(base.v4, Rules(cfg)));
            && On(h, cfg, Probes(true, true), base)
            && Update(h, cfg, Request(toggled, true), Probes(true, true)) == Some(toggled)
            && !Exact(h, toggled, Probes(true, true), base)
            && Exact(h.(v6 := T.Extend(base.v6, V6Rules(cfg))), cfg, Probes(true, true), base)
  {
    var cfg := Config(Some(1000), 9040, 5353, false, false, true);
    var toggled := cfg.(ipv6Killswitch := true);
    var base := Host(Tables([], []), Tables([], []), None, None);
    var h := base.(v4 := T.Extend(base.v4, Rules(cfg)));
    hide T.Extend;
    assert SameKey(toggled, cfg);
    hide Rules, V6Rules, Routing;
    UpdateAgreesExactly(h, cfg, Request(toggled, true), Probes(true, true), base);
  }

  lemma NotOff(t: Tables, cfg: Config)
    requires cfg.uid.Some?
    ensures T.Extend(t, Rules(cfg)) != t
  {
    var rs := Rules(cfg);
    T.OfTableMember(rs, Filter, rs[6]);
    assert |T.OfTable(rs, Filter)| > 0;
    assert |T.Extend(t, rs).filters| > |t.filters|;
  }

  lemma UpdateExact(s: State, request: Request, probes: Probes, base: Host)
    requires Clean(base) && Exact(s.host, s.cfg, probes, base) && KeepsRequirement(s, UpdateOp(request), probes)
    ensures var next := Update(s.host, s.cfg, request, probes);
            next.Some? ==>
              && Exact(s.host, next.value, probes, base)
              && (KeepsTight(s, UpdateOp(request), probes) && Tight(s.host, s.cfg, probes, base) ==>
                    Tight(s.host, next.value, probes, base))
  {
    hide T.Extend;
    if On(s.host, s.cfg, probes, base) {
      OnRoutes(s.host, s.cfg, probes, base);
      BaseFacts(s.cfg, base);
      assert !Present(base.v6, V6Rules(s.cfg)[1]);
    }
  }

  /** A step of a crash-free run. */
  datatype FaultyOp = FaultyOp(op: Op, faults: Faults<Command>)

  /** An update of a host that reports a killswitch requires IPv6 only if the IPv6 rules are present. */
  predicate KeepsRequirement(s: State, op: Op, probes: Probes) {
    op.UpdateOp? && Routing(s.host, s.cfg, probes) && Update(s.host, s.cfg, op.request, probes).Some?
    && V6Required(op.request.config, probes) ==>
      probes.ip6tables && AllPresent(s.host.v6, V6Rules(op.request.config))
  }

  /** Such an update does not switch the IPv6 requirement off. */
  predicate KeepsTight(s: State, op: Op, probes: Probes) {
    op.UpdateOp? && Routing(s.host, s.cfg, probes) && V6Required(s.cfg, probes) ==>
      V6Required(op.request.config, probes)
  }

  ghost predicate CrashFree(s: State, steps: seq<FaultyOp>, probes: Probes)
    decreases steps
  {
    steps == [] || (&& KeepsRequirement(s, steps[0].op, probes) && AllDeletesWork(steps[0].faults)
                    && CrashFree(Finish(s, steps[0].op, probes, steps[0].faults), steps[1..], probes))
  }

  predicate NeverSwitchedOff(s: State, steps: seq<FaultyOp>, probes: Probes)
    decreases steps
  {
    steps == [] || (&& KeepsTight(s, steps[0].op, probes)
                    && NeverSwitchedOff(Finish(s, steps[0].op, probes, steps[0].faults), steps[1..], probes))
  }

  function RunSteps(s: State, steps: seq<FaultyOp>, probes: Probes): State
    decreases steps
  {
    if steps == [] then s else RunSteps(Finish(s, steps[0].op, probes, steps[0].faults), steps[1..], probes)
  }

  lemma StepExact(s: State, step: FaultyOp, probes: Probes, base: Host)
    requires Clean(base) && Exact(s.host, s.cfg, probes, base)
    requires KeepsRequirement(s, step.op, probes) && AllDeletesWork(step.faults)
    ensures var n := Finish(s, step.op, probes, step.faults);
            && Exact(n.host, n.cfg, probes, base)
            && (KeepsTight(s, step.op, probes) && Tight(s.host, s.cfg, probes, base) ==>
                  Tight(n.host, n.cfg, probes, base))
  {
    hide Clean, On, AllDeletesWork, Connect, Disconnect, Update, Routing, KeepsRequirement, KeepsTight;
    var w := World(s.host, 0, []);
    match step.op {
      case ConnectOp(env) => ConnectExact(w, s.cfg, probes, env, step.faults, base);
      case DisconnectOp => DisconnectExact(w, s.cfg, probes, step.faults, base);
      case UpdateOp(request) => UpdateExact(s, request, probes, base);
    }
  }

  /**
   After any crash-free run from a clean firewall, appends and resolver writes failing as they like and
   IPv6 switched off and back on while its rules stand, the tables hold the host's own rules and either
   none of ours or the current configuration's, all of them; exactly those, if IPv6 was never switched
   off while connected. The next disconnect removes them all.
   */
  lemma {:induction false} RunIsAllOrNothing(s: State, steps: seq<FaultyOp>, probes: Probes, base: Host,
                                             last: Faults<Command>)
    requires Clean(base) && Exact(s.host, s.cfg, probes, base)
    requires CrashFree(s, steps, probes) && AllDeletesWork(last)
    ensures var e := RunSteps(s, steps, probes);
            && Exact(e.host, e.cfg, probes, base)
            && (Tight(s.host, s.cfg, probes, base) && NeverSwitchedOff(s, steps, probes) ==>
                  Tight(e.host, e.cfg, probes, base))
            && Off(Disconnect(World(e.host, 0, []), e.cfg, probes, last).w.host, base)
    decreases steps
  {
    hide Clean, Exact, Tight, Off, AllDeletesWork, Disconnect, KeepsRequirement, KeepsTight, Finish;
    if steps == [] {
      DisconnectExact(World(s.host, 0, []), s.cfg, probes, last, base);
    } else {
      StepExact(s, steps[0], probes, base);
      RunIsAllOrNothing(Finish(s, steps[0].op, probes, steps[0].faults), steps[1..], probes, base, last);
    }
  }

  // --- what a connect comes to ------------------------------------------

  /** A connection that stands is left alone by the recovery of the next start. */
  lemma RestartKeepsConnection(w: World<Host>, cfg: Config, probes: Probes, env: Surroundings,
                               faults: Faults<Command>, later: Faults<Command>, original: string)
    requires Safe(w.host, cfg, probes, original) && !IsOnlyOurPin(original)
    requires Connect(w, cfg, probes, env, faults).ok
    ensures var h := Connect(w, cfg, probes, env, faults).w.host;
            && Recover(World(h, 0, []), cfg, probes, later).host == h
            && Routing(h, cfg, probes)
            && (cfg.lockResolv ==> Pinned(h))
  {
    hide ApplyRules, LockResolv, Rollback, RestoreResolv, IsOnlyOurPin, Armed, Routing, Safe, Pinned, Strands;
    NoStrandingSuccess(w, cfg, probes, env, faults, original);
    ConnectSafe(w, cfg, probes, env, faults, original);
    ArmedRoutes(Connect(w, cfg, probes, env, faults).w.host, cfg, probes);
    var rules := ApplyRules(w, cfg, probes, faults);
    ApplySafe(w, cfg, probes, faults, original);
    ConservedOfSafe(rules.w.host, cfg, probes, original);
    LockConserves(rules.w, faults, original);
  }

  lemma NoStrandingSuccess(w: World<Host>, cfg: Config, probes: Probes, env: Surroundings, faults: Faults<Command>,
                           original: string)
    requires Safe(w.host, cfg, probes, original) && !IsOnlyOurPin(original)
    requires Connect(w, cfg, probes, env, faults).ok
    ensures !Strands(w, cfg, probes, env, faults)
  {
    hide Safe, Strands, Connect, IsOnlyOurPin;
    if Strands(w, cfg, probes, env, faults) { StrandedByConnect(w, cfg, probes, env, faults, original); }
  }

  lemma ConservedOfSafe(h: Host, cfg: Config, probes: Probes, original: string)
    requires Safe(h, cfg, probes, original)
    ensures Conserved(h, original)
  {
  }

  /** A connect that fails from a disconnected, unpinned host leaves it disconnected and unpinned. */
  lemma FailedConnectLeavesNothing(w: World<Host>, cfg: Config, probes: Probes, env: Surroundings,
                                   faults: Faults<Command>, base: Host, original: string)
    requires Clean(base) && Off(w.host, base) && !Pinned(w.host)
    requires Conserved(w.host, original) && !IsOnlyOurPin(original)
    requires AllDeletesWork(faults)
    requires !Connect(w, cfg, probes, env, faults).ok
    ensures var h := Connect(w, cfg, probes, env, faults).w.host;
            Off(h, base) && !Pinned(h) && Conserved(h, original)
  {
    hide Connect, IsOnlyOurPin, Pinned, AllDeletesWork, Conserved, Clean;
    ConnectExact(w, cfg, probes, env, faults, base);
    ConnectSafe(w, cfg, probes, env, faults, original);
    var h := Connect(w, cfg, probes, env, faults).w.host;
    OffIsNotArmed(h, cfg, probes, base);
  }

  lemma OffIsNotArmed(h: Host, cfg: Config, probes: Probes, base: Host)
    requires Clean(base) && Off(h, base)
    ensures !Armed(h, cfg, probes)
  {
    if cfg.uid.Some? {
      BaseFacts(cfg, base);
      assert |Rules(cfg)| == 7;
      hide Rules, V6Rules;
      assert !Present(base.v4, Rules(cfg)[0]);
    }
  }

  /** The assumption about restores is needed: a disconnect leaves the pin exactly if its restoring write fails. */
  lemma DisconnectUnpinsExactly(w: World<Host>, cfg: Config, probes: Probes, faults: Faults<Command>, original: string)
    requires Conserved(w.host, original) && !IsOnlyOurPin(original) && Pinned(w.host)
    ensures Pinned(Disconnect(w, cfg, probes, faults).w.host) <==> !faults(Restore, w.tick)
  {
    hide IsOnlyOurPin, RestoreResolv, RemoveRules, Conserved;
    RestoreUnpinsExactly(w, faults, original);
    if cfg.uid.Some? { RemoveIsExact(RestoreResolv(w, faults).w, cfg, probes, faults); }
  }

  /** The same at an actual host. */
  lemma PinStuckAt(w: World<Host>, cfg: Config, probes: Probes, faults: Faults<Command>)
    requires w.host.resolv == Some(PINNED) && w.host.backup == Some("") && !faults(Restore, w.tick)
    ensures Pinned(Disconnect(w, cfg, probes, faults).w.host)
  {
    EmptyIsReal();
    hide PINNED, IsOnlyOurPin, Disconnect;
    PinnedMeans(w.host, "");
    DisconnectUnpinsExactly(w, cfg, probes, faults, "");
  }

  lemma EmptyIsReal()
    ensures !IsOnlyOurPin("")
  {
  }

  /** With working deletes a disconnect is safe throughout exactly if it has no pin to take back or does so. */
  lemma DisconnectSafeExactly(w: World<Host>, cfg: Config, probes: Probes, faults: Faults<Command>, original: string)
    requires Safe(w.host, cfg, probes, original) && !IsOnlyOurPin(original) && AllDeletesWork(faults)
    ensures SafeSince(w, Disconnect(w, cfg, probes, faults).w, cfg, probes, original) <==>
            (Pinned(w.host) ==> faults(Restore, w.tick))
  {
    hide RestoreResolv, RemoveRules, IsOnlyOurPin, Conserved, AllDeletesWork, Disconnect, Pinned;
    if Pinned(w.host) && !faults(Restore, w.tick) {
      UnlockSafe(w, cfg, probes, faults, original);
      RemovalStrands(RestoreResolv(w, faults).w, cfg, probes, faults, original);
      DisconnectIsRemoval(w, cfg, probes, faults);
    } else {
      DisconnectSafe(w, cfg, probes, faults, original);
    }
  }

  lemma DisconnectIsRemoval(w: World<Host>, cfg: Config, probes: Probes, faults: Faults<Command>)
    requires cfg.uid.Some?
    ensures Disconnect(w, cfg, probes, faults) == RemoveRules(RestoreResolv(w, faults).w, cfg, probes, faults)
  {
    hide RestoreResolv, RemoveRules;
  }

  /** Taking the rules away from under a pin is not safe. */
  lemma RemovalStrands(w: World<Host>, cfg: Config, probes: Probes, faults: Faults<Command>, original: string)
    requires Safe(w.host, cfg, probes, original) && Pinned(w.host) && AllDeletesWork(faults)
    ensures cfg.uid.Some?
    ensures var h := RemoveRules(w, cfg, probes, faults).w.host;
            Pinned(h) && !Armed(h, cfg, probes) && !Safe(h, cfg, probes, original)
  {
    hide RemoveRules, IsOnlyOurPin, Conserved, AllDeletesWork;
    assert ValidConfig(cfg);
    RemoveIsExact(w, cfg, probes, faults);
    KeptPresent(w.host.v4, Rules(cfg), Rules(cfg)[0]);
  }

  /** With working deletes a connect is safe throughout exactly if it does not strand a pin. */
  lemma ConnectSafeExactly(w: World<Host>, cfg: Config, probes: Probes, env: Surroundings, faults: Faults<Command>,
                           original: string)
    requires Safe(w.host, cfg, probes, original) && !IsOnlyOurPin(original) && AllDeletesWork(faults)
    ensures SafeSince(w, Connect(w, cfg, probes, env, faults).w, cfg, probes, original) <==>
            !Strands(w, cfg, probes, env, faults)
  {
    hide RestoreResolv, LockResolv, ApplyRules, RemoveRules, IsOnlyOurPin, Conserved, AllDeletesWork, Connect, Pinned;
    hide Safe;
    if Strands(w, cfg, probes, env, faults) {
      StrandedByConnect(w, cfg, probes, env, faults, original);
      var w1 := UntilRestore(w, cfg, probes, faults);
      RemovalStrands(w1, cfg, probes, faults, original);
    } else {
      ConnectSafe(w, cfg, probes, env, faults, original);
    }
  }

  /** At an actual host: a reconnect over a pin, neither the pin nor the backup to be written. */
  lemma StrandedAt(faults: Faults<Command>)
    requires forall c, n :: faults(c, n) <==> c.Delete?
    ensures var cfg, probes := Config(Some(1000), 9040, 5353, false, false, true), Probes(true, true);
            var v4 := T.Extend(Tables([], []), Rules(cfg));
            var w := World(Host(v4, Tables([], []), Some(PINNED), Some("")), 0, []);
            var after := Connect(w, cfg, probes, Surroundings(true, true, true), faults).w.host;
            && Safe(w.host, cfg, probes, "")
            && Pinned(after) && !Armed(after, cfg, probes)
  {
    var cfg, probes := Config(Some(1000), 9040, 5353, false, false, true), Probes(true, true);
    var v4 := T.Extend(Tables([], []), Rules(cfg));
    var w := World(Host(v4, Tables([], []), Some(PINNED), Some("")), 0, []);
    EmptyIsReal();
    ExtendHolds(Tables([], []), Rules(cfg));
    BackedUpPin(w.host);
    hide *;
    assert Armed(w.host, cfg, probes) by { StandsArmed(w.host, cfg, probes); }
    StrandsArmed(w, cfg, probes, faults, "");
  }

  lemma BackedUpPin(h: Host)
    requires h.resolv == Some(PINNED) && h.backup == Some("")
    ensures Conserved(h, "") && Pinned(h)
  {
    EmptyIsReal();
    hide PINNED, IsOnlyOurPin;
    PinnedMeans(h, "");
  }

  lemma StandsArmed(h: Host, cfg: Config, probes: Probes)
    requires cfg == Config(Some(1000), 9040, 5353, false, false, true) && AllPresent(h.v4, Rules(cfg))
    ensures Armed(h, cfg, probes) && !V6Required(cfg, probes)
  {
    hide Rules, AllPresent;
  }

  /** Over a standing connection, a reconnect that can write neither the pin nor the backup strands the pin. */
  lemma StrandsArmed(w: World<Host>, cfg: Config, probes: Probes, faults: Faults<Command>, original: string)
    requires Conserved(w.host, original) && !IsOnlyOurPin(original) && Armed(w.host, cfg, probes) && Pinned(w.host)
    requires !V6Required(cfg, probes) && cfg.lockResolv && (forall c, n :: faults(c, n) <==> c.Delete?)
    ensures Safe(w.host, cfg, probes, original)
    ensures var after := Connect(w, cfg, probes, Surroundings(true, true, true), faults).w.host;
            Pinned(after) && !Armed(after, cfg, probes)
  {
    hide Rules, V6Rules, IsOnlyOurPin, Conserved, Pinned;
    ApplyPresent(w, V4, Rules(cfg), [], faults);
    assert ApplyRules(w, cfg, probes, faults) == Step(w, true);
    assert Strands(w, cfg, probes, Surroundings(true, true, true), faults);
    assert AllDeletesWork(faults);
    hide *;
    StrandedByConnect(w, cfg, probes, Surroundings(true, true, true), faults, original);
    StrandedEnds(w, cfg, probes, faults, original);
  }

  lemma StrandedEnds(w: World<Host>, cfg: Config, probes: Probes, faults: Faults<Command>, original: string)
    requires Safe(w.host, cfg, probes, original) && !IsOnlyOurPin(original) && AllDeletesWork(faults)
    requires Strands(w, cfg, probes, Surroundings(true, true, true), faults)
    ensures var after := Connect(w, cfg, probes, Surroundings(true, true, true), faults).w.host;
            Pinned(after) && !Armed(after, cfg, probes)
  {
    var env := Surroundings(true, true, true);
    StrandedByConnect(w, cfg, probes, env, faults, original);
    var w1 := UntilRestore(w, cfg, probes, faults);
    hide *;
    RemovalStrands(w1, cfg, probes, faults, original);
  }

  /** Rules that are all there are applied without a command. */
  lemma {:induction false} ApplyPresent(w: World<Host>, fam: Family, rs: seq<Rule>, added: seq<Rule>,
                                        faults: Faults<Command>)
    requires AllPresent(TablesOf(w.host, fam), rs)
    ensures ApplyFrom(w, fam, rs, added, faults) == Applied(w, true, added)
    decreases |rs|
  {
    hide Present;
    if rs != [] {
      assert forall i :: 0 <= i < |rs| - 1 ==> rs[1..][i] == rs[i + 1];
      ApplyPresent(w, fam, rs[1..], added, faults);
    }
  }

  /** Where runs start: a real resolver, no backup, and a firewall without any rule of ours. */
  lemma FreshStart(h: Host, cfg: Config, probes: Probes)
    requires h.resolv.Some? && h.backup.None? && !IsOnlyOurPin(h.resolv.value) && Clean(h)
    ensures SafeState(State(cfg, h), probes, h.resolv.value) && Exact(h, cfg, probes, h) && Tight(h, cfg, probes, h)
  {
    PinnedMeans(h, h.resolv.value);
    hide IsOnlyOurPin, Clean, Armed;
  }
}
