/** A run of fallible commands against a host: shared by the Linux and the Windows side. */
module Runs {
  /** Which command succeeds at which point of a run. */
  type Faults<!C> = (C, nat) -> bool

  /** A run so far: the host now, the number of commands issued, every state after a command. */
  datatype World<H> = World(host: H, tick: nat, seen: seq<H>)

  predicate Succeeds<H, C>(w: World<H>, cmd: C, faults: Faults<C>) { faults(cmd, w.tick) }

  /** Issue a command that turns the host into `next` if it succeeds; otherwise it changes nothing. */
  function Issue<H, C>(w: World<H>, cmd: C, faults: Faults<C>, next: H): World<H> {
    var h := if Succeeds(w, cmd, faults) then next else w.host;
    World(h, w.tick + 1, w.seen + [h])
  }

  /** Where a step left the run, and whether it got through. */
  datatype Step<H> = Step(w: World<H>, ok: bool)
}
