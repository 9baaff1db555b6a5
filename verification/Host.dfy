/** The host the daemon changes: firewall tables and resolver files, one fallible command at a time. */
module Host {
  import opened Wrappers
  import opened Netfilter
  import opened Runs

  datatype Family = V4 | V6

  datatype Host = Host(v4: Tables, v6: Tables, resolv: Option<string>, backup: Option<string>)

  function TablesOf(h: Host, fam: Family): Tables { match fam case V4 => h.v4 case V6 => h.v6 }

  function WithTables(h: Host, fam: Family, t: Tables): Host {
    match fam case V4 => h.(v4 := t) case V6 => h.(v6 := t)
  }

  /** Commands that change the host; each either takes effect as a whole or fails without effect. */
  datatype Command =
    | Append(fam: Family, rule: Rule)
    | Delete(fam: Family, rule: Rule)
    | Capture    // write the resolver backup
    | Pin        // write the loopback pin
    | Restore    // write the backup back
    | Unlink     // drop the backup

  /** The host as the daemon's collaborators see it, with its history as a ghost. */
  class Machine {
    var host: Host
    var tick: nat
    ghost var seen: seq<Host>
    const faults: Faults<Command>

    constructor (host: Host, faults: Faults<Command>)
      ensures this.host == host && this.faults == faults && W() == World(host, 0, [])
    {
      this.host, this.faults, tick, seen := host, faults, 0, [];
    }

    ghost function W(): World<Host>
      reads this
    {
      World(host, tick, seen)
    }

    /** Run one command; the caller says what it does when it succeeds. */
    method Run(cmd: Command, next: Host) returns (ok: bool)
      modifies this
      ensures ok == Succeeds(old(W()), cmd, faults)
      ensures W() == Issue(old(W()), cmd, faults, next)
    {
      ok := faults(cmd, tick);
      tick := tick + 1;
      if ok { host := next; }
      seen := seen + [host];
    }
  }
}
