/** iptables rules, the chains that hold them, and the two rulesets the engine builds. */
module Netfilter {
  datatype Table = Nat | Filter

  datatype Proto = Tcp | Udp | Other(number: nat)

  /** One match of a rule. Matches the engine never writes are opaque, known by a number. */
  datatype Match =
    | Owner(uid: int)
    | ToLoopback          // -d 127.0.0.0/8
    | OutLo               // -o lo
    | OfProto(p: Proto)
    | DPort(port: int)
    | Opaque(id: nat)

  datatype Target = Return | Redirect(port: int) | Accept | Drop

  /** A rule of an OUTPUT chain. */
  datatype Rule = Rule(table: Table, matches: seq<Match>, target: Target)

  /** The OUTPUT chains of the two tables of one address family. */
  datatype Tables = Tables(nats: seq<Rule>, filters: seq<Rule>)

  function Chain(t: Tables, table: Table): seq<Rule> {
    match table case Nat => t.nats case Filter => t.filters
  }

  function WithChain(t: Tables, table: Table, c: seq<Rule>): Tables {
    match table case Nat => t.(nats := c) case Filter => t.(filters := c)
  }

  /** iptables -C */
  predicate Present(t: Tables, r: Rule) { r in Chain(t, r.table) }

  /** iptables -A */
  function Appended(t: Tables, r: Rule): Tables {
    WithChain(t, r.table, Chain(t, r.table) + [r])
  }

  function RemoveFirst(c: seq<Rule>, r: Rule): seq<Rule> {
    if c == [] then [] else if c[0] == r then c[1..] else [c[0]] + RemoveFirst(c[1..], r)
  }

  /** iptables -D takes out the first copy. */
  function Deleted(t: Tables, r: Rule): Tables {
    WithChain(t, r.table, RemoveFirst(Chain(t, r.table), r))
  }

  // --- the rulesets -----------------------------------------------------

  predicate PortInRange(p: int) { 1 <= p <= 65535 }

  /** What build_rules insists on; anything else raises. */
  predicate ValidKey(uid: int, transPort: int, dnsPort: int) {
    uid >= 0 && PortInRange(transPort) && PortInRange(dnsPort)
  }

  function BuildRules(uid: int, transPort: int, dnsPort: int): seq<Rule> {
    [ Rule(Nat, [Owner(uid), ToLoopback], Return),
      Rule(Nat, [Owner(uid), OfProto(Tcp)], Redirect(transPort)),
      Rule(Nat, [Owner(uid), OfProto(Udp), DPort(53)], Redirect(dnsPort)),
      Rule(Filter, [Owner(uid), OutLo], Accept),
      Rule(Filter, [Owner(uid), OfProto(Tcp), DPort(transPort)], Accept),
      Rule(Filter, [Owner(uid), OfProto(Udp), DPort(dnsPort)], Accept),
      Rule(Filter, [Owner(uid)], Drop) ]
  }

  function BuildV6Rules(uid: int): seq<Rule> {
    [ Rule(Filter, [Owner(uid), OutLo], Accept),
      Rule(Filter, [Owner(uid)], Drop) ]
  }

  predicate AllPresent(t: Tables, rs: seq<Rule>) {
    forall i :: 0 <= i < |rs| ==> Present(t, rs[i])
  }

  predicate NonePresent(t: Tables, rs: seq<Rule>) {
    forall i :: 0 <= i < |rs| ==> !Present(t, rs[i])
  }

  predicate Distinct(rs: seq<Rule>) {
    forall i, j :: 0 <= i < j < |rs| ==> rs[i] != rs[j]
  }

  lemma RulesDistinct(uid: int, transPort: int, dnsPort: int)
    ensures Distinct(BuildRules(uid, transPort, dnsPort)) && Distinct(BuildV6Rules(uid))
  {
  }
}
