/** Adding and removing a list of rules against a table whose commands may fail. */
module Engine {
  import opened Netfilter
  import opened Wrappers
  import opened Host
  import opened Runs

  // --- what the engine does ---------------------------------------------

  function Add(w: World<Host>, fam: Family, r: Rule, faults: Faults<Command>): World<Host> {
    if Present(TablesOf(w.host, fam), r) then w
    else Issue(w, Append(fam, r), faults, WithTables(w.host, fam, Appended(TablesOf(w.host, fam), r)))
  }

  function Copies(t: Tables, r: Rule): nat { multiset(Chain(t, r.table))[r] }

  lemma {:induction false} RemoveFirstCounts(c: seq<Rule>, r: Rule)
    requires r in c
    ensures multiset(RemoveFirst(c, r)) == multiset(c) - multiset{r}
  {
    assert c == [c[0]] + c[1..];
    if c[0] != r {
      RemoveFirstCounts(c[1..], r);
      assert multiset(RemoveFirst(c, r)) == multiset{c[0]} + multiset(RemoveFirst(c[1..], r));
    }
  }

  lemma DeleteLowersCopies(t: Tables, r: Rule)
    requires Present(t, r)
    ensures Copies(Deleted(t, r), r) == Copies(t, r) - 1
  {
    RemoveFirstCounts(Chain(t, r.table), r);
  }

  /** Delete every copy, stopping at the first delete that fails. */
  function Del(w: World<Host>, fam: Family, r: Rule, faults: Faults<Command>): Step<Host>
    decreases Copies(TablesOf(w.host, fam), r)
  {
    var t := TablesOf(w.host, fam);
    if !Present(t, r) then Step(w, true)
    else
      var cmd := Delete(fam, r);
      var w1 := Issue(w, cmd, faults, WithTables(w.host, fam, Deleted(t, r)));
      if !Succeeds(w, cmd, faults) then Step(w1, false)
      else
        DeleteLowersCopies(t, r);
        Del(w1, fam, r, faults)
  }

  /** Delete the rules of a list, last to first, each whatever became of the others. */
  function RemoveList(w: World<Host>, fam: Family, rs: seq<Rule>, faults: Faults<Command>): World<Host>
    decreases |rs|
  {
    if rs == [] then w
    else RemoveList(Del(w, fam, rs[|rs| - 1], faults).w, fam, rs[..|rs| - 1], faults)
  }

  datatype Applied = Applied(w: World<Host>, ok: bool, added: seq<Rule>)

  /** The append loop, with `added` appended so far; a failed append rolls those back. */
  function ApplyFrom(w: World<Host>, fam: Family, rs: seq<Rule>, added: seq<Rule>, faults: Faults<Command>): Applied
    decreases |rs|
  {
    if rs == [] then Applied(w, true, added)
    else
      var r := rs[0];
      if Present(TablesOf(w.host, fam), r) then ApplyFrom(w, fam, rs[1..], added, faults)
      else if Succeeds(w, Append(fam, r), faults) then
        ApplyFrom(Add(w, fam, r, faults), fam, rs[1..], added + [r], faults)
      else Applied(RemoveList(Add(w, fam, r, faults), fam, added, faults), false, [])
  }

  function ApplyList(w: World<Host>, fam: Family, rs: seq<Rule>, faults: Faults<Command>): Applied {
    ApplyFrom(w, fam, rs, [], faults)
  }

  // --- the same as the program runs it ----------------------------------

  datatype Status = Status(total: nat, present: nat, active: bool, killswitch: bool)

  function CountPresent(t: Tables, rs: seq<Rule>): nat {
    if rs == [] then 0 else (if Present(t, rs[0]) then 1 else 0) + CountPresent(t, rs[1..])
  }

  function StatusOf(t: Tables, rs: seq<Rule>): Status {
    Status(|rs|, CountPresent(t, rs), AllPresent(t, rs), rs != [] && Present(t, rs[|rs| - 1]))
  }

  class Engine {
    const m: Machine
    const fam: Family

    constructor (m: Machine, fam: Family)
      ensures this.m == m && this.fam == fam
    {
      this.m, this.fam := m, fam;
    }

    method RuleExists(r: Rule) returns (b: bool)
      ensures b == Present(TablesOf(m.host, fam), r)
    {
      b := Present(TablesOf(m.host, fam), r);
    }

    /** _add: false stands for the EngineError of a failed append. */
    method AddRule(r: Rule) returns (ok: bool)
      modifies m
      ensures m.W() == Add(old(m.W()), fam, r, m.faults)
      ensures ok == (Present(TablesOf(old(m.host), fam), r) || Succeeds(old(m.W()), Append(fam, r), m.faults))
    {
      var found := RuleExists(r);
      if found { return true; }
      ok := m.Run(Append(fam, r), WithTables(m.host, fam, Appended(TablesOf(m.host, fam), r)));
    }

    /** _del: ends because every delete that succeeds leaves one copy less. */
    method DelRule(r: Rule) returns (ok: bool)
      modifies m
      ensures Step(m.W(), ok) == Del(old(m.W()), fam, r, m.faults)
    {
      var found := RuleExists(r);
      while found
        invariant found == Present(TablesOf(m.host, fam), r)
        invariant Del(old(m.W()), fam, r, m.faults) == Del(m.W(), fam, r, m.faults)
        decreases Copies(TablesOf(m.host, fam), r)
      {
        DeleteLowersCopies(TablesOf(m.host, fam), r);
        var done := m.Run(Delete(fam, r), WithTables(m.host, fam, Deleted(TablesOf(m.host, fam), r)));
        if !done { return false; }
        found := RuleExists(r);
      }
      return true;
    }

    /** apply_list: None stands for the EngineError that is raised again after the rollback. */
    method Apply(rs: seq<Rule>) returns (result: Option<seq<Rule>>)
      modifies m
      ensures var a := ApplyList(old(m.W()), fam, rs, m.faults);
              m.W() == a.w && result == if a.ok then Some(a.added) else None
    {
      var added: seq<Rule> := [];
      for i := 0 to |rs|
        invariant ApplyList(old(m.W()), fam, rs, m.faults) == ApplyFrom(m.W(), fam, rs[i..], added, m.faults)
      {
        assert rs[i..][1..] == rs[i + 1..];
        var existed := RuleExists(rs[i]);
        var ok := AddRule(rs[i]);
        if !ok {
          Remove(added);
          return None;
        }
        if !existed { added := added + [rs[i]]; }
      }
      result := Some(added);
    }

    /** remove_list, and the rollback of apply_list: a failed delete is passed over. */
    method Remove(rs: seq<Rule>)
      modifies m
      ensures m.W() == RemoveList(old(m.W()), fam, rs, m.faults)
    {
      var i := |rs|;
      assert rs[..|rs|] == rs;
      while i > 0
        invariant 0 <= i <= |rs|
        invariant RemoveList(old(m.W()), fam, rs, m.faults) == RemoveList(m.W(), fam, rs[..i], m.faults)
      {
        i := i - 1;
        assert rs[..i + 1][..i] == rs[..i];
        var _ := DelRule(rs[i]);
      }
    }

    method StatusList(rs: seq<Rule>) returns (s: Status)
      ensures s == StatusOf(TablesOf(m.host, fam), rs)
    {
      hide Present;
      var present: seq<bool> := [];
      var sum := 0;
      for i := 0 to |rs|
        invariant |present| == i && forall k :: 0 <= k < i ==> present[k] == Present(TablesOf(m.host, fam), rs[k])
        invariant sum + CountPresent(TablesOf(m.host, fam), rs[i..]) == CountPresent(TablesOf(m.host, fam), rs)
      {
        var b := RuleExists(rs[i]);
        assert rs[i..][1..] == rs[i + 1..];
        present := present + [b];
        if b { sum := sum + 1; }
      }
      s := Status(|rs|, sum, forall k :: 0 <= k < |present| ==> present[k], present != [] && present[|present| - 1]);
    }
  }
}
