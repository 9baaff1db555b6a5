/** What apply_list and remove_list leave behind, whichever commands fail. */
module Transaction {
  import opened Netfilter
  import opened Host
  import opened Runs
  import opened Engine

  // --- chains -----------------------------------------------------------

  function OfTable(rs: seq<Rule>, table: Table): seq<Rule> {
    if rs == [] then []
    else if rs[0].table == table then [rs[0]] + OfTable(rs[1..], table)
    else OfTable(rs[1..], table)
  }

  /** Each rule of rs behind the rules its chain already holds, in list order. */
  function Extend(t: Tables, rs: seq<Rule>): Tables {
    Tables(t.nats + OfTable(rs, Nat), t.filters + OfTable(rs, Filter))
  }

  /** The rules of rs that t lacks, each at its first place in rs, given that `before` came first. */
  function Missing(t: Tables, before: seq<Rule>, rs: seq<Rule>): seq<Rule>
    decreases |rs|
  {
    if rs == [] then []
    else (if Present(t, rs[0]) || rs[0] in before then [] else [rs[0]]) + Missing(t, before + [rs[0]], rs[1..])
  }

  /** A chain without any copy of the listed rules, the others in their order. */
  function Keep(c: seq<Rule>, rs: seq<Rule>): seq<Rule> {
    if c == [] then [] else if c[0] in rs then Keep(c[1..], rs) else [c[0]] + Keep(c[1..], rs)
  }

  function KeepOthers(t: Tables, rs: seq<Rule>): Tables {
    Tables(Keep(t.nats, OfTable(rs, Nat)), Keep(t.filters, OfTable(rs, Filter)))
  }

  /** a is b with some of its elements left out. */
  predicate Subsequence<T(==)>(a: seq<T>, b: seq<T>) {
    a == [] || (b != [] && ((a[0] == b[0] && Subsequence(a[1..], b[1..])) || Subsequence(a, b[1..])))
  }

  lemma {:induction false} OfTableAppend(a: seq<Rule>, b: seq<Rule>, table: Table)
    ensures OfTable(a + b, table) == OfTable(a, table) + OfTable(b, table)
  {
    if a == [] {
      assert a + b == b;
    } else {
      assert (a + b)[1..] == a[1..] + b;
      OfTableAppend(a[1..], b, table);
    }
  }

  lemma {:induction false} OfTableMember(rs: seq<Rule>, table: Table, r: Rule)
    ensures r in OfTable(rs, table) <==> r in rs && r.table == table
  {
    if rs != [] {
      OfTableMember(rs[1..], table, r);
      assert rs == [rs[0]] + rs[1..];
    }
  }

  lemma PresentExtend(t: Tables, rs: seq<Rule>, r: Rule)
    ensures Present(Extend(t, rs), r) <==> Present(t, r) || r in rs
  {
    OfTableMember(rs, r.table, r);
  }

  lemma ExtendOne(t: Tables, rs: seq<Rule>, r: Rule)
    ensures Appended(Extend(t, rs), r) == Extend(t, rs + [r])
  {
    OfTableAppend(rs, [r], Nat);
    OfTableAppend(rs, [r], Filter);
    assert OfTable([], Nat) == [] && OfTable([], Filter) == [] && [r][1..] == [];
    assert OfTable([r], r.table) == [r];
  }

  lemma ExtendNothing(t: Tables)
    ensures Extend(t, []) == t
  {
    assert t.nats + [] == t.nats && t.filters + [] == t.filters;
  }

  lemma {:induction false} RemoveFirstBehind(c: seq<Rule>, d: seq<Rule>, r: Rule)
    requires r !in c
    ensures RemoveFirst(c + d, r) == c + RemoveFirst(d, r)
  {
    if c == [] {
      assert c + d == d;
    } else {
      assert (c + d)[1..] == c[1..] + d;
      RemoveFirstBehind(c[1..], d, r);
    }
  }

  lemma {:induction false} OfTableRemoveFirst(rs: seq<Rule>, r: Rule, table: Table)
    ensures OfTable(RemoveFirst(rs, r), table)
         == if r.table == table then RemoveFirst(OfTable(rs, table), r) else OfTable(rs, table)
  {
    if rs != [] && rs[0] != r {
      OfTableRemoveFirst(rs[1..], r, table);
      var rest := RemoveFirst(rs[1..], r);
      assert RemoveFirst(rs, r) == [rs[0]] + rest && ([rs[0]] + rest)[1..] == rest;
      if rs[0].table == table {
        var o := OfTable(rs[1..], table);
        assert OfTable(rs, table) == [rs[0]] + o && ([rs[0]] + o)[1..] == o;
      }
    } else if rs != [] && r.table == table {
      assert OfTable(rs, table)[1..] == OfTable(rs[1..], table);
    }
  }

  /** Deleting a rule that was appended takes it out behind the old rules. */
  lemma DeletedExtend(t: Tables, rs: seq<Rule>, r: Rule)
    requires !Present(t, r)
    ensures Deleted(Extend(t, rs), r) == Extend(t, RemoveFirst(rs, r))
  {
    OfTableRemoveFirst(rs, r, Nat);
    OfTableRemoveFirst(rs, r, Filter);
    RemoveFirstBehind(Chain(t, r.table), OfTable(rs, r.table), r);
  }

  lemma {:induction false} SubsequenceSelf<T>(a: seq<T>)
    ensures Subsequence(a, a)
  {
    if a != [] { SubsequenceSelf(a[1..]); }
  }

  lemma {:induction false} SubsequenceTrans<T>(a: seq<T>, b: seq<T>, c: seq<T>)
    requires Subsequence(a, b) && Subsequence(b, c)
    ensures Subsequence(a, c)
    decreases |b| + |c|
  {
    if a != [] {
      if b[0] == c[0] && Subsequence(b[1..], c[1..]) {
        if a[0] == b[0] && Subsequence(a[1..], b[1..]) {
          SubsequenceTrans(a[1..], b[1..], c[1..]);
        } else {
          SubsequenceTrans(a, b[1..], c[1..]);
        }
      } else {
        SubsequenceTrans(a, b, c[1..]);
      }
    }
  }

  lemma {:induction false} RemoveFirstSubsequence(c: seq<Rule>, r: Rule)
    ensures Subsequence(RemoveFirst(c, r), c)
  {
    if c != [] {
      if c[0] == r {
        SubsequenceSelf(c[1..]);
      } else {
        RemoveFirstSubsequence(c[1..], r);
        assert RemoveFirst(c, r)[1..] == RemoveFirst(c[1..], r);
      }
    }
  }

  // --- what a run has visited -------------------------------------------

  /** Only one family's tables differ from h0, and only behind what its chains held. */
  predicate Grown(h0: Host, h: Host, fam: Family) {
    && SameElse(h0, h, fam)
    && TablesOf(h0, fam).nats <= TablesOf(h, fam).nats
    && TablesOf(h0, fam).filters <= TablesOf(h, fam).filters
  }

  predicate SameElse(h0: Host, h: Host, fam: Family) {
    h == WithTables(h0, fam, TablesOf(h, fam))
  }

  ghost predicate GrownSince(w0: World<Host>, w: World<Host>, fam: Family) {
    && w0.seen <= w.seen && Grown(w0.host, w.host, fam)
    && forall i :: |w0.seen| <= i < |w.seen| ==> Grown(w0.host, w.seen[i], fam)
  }

  ghost predicate TouchedSince(w0: World<Host>, w: World<Host>, fam: Family) {
    && w0.seen <= w.seen && SameElse(w0.host, w.host, fam)
    && forall i :: |w0.seen| <= i < |w.seen| ==> SameElse(w0.host, w.seen[i], fam)
  }

  // --- rollback and removal ---------------------------------------------

  /** Deleting appended rules leaves the old ones alone; what cannot be deleted stays, in order. */
  lemma {:induction false} DelBehind(w0: World<Host>, w: World<Host>, fam: Family, r: Rule, faults: Faults<Command>,
                                     t: Tables, rs: seq<Rule>)
    returns (left: seq<Rule>)
    requires t == TablesOf(w0.host, fam) && GrownSince(w0, w, fam)
    requires TablesOf(w.host, fam) == Extend(t, rs) && !Present(t, r)
    ensures TablesOf(Del(w, fam, r, faults).w.host, fam) == Extend(t, left) && Subsequence(left, rs)
    ensures GrownSince(w0, Del(w, fam, r, faults).w, fam)
    decreases Copies(TablesOf(w.host, fam), r)
  {
    hide Subsequence, Extend;
    left := rs;
    SubsequenceSelf(rs);
    if Present(TablesOf(w.host, fam), r) {
      var cmd := Delete(fam, r);
      var w1 := Issue(w, cmd, faults, WithTables(w.host, fam, Deleted(TablesOf(w.host, fam), r)));
      DeletedExtend(t, rs, r);
      ExtendGrows(t, RemoveFirst(rs, r));
      assert GrownSince(w0, w1, fam);
      if Succeeds(w, cmd, faults) {
        DeleteLowersCopies(TablesOf(w.host, fam), r);
        left := DelBehind(w0, w1, fam, r, faults, t, RemoveFirst(rs, r));
        RemoveFirstSubsequence(rs, r);
        SubsequenceTrans(left, RemoveFirst(rs, r), rs);
      }
    }
  }

  lemma ExtendGrows(t: Tables, rs: seq<Rule>)
    ensures t.nats <= Extend(t, rs).nats && t.filters <= Extend(t, rs).filters
  {
  }

  lemma {:induction false} RemoveBehind(w0: World<Host>, w: World<Host>, fam: Family, rm: seq<Rule>,
                                        faults: Faults<Command>, t: Tables, rs: seq<Rule>)
    returns (left: seq<Rule>)
    requires t == TablesOf(w0.host, fam) && GrownSince(w0, w, fam)
    requires TablesOf(w.host, fam) == Extend(t, rs) && NonePresent(t, rm)
    ensures TablesOf(RemoveList(w, fam, rm, faults).host, fam) == Extend(t, left) && Subsequence(left, rs)
    ensures GrownSince(w0, RemoveList(w, fam, rm, faults), fam)
    decreases |rm|
  {
    hide Subsequence, Extend, GrownSince, Del;
    left := rs;
    SubsequenceSelf(rs);
    if rm != [] {
      var n := |rm| - 1;
      left := DelBehind(w0, w, fam, rm[n], faults, t, rs);
      var w1 := Del(w, fam, rm[n], faults).w;
      var rest := RemoveBehind(w0, w1, fam, rm[..n], faults, t, left);
      SubsequenceTrans(rest, left, rs);
      left := rest;
    }
  }

  /** With deletes that work, removal takes out every copy of the listed rules and nothing else. */
  ghost predicate DeletesWork(fam: Family, faults: Faults<Command>) {
    forall r, n :: faults(Delete(fam, r), n)
  }

  lemma {:induction false} KeepOne(c: seq<Rule>, r: Rule)
    ensures r in c ==> Keep(RemoveFirst(c, r), [r]) == Keep(c, [r])
    ensures r !in c ==> Keep(c, [r]) == c
  {
    if c != [] {
      assert c == [c[0]] + c[1..];
      if c[0] != r {
        KeepOne(c[1..], r);
        assert RemoveFirst(c, r)[1..] == RemoveFirst(c[1..], r);
      }
    }
  }

  lemma {:induction false} KeepTwice(c: seq<Rule>, a: seq<Rule>, b: seq<Rule>, ab: seq<Rule>)
    requires forall r :: r in ab <==> r in a || r in b
    ensures Keep(Keep(c, a), b) == Keep(c, ab)
  {
    if c != [] {
      KeepTwice(c[1..], a, b, ab);
      if c[0] !in a { assert Keep(c, a)[1..] == Keep(c[1..], a); }
    }
  }

  lemma KeepOthersOne(t: Tables, r: Rule)
    ensures KeepOthers(t, [r]) == WithChain(t, r.table, Keep(Chain(t, r.table), [r]))
  {
    KeepNone(t.nats);
    KeepNone(t.filters);
    assert OfTable([r][1..], Nat) == [] && OfTable([r][1..], Filter) == [];
    assert OfTable([r], r.table) == [r];
  }

  lemma {:induction false} KeepNone(c: seq<Rule>)
    ensures Keep(c, []) == c
  {
    if c != [] { KeepNone(c[1..]); }
  }

  lemma {:induction false} DelExact(w: World<Host>, fam: Family, r: Rule, faults: Faults<Command>)
    requires DeletesWork(fam, faults)
    ensures Del(w, fam, r, faults).ok
    ensures TablesOf(Del(w, fam, r, faults).w.host, fam) == KeepOthers(TablesOf(w.host, fam), [r])
    decreases Copies(TablesOf(w.host, fam), r)
  {
    hide Keep, RemoveFirst, KeepOthers;
    var t := TablesOf(w.host, fam);
    KeepOne(Chain(t, r.table), r);
    KeepOthersOne(t, r);
    if Present(t, r) {
      DeleteLowersCopies(t, r);
      KeepOthersOne(Deleted(t, r), r);
      DelExact(Issue(w, Delete(fam, r), faults, WithTables(w.host, fam, Deleted(t, r))), fam, r, faults);
    }
  }

  lemma KeepOthersTwice(t: Tables, rs: seq<Rule>, r: Rule)
    ensures KeepOthers(KeepOthers(t, [r]), rs) == KeepOthers(t, rs + [r])
  {
    forall x, table ensures x in OfTable(rs + [r], table) <==> x in OfTable([r], table) || x in OfTable(rs, table) {
      OfTableMember(rs + [r], table, x);
      OfTableMember(rs, table, x);
      OfTableMember([r], table, x);
    }
    KeepTwice(t.nats, OfTable([r], Nat), OfTable(rs, Nat), OfTable(rs + [r], Nat));
    KeepTwice(t.filters, OfTable([r], Filter), OfTable(rs, Filter), OfTable(rs + [r], Filter));
  }

  lemma {:induction false} RemoveExact(w: World<Host>, fam: Family, rs: seq<Rule>, faults: Faults<Command>)
    requires DeletesWork(fam, faults)
    ensures TablesOf(RemoveList(w, fam, rs, faults).host, fam) == KeepOthers(TablesOf(w.host, fam), rs)
    decreases |rs|
  {
    hide Keep, KeepOthers, Del, DeletesWork, OfTable;
    if rs == [] {
      KeepOthersNone(TablesOf(w.host, fam));
    } else {
      var n := |rs| - 1;
      DelExact(w, fam, rs[n], faults);
      RemoveExact(Del(w, fam, rs[n], faults).w, fam, rs[..n], faults);
      KeepOthersTwice(TablesOf(w.host, fam), rs[..n], rs[n]);
      assert rs[..n] + [rs[n]] == rs;
    }
  }

  lemma KeepOthersNone(t: Tables)
    ensures KeepOthers(t, []) == t
  {
    KeepNone(t.nats);
    KeepNone(t.filters);
  }

  lemma {:induction false} KeepBehind(c: seq<Rule>, d: seq<Rule>)
    requires forall r :: r in d ==> r !in c
    ensures Keep(c + d, d) == c
  {
    KeepConcat(c, d, d);
    KeepAllListed(d, d);
    KeepUnlisted(c, d);
    assert c + [] == c;
  }

  lemma {:induction false} KeepConcat(c: seq<Rule>, d: seq<Rule>, rs: seq<Rule>)
    ensures Keep(c + d, rs) == Keep(c, rs) + Keep(d, rs)
  {
    if c == [] {
      assert c + d == d;
    } else {
      assert (c + d)[1..] == c[1..] + d;
      KeepConcat(c[1..], d, rs);
    }
  }

  lemma {:induction false} KeepAllListed(c: seq<Rule>, rs: seq<Rule>)
    requires forall i :: 0 <= i < |c| ==> c[i] in rs
    ensures Keep(c, rs) == []
  {
    if c != [] { KeepAllListed(c[1..], rs); }
  }

  lemma {:induction false} KeepUnlisted(c: seq<Rule>, rs: seq<Rule>)
    requires forall r :: r in rs ==> r !in c
    ensures Keep(c, rs) == c
  {
    if c != [] { KeepUnlisted(c[1..], rs); }
  }

  /** Removing rules that were appended to tables without them gives those tables back. */
  lemma KeepUndoesExtend(t: Tables, rs: seq<Rule>)
    requires NonePresent(t, rs)
    ensures KeepOthers(Extend(t, rs), rs) == t
  {
    forall table, r ensures r in OfTable(rs, table) ==> r !in Chain(t, table) {
      OfTableMember(rs, table, r);
      if r in rs && r.table == table { assert !Present(t, r); }
    }
    KeepBehind(t.nats, OfTable(rs, Nat));
    KeepBehind(t.filters, OfTable(rs, Filter));
  }

  // --- apply_list -------------------------------------------------------

  /** How far an apply has come: the added rules were missing, and stand behind the old ones. */
  ghost predicate Progress(w0: World<Host>, w: World<Host>, fam: Family, before: seq<Rule>, added: seq<Rule>) {
    var t := TablesOf(w0.host, fam);
    && TablesOf(w.host, fam) == Extend(t, added)
    && NonePresent(t, added)
    && (forall r :: r in added <==> r in before && !Present(t, r))
    && GrownSince(w0, w, fam)
  }

  lemma {:induction false} ApplyFromExact(w0: World<Host>, w: World<Host>, fam: Family, before: seq<Rule>,
                                          rs: seq<Rule>, added: seq<Rule>, faults: Faults<Command>)
    requires Progress(w0, w, fam, before, added)
    ensures var a := ApplyFrom(w, fam, rs, added, faults);
            var t := TablesOf(w0.host, fam);
            && (a.ok ==> a.added == added + Missing(t, before, rs))
            && (a.ok ==> TablesOf(a.w.host, fam) == Extend(t, a.added) && NonePresent(t, a.added))
            && (!a.ok && DeletesWork(fam, faults) ==> TablesOf(a.w.host, fam) == t)
            && (!a.ok ==> exists left ::
                    TablesOf(a.w.host, fam) == Extend(t, left) && Subsequence(left, added + Missing(t, before, rs)))
            && GrownSince(w0, a.w, fam)
    decreases |rs|
  {
    hide Extend, Subsequence, DeletesWork, GrownSince, RemoveList;
    var t := TablesOf(w0.host, fam);
    if rs == [] {
      assert added + [] == added;
    } else {
      var r := rs[0];
      PresentExtend(t, added, r);
      if Present(TablesOf(w.host, fam), r) {
        assert Missing(t, before, rs) == Missing(t, before + [r], rs[1..]);
        ApplyFromExact(w0, w, fam, before + [r], rs[1..], added, faults);
      } else {
        StepProgress(w0, w, fam, before, added, r, faults);
        assert added + Missing(t, before, rs) == added + [r] + Missing(t, before + [r], rs[1..]);
        if Succeeds(w, Append(fam, r), faults) {
          ApplyFromExact(w0, Add(w, fam, r, faults), fam, before + [r], rs[1..], added + [r], faults);
        } else {
          RollbackExact(w0, w, fam, before, added, r, faults, Missing(t, before, rs));
        }
      }
    }
  }

  lemma StepProgress(w0: World<Host>, w: World<Host>, fam: Family, before: seq<Rule>, added: seq<Rule>, r: Rule,
                     faults: Faults<Command>)
    requires Progress(w0, w, fam, before, added) && !Present(TablesOf(w.host, fam), r)
    ensures Succeeds(w, Append(fam, r), faults) ==> Progress(w0, Add(w, fam, r, faults), fam, before + [r], added + [r])
    ensures !Succeeds(w, Append(fam, r), faults) ==> Progress(w0, Add(w, fam, r, faults), fam, before, added)
  {
    var t := TablesOf(w0.host, fam);
    PresentExtend(t, added, r);
    ExtendOne(t, added, r);
    ExtendGrows(t, added + [r]);
    hide Extend, Appended;
  }

  lemma RollbackExact(w0: World<Host>, w: World<Host>, fam: Family, before: seq<Rule>, added: seq<Rule>, r: Rule,
                      faults: Faults<Command>, more: seq<Rule>)
    requires Progress(w0, w, fam, before, added) && !Present(TablesOf(w.host, fam), r)
    requires !Succeeds(w, Append(fam, r), faults)
    ensures var w1 := RemoveList(Add(w, fam, r, faults), fam, added, faults);
            var t := TablesOf(w0.host, fam);
            && (DeletesWork(fam, faults) ==> TablesOf(w1.host, fam) == t)
            && (exists left :: TablesOf(w1.host, fam) == Extend(t, left) && Subsequence(left, added + more))
            && GrownSince(w0, w1, fam)
  {
    StepProgress(w0, w, fam, before, added, r, faults);
    hide Extend, Subsequence, DeletesWork, RemoveList;
    var t, w1 := TablesOf(w0.host, fam), Add(w, fam, r, faults);
    var left := RemoveBehind(w0, w1, fam, added, faults, t, added);
    SubsequencePrefix(added, more);
    SubsequenceTrans(left, added, added + more);
    if DeletesWork(fam, faults) {
      RemoveExact(w1, fam, added, faults);
      KeepUndoesExtend(t, added);
    }
  }

  lemma {:induction false} SubsequencePrefix<T>(a: seq<T>, b: seq<T>)
    ensures Subsequence(a, a + b)
  {
    if a != [] {
      assert (a + b)[1..] == a[1..] + b;
      SubsequencePrefix(a[1..], b);
    }
  }

  /**
   apply_list is a transaction. On success each chain is its old self followed by the missing rules
   in list order, and exactly those are returned. On failure with working deletes each chain is its
   old self; if deletes fail too, the old rules still stand first, in order, and what is left behind
   them is part of what this call added. On the way no old rule ever goes missing.
   */
  lemma ApplyIsTransaction(w: World<Host>, fam: Family, rs: seq<Rule>, faults: Faults<Command>)
    ensures var a := ApplyList(w, fam, rs, faults);
            var t := TablesOf(w.host, fam);
            && (a.ok ==> a.added == Missing(t, [], rs) && NonePresent(t, a.added))
            && (a.ok ==> TablesOf(a.w.host, fam) == Extend(t, a.added))
            && (!a.ok && DeletesWork(fam, faults) ==> a.w.host == w.host)
            && (!a.ok ==> exists left ::
                    TablesOf(a.w.host, fam) == Extend(t, left) && Subsequence(left, Missing(t, [], rs)))
            && GrownSince(w, a.w, fam)
  {
    var t := TablesOf(w.host, fam);
    ExtendNothing(t);
    assert [] + Missing(t, [], rs) == Missing(t, [], rs);
    assert Progress(w, w, fam, [], []);
    ApplyFromExact(w, w, fam, [], rs, [], faults);
  }

  lemma {:induction false} MissingCovers(t: Tables, before: seq<Rule>, rs: seq<Rule>, r: Rule)
    ensures r in Missing(t, before, rs) <==> r in rs && !Present(t, r) && r !in before
    decreases |rs|
  {
    if rs != [] {
      assert rs == [rs[0]] + rs[1..];
      MissingCovers(t, before + [rs[0]], rs[1..], r);
    }
  }

  /** After a successful apply every listed rule is present. */
  lemma ApplyArms(w: World<Host>, fam: Family, rs: seq<Rule>, faults: Faults<Command>)
    requires ApplyList(w, fam, rs, faults).ok
    ensures AllPresent(TablesOf(ApplyList(w, fam, rs, faults).w.host, fam), rs)
  {
    ApplyIsTransaction(w, fam, rs, faults);
    var t := TablesOf(w.host, fam);
    hide Extend, ApplyList, GrownSince;
    forall i | 0 <= i < |rs| ensures Present(Extend(t, Missing(t, [], rs)), rs[i]) {
      MissingCovers(t, [], rs, rs[i]);
      PresentExtend(t, Missing(t, [], rs), rs[i]);
    }
  }

  /** Applying and then removing what the call returned is the identity on the tables. */
  lemma ApplyThenRemove(w: World<Host>, fam: Family, rs: seq<Rule>, faults: Faults<Command>)
    requires DeletesWork(fam, faults) && ApplyList(w, fam, rs, faults).ok
    ensures var a := ApplyList(w, fam, rs, faults);
            TablesOf(RemoveList(a.w, fam, a.added, faults).host, fam) == TablesOf(w.host, fam)
  {
    hide Extend, ApplyList, GrownSince, DeletesWork, RemoveList, KeepOthers, Missing;
    ApplyIsTransaction(w, fam, rs, faults);
    var a := ApplyList(w, fam, rs, faults);
    RemoveExact(a.w, fam, a.added, faults);
    KeepUndoesExtend(TablesOf(w.host, fam), a.added);
  }

  // --- remove_list under failing deletes --------------------------------

  lemma {:induction false} RemoveFirstOnly(c: seq<Rule>, r: Rule, rs: seq<Rule>)
    ensures r in rs ==> Keep(RemoveFirst(c, r), rs) == Keep(c, rs)
    ensures forall x :: x in RemoveFirst(c, r) ==> x in c
  {
    if c != [] {
      assert c == [c[0]] + c[1..];
      if c[0] != r {
        RemoveFirstOnly(c[1..], r, rs);
        assert RemoveFirst(c, r)[1..] == RemoveFirst(c[1..], r);
      }
    }
  }

  /** However far deleting one rule gets: only copies of it go, in that one family. */
  lemma {:induction false} DelTouches(w: World<Host>, fam: Family, r: Rule, rs: seq<Rule>, faults: Faults<Command>)
    requires r in rs
    ensures var w1 := Del(w, fam, r, faults).w;
            var t, t1 := TablesOf(w.host, fam), TablesOf(w1.host, fam);
            && TouchedSince(w, w1, fam)
            && KeepOthers(t1, rs) == KeepOthers(t, rs)
            && (forall x :: Present(t1, x) ==> Present(t, x))
            && (Del(w, fam, r, faults).ok <==> !Present(t1, r))
    decreases Copies(TablesOf(w.host, fam), r)
  {
    hide Keep, RemoveFirst, OfTable;
    var t := TablesOf(w.host, fam);
    if Present(t, r) {
      var cmd := Delete(fam, r);
      var w1 := Issue(w, cmd, faults, WithTables(w.host, fam, Deleted(t, r)));
      OfTableMember(rs, r.table, r);
      RemoveFirstOnly(Chain(t, r.table), r, OfTable(rs, r.table));
      if Succeeds(w, cmd, faults) {
        DeleteLowersCopies(t, r);
        DelTouches(w1, fam, r, rs, faults);
      }
    }
  }

  lemma {:induction false} DelWorks(w: World<Host>, fam: Family, r: Rule, faults: Faults<Command>)
    requires forall n :: faults(Delete(fam, r), n)
    ensures Del(w, fam, r, faults).ok
    decreases Copies(TablesOf(w.host, fam), r)
  {
    var t := TablesOf(w.host, fam);
    if Present(t, r) {
      DeleteLowersCopies(t, r);
      DelWorks(Issue(w, Delete(fam, r), faults, WithTables(w.host, fam, Deleted(t, r))), fam, r, faults);
    }
  }

  /**
   remove_list whatever fails: rules not listed stay, in their order and number; nothing appears;
   and a listed rule whose own deletes work is gone, no matter which other deletes failed.
   */
  lemma {:induction false} RemoveIsRobust(w: World<Host>, fam: Family, whole: seq<Rule>, rs: seq<Rule>,
                                          faults: Faults<Command>)
    requires rs <= whole
    ensures var w1 := RemoveList(w, fam, rs, faults);
            var t, t1 := TablesOf(w.host, fam), TablesOf(w1.host, fam);
            && TouchedSince(w, w1, fam)
            && KeepOthers(t1, whole) == KeepOthers(t, whole)
            && (forall x :: Present(t1, x) ==> Present(t, x))
            && (forall r :: r in rs && (forall n :: faults(Delete(fam, r), n)) ==> !Present(t1, r))
    decreases |rs|
  {
    hide Keep, KeepOthers, Del, OfTable;
    if rs != [] {
      var n := |rs| - 1;
      assert rs[n] in whole && rs == rs[..n] + [rs[n]];
      DelTouches(w, fam, rs[n], whole, faults);
      var w1 := Del(w, fam, rs[n], faults).w;
      RemoveIsRobust(w1, fam, whole, rs[..n], faults);
      if forall k :: faults(Delete(fam, rs[n]), k) { DelWorks(w, fam, rs[n], faults); }
    }
  }
}
