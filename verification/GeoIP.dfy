/** Tor's country ranges: loading them into three parallel lists, and looking an address up. */
module GeoIP {
  import opened Wrappers

  /** A parsed line of the geoip file. */
  datatype Range = Range(lo: int, hi: int, cc: string)

  datatype Index = Index(lows: seq<int>, highs: seq<int>, ccs: seq<string>) {
    predicate Valid() { |lows| == |highs| == |ccs| }

    function Row(i: nat): Range
      requires Valid() && i < |lows|
    {
      Range(lows[i], highs[i], ccs[i])
    }
  }

  predicate Unknown(cc: string) { cc == "??" || cc == "a1" || cc == "a2" }

  function Known(cc: string): Option<string> { if Unknown(cc) then None else Some(cc) }

  predicate Ascending(a: seq<int>) { forall i :: 0 < i < |a| ==> a[i - 1] <= a[i] }

  predicate Sorted(a: seq<int>) { forall i, j :: 0 <= i < j < |a| ==> a[i] <= a[j] }

  lemma {:induction false} AscendingSorted(a: seq<int>, i: nat, j: nat)
    requires Ascending(a) && i <= j < |a|
    ensures a[i] <= a[j]
    decreases j
  {
    if i < j { AscendingSorted(a, i, j - 1); }
  }

  // --- sorted(range(len(keys)), key=...) --------------------------------

  predicate IndexesOf(order: seq<nat>, keys: seq<int>) {
    forall p :: 0 <= p < |order| ==> order[p] < |keys|
  }

  predicate KeysAscend(order: seq<nat>, keys: seq<int>)
    requires IndexesOf(order, keys)
  {
    forall p, q :: 0 <= p < q < |order| ==> keys[order[p]] <= keys[order[q]]
  }

  predicate Distinct(order: seq<nat>) {
    forall p, q :: 0 <= p < q < |order| ==> order[p] != order[q]
  }

  /** Insert index i behind every index of the order whose key is not larger. */
  function InsertIndex(order: seq<nat>, keys: seq<int>, i: nat): (r: seq<nat>)
    requires i < |keys| && IndexesOf(order, keys)
    ensures IndexesOf(r, keys) && |r| == |order| + 1
  {
    if order == [] then [i]
    else if keys[order[0]] <= keys[i] then [order[0]] + InsertIndex(order[1..], keys, i)
    else [i] + order
  }

  lemma {:induction false} InsertMembers(order: seq<nat>, keys: seq<int>, i: nat)
    requires i < |keys| && IndexesOf(order, keys)
    ensures forall k :: k in InsertIndex(order, keys, i) <==> k in order || k == i
  {
    if order != [] && keys[order[0]] <= keys[i] {
      InsertMembers(order[1..], keys, i);
      assert order == [order[0]] + order[1..];
    }
  }

  lemma {:induction false} InsertKeepsOrder(order: seq<nat>, keys: seq<int>, i: nat)
    requires i < |keys| && IndexesOf(order, keys) && i !in order
    requires Distinct(order) && KeysAscend(order, keys)
    ensures Distinct(InsertIndex(order, keys, i)) && KeysAscend(InsertIndex(order, keys, i), keys)
  {
    if order != [] && keys[order[0]] <= keys[i] {
      var rest := InsertIndex(order[1..], keys, i);
      InsertKeepsOrder(order[1..], keys, i);
      forall q | 0 <= q < |rest| ensures order[0] != rest[q] && keys[order[0]] <= keys[rest[q]] {
        InsertBehindFirst(order, keys, i, q);
      }
      PrependKeepsOrder(order[0], rest, keys);
    }
  }

  lemma InsertBehindFirst(order: seq<nat>, keys: seq<int>, i: nat, q: nat)
    requires i < |keys| && IndexesOf(order, keys) && i !in order && order != []
    requires Distinct(order) && KeysAscend(order, keys) && keys[order[0]] <= keys[i]
    requires q < |InsertIndex(order[1..], keys, i)|
    ensures order[0] != InsertIndex(order[1..], keys, i)[q]
    ensures keys[order[0]] <= keys[InsertIndex(order[1..], keys, i)[q]]
  {
    var x := InsertIndex(order[1..], keys, i)[q];
    InsertMembers(order[1..], keys, i);
    assert x in InsertIndex(order[1..], keys, i);
    if x != i {
      var t :| 0 <= t < |order[1..]| && order[1..][t] == x;
      assert order[t + 1] == x;
    }
  }

  lemma PrependKeepsOrder(k: nat, rest: seq<nat>, keys: seq<int>)
    requires k < |keys| && IndexesOf(rest, keys) && Distinct(rest) && KeysAscend(rest, keys)
    requires forall q :: 0 <= q < |rest| ==> k != rest[q] && keys[k] <= keys[rest[q]]
    ensures Distinct([k] + rest) && IndexesOf([k] + rest, keys) && KeysAscend([k] + rest, keys)
  {
  }

  /** The stable ascending order of the first n keys. */
  function SortOrder(keys: seq<int>, n: nat): (order: seq<nat>)
    requires n <= |keys|
    ensures IndexesOf(order, keys) && |order| == n
  {
    if n == 0 then [] else InsertIndex(SortOrder(keys, n - 1), keys, n - 1)
  }

  lemma {:induction false} SortOrderSorts(keys: seq<int>, n: nat)
    requires n <= |keys|
    ensures Distinct(SortOrder(keys, n)) && KeysAscend(SortOrder(keys, n), keys)
    ensures forall k :: k in SortOrder(keys, n) <==> 0 <= k < n
  {
    if n > 0 {
      SortOrderSorts(keys, n - 1);
      InsertMembers(SortOrder(keys, n - 1), keys, n - 1);
      InsertKeepsOrder(SortOrder(keys, n - 1), keys, n - 1);
    }
  }

  // --- loading ----------------------------------------------------------

  function Pick<T>(s: seq<T>, order: seq<nat>): seq<T>
    requires forall p :: 0 <= p < |order| ==> order[p] < |s|
  {
    seq(|order|, i requires 0 <= i < |order| => s[order[i]])
  }

  /** Row j of the index is range from[j], and each range stands in exactly one row. */
  ghost predicate Shuffled(g: Index, rs: seq<Range>, from: seq<nat>) {
    && g.Valid() && |g.lows| == |from| == |rs|
    && (forall j :: 0 <= j < |from| ==> from[j] < |rs| && g.Row(j) == rs[from[j]])
    && Distinct(from)
    && (forall i :: 0 <= i < |rs| ==> i in from)
  }

  /** The index holds exactly the loaded ranges, in ascending order of their low ends. */
  ghost predicate Holds(g: Index, rs: seq<Range>) {
    Sorted(g.lows) && exists from: seq<nat> :: Shuffled(g, rs, from)
  }

  /** GeoIP.load: three lists filled side by side and reordered together when they are out of order. */
  method Load(rs: seq<Range>) returns (g: Index)
    ensures Holds(g, rs)
  {
    var lows: seq<int>, highs: seq<int>, ccs: seq<string> := [], [], [];
    for i := 0 to |rs|
      invariant |lows| == |highs| == |ccs| == i
      invariant forall k :: 0 <= k < i ==> lows[k] == rs[k].lo && highs[k] == rs[k].hi && ccs[k] == rs[k].cc
    {
      lows, highs, ccs := lows + [rs[i].lo], highs + [rs[i].hi], ccs + [rs[i].cc];
    }
    var outOfOrder := false;
    var k := 1;
    while k < |lows|
      invariant 1 <= k
      invariant !outOfOrder ==> forall j :: 0 < j < k && j < |lows| ==> lows[j - 1] <= lows[j]
    {
      if lows[k - 1] > lows[k] { outOfOrder := true; }
      k := k + 1;
    }
    ghost var from: seq<nat> := seq(|rs|, i => i);
    if outOfOrder {
      var order := SortOrder(lows, |lows|);
      SortOrderSorts(lows, |lows|);
      from := order;
      lows, highs, ccs := Pick(lows, order), Pick(highs, order), Pick(ccs, order);
    } else {
      forall i, j | 0 <= i < j < |lows| ensures lows[i] <= lows[j] { AscendingSorted(lows, i, j); }
      forall i | 0 <= i < |rs| ensures i in from { assert from[i] == i; }
    }
    g := Index(lows, highs, ccs);
    assert Shuffled(g, rs, from);
  }

  // --- lookup -----------------------------------------------------------

  /** The country of the first range, in file order, that contains the address. */
  function Scan(rs: seq<Range>, n: int): Option<string> {
    if rs == [] then None
    else if rs[0].lo <= n <= rs[0].hi then Known(rs[0].cc)
    else Scan(rs[1..], n)
  }

  /** How many leading keys are not above x. */
  function Rank(a: seq<int>, x: int): (r: nat)
    ensures r <= |a|
  {
    if a == [] || a[0] > x then 0 else 1 + Rank(a[1..], x)
  }

  lemma {:induction false} RankIs(a: seq<int>, x: int, r: nat)
    requires r <= |a|
    requires forall i :: 0 <= i < r ==> a[i] <= x
    requires r < |a| ==> a[r] > x
    ensures Rank(a, x) == r
  {
    if r > 0 { RankIs(a[1..], x, r - 1); }
  }

  /** bisect.bisect_right */
  method BisectRight(a: seq<int>, x: int) returns (lo: nat)
    requires Sorted(a)
    ensures lo == Rank(a, x)
    ensures forall i :: 0 <= i < lo ==> a[i] <= x
    ensures forall i :: lo <= i < |a| ==> a[i] > x
  {
    lo := 0;
    var hi := |a|;
    while lo < hi
      invariant lo <= hi <= |a|
      invariant forall i :: 0 <= i < lo ==> a[i] <= x
      invariant forall i :: hi <= i < |a| ==> a[i] > x
    {
      var mid := (lo + hi) / 2;
      if x < a[mid] { hi := mid; } else { lo := mid + 1; }
    }
    RankIs(a, x, lo);
  }

  /** GeoIP.lookup, None standing for text that is no IPv4 address. */
  method Lookup(g: Index, addr: Option<int>) returns (r: Option<string>)
    requires g.Valid() && Sorted(g.lows)
    ensures r == Found(g, addr)
  {
    if addr.None? { return None; }
    var n := addr.value;
    var i := BisectRight(g.lows, n);
    if 0 <= i - 1 < |g.lows| && g.lows[i - 1] <= n <= g.highs[i - 1] {
      return if Unknown(g.ccs[i - 1]) then None else Some(g.ccs[i - 1]);
    }
    return None;
  }

  /** The country of the last row that starts at or below the address, if the row reaches it. */
  function Found(g: Index, addr: Option<int>): Option<string>
    requires g.Valid()
  {
    if addr.None? then None
    else
      var i := Rank(g.lows, addr.value) - 1;
      if i >= 0 && g.lows[i] <= addr.value <= g.highs[i] then Known(g.ccs[i]) else None
  }

  predicate Contains(r: Range, n: int) { r.lo <= n <= r.hi }

  predicate Disjoint(rs: seq<Range>) {
    forall i, j :: 0 <= i < j < |rs| ==> rs[i].hi < rs[j].lo || rs[j].hi < rs[i].lo
  }

  predicate WellFormed(rs: seq<Range>) { forall i :: 0 <= i < |rs| ==> rs[i].lo <= rs[i].hi }

  lemma {:induction false} ScanIs(rs: seq<Range>, n: int, i: nat)
    requires i < |rs| && Contains(rs[i], n) && forall j :: 0 <= j < i ==> !Contains(rs[j], n)
    ensures Scan(rs, n) == Known(rs[i].cc)
  {
    if i > 0 {
      assert !Contains(rs[0], n);
      ScanIs(rs[1..], n, i - 1);
    }
  }

  lemma {:induction false} ScanNothing(rs: seq<Range>, n: int)
    requires forall j :: 0 <= j < |rs| ==> !Contains(rs[j], n)
    ensures Scan(rs, n) == None
  {
    if rs != [] {
      assert !Contains(rs[0], n);
      ScanNothing(rs[1..], n);
    }
  }

  lemma {:induction false} RankMeans(a: seq<int>, x: int)
    requires Sorted(a)
    ensures forall i :: 0 <= i < |a| ==> (a[i] <= x <==> i < Rank(a, x))
  {
    if a != [] && a[0] <= x {
      RankMeans(a[1..], x);
      assert forall i :: 0 < i < |a| ==> a[i] == a[1..][i - 1];
    }
  }

  lemma RowsApart(g: Index, rs: seq<Range>, from: seq<nat>, j: nat, i: nat)
    requires Sorted(g.lows) && Shuffled(g, rs, from) && Disjoint(rs) && WellFormed(rs)
    requires j < i < |rs|
    ensures g.highs[j] < g.lows[i]
  {
    assert g.Row(i) == rs[from[i]] && g.Row(j) == rs[from[j]];
    assert from[i] < from[j] || from[j] < from[i];
  }

  /** The row that contains an address is the last one starting at or below it. */
  lemma RowFound(g: Index, rs: seq<Range>, from: seq<nat>, j: nat, n: int)
    requires Sorted(g.lows) && Shuffled(g, rs, from) && Disjoint(rs) && WellFormed(rs)
    requires j < |rs| && Contains(g.Row(j), n)
    ensures Rank(g.lows, n) == j + 1
  {
    RankMeans(g.lows, n);
    var i := Rank(g.lows, n) - 1;
    assert g.lows[j] <= n && j <= i;
    if j < i { RowsApart(g, rs, from, j, i); }
  }

  /**
   For disjoint ranges in any file order, the bisection answers as a scan of the file would: with the
   country of the range that holds the address, unless that is unknown or no range does.
   */
  lemma LookupIsScan(g: Index, rs: seq<Range>, n: int)
    requires Holds(g, rs) && Disjoint(rs) && WellFormed(rs)
    ensures Found(g, Some(n)) == Scan(rs, n)
    ensures forall i :: 0 <= i < |rs| && rs[i].lo <= n <= rs[i].hi ==>
                          Found(g, Some(n))
                          == if rs[i].cc == "??" || rs[i].cc == "a1" || rs[i].cc == "a2" then None else Some(rs[i].cc)
    ensures (forall i :: 0 <= i < |rs| ==> !(rs[i].lo <= n <= rs[i].hi)) ==> Found(g, Some(n)) == None
  {
    FoundAsScanned(g, rs, n);
    hide Found, Scan, Holds, Disjoint, WellFormed;
    if forall i :: 0 <= i < |rs| ==> !Contains(rs[i], n) { ScanNothing(rs, n); }
    forall i | 0 <= i < |rs| && Contains(rs[i], n) ensures Scan(rs, n) == Known(rs[i].cc) {
      ScanOnly(rs, n, i);
    }
  }

  /** The first range that holds an address is the only one. */
  lemma ScanOnly(rs: seq<Range>, n: int, i: nat)
    requires Disjoint(rs) && i < |rs| && Contains(rs[i], n)
    ensures Scan(rs, n) == Known(rs[i].cc)
  {
    ScanIs(rs, n, i);
  }

  lemma FoundAsScanned(g: Index, rs: seq<Range>, n: int)
    requires Holds(g, rs) && Disjoint(rs) && WellFormed(rs)
    ensures Found(g, Some(n)) == Scan(rs, n)
  {
    var from: seq<nat> :| Shuffled(g, rs, from);
    if j :| 0 <= j < |rs| && Contains(g.Row(j), n) {
      RowFound(g, rs, from, j, n);
      var i := from[j];
      forall k | 0 <= k < i ensures !Contains(rs[k], n) {
        assert rs[i] == g.Row(j);
      }
      ScanIs(rs, n, i);
    } else {
      forall i | 0 <= i < |rs| ensures !Contains(rs[i], n) {
        assert i in from;
        var j :| 0 <= j < |from| && from[j] == i;
        assert g.Row(j) == rs[i];
      }
      ScanNothing(rs, n);
      RankMeans(g.lows, n);
      var i := Rank(g.lows, n) - 1;
      assert i >= 0 ==> !Contains(g.Row(i), n);
    }
  }
}
