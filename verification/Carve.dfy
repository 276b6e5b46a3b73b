/**
 Boot-time carving of a memory region: everything in [start, end) but the
 reserved intervals is handed to the allocator, after the intervals are sorted
 and merged in fixed arrays.
 */
module Carve {
  const PAGE: nat := 4096
  const MAX_RESERVED: nat := 34
  const MAX_MERGED: nat := 32

  datatype Interval = Interval(lo: nat, hi: nat)

  predicate Has(r: Interval, a: int) {
    r.lo <= a < r.hi
  }

  /** Some interval contains `a`. */
  ghost predicate In(rs: seq<Interval>, a: int) {
    exists k :: 0 <= k < |rs| && Has(rs[k], a)
  }

  predicate Forward(rs: seq<Interval>) {
    forall k :: 0 <= k < |rs| ==> rs[k].lo <= rs[k].hi
  }

  predicate Sorted(rs: seq<Interval>) {
    forall j, k :: 0 <= j < k < |rs| ==> rs[j].lo <= rs[k].lo
  }

  /** In order and with a gap between neighbours. */
  predicate Apart(rs: seq<Interval>) {
    forall j, k :: 0 <= j < k < |rs| ==> rs[j].hi < rs[k].lo
  }

  /** In order, none empty, none overlapping. */
  predicate Disjoint(rs: seq<Interval>) {
    && (forall k :: 0 <= k < |rs| ==> rs[k].lo < rs[k].hi)
    && (forall j, k :: 0 <= j < k < |rs| ==> rs[j].hi <= rs[k].lo)
  }

  function Max(a: nat, b: nat): nat {
    if a < b then b else a
  }

  function Min(a: nat, b: nat): nat {
    if a < b then a else b
  }

  // ----------------------------------------------------------------- sort

  function Swapped(s: seq<Interval>, i: nat, j: nat): seq<Interval>
    requires i < |s| && j < |s|
  {
    s[i := s[j]][j := s[i]]
  }

  /** The first `i` intervals are in place. */
  predicate Placed(s: seq<Interval>, i: nat) {
    forall j, k :: 0 <= j < i && j < k < |s| ==> s[j].lo <= s[k].lo
  }

  /** Interval `i` starts no later than those behind it up to `j`. */
  predicate LeastUpTo(s: seq<Interval>, i: nat, j: nat) {
    i < |s| && forall k :: i < k < j && k < |s| ==> s[i].lo <= s[k].lo
  }

  lemma SwapKeeps(s: seq<Interval>, i: nat, j: nat)
    requires i < j < |s| && Placed(s, i) && LeastUpTo(s, i, j) && s[j].lo < s[i].lo
    ensures Placed(Swapped(s, i, j), i) && LeastUpTo(Swapped(s, i, j), i, j + 1)
    ensures multiset(Swapped(s, i, j)) == multiset(s)
  {}

  method Exchange(a: array<Interval>, n: nat, i: nat, j: nat)
    requires i < j < n <= a.Length
    modifies a
    ensures a[..n] == Swapped(old(a[..n]), i, j)
  {
    a[i], a[j] := a[j], a[i];
  }

  /** The exchange sort on interval starts, in place. */
  method Sort(a: array<Interval>, n: nat)
    requires n <= a.Length
    modifies a
    ensures Sorted(a[..n]) && multiset(a[..n]) == old(multiset(a[..n]))
  {
    for i := 0 to n
      invariant multiset(a[..n]) == old(multiset(a[..n])) && Placed(a[..n], i)
    {
      for j := i + 1 to n
        invariant multiset(a[..n]) == old(multiset(a[..n])) && Placed(a[..n], i) && LeastUpTo(a[..n], i, j)
      {
        if a[j].lo < a[i].lo {
          SwapKeeps(a[..n], i, j);
          Exchange(a, n, i, j);
        }
      }
    }
  }

  /** A permutation covers the same addresses. */
  lemma SameCover(s: seq<Interval>, t: seq<Interval>)
    requires multiset(s) == multiset(t)
    ensures forall a :: In(s, a) <==> In(t, a)
    ensures Forward(s) ==> Forward(t)
    ensures forall start, end :: Within(s, start, end) ==> Within(t, start, end)
  {
    forall r | r in s || r in t ensures r in s && r in t {
      assert multiset(s)[r] == multiset(t)[r];
    }
    forall a ensures In(s, a) <==> In(t, a) {
      if In(s, a) {
        var k :| 0 <= k < |s| && Has(s[k], a);
        assert s[k] in t;
      }
      if In(t, a) {
        var k :| 0 <= k < |t| && Has(t[k], a);
        assert t[k] in s;
      }
    }
    forall k | 0 <= k < |t| ensures t[k] in s { assert t[k] in t; }
  }

  // ---------------------------------------------------------------- merge

  /** One interval, starting no earlier than the last merged one, is put in. */
  function Put(m: seq<Interval>, r: Interval): seq<Interval> {
    if m == [] || r.lo > m[|m| - 1].hi then m + [r]
    else if r.hi > m[|m| - 1].hi then m[|m| - 1 := Interval(m[|m| - 1].lo, r.hi)]
    else m
  }

  lemma PutCovers(m: seq<Interval>, r: Interval, a: int)
    requires Forward(m) && r.lo <= r.hi && (m != [] ==> m[|m| - 1].lo <= r.lo)
    ensures In(Put(m, r), a) <==> In(m, a) || Has(r, a)
  {
    var p := Put(m, r);
    if In(m, a) {
      var k :| 0 <= k < |m| && Has(m[k], a);
      assert Has(p[k], a);
    }
    if Has(r, a) { assert Has(p[|p| - 1], a); }
    if In(p, a) {
      var k :| 0 <= k < |p| && Has(p[k], a);
      assert k < |m| - 1 ==> p[k] == m[k];
      assert k == |m| - 1 ==> Has(m[k], a) || Has(r, a);
    }
  }

  /** The merge loop over the first `n` sorted intervals. */
  method Merge(a: array<Interval>, n: nat, ghost start: nat, ghost end: nat) returns (m: seq<Interval>)
    requires n <= a.Length && n <= MAX_MERGED && Sorted(a[..n]) && Forward(a[..n]) && Within(a[..n], start, end)
    ensures |m| <= n && Forward(m) && Apart(m) && Within(m, start, end)
    ensures forall x :: In(m, x) <==> In(a[..n], x)
  {
    m := [];
    ghost var s := a[..n];
    for i := 0 to n
      invariant |m| <= i && Merged(m, s[..i]) && Within(m, start, end)
    {
      assert a[i] == s[i];
      MergeTurn(m, s, i, start, end);
      m := Put(m, a[i]);
    }
    assert s[..n] == s;
  }

  /** Whole pages of [start, end]. */
  predicate Within(rs: seq<Interval>, start: nat, end: nat) {
    forall k :: 0 <= k < |rs| ==> start <= rs[k].lo && rs[k].hi <= end && Whole(rs[k])
  }

  predicate Whole(r: Interval) {
    r.lo % PAGE == 0 && r.hi % PAGE == 0
  }

  /** `m` is what the merge has made of `s`. */
  ghost predicate Merged(m: seq<Interval>, s: seq<Interval>) {
    && Forward(m) && Apart(m)
    && (m != [] ==> exists k :: 0 <= k < |s| && s[k].lo == m[|m| - 1].lo)
    && forall x :: In(m, x) <==> In(s, x)
  }

  lemma MergeTurn(m: seq<Interval>, s: seq<Interval>, i: nat, start: nat, end: nat)
    requires i < |s| && Sorted(s) && Forward(s) && Merged(m, s[..i]) && Within(s, start, end) && Within(m, start, end)
    ensures Merged(Put(m, s[i]), s[..i + 1]) && Within(Put(m, s[i]), start, end) && |Put(m, s[i])| <= |m| + 1
  {
    var r, p := s[i], Put(m, s[i]);
    assert s[..i + 1] == s[..i] + [r];
    assert m != [] ==> m[|m| - 1].lo <= r.lo;
    forall x ensures In(p, x) <==> In(s[..i + 1], x) {
      PutCovers(m, r, x);
      SnocCovers(s[..i], r, x);
    }
    assert s[..i + 1][i] == r;
    assert forall k :: 0 <= k < i ==> s[..i + 1][k] == s[..i][k];
  }

  lemma SnocCovers(s: seq<Interval>, r: Interval, x: int)
    ensures In(s + [r], x) <==> In(s, x) || Has(r, x)
  {
    var t := s + [r];
    if In(s, x) {
      var k :| 0 <= k < |s| && Has(s[k], x);
      assert Has(t[k], x);
    }
    if Has(r, x) { assert Has(t[|s|], x); }
  }

  // ----------------------------------------------------------------- gaps

  /** The gaps between merged intervals, which all lie in [start, end]. */
  method Gaps(m: seq<Interval>, start: nat, end: nat) returns (g: seq<Interval>)
    requires Forward(m) && Apart(m) && Within(m, start, end) && start % PAGE == 0 && end % PAGE == 0
    ensures Disjoint(g) && Within(g, start, end)
    ensures forall a :: In(g, a) <==> start <= a < end && !In(m, a)
  {
    g := [];
    var cur := start;
    for i := 0 to |m|
      invariant start <= cur && cur % PAGE == 0 && (i == 0 ==> cur == start) && (i > 0 ==> cur == m[i - 1].hi)
      invariant Disjoint(g) && Within(g, start, cur)
      invariant forall a :: In(g, a) <==> start <= a < cur && !In(m[..i], a)
    {
      var r := m[i];
      GapTurn(m, i, g, start, cur);
      if cur < r.lo {
        g := g + [Interval(cur, r.lo)];
      }
      cur := Max(cur, r.hi);
    }
    assert m[..|m|] == m;
    if cur < end {
      forall a ensures In(g + [Interval(cur, end)], a) <==> In(g, a) || cur <= a < end {
        SnocCovers(g, Interval(cur, end), a);
      }
      forall a | cur <= a ensures !In(m, a) {
        Beyond(m, cur, a);
      }
      g := g + [Interval(cur, end)];
    }
  }

  lemma Beyond(m: seq<Interval>, cur: nat, a: int)
    requires Apart(m) && Forward(m) && cur <= a && (m != [] ==> cur >= m[|m| - 1].hi)
    ensures !In(m, a)
  {}

  lemma GapTurn(m: seq<Interval>, i: nat, g: seq<Interval>, start: nat, cur: nat)
    requires i < |m| && Apart(m) && Forward(m) && start <= cur && (i == 0 ==> cur == start <= m[0].lo)
    requires (i > 0 ==> cur == m[i - 1].hi)
    requires forall a :: In(g, a) <==> start <= a < cur && !In(m[..i], a)
    ensures var h := if cur < m[i].lo then g + [Interval(cur, m[i].lo)] else g;
      forall a :: In(h, a) <==> start <= a < Max(cur, m[i].hi) && !In(m[..i + 1], a)
  {
    var h := if cur < m[i].lo then g + [Interval(cur, m[i].lo)] else g;
    assert m[..i + 1] == m[..i] + [m[i]];
    forall a ensures In(h, a) <==> start <= a < Max(cur, m[i].hi) && !In(m[..i + 1], a) {
      SnocCovers(m[..i], m[i], a);
      SnocCovers(g, Interval(cur, m[i].lo), a);
      if cur <= a { Beyond(m[..i], cur, a); }
    }
  }

  // -------------------------------------------------------- whole carving

  function AlignDown(a: nat): nat {
    a / PAGE * PAGE
  }

  function AlignUp(a: nat): nat {
    (a + (PAGE - 1)) / PAGE * PAGE
  }

  /** What is reserved at boot: the metadata arena, the kernel's bss, the boot
      modules and the page of the boot information. */
  datatype Boot = Boot(arena: Interval, bss: Interval, modules: seq<Interval>, info: nat)

  /** The boot code rounds all but the modules to pages beforehand. */
  predicate Rounded(b: Boot) {
    Whole(b.arena) && Whole(b.bss) && b.arena.lo <= b.arena.hi && b.bss.lo <= b.bss.hi && b.info % PAGE == 0
  }

  /** 1 if interval `r` is listed for the region. */
  function Met(r: Interval, start: nat, end: nat): nat {
    if r.lo < end && r.hi > start then 1 else 0
  }

  function MetModules(b: Boot, n: nat, start: nat, end: nat): nat
    requires n <= |b.modules|
  {
    if n == 0 then 0
    else
      var r := Module(b, n - 1);
      MetModules(b, n - 1, start, end) + MetPages(r, start, end)
  }

  /** The same, for intervals that may be empty or reversed. */
  function MetPages(r: Interval, start: nat, end: nat): nat {
    if Clip(r, start, end).lo < Clip(r, start, end).hi then Met(r, start, end) else 0
  }

  /** How many intervals the region's list gets. */
  function Listed(b: Boot, start: nat, end: nat): nat {
    Met(b.arena, start, end) + Met(b.bss, start, end) + MetModules(b, |b.modules|, start, end)
      + if start <= b.info < end then 1 else 0
  }

  /** The pages module `k` touches. */
  function Module(b: Boot, k: nat): Interval
    requires k < |b.modules|
  {
    Interval(AlignDown(b.modules[k].lo), AlignUp(b.modules[k].hi))
  }

  /** Address `x` belongs to one of the first `n` modules. */
  ghost predicate InModules(b: Boot, n: nat, x: int) {
    exists k: nat :: k < n && k < |b.modules| && Has(Module(b, k), x)
  }

  ghost predicate Reserved(b: Boot, x: int) {
    Has(b.arena, x) || Has(b.bss, x) || InModules(b, |b.modules|, x) || Has(Interval(b.info, b.info + PAGE), x)
  }

  /** What of interval `r` lies in [start, end). */
  function Clip(r: Interval, start: nat, end: nat): Interval {
    Interval(Max(r.lo, start), Min(r.hi, end))
  }

  /** The list so far: within the region, and within it covering just what
      `covered` says. */
  ghost predicate Lists(s: seq<Interval>, start: nat, end: nat, covered: iset<int>) {
    && Forward(s)
    && Within(s, start, end)
    && (forall x :: start <= x < end ==> (In(s, x) <==> x in covered))
  }

  ghost function Points(r: Interval): iset<int> {
    iset x | Has(r, x)
  }

  ghost function ModulePoints(b: Boot, n: nat): iset<int> {
    iset x | InModules(b, n, x)
  }

  ghost function ReservedPoints(b: Boot): iset<int> {
    iset x | Reserved(b, x)
  }

  /** An interval that meets the region is listed clipped, one that does not is
      left out. */
  lemma ListsMore(s: seq<Interval>, r: Interval, start: nat, end: nat, covered: iset<int>)
    requires Lists(s, start, end, covered) && start <= end && r.lo <= r.hi && Whole(r) && start % PAGE == 0
    requires end % PAGE == 0
    ensures r.lo < end && r.hi > start ==> Lists(s + [Clip(r, start, end)], start, end, covered + Points(r))
    ensures !(r.lo < end && r.hi > start) || Clip(r, start, end).lo >= Clip(r, start, end).hi ==>
      Lists(s, start, end, covered + Points(r))
  {
    var c := Clip(r, start, end);
    forall x | start <= x < end ensures Has(c, x) <==> Has(r, x) {}
    forall x ensures In(s + [c], x) <==> In(s, x) || Has(c, x) {
      SnocCovers(s, c, x);
    }
  }

  /** Put an interval that meets the region behind the first `n`. */
  method Note(a: array<Interval>, n: nat, r: Interval, start: nat, end: nat, ghost covered: iset<int>) returns (m: nat)
    requires n + Met(r, start, end) <= a.Length && start <= end && r.lo <= r.hi && Lists(a[..n], start, end, covered)
    requires Whole(r) && start % PAGE == 0 && end % PAGE == 0
    modifies a
    ensures m == n + Met(r, start, end) && Lists(a[..m], start, end, covered + Points(r))
  {
    ListsMore(a[..n], r, start, end, covered);
    m := n;
    if r.lo < end && r.hi > start {
      ghost var s := a[..n];
      a[n] := Clip(r, start, end);
      m := n + 1;
      assert a[..m] == s + [Clip(r, start, end)];
    }
  }

  /** The module loop. */
  method NoteModules(a: array<Interval>, n: nat, b: Boot, start: nat, end: nat, ghost covered: iset<int>)
    returns (m: nat)
    requires n + MetModules(b, |b.modules|, start, end) <= a.Length && start <= end
    requires Lists(a[..n], start, end, covered)
    requires start % PAGE == 0 && end % PAGE == 0
    modifies a
    ensures m == n + MetModules(b, |b.modules|, start, end)
    ensures Lists(a[..m], start, end, covered + ModulePoints(b, |b.modules|))
  {
    m := n;
    assert covered + ModulePoints(b, 0) == covered;
    for i := 0 to |b.modules|
      invariant n <= m <= a.Length && m == n + MetModules(b, i, start, end)
      invariant Lists(a[..m], start, end, covered + ModulePoints(b, i))
    {
      MetGrows(b, i + 1, |b.modules|, start, end);
      ModuleWhole(b, i);
      m := NoteModule(a, m, Module(b, i), start, end, covered + ModulePoints(b, i));
      ModuleMore(b, i, covered);
    }
  }

  /** One module, unless its pages miss the region. */
  method NoteModule(a: array<Interval>, n: nat, r: Interval, start: nat, end: nat, ghost covered: iset<int>)
    returns (m: nat)
    requires start <= end && Whole(r) && start % PAGE == 0 && end % PAGE == 0 && n <= a.Length
    requires Lists(a[..n], start, end, covered)
    requires n + MetPages(r, start, end) <= a.Length
    modifies a
    ensures m == n + MetPages(r, start, end)
    ensures Lists(a[..m], start, end, covered + Points(r))
  {
    m := n;
    if r.lo <= r.hi { ListsMore(a[..n], r, start, end, covered); }
    ghost var s := a[..n];
    if r.lo < end && r.hi > start {
      var k := Clip(r, start, end);
      if k.lo < k.hi {
        a[n] := k;
        m := n + 1;
        assert a[..m] == s + [k];
      }
    }
  }

  lemma ModuleWhole(b: Boot, k: nat)
    requires k < |b.modules|
    ensures Whole(Module(b, k))
  {}

  lemma {:induction false} MetGrows(b: Boot, i: nat, n: nat, start: nat, end: nat)
    requires i <= n <= |b.modules|
    ensures MetModules(b, i, start, end) <= MetModules(b, n, start, end)
    decreases n
  {
    if i < n { MetGrows(b, i, n - 1, start, end); }
  }

  lemma ModuleMore(b: Boot, i: nat, covered: iset<int>)
    requires i < |b.modules|
    ensures covered + ModulePoints(b, i + 1) == covered + ModulePoints(b, i) + Points(Module(b, i))
  {}

  /** The page of the boot information is in the region or outside it. */
  lemma InfoFits(info: nat, start: nat, end: nat)
    requires info % PAGE == 0 && start % PAGE == 0 && end % PAGE == 0
    ensures info < end ==> info + PAGE <= end
    ensures info < start ==> info + PAGE <= start
  {}

  /** The reserved intervals that meet the region, clipped to it. */
  method Collect(b: Boot, start: nat, end: nat) returns (a: array<Interval>, n: nat)
    requires Listed(b, start, end) <= MAX_MERGED && start <= end && start % PAGE == 0 && end % PAGE == 0 && Rounded(b)
    ensures fresh(a) && a.Length == MAX_RESERVED && n == Listed(b, start, end)
    ensures Lists(a[..n], start, end, ReservedPoints(b))
  {
    a := new Interval[MAX_RESERVED](_ => Interval(0, 0));
    assert Lists(a[..0], start, end, iset{});
    n := Note(a, 0, b.arena, start, end, iset{});
    n := Note(a, n, b.bss, start, end, iset{} + Points(b.arena));
    n := NoteModules(a, n, b, start, end, iset{} + Points(b.arena) + Points(b.bss));
    InfoFits(b.info, start, end);
    n := NoteInfo(a, n, b.info, start, end, iset{} + Points(b.arena) + Points(b.bss) + ModulePoints(b, |b.modules|));
    AllReserved(b);
  }

  lemma AllReserved(b: Boot)
    ensures iset{} + Points(b.arena) + Points(b.bss) + ModulePoints(b,
      |b.modules|) + Points(Interval(b.info, b.info + PAGE))
         == ReservedPoints(b)
  {}

  method NoteInfo(a: array<Interval>, n: nat, info: nat, start: nat, end: nat, ghost covered: iset<int>)
    returns (m: nat)
    requires n < a.Length && start <= end && Lists(a[..n], start, end, covered)
    requires info % PAGE == 0 && start % PAGE == 0 && end % PAGE == 0
    requires (info < end ==> info + PAGE <= end) && (info < start ==> info + PAGE <= start)
    modifies a
    ensures m == n + (if start <= info < end then 1 else 0)
    ensures Lists(a[..m], start, end, covered + Points(Interval(info, info + PAGE)))
  {
    var page := Interval(info, info + PAGE);
    ListsMore(a[..n], page, start, end, covered);
    m := n;
    ghost var s := a[..n];
    if start <= info < end {
      a[n] := page;
      m := n + 1;
      assert a[..m] == s + [Clip(page, start, end)];
    }
  }

  /** The ranges of whole pages that add_free_region_skipping passes to the
      allocator, in order and disjoint, are exactly the region less everything
      reserved. */
  method CarveRegion(b: Boot, start: nat, end: nat) returns (ranges: seq<Interval>)
    requires Listed(b, start, end) <= MAX_MERGED && start <= end && start % PAGE == 0 && end % PAGE == 0 && Rounded(b)
    ensures Disjoint(ranges) && Within(ranges, start, end)
    ensures forall x :: In(ranges, x) <==> start <= x < end && !Reserved(b, x)
  {
    var a, n := Collect(b, start, end);
    ghost var s := a[..n];
    Sort(a, n);
    SameCover(s, a[..n]);
    var m := Merge(a, n, start, end);
    ranges := Gaps(m, start, end);
  }
}
