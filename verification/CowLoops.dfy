/** One turn of each fork and teardown loop, as lemmas over states. */
module CowLoops {
  import opened Options
  import opened CowState
  import opened CowInvariant
  import opened CowFork
  import opened CowShare

  /** A page the loops have yet to visit reads as it did at the start. */
  ghost predicate Visitable(a: State, m0: seq<Frame>, place: map<nat, Path>, q: nat) {
    && q in place && q < |a.mem| && q < |m0| && q in a.used && a.mem[q] == m0[q]
    && (Depth(place[q]) < LEAF ==>
          m0[q].Table? && |m0[q].es| == ENTRIES && q in a.typed && KernelEntriesOk(m0[q].es, Depth(place[q])))
  }

  ghost predicate AllVisitable(a: State, m0: seq<Frame>, place: map<nat, Path>, h: set<nat>) {
    forall q :: q in h ==> Visitable(a, m0, place, q)
  }

  /** The table `p` at path `v` of space `r`, and all below it, are untouched. */
  ghost predicate TableReady(a: State, m0: seq<Frame>, place: map<nat, Path>, r: nat, v: Path, p: nat) {
    && Exact(m0, r, place) && Valid(v) && Depth(v) < LEAF && Node(m0, r, v) == Some(p)
    && |a.lcount| == |a.mem| && |a.tcount| == |a.mem|
    && Visitable(a, m0, place, p) && AllVisitable(a, m0, place, BelowSet(place, v, ENTRIES))
  }

  /** The pages behind entry `i` of the table at `v`. */
  ghost function EntrySet(m0: seq<Frame>, r: nat, place: map<nat, Path>, v: Path, i: nat): set<nat> {
    match Node(m0, r, Sub(v, i))
    case None => {}
    case Some(x) => {x} + BelowSet(place, Sub(v, i), ENTRIES)
  }

  ghost predicate EntryReady(a: State, m0: seq<Frame>, place: map<nat, Path>, r: nat, v: Path, p: nat, i: nat) {
    && Exact(m0, r, place) && Valid(Sub(v, i)) && Node(m0, r, v) == Some(p)
    && |a.lcount| == |a.mem| && |a.tcount| == |a.mem| && Visitable(a, m0, place, p)
    && (Node(m0, r, Sub(v, i)).Some? && Depth(v) < 3 ==>
      TableReady(a, m0, place, r, Sub(v, i), Node(m0, r, Sub(v, i)).value))
  }

  // ----------------------------------------------------------- set lemmas

  lemma BelowGrows(place: map<nat, Path>, v: Path, n: nat, m: nat)
    requires n <= m
    ensures BelowSet(place, v, n) <= BelowSet(place, v, m)
  {
    forall q | q in place && Beneath(place[q], v, n) ensures Beneath(place[q], v, m) {
      BeneathGrows(place[q], v, n, m);
    }
  }

  lemma BeneathGrows(w: Path, v: Path, n: nat, m: nat)
    requires n <= m && Beneath(w, v, n)
    ensures Beneath(w, v, m)
  {}

  lemma NotBelowSelf(place: map<nat, Path>, v: Path, n: nat)
    ensures forall q :: q in place && place[q] == v ==> q !in BelowSet(place, v, n)
  {
    if Beneath(v, v, n) { BeneathDepth(v, v, n); }
  }

  lemma LeafHasNothingBelow(m0: seq<Frame>, r: nat, place: map<nat, Path>, w: Path)
    requires Exact(m0, r, place) && Depth(w) == LEAF
    ensures BelowSet(place, w, ENTRIES) == {}
  {
    forall q | q in place && Beneath(place[q], w, ENTRIES) ensures false {
      BeneathDepth(place[q], w, ENTRIES);
    }
  }

  lemma BelowTop(w: Path)
    requires Valid(w)
    ensures Beneath(w, Top, USER_SLOTS) <==> w.Sub?
  {}

  /** The next entry adds its own pages, none of them seen before. */
  lemma NextEntry(m0: seq<Frame>, place: map<nat, Path>, r: nat, v: Path, p: nat, i: nat)
    requires Exact(m0, r, place) && Valid(v) && Valid(Sub(v, i)) && Node(m0, r, v) == Some(p)
    ensures BelowSet(place, v, i + 1) == BelowSet(place, v, i) + EntrySet(m0, r, place, v, i)
    ensures BelowSet(place, v, i) !! EntrySet(m0, r, place, v, i)
    ensures EntrySet(m0, r, place, v, i) <= BelowSet(place, v, ENTRIES)
    ensures p !in BelowSet(place, v, i)
  {
    BelowNext(m0, r, place, v, i);
    BelowGrows(place, v, i + 1, ENTRIES);
    NotBelowSelf(place, v, i);
  }

  // ---------------------------------------------------------- fork turns

  ghost function LeafCounts(place: map<nat, Path>, c: seq<nat>, h: set<nat>): seq<nat> {
    seq(|c|, q requires 0 <= q < |c| => if AtDepth(place, h, q, LEAF) then Shared(c[q], U8_MAX) else c[q])
  }

  /** Entry `i` of a leaf table: a user leaf adds its page, anything else adds
      nothing. */
  lemma LeafTurn(a: State, m0: seq<Frame>, place: map<nat, Path>, r: nat, v: Path, p: nat, i: nat)
    requires TableReady(a, m0, place, r, v, p) && Depth(v) == 3 && i < ENTRIES
    ensures var e := m0[p].es[i]; var c := LeafCounts(place, a.lcount, BelowSet(place, v, i));
      && a.mem[p] == m0[p] && |c| == |a.lcount|
      && (if e.present && e.user then
            && e.page < |c| && e.page in a.used
            && LeafCounts(place, a.lcount, BelowSet(place, v, i + 1)) == c[e.page := Shared(c[e.page], U8_MAX)]
          else LeafCounts(place, a.lcount, BelowSet(place, v, i + 1)) == c)
  {
    var e := m0[p].es[i];
    NextEntry(m0, place, r, v, p, i);
    if e.present && e.user {
      LeafHasNothingBelow(m0, r, place, Sub(v, i));
      assert EntrySet(m0, r, place, v, i) == {e.page};
      assert Visitable(a, m0, place, e.page);
      var c := LeafCounts(place, a.lcount, BelowSet(place, v, i));
      assert LeafCounts(place, a.lcount, BelowSet(place, v, i + 1)) == c[e.page := Shared(c[e.page], U8_MAX)];
    } else {
      assert EntrySet(m0, r, place, v, i) == {};
    }
  }

  lemma CountedReady(b: State, b1: State, m0: seq<Frame>, place: map<nat, Path>, r: nat, w: Path, x: nat)
    requires TableReady(b, m0, place, r, w, x)
    requires b1 == b.(tcount := b.tcount[x := Shared(b.tcount[x], U16_MAX)], used := b.used + {x})
    ensures b1.used == b.used && TableReady(b1, m0, place, r, w, x)
  {}

  /** Counting a leaf table and sharing its leaves shares its whole subtree. */
  lemma LeavesShared(b: State, d: State, m0: seq<Frame>, place: map<nat, Path>, r: nat, w: Path, x: nat)
    requires TableReady(b, m0, place, r, w, x) && Depth(w) == 3
    requires d == b.(tcount := b.tcount[x := Shared(b.tcount[x], U16_MAX)],
                     mem := b.mem[x := ReadOnly(b.mem[x])],
                     lcount := LeafCounts(place, b.lcount, BelowSet(place, w, ENTRIES)))
    ensures d == ShareAll(place, b, {x} + BelowSet(place, w, ENTRIES))
  {
    var h := {x} + BelowSet(place, w, ENTRIES);
    forall q | q in BelowSet(place, w, ENTRIES) ensures q in place && Depth(place[q]) == LEAF {
      BeneathDepth(place[q], w, ENTRIES);
      assert Valid(place[q]);
    }
    var e := ShareAll(place, b, h);
    assert d.mem == e.mem;
    assert d.tcount == e.tcount;
    assert d.lcount == e.lcount;
  }

  /** Counting a table and sharing what lies below it shares its subtree. */
  lemma TableShared(b: State, m0: seq<Frame>, place: map<nat, Path>, r: nat, w: Path, x: nat)
    requires TableReady(b, m0, place, r, w, x) && Depth(w) < 3
    ensures ShareAll(place, b.(tcount := b.tcount[x := Shared(b.tcount[x], U16_MAX)]), BelowSet(place, w, ENTRIES))
      == ShareAll(place, b, {x} + BelowSet(place, w, ENTRIES))
  {
    NotBelowSelf(place, w, ENTRIES);
    var b1 := b.(tcount := b.tcount[x := Shared(b.tcount[x], U16_MAX)]);
    var c := ShareAll(place, b, {x});
    assert c.mem == b1.mem && c.tcount == b1.tcount && c.lcount == b1.lcount;
    ShareTwice(place, b, {x}, BelowSet(place, w, ENTRIES));
  }

  lemma SharedStillReady(a: State, m0: seq<Frame>, place: map<nat, Path>, h: set<nat>, q: nat)
    requires Visitable(a, m0, place, q) && q !in h
    ensures Visitable(ShareAll(place, a, h), m0, place, q)
  {}

  /** A turn of a middle fork loop at entry `i` of the table `p`. */
  lemma ShareTurn(a: State, m0: seq<Frame>, place: map<nat, Path>, r: nat, v: Path, p: nat, i: nat)
    requires TableReady(a, m0, place, r, v, p) && Depth(v) < 3 && Valid(Sub(v, i))
    ensures var b := ShareAll(place, a, BelowSet(place, v, i));
      && p < |b.mem| && b.mem[p] == m0[p] && m0[p].Table? && i < |m0[p].es|
      && match Node(m0, r, Sub(v, i))
         case None => b == ShareAll(place, a, BelowSet(place, v, i + 1))
         case Some(x) =>
           && TableReady(b, m0, place, r, Sub(v, i), x)
           && ShareAll(place, b, {x} + BelowSet(place, Sub(v, i), ENTRIES))
             == ShareAll(place, a, BelowSet(place, v, i + 1))
  {
    var h := BelowSet(place, v, i);
    var b := ShareAll(place, a, h);
    NextEntry(m0, place, r, v, p, i);
    SharedStillReady(a, m0, place, h, p);
    ShareTwice(place, a, h, EntrySet(m0, r, place, v, i));
    if Node(m0, r, Sub(v, i)).Some? {
      forall q | q in EntrySet(m0, r, place, v, i) ensures Visitable(b, m0, place, q) {
        assert Visitable(a, m0, place, q);
        SharedStillReady(a, m0, place, h, q);
      }
    } else {
      assert BelowSet(place, v, i + 1) == h;
    }
  }

  /** A turn of the outer fork loop, whatever the child's root `c` holds. */
  lemma RootTurn(a: State, m0: seq<Frame>, place: map<nat, Path>, r: nat, c: nat, f: Frame, i: nat)
    requires TableReady(a, m0, place, r, Top, r) && c !in place && c < |a.mem| && i < USER_SLOTS
    ensures var a2 := a.(mem := a.mem[c := f]); var b := ShareAll(place, a2, BelowSet(place, Top, i));
      && r < |b.mem| && b.mem[r] == m0[r] && m0[r].Table? && i < |m0[r].es| && b.mem[c] == f
      && match Node(m0, r, Sub(Top, i))
         case None => b == ShareAll(place, a2, BelowSet(place, Top, i + 1))
         case Some(x) =>
           && TableReady(b, m0, place, r, Sub(Top, i), x)
           && ShareAll(place, b, {x} + BelowSet(place, Sub(Top, i), ENTRIES))
             == ShareAll(place, a2, BelowSet(place, Top, i + 1))
  {
    var a2 := a.(mem := a.mem[c := f]);
    forall q | q in BelowSet(place, Top, ENTRIES) ensures Visitable(a2, m0, place, q) {
      assert Visitable(a, m0, place, q);
    }
    assert TableReady(a2, m0, place, r, Top, r);
    ShareTurn(a2, m0, place, r, Top, r, i);
  }

  lemma RootSlot(a: State, place: map<nat, Path>, h: set<nat>, c: nat, f: Frame, f2: Frame)
    requires c !in place && c < |a.mem|
    ensures var b := ShareAll(place, a.(mem := a.mem[c := f]), h);
      b.(mem := b.mem[c := f2]) == ShareAll(place, a.(mem := a.mem[c := f2]), h)
  {}

  lemma ShareKeepsRoot(a: State, place: map<nat, Path>, h: set<nat>, c: nat)
    requires c !in place && c < |a.mem|
    ensures ShareAll(place, a, h).mem[c] == a.mem[c] && |ShareAll(place, a, h).mem| == |a.mem|
  {}

  // ------------------------------------------------------------ the fork

  function Seeded(kernel: seq<Entry>): (es: seq<Entry>)
    requires |kernel| == ENTRIES
    ensures |es| == ENTRIES
  {
    seq(ENTRIES, j requires 0 <= j < ENTRIES => if j < 2 || j >= USER_SLOTS then kernel[j] else ABSENT)
  }

  /** The part of `place` that space `r` reaches. */
  ghost function Restrict(place: map<nat, Path>, m0: seq<Frame>, r: nat): map<nat, Path> {
    map q | q in place && Valid(place[q]) && Node(m0, r, place[q]) == Some(q) :: place[q]
  }

  lemma RestrictExact(s: State, place: map<nat, Path>, r: nat)
    requires Placed(s, place) && r in s.roots
    ensures Exact(s.mem, r, Restrict(place, s.mem, r))
  {}

  lemma ForkReady(s: State, a: State, place0: map<nat, Path>, r: nat, c: nat)
    requires Inv(s, place0) && r in s.roots && c < |s.mem| && c !in s.used
    requires |a.mem| == |s.mem| && |a.tcount| == |s.mem| && |a.lcount| == |s.mem|
    requires a.used == s.used + {c} && a.typed == s.typed + {c}
    requires forall q :: 0 <= q < |s.mem| && q != c ==> a.mem[q] == s.mem[q]
    ensures c !in Restrict(place0, s.mem, r)
    ensures TableReady(a, s.mem, Restrict(place0, s.mem, r), r, Top, r)
  {
    var place := Restrict(place0, s.mem, r);
    RestrictExact(s, place0, r);
    assert Node(s.mem, r, Top) == Some(r);
    forall q | q in place ensures q != c && Visitable(a, s.mem, place, q) {
      assert OwnedAt(s, place[q], q);
    }
  }

  lemma PlacedDepths(s: State, place0: map<nat, Path>, r: nat, q: nat, d: nat)
    requires Placed(s, place0) && r in s.roots && 1 <= d <= 4
    ensures var place := Restrict(place0, s.mem, r);
      Reaches(s.mem, r, q, d) <==> AtDepth(place, BelowSet(place, Top, USER_SLOTS), q, d)
  {
    var place := Restrict(place0, s.mem, r);
    RestrictExact(s, place0, r);
    if q in place { BelowTop(place[q]); }
    if Reaches(s.mem, r, q, d) {
      var v :| Valid(v) && Depth(v) == d && Node(s.mem, r, v) == Some(q);
      assert place[q] == v;
    }
  }

  lemma PlacedAll(s: State, place0: map<nat, Path>, r: nat, q: nat)
    requires Placed(s, place0) && r in s.roots
    ensures
      var place := Restrict(place0, s.mem, r);
      var h := BelowSet(place, Top, USER_SLOTS);
      && (Reaches(s.mem, r, q, 3) <==> AtDepth(place, h, q, 3))
      && (Reaches(s.mem, r, q, 4) <==> AtDepth(place, h, q, 4))
      && (ReachesTable(s.mem, r, q) <==> TableIn(place, h, q))
  {
    PlacedDepths(s, place0, r, q, 1);
    PlacedDepths(s, place0, r, q, 2);
    PlacedDepths(s, place0, r, q, 3);
    PlacedDepths(s, place0, r, q, 4);
  }

  lemma SharedIsForked(s: State, a: State, b: State, place0: map<nat, Path>, r: nat, c: nat)
    requires Inv(s, place0) && r in s.roots && c < |s.mem| && c !in s.used && |s.roots| < MAX_TASKS
    requires |a.mem| == |s.mem| && a.used == s.used + {c} && a.typed == s.typed + {c} && a.roots == s.roots
    requires a.kernel == s.kernel
    requires forall q :: 0 <= q < |s.mem| && q != c ==> a.mem[q] == s.mem[q]
    requires |a.tcount| == |s.mem| && a.lcount == s.lcount && a.tcount[c] <= U16_MAX
    requires forall q :: 0 <= q < |s.mem| && q != c ==> a.tcount[q] == s.tcount[q]
    requires |b.mem| == |s.mem| && b.mem[c].Table? && |b.mem[c].es| == ENTRIES
    requires var place := Restrict(place0, s.mem, r);
      b.(roots := s.roots) == ShareAll(place, a.(mem := a.mem[c := b.mem[c]]), BelowSet(place, Top, USER_SLOTS))
    requires b.roots == s.roots + {c}
    requires forall j :: 0 <= j < ENTRIES ==> b.mem[c].es[j] == ForkSlot(s, EntryAt(s.mem, r, j), j)
    ensures Forked(s, b, r, c)
  {
    ForkReady(s, a, place0, r, c);
    SharedPages(s, a, b, place0, r, c);
    ForkedFrom(s, b, r, c);
  }

  lemma SharedPages(s: State, a: State, b: State, place0: map<nat, Path>, r: nat, c: nat)
    requires Shape(s) && Placed(s, place0) && r in s.roots && c < |s.mem| && c !in Restrict(place0, s.mem, r)
    requires |a.mem| == |a.tcount| == |a.lcount| == |b.mem| == |s.mem| && a.lcount == s.lcount && a.tcount[c] <= U16_MAX
    requires forall q :: 0 <= q < |s.mem| && q != c ==> a.mem[q] == s.mem[q]
    requires forall q :: 0 <= q < |s.mem| && q != c ==> a.tcount[q] == s.tcount[q]
    requires var place := Restrict(place0, s.mem, r);
      b.(roots := s.roots) == ShareAll(place, a.(mem := a.mem[c := b.mem[c]]), BelowSet(place, Top, USER_SLOTS))
    ensures |b.tcount| == |b.lcount| == |s.mem| && b.used == a.used && b.typed == a.typed && b.kernel == a.kernel
    ensures b.tcount[c] <= U16_MAX && b.lcount[c] == s.lcount[c]
    ensures forall p: nat :: p < |s.mem| && p != c ==> ForkedAt(s, b, r, p)
  {
    var place := Restrict(place0, s.mem, r);
    ShareAt(place, a.(mem := a.mem[c := b.mem[c]]), BelowSet(place, Top, USER_SLOTS), c);
    forall p: nat | p < |s.mem| && p != c ensures ForkedAt(s, b, r, p) {
      SharedPage(s, a, b, place0, r, c, p);
    }
  }

  lemma ForkedFrom(s: State, b: State, r: nat, c: nat)
    requires Shape(s) && r in s.roots && c < |s.mem| == |b.mem| == |b.tcount| == |b.lcount| && c !in s.used
    requires |s.roots| < MAX_TASKS
    requires b.used == s.used + {c} && b.typed == s.typed + {c} && b.roots == s.roots + {c} && b.kernel == s.kernel
    requires b.tcount[c] <= U16_MAX && b.lcount[c] == s.lcount[c] && b.mem[c].Table? && |b.mem[c].es| == ENTRIES
    requires forall j :: 0 <= j < ENTRIES ==> b.mem[c].es[j] == ForkSlot(s, EntryAt(s.mem, r, j), j)
    requires forall p: nat :: p < |s.mem| && p != c ==> ForkedAt(s, b, r, p)
    ensures Forked(s, b, r, c)
  {
    ForkShape(s, b, r, c);
    forall p | 0 <= p < |s.mem| && p != c
      ensures b.mem[p] == (if Reaches(s.mem, r, p, 3) then ReadOnly(s.mem[p]) else s.mem[p])
      ensures b.tcount[p] == (if ReachesTable(s.mem, r, p) then Shared(s.tcount[p], U16_MAX) else s.tcount[p])
      ensures b.lcount[p] == (if Reaches(s.mem, r, p, 4) then Shared(s.lcount[p], U8_MAX) else s.lcount[p])
    {
      assert ForkedAt(s, b, r, p);
    }
  }

  lemma SharedPage(s: State, a: State, b: State, place0: map<nat, Path>, r: nat, c: nat, p: nat)
    requires Shape(s) && Placed(s, place0) && r in s.roots && p < |s.mem| && c < |s.mem| && p != c
    requires |a.mem| == |a.tcount| == |a.lcount| == |b.mem| == |s.mem|
    requires a.mem[p] == s.mem[p] && a.tcount[p] == s.tcount[p] && a.lcount[p] == s.lcount[p]
    requires var place := Restrict(place0, s.mem, r);
      b.(roots := s.roots) == ShareAll(place, a.(mem := a.mem[c := b.mem[c]]), BelowSet(place, Top, USER_SLOTS))
    ensures |b.tcount| == |b.lcount| == |s.mem| && ForkedAt(s, b, r, p)
  {
    var place := Restrict(place0, s.mem, r);
    PlacedAll(s, place0, r, p);
    ShareAt(place, a.(mem := a.mem[c := b.mem[c]]), BelowSet(place, Top, USER_SLOTS), p);
  }

  /** Page `p` as a fork of space `r` leaves it. */
  ghost predicate ForkedAt(s: State, b: State, r: nat, p: nat)
    requires Shape(s) && p < |s.mem| == |b.mem| == |b.tcount| == |b.lcount|
  {
    && b.mem[p] == (if Reaches(s.mem, r, p, 3) then ReadOnly(s.mem[p]) else s.mem[p])
    && b.tcount[p] == (if ReachesTable(s.mem, r, p) then Shared(s.tcount[p], U16_MAX) else s.tcount[p])
    && b.lcount[p] == (if Reaches(s.mem, r, p, 4) then Shared(s.lcount[p], U8_MAX) else s.lcount[p])
  }

  lemma ShareAt(place: map<nat, Path>, a: State, h: set<nat>, p: nat)
    requires p < |a.mem| == |a.tcount| == |a.lcount|
    ensures var b := ShareAll(place, a, h);
      && |b.mem| == |a.mem| && |b.tcount| == |a.mem| && |b.lcount| == |a.mem|
      && b.mem[p] == (if AtDepth(place, h, p, 3) then ReadOnly(a.mem[p]) else a.mem[p])
      && b.tcount[p] == (if TableIn(place, h, p) then Shared(a.tcount[p], U16_MAX) else a.tcount[p])
      && b.lcount[p] == (if AtDepth(place, h, p, LEAF) then Shared(a.lcount[p], U8_MAX) else a.lcount[p])
  {}

  lemma ForkShape(s: State, b: State, r: nat, c: nat)
    requires Shape(s) && c < |s.mem| == |b.mem| == |b.tcount| == |b.lcount| && |s.roots| < MAX_TASKS
    requires b.used == s.used + {c} && b.roots == s.roots + {c} && b.kernel == s.kernel
    requires b.tcount[c] <= U16_MAX && b.lcount[c] <= U8_MAX
    requires forall p: nat :: p < |s.mem| && p != c ==> ForkedAt(s, b, r, p)
    ensures Shape(b)
  {
    assert |b.roots| <= |s.roots| + 1;
    forall p: nat | p < |s.mem| ensures b.tcount[p] <= U16_MAX && b.lcount[p] <= U8_MAX {
      assert p != c ==> ForkedAt(s, b, r, p);
    }
  }

  // ------------------------------------------------------ teardown turns

  lemma LeafReleased(place: map<nat, Path>, a: State, p: nat)
    requires p in place && Depth(place[p]) == LEAF && p < |a.mem| && p in a.used
    requires |a.lcount| == |a.mem| && |a.tcount| == |a.mem|
    ensures ReleaseAll(place, a, {p}) ==
      if a.lcount[p] > 0 then a.(lcount := a.lcount[p := a.lcount[p] - 1]) else Free(a, p)
  {}

  lemma TableReleased(place: map<nat, Path>, a: State, x: nat)
    requires x in place && Depth(place[x]) < LEAF && UserPage(place, x) && x < |a.mem| && x in a.used && x in a.typed
    requires |a.lcount| == |a.mem| && |a.tcount| == |a.mem|
    ensures var a1 := a.(tcount := a.tcount[x := Dec(a.tcount[x])]);
      ReleaseAll(place, a, {x}) == if a1.tcount[x] == 0 then Free(a1, x) else a1
  {}

  lemma ReleasedStillReady(a: State, m0: seq<Frame>, place: map<nat, Path>, h: set<nat>, q: nat)
    requires Visitable(a, m0, place, q) && q !in h
    ensures Visitable(ReleaseAll(place, a, h), m0, place, q)
  {}

  /** A turn of a teardown loop at entry `i` of the table `p`. */
  lemma ReleaseTurn(a: State, m0: seq<Frame>, place: map<nat, Path>, r: nat, v: Path, p: nat, i: nat)
    requires TableReady(a, m0, place, r, v, p) && Valid(Sub(v, i))
    ensures var b := ReleaseAll(place, a, BelowSet(place, v, i)); var h := EntrySet(m0, r, place, v, i);
      && EntryReady(b, m0, place, r, v, p, i) && AllVisitable(b, m0, place, h)
      && BelowSet(place, v, i + 1) == BelowSet(place, v, i) + h && h <= BelowSet(place, v, ENTRIES)
        && BelowSet(place, v, i) !! h
      && ReleaseAll(place, b, h) == ReleaseAll(place, a, BelowSet(place, v, i + 1))
      && Leafy(place, BelowSet(place, v, i + 1)) == (Leafy(place, BelowSet(place, v, i)) || Leafy(place, h))
  {
    var g := BelowSet(place, v, i);
    var b := ReleaseAll(place, a, g);
    NextEntry(m0, place, r, v, p, i);
    ReleasedStillReady(a, m0, place, g, p);
    ReleaseTwice(place, a, g, EntrySet(m0, r, place, v, i));
    forall q | q in EntrySet(m0, r, place, v, i) ensures Visitable(b, m0, place, q) {
      assert Visitable(a, m0, place, q);
      ReleasedStillReady(a, m0, place, g, q);
    }
  }

  /** In a leaf table the entry's pages are its user page, if it has one. */
  lemma ReleaseLeafTurn(a: State, m0: seq<Frame>, place: map<nat, Path>, r: nat, v: Path, p: nat, i: nat)
    requires TableReady(a, m0, place, r, v, p) && Depth(v) == 3 && i < ENTRIES
    ensures var e := m0[p].es[i]; var h := EntrySet(m0, r, place, v, i);
      if e.present && e.user then h == {e.page} && e.page in place && Depth(place[e.page]) == LEAF && Leafy(place, h)
      else h == {} && !Leafy(place, h) && forall b :: ReleaseAll(place, b, h) == b
  {
    var e := m0[p].es[i];
    if e.present && e.user {
      LeafHasNothingBelow(m0, r, place, Sub(v, i));
    } else {
      assert EntrySet(m0, r, place, v, i) == {};
      forall b ensures ReleaseAll(place, b, {}) == b { ReleaseNone(place, b); }
    }
  }

  /** Releasing below a table leaves the table itself to be dropped, which is
      due exactly when a user page was found. */
  lemma SubtreeReleased(b: State, m0: seq<Frame>, place: map<nat, Path>, r: nat, w: Path, x: nat)
    requires TableReady(b, m0, place, r, w, x) && w.Sub?
    ensures var b1 := ReleaseAll(place, b, BelowSet(place, w, ENTRIES));
      && Visitable(b1, m0, place, x) && place[x] == w && x !in BelowSet(place, w, ENTRIES)
      && |b1.lcount| == |b1.mem| && |b1.tcount| == |b1.mem|
      && (UserPage(place, x) <==> Leafy(place, BelowSet(place, w, ENTRIES)))
      && (!UserPage(place, x) ==> ReleaseAll(place, b1, {x}) == b1)
      && ReleaseAll(place, b1, {x}) == ReleaseAll(place, b, {x} + BelowSet(place, w, ENTRIES))
  {
    var h := BelowSet(place, w, ENTRIES);
    NotBelowSelf(place, w, ENTRIES);
    UserTable(place, x);
    ReleasedStillReady(b, m0, place, h, x);
    ReleaseTwice(place, b, h, {x});
    assert h + {x} == {x} + h;
    var b1 := ReleaseAll(place, b, h);
    if !UserPage(place, x) {
      var d := ReleaseAll(place, b1, {x});
      assert FreedSet(place, b1, {x}) == {};
      assert d.mem == b1.mem && d.tcount == b1.tcount && d.lcount == b1.lcount;
    }
  }

  lemma EntryLeafy(m0: seq<Frame>, place: map<nat, Path>, r: nat, v: Path, i: nat)
    requires Exact(m0, r, place) && Valid(Sub(v, i)) && Depth(v) < 3
    ensures match Node(m0, r, Sub(v, i))
      case None => !Leafy(place, EntrySet(m0, r, place, v, i))
      case Some(_) => Leafy(place, EntrySet(m0, r, place, v, i)) == Leafy(place, BelowSet(place, Sub(v, i), ENTRIES))
  {}

  // -------------------------------------------------------- the teardown

  /** Slots of a table the user walk looks at. */
  function Slots(d: nat): nat {
    if d == 0 then USER_SLOTS else ENTRIES
  }

  lemma TeardownReady(s: State, place0: map<nat, Path>, r: nat)
    requires Inv(s, place0) && r in s.roots
    ensures TableReady(s, s.mem, Restrict(place0, s.mem, r), r, Top, r)
  {
    var place := Restrict(place0, s.mem, r);
    RestrictExact(s, place0, r);
    assert Node(s.mem, r, Top) == Some(r);
    forall q | q in place ensures Visitable(s, s.mem, place, q) {
      assert OwnedAt(s, place[q], q);
    }
  }

  /** The pages released, said without `place`. */
  lemma UserPages(m0: seq<Frame>, r: nat, place: map<nat, Path>, q: nat)
    requires Exact(m0, r, place)
    ensures q in place && place[q].Sub? && UserPage(place, q) <==> Reaches(m0, r, q, 4) || OnUserPath(m0, r, q)
    ensures Reaches(m0, r, q, 4) <==> q in place && Depth(place[q]) == LEAF
    ensures OnUserPath(m0, r, q) ==> q in place && 0 < Depth(place[q]) < LEAF
    ensures q in place ==> (q in BelowSet(place, Top, USER_SLOTS) <==> place[q].Sub?)
  {
    if OnUserPath(m0, r, q) {
      var v, w :| Valid(v) && Depth(v) == LEAF && Node(m0, r, v).Some? && Below(v, w) && w.Sub?
        && Node(m0, r, w) == Some(q);
      BelowDepth(v, w);
      assert place[q] == w;
      assert place[Node(m0, r, v).value] == v;
    }
    if q in place && place[q].Sub? && UserPage(place, q) && Depth(place[q]) != LEAF {
      var x :| x in place && Depth(place[x]) == LEAF && Below(place[x], place[q]);
      assert Node(m0, r, place[x]).Some?;
    }
    if q in place { BelowTop(place[q]); }
  }

  lemma ReleasedIsTornDown(s: State, d: State, place0: map<nat, Path>, r: nat)
    requires Inv(s, place0) && r in s.roots
    requires var place := Restrict(place0, s.mem, r); var b := ReleaseAll(place, s, BelowSet(place, Top, USER_SLOTS));
      d == Free(b, r).(roots := s.roots - {r})
    ensures TornDown(s, d, r)
  {
    var place := Restrict(place0, s.mem, r);
    var h := BelowSet(place, Top, USER_SLOTS);
    RestrictExact(s, place0, r);
    TeardownReady(s, place0, r);
    NotBelowSelf(place, Top, USER_SLOTS);
    ReleasedStillReady(s, s.mem, place, h, r);
    forall q: nat
      ensures Freed(place, s, h, q) <==> Released(s, r, q) && q != r
      ensures AtDepth(place, h, q, LEAF) <==> Reaches(s.mem, r, q, 4)
      ensures q in h && UserPage(place, q) && Depth(place[q]) < LEAF <==> OnUserPath(s.mem, r, q)
    {
      UserPages(s.mem, r, place, q);
    }
  }
}
