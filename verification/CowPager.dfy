/** The copy-on-write operations as the kernel runs them: loops over table
    entries that update memory and the count arrays in place. */
module CowPager {
  import opened Options
  import opened CowState
  import opened CowInvariant
  import opened CowFault
  import opened CowFork
  import opened CowLaws
  import opened CowProgress
  import opened CowRefused
  import opened CowShare
  import opened CowLoops

  const MAX_VISITED: nat := 2048

  class Pager {
    var mem: seq<Frame>
    var tcount: seq<nat>
    var lcount: seq<nat>
    var used: set<nat>
    var typed: set<nat>
    var roots: set<nat>
    var kernel: seq<Entry>

    ghost function Snap(): State
      reads this
    {
      State(mem, tcount, lcount, used, typed, roots, kernel)
    }

    /** alloc_zeroed_page, given the allocator's answer. */
    method AllocZeroed(g: Grant) returns (n: Option<nat>)
      modifies this`mem, this`tcount, this`used, this`typed
      ensures (Snap(), n) == Alloc(old(Snap()), g)
    {
      if g.Refused? || g.page >= |mem| || g.page in used {
        return None;
      }
      mem := mem[g.page := Table(seq(ENTRIES, _ => ABSENT))];
      tcount := Put(tcount, g.page, Min(Get(tcount, g.page) + (if g.Recycled? then 2 else 1), U16_MAX));
      used := used + {g.page};
      typed := typed + {g.page};
      n := Some(g.page);
    }

    /** free(p, 0). */
    method FreePage(p: nat)
      modifies this`mem, this`tcount, this`used, this`typed
      ensures Snap() == Free(old(Snap()), p)
    {
      if p in used && p < |mem| {
        mem := mem[p := Junk];
        if p in typed {
          tcount := Put(tcount, p, Dec(Get(tcount, p)));
        }
        used := used - {p};
        typed := typed - {p};
      }
    }

    // -------------------------------------------------------- write fault

    /** One level of cow_walk_pte: copy the table behind entry `i` of `q` when
        its count says it is shared. */
    method UnshareEntry(q: nat, i: nat, g: Grant) returns (page: Option<nat>)
      modifies this`mem, this`tcount, this`used, this`typed
      ensures Unshare(old(Snap()), q, i, g) == if page.None? then Stop(Snap()) else At(Snap(), page.value)
    {
      var e := EntryAt(mem, q, i);
      if Get(tcount, e.page) <= 1 {
        return Some(e.page);
      }
      var n := AllocZeroed(g);
      if n.None? || e.page >= |mem| {
        return None;
      }
      mem := mem[n.value := mem[e.page]];
      tcount := Put(tcount, e.page, Dec(Get(tcount, e.page)));
      mem := SetEntry(mem, q, i, e.(page := n.value));
      return n;
    }

    /** cow_walk_pte: the three table levels above the leaf at `v`. */
    method WalkPte(r: nat, v: Path, g: nat -> Grant) returns (pt: Option<nat>)
      requires Depth(v) == LEAF
      modifies this`mem, this`tcount, this`used, this`typed
      ensures WalkTo(old(Snap()), r, v.up, g) == if pt.None? then Stop(Snap()) else At(Snap(), pt.value)
    {
      var v3 := v.up;
      assert Depth(v3) == 3;
      var v2 := v3.up;
      assert Depth(v2) == 2;
      var v1 := v2.up;
      assert Depth(v1) == 1;
      assert Depth(v1.up) == 0;
      if !EntryAt(mem, r, v1.idx).present {
        assert WalkTo(Snap(), r, v1, g) == Stop(Snap());
        return None;
      }
      var pdpt := UnshareEntry(r, v1.idx, g(0));
      if pdpt.None? {
        assert WalkTo(old(Snap()), r, v1, g) == Stop(Snap());
        return None;
      }
      assert WalkTo(old(Snap()), r, v1, g) == At(Snap(), pdpt.value);
      var e2 := EntryAt(mem, pdpt.value, v2.idx);
      if !e2.present || e2.huge { return None; }
      var pd := UnshareEntry(pdpt.value, v2.idx, g(1));
      if pd.None? { return None; }
      assert WalkTo(old(Snap()), r, v2, g) == At(Snap(), pd.value);
      var e3 := EntryAt(mem, pd.value, v3.idx);
      if !e3.present || e3.huge { return None; }
      pt := UnshareEntry(pd.value, v3.idx, g(2));
    }

    /** cow_remap_in: with the counts right it succeeds exactly for a read-only
        user page whose copies are granted, makes that page writable and changes
        no other entry. */
    method RemapIn(r: nat, v: Path, g: nat -> Grant, ghost place: map<nat, Path>) returns (ok: bool)
      requires Depth(v) == LEAF
      modifies this`mem, this`tcount, this`lcount, this`used, this`typed
      ensures (Snap(), ok) == Remap(old(Snap()), r, v, g)
      ensures Inv(old(Snap()), place) && r in roots && Valid(v) ==>
        && (ok <==> ReadOnlyAt(old(Snap()), r, v) && AllGranted(old(Snap()), r, v, g))
        && (ok ==> forall o, u :: o in roots && Valid(u) && u.Sub? ==>
              FaultEntry(old(Snap()), Snap(), r, v, g(3), o, u))
        && SameReads(old(Snap()), Snap())
    {
      if Inv(Snap(), place) && r in roots && Valid(v) {
        FaultSucceedsIff(Snap(), place, r, v, g);
        FaultKeepsIff(Snap(), place, r, v, g);
      }
      ok := Resolve(r, v, g);
    }

    method Resolve(r: nat, v: Path, g: nat -> Grant) returns (ok: bool)
      requires Depth(v) == LEAF
      modifies this`mem, this`tcount, this`lcount, this`used, this`typed
      ensures (Snap(), ok) == Remap(old(Snap()), r, v, g)
    {
      var pt := WalkPte(r, v, g);
      if pt.None? { return false; }
      var e := EntryAt(mem, pt.value, v.idx);
      if !e.present || e.writable { return false; }
      if Get(lcount, e.page) == 0 {
        mem := SetEntry(mem, pt.value, v.idx, e.(writable := true));
        return true;
      }
      lcount := Put(lcount, e.page, Dec(Get(lcount, e.page)));
      var n := AllocZeroed(g(3));
      if n.None? || e.page >= |mem| { return false; }
      mem := mem[n.value := mem[e.page]];
      mem := SetEntry(mem, pt.value, v.idx, e.(page := n.value, writable := true));
      return true;
    }

    // --------------------------------------------------------------- fork

    /** fork_share_pte_refc. */
    method ShareTableCount(p: nat)
      requires p < |tcount|
      modifies this`tcount, this`used
      ensures tcount == old(tcount)[p := Shared(old(tcount)[p], U16_MAX)]
      ensures used == old(used) + {p}
    {
      used := used + {p};
      if tcount[p] == 0 {
        tcount := tcount[p := 1];
        tcount := tcount[p := 2];
      } else {
        tcount := tcount[p := Min(tcount[p] + 1, U16_MAX)];
      }
    }

    /** fork_share_refc. */
    method ShareLeafCount(p: nat)
      requires p < |lcount|
      modifies this`lcount, this`used
      ensures lcount == old(lcount)[p := Shared(old(lcount)[p], U8_MAX)]
      ensures used == old(used) + {p}
    {
      used := used + {p};
      if lcount[p] == 0 {
        lcount := lcount[p := 1];
        lcount := lcount[p := 2];
      } else {
        lcount := lcount[p := Min(lcount[p] + 1, U8_MAX)];
      }
    }

    /** The innermost fork loop: every user leaf of the table `p` is counted
        and made read-only. */
    method ShareLeaves(p: nat, ghost m0: seq<Frame>, ghost place: map<nat, Path>, ghost r: nat, ghost v: Path)
      requires TableReady(Snap(), m0, place, r, v, p) && Depth(v) == 3
      modifies this`mem, this`lcount, this`used
      ensures used == old(used)
      ensures mem == old(mem)[p := ReadOnly(old(mem)[p])]
      ensures lcount == LeafCounts(place, old(lcount), BelowSet(place, v, ENTRIES))
    {
      ghost var es := mem[p].es;
      BelowNone(place, v);
      var i := 0;
      while i < ENTRIES
        invariant 0 <= i <= ENTRIES
        invariant used == old(used) && |mem| == |old(mem)|
        invariant mem[p].Table? && |mem[p].es| == ENTRIES
        invariant mem == old(mem)[p := mem[p]]
        invariant forall j :: 0 <= j < ENTRIES ==> mem[p].es[j] == if j < i then LeafReadOnly(es[j]) else es[j]
        invariant lcount == LeafCounts(place, old(lcount), BelowSet(place, v, i))
      {
        var e := mem[p].es[i];
        LeafTurn(old(Snap()), m0, place, r, v, p, i);
        if e.present && e.user {
          ShareLeafCount(e.page);
          if e.writable {
            mem := mem[p := Table(mem[p].es[i := e.(writable := false)])];
          }
        }
        i := i + 1;
      }
      assert mem[p] == ReadOnly(old(mem)[p]);
    }

    /** Count table `x`, found at depth `d`, and share everything below it. */
    method ShareSubtree(x: nat, d: nat, ghost m0: seq<Frame>, ghost place: map<nat, Path>, ghost r: nat, ghost w: Path)
      requires TableReady(Snap(), m0, place, r, w, x) && d == Depth(w) && 1 <= d <= 3
      modifies this`mem, this`tcount, this`lcount, this`used
      ensures Snap() == ShareAll(place, old(Snap()), {x} + BelowSet(place, w, ENTRIES))
      decreases 3 - d, 2
    {
      ghost var b := Snap();
      ShareTableCount(x);
      CountedReady(b, Snap(), m0, place, r, w, x);
      if d == 3 {
        ShareLeaves(x, m0, place, r, w);
        LeavesShared(b, Snap(), m0, place, r, w, x);
      } else {
        ShareTable(x, d, m0, place, r, w);
        TableShared(b, m0, place, r, w, x);
      }
    }

    /** The middle fork loops: share every table below `p`, at depth `d`. */
    method ShareTable(p: nat, d: nat, ghost m0: seq<Frame>, ghost place: map<nat, Path>, ghost r: nat, ghost v: Path)
      requires TableReady(Snap(), m0, place, r, v, p) && d == Depth(v) && 1 <= d <= 2
      modifies this`mem, this`tcount, this`lcount, this`used
      ensures Snap() == ShareAll(place, old(Snap()), BelowSet(place, v, ENTRIES))
      decreases 3 - d, 1
    {
      ghost var a := Snap();
      BelowNone(place, v);
      ShareNone(place, a);
      var i := 0;
      while i < ENTRIES
        invariant 0 <= i <= ENTRIES
        invariant Snap() == ShareAll(place, a, BelowSet(place, v, i))
      {
        ShareTurn(a, m0, place, r, v, p, i);
        var e := mem[p].es[i];
        if e.present && !e.huge {
          ShareSubtree(e.page, d + 1, m0, place, r, Sub(v, i));
        }
        i := i + 1;
      }
    }

    /** The child's root before the parent's slots are shared. */
    method SeedRoot(c: nat)
      requires c < |mem| && |kernel| == ENTRIES && mem[c] == Table(seq(ENTRIES, _ => ABSENT))
      modifies this`mem
      ensures mem == old(mem)[c := Table(Seeded(kernel))]
      ensures |mem| == |old(mem)| && mem[c].Table? && |mem[c].es| == ENTRIES
      ensures forall i :: 0 <= i < 512 ==> mem[c].es[i] == if i < 2 || 256 <= i then kernel[i] else ABSENT
    {
      var i := 0;
      while i < 2
        invariant 0 <= i <= 2
        invariant |mem| == |old(mem)| && mem[c].Table? && |mem[c].es| == ENTRIES && mem == old(mem)[c := mem[c]]
        invariant forall j :: 0 <= j < ENTRIES ==> mem[c].es[j] == if j < i then kernel[j] else ABSENT
      {
        mem := mem[c := Table(mem[c].es[i := kernel[i]])];
        i := i + 1;
      }
      i := USER_SLOTS;
      while i < ENTRIES
        invariant USER_SLOTS <= i <= ENTRIES
        invariant |mem| == |old(mem)| && mem[c].Table? && |mem[c].es| == ENTRIES && mem == old(mem)[c := mem[c]]
        invariant forall j :: 0 <= j < ENTRIES ==>
          mem[c].es[j] == if j < 2 || USER_SLOTS <= j < i then kernel[j] else ABSENT
      {
        mem := mem[c := Table(mem[c].es[i := kernel[i]])];
        i := i + 1;
      }
      assert mem[c].es == Seeded(kernel);
    }

    /** The outer fork loop over the user half of the parent's root `r`: fill
        the child's root `c` and share what it points to. */
    method ShareRoot(r: nat, c: nat, ghost s: State, ghost place: map<nat, Path>)
      requires TableReady(Snap(), s.mem, place, r, Top, r) && c !in place && c < |mem|
      requires kernel == s.kernel && |kernel| == ENTRIES && |s.mem| == |mem|
      requires used == s.used + {c} && typed == s.typed + {c}
      requires mem[c] == Table(Seeded(kernel))
      modifies this`mem, this`tcount, this`lcount, this`used
      ensures |mem| == |old(mem)| && mem[c].Table? && |mem[c].es| == ENTRIES
      ensures forall j :: 0 <= j < ENTRIES ==> mem[c].es[j] == ForkSlot(s, EntryAt(s.mem, r, j), j)
      ensures Snap() == ShareAll(place, old(Snap()).(mem := old(mem)[c := mem[c]]), BelowSet(place, Top, USER_SLOTS))
    {
      ghost var a := Snap();
      BelowNone(place, Top);
      ShareNone(place, a);
      assert mem[c := mem[c]] == mem;
      var i := 0;
      while i < USER_SLOTS
        invariant 0 <= i <= USER_SLOTS
        invariant |mem| == |a.mem| && mem[c].Table? && |mem[c].es| == ENTRIES
        invariant forall j :: 0 <= j < ENTRIES ==>
          mem[c].es[j] == if j < i then ForkSlot(s, EntryAt(s.mem, r, j), j) else Seeded(kernel)[j]
        invariant Snap() == ShareAll(place, a.(mem := a.mem[c := mem[c]]), BelowSet(place, Top, i))
      {
        ShareRootSlot(r, c, i, a, s, place);
        i := i + 1;
      }
    }

    /** One slot of the child's root: the parent's entry if its table is live,
        and that table's subtree shared. */
    method ShareRootSlot(r: nat, c: nat, i: nat, ghost a: State, ghost s: State, ghost place: map<nat, Path>)
      requires TableReady(a, s.mem, place, r, Top, r) && c !in place && c < |a.mem| && i < USER_SLOTS
      requires a.used == s.used + {c} && a.typed == s.typed + {c} && |s.mem| == |a.mem|
      requires |mem| == |a.mem| && mem[c].Table? && |mem[c].es| == ENTRIES && kernel == s.kernel && |kernel| == ENTRIES
      requires mem[c].es[i] == Seeded(kernel)[i]
      requires Snap() == ShareAll(place, a.(mem := a.mem[c := mem[c]]), BelowSet(place, Top, i))
      modifies this`mem, this`tcount, this`lcount, this`used
      ensures |mem| == |a.mem| && mem[c].Table?
      ensures mem[c].es == old(mem[c].es)[i := ForkSlot(s, EntryAt(s.mem, r, i), i)]
      ensures Snap() == ShareAll(place, a.(mem := a.mem[c := mem[c]]), BelowSet(place, Top, i + 1))
    {
      ghost var f := mem[c];
      RootTurn(a, s.mem, place, r, c, f, i);
      var e := mem[r].es[i];
      if e.present {
        var live := e.page < |mem| && e.page in used && e.page in typed;
        mem := mem[c := Table(mem[c].es[i := if live then e else ABSENT])];
        RootSlot(a, place, BelowSet(place, Top, i), c, f, mem[c]);
        RootTurn(a, s.mem, place, r, c, mem[c], i);
        if live {
          ghost var f2 := mem[c];
          ShareSubtree(e.page, 1, s.mem, place, r, Sub(Top, i));
          ShareKeepsRoot(a.(mem := a.mem[c := f2]), place, BelowSet(place, Top, i + 1), c);
        }
      }
    }

    /** cow_fork_pml4: give space `r` a child, or change nothing when no page
        can be had for the child's root. */
    method Fork(r: nat, g: Grant, ghost place0: map<nat, Path>) returns (child: Option<nat>)
      requires Inv(Snap(), place0) && r in roots && |roots| < MAX_TASKS
      modifies this
      ensures child.Some? <==> !g.Refused? && g.page < |old(mem)| && g.page !in old(used)
      ensures child.None? ==> Snap() == old(Snap())
      ensures child.Some? ==> child.value == g.page && Forked(old(Snap()), Snap(), r, child.value)
      ensures child.Some? ==>
        forall i :: USER_SLOTS <= i < ENTRIES ==> EntryAt(mem, child.value, i) == old(kernel)[i]
      ensures child.Some? ==>
        Inherits(old(Snap()), Snap(), r, child.value) && CountsShare(old(Snap()), Snap(), r, child.value)
    {
      ghost var s := Snap();
      ghost var place := Restrict(place0, s.mem, r);
      child := AllocZeroed(g);
      if child.None? {
        return;
      }
      var c := child.value;
      SeedRoot(c);
      ghost var a := Snap();
      ForkReady(s, a, place0, r, c);
      ShareRoot(r, c, s, place);
      roots := roots + {c};
      SharedIsForked(s, a, Snap(), place0, r, c);
      ForkGives(s, Snap(), place0, r, c);
    }

    // ----------------------------------------------------------- teardown

    /** Give up one count of the user page `p`, or free it when it has none.
        Whether the leaf was writable makes no difference. */
    method ReleaseLeaf(p: nat, writable: bool, freeRo: bool, ghost place: map<nat, Path>)
      requires p in place && Depth(place[p]) == LEAF && p < |mem| && p in used
      requires |lcount| == |mem| && |tcount| == |mem|
      modifies this`mem, this`tcount, this`lcount, this`used, this`typed
      ensures Snap() == ReleaseAll(place, old(Snap()), {p})
    {
      ghost var a := Snap();
      if writable || freeRo {
        if lcount[p] > 0 {
          lcount := lcount[p := lcount[p] - 1];
        } else {
          FreePage(p);
        }
      } else if lcount[p] > 0 {
        lcount := lcount[p := lcount[p] - 1];
      } else {
        FreePage(p);
      }
      LeafReleased(place, a, p);
    }

    /** The innermost teardown loop: every user leaf of the table `p`. */
    method ReleaseLeaves(p: nat, freeRo: bool, ghost m0: seq<Frame>, ghost place: map<nat, Path>, ghost r: nat,
                         ghost v: Path)
      returns (user: bool)
      requires TableReady(Snap(), m0, place, r, v, p) && Depth(v) == 3
      modifies this`mem, this`tcount, this`lcount, this`used, this`typed
      ensures Snap() == ReleaseAll(place, old(Snap()), BelowSet(place, v, ENTRIES))
      ensures user == Leafy(place, BelowSet(place, v, ENTRIES))
    {
      ghost var a := Snap();
      BelowNone(place, v);
      ReleaseNone(place, a);
      user := false;
      var i := 0;
      while i < ENTRIES
        invariant 0 <= i <= ENTRIES
        invariant Snap() == ReleaseAll(place, a, BelowSet(place, v, i))
        invariant user == Leafy(place, BelowSet(place, v, i))
      {
        ReleaseTurn(a, m0, place, r, v, p, i);
        ReleaseLeafTurn(a, m0, place, r, v, p, i);
        var e := mem[p].es[i];
        if e.present && e.user {
          ReleaseLeaf(e.page, e.writable, freeRo, place);
          user := true;
        }
        i := i + 1;
      }
    }

    /** Give up one count of the table `x`, freeing it when none is left,
        unless this teardown has been here already. */
    method DropTable(x: nat, visited: seq<nat>, ghost place: map<nat, Path>) returns (seen: seq<nat>)
      requires x in place && Depth(place[x]) < LEAF && UserPage(place, x) && x < |mem| && x in used && x in typed
      requires |lcount| == |mem| && |tcount| == |mem|
      modifies this`mem, this`tcount, this`used, this`typed
      ensures Snap() == if x in visited then old(Snap()) else ReleaseAll(place, old(Snap()), {x})
      ensures seen == if x in visited || |visited| >= MAX_VISITED then visited else visited + [x]
    {
      ghost var a := Snap();
      seen := visited;
      if x !in visited {
        if |visited| < MAX_VISITED {
          seen := visited + [x];
        }
        tcount := tcount[x := Dec(tcount[x])];
        if tcount[x] == 0 {
          FreePage(x);
        }
        TableReleased(place, a, x);
      }
    }

    /** Release everything below table `x`, found at depth `d`, and then the
        table itself when it led to a user page. */
    method ReleaseSubtree(x: nat, d: nat, freeRo: bool, visited: seq<nat>, ghost m0: seq<Frame>,
                          ghost place: map<nat, Path>, ghost r: nat, ghost w: Path)
      returns (user: bool, seen: seq<nat>)
      requires TableReady(Snap(), m0, place, r, w, x) && d == Depth(w) && 1 <= d <= 3
      requires forall y :: y in visited ==> y != x && y !in BelowSet(place, w, ENTRIES)
      modifies this`mem, this`tcount, this`lcount, this`used, this`typed
      ensures Snap() == ReleaseAll(place, old(Snap()), {x} + BelowSet(place, w, ENTRIES))
      ensures user == Leafy(place, BelowSet(place, w, ENTRIES))
      ensures forall y :: y in seen ==> y in visited || y == x || y in BelowSet(place, w, ENTRIES)
      decreases 3 - d, 2
    {
      ghost var b := Snap();
      seen := visited;
      if d == 3 {
        user := ReleaseLeaves(x, freeRo, m0, place, r, w);
      } else {
        user, seen := ReleaseTable(x, d, freeRo, visited, m0, place, r, w);
      }
      SubtreeReleased(b, m0, place, r, w, x);
      if user {
        seen := DropTable(x, seen, place);
      }
    }

    /** One turn of an outer teardown loop: entry `i` of the table `p`. */
    method ReleaseEntry(p: nat, d: nat, i: nat, freeRo: bool, visited: seq<nat>, ghost m0: seq<Frame>,
                        ghost place: map<nat, Path>, ghost r: nat, ghost v: Path)
      returns (user: bool, seen: seq<nat>)
      requires d == Depth(v) && d <= 2 && EntryReady(Snap(), m0, place, r, v, p, i)
      requires forall y :: y in visited ==> y !in EntrySet(m0, r, place, v, i)
      modifies this`mem, this`tcount, this`lcount, this`used, this`typed
      ensures Snap() == ReleaseAll(place, old(Snap()), EntrySet(m0, r, place, v, i))
      ensures user == Leafy(place, EntrySet(m0, r, place, v, i))
      ensures forall y :: y in seen ==> y in visited || y in EntrySet(m0, r, place, v, i)
      decreases 3 - d, 0
    {
      var e := mem[p].es[i];
      user, seen := false, visited;
      ReleaseNone(place, Snap());
      EntryLeafy(m0, place, r, v, i);
      if e.present && (d == 0 || !e.huge) {
        if e.page < |mem| && e.page in used && e.page in typed {
          user, seen := ReleaseSubtree(e.page, d + 1, freeRo, visited, m0, place, r, Sub(v, i));
        }
      }
    }

    /** The outer teardown loops over a table `p` at depth `d`. */
    method ReleaseTable(p: nat, d: nat, freeRo: bool, visited: seq<nat>, ghost m0: seq<Frame>,
                        ghost place: map<nat, Path>, ghost r: nat, ghost v: Path)
      returns (user: bool, seen: seq<nat>)
      requires TableReady(Snap(), m0, place, r, v, p) && d == Depth(v) && d <= 2
      requires forall y :: y in visited ==> y !in BelowSet(place, v, ENTRIES)
      modifies this`mem, this`tcount, this`lcount, this`used, this`typed
      ensures Snap() == ReleaseAll(place, old(Snap()), BelowSet(place, v, Slots(d)))
      ensures user == Leafy(place, BelowSet(place, v, Slots(d)))
      ensures forall y :: y in seen ==> y in visited || y in BelowSet(place, v, Slots(d))
      decreases 3 - d, 1
    {
      ghost var a := Snap();
      BelowNone(place, v);
      ReleaseNone(place, a);
      user, seen := false, visited;
      var i := 0;
      while i < Slots(d)
        invariant 0 <= i <= Slots(d)
        invariant Snap() == ReleaseAll(place, a, BelowSet(place, v, i))
        invariant user == Leafy(place, BelowSet(place, v, i))
        invariant forall y :: y in seen ==> y in visited || y in BelowSet(place, v, i)
      {
        ReleaseTurn(a, m0, place, r, v, p, i);
        var below;
        below, seen := ReleaseEntry(p, d, i, freeRo, seen, m0, place, r, v);
        user := user || below;
        i := i + 1;
      }
    }

    /** free_address_space.  A root that is not an allocated page is refused. */
    method FreeAddressSpace(r: nat, freeRo: bool, ghost place0: map<nat, Path>)
      requires Inv(Snap(), place0) && r in roots
      modifies this
      ensures TornDown(old(Snap()), Snap(), r) && GivesBack(old(Snap()), Snap(), r)
    {
      ghost var s := Snap();
      ghost var place := Restrict(place0, s.mem, r);
      TeardownReady(s, place0, r);
      if r < |mem| && r in used {
        var _, _ := ReleaseTable(r, 0, freeRo, [], s.mem, place, r, Top);
        ghost var b := Snap();
        FreePage(r);
        roots := roots - {r};
        ReleasedIsTornDown(s, Snap(), place0, r);
        TeardownGives(s, Snap(), place0, r);
      }
    }
  }
}
