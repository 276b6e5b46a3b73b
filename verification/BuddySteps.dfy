/** Whole calls of the allocator as functions of who owns what, each made of the
    single moves, and what every call keeps. */
module BuddySteps {
  import opened BuddyBlocks
  import opened BuddyOwners

  const QUARANTINE_CAP: nat := 1024

  /** Two blocks and what is free beside them cover the same bytes. */
  ghost predicate SameBytes(f: set<Block>, b: Block, g: set<Block>, c: Block) {
    forall x :: (Covers(f, x) || b.Holds(x)) <==> (Covers(g, x) || c.Holds(x))
  }

  lemma JoinBytes(a: Owners, x: nat, k: nat, g: set<Block>, c: Block)
    requires x in a.out && SameBytes(a.free, Block(x, k), g, c)
    requires Gains(Join(a, x, k).free, a.free, Block(Buddy(x, k), k))
    requires var y := Buddy(x, k); Size(k + 1) == 2 * Size(k) && (y == x + Size(k) || x == y + Size(k))
    ensures var y := Buddy(x, k); SameBytes(Join(a, x, k).free, Block(if x < y then x else y, k + 1), g, c)
  {}

  lemma CutGains(f: set<Block>, b: Block, g: set<Block>, c: Block, h: set<Block>)
    requires SameBytes(f, b, g, c) && Gains(g, h, c)
    ensures Gains(f, h, b)
  {}

  lemma HalvesCover(f: set<Block>, f2: set<Block>, x: nat, k: nat, g: set<Block>, c: Block)
    requires Gains(f, f2, Block(x + Size(k), k)) && SameBytes(f, Block(x, k + 1), g, c)
    ensures SameBytes(f2, Block(x, k), g, c)
  {}

  lemma GainsSame(f: set<Block>, b: Block, g: set<Block>, c: Block, h: set<Block>)
    requires SameBytes(f, b, g, c) && Gains(f, h, b)
    ensures Gains(g, h, c)
  {}

  // -------------------------------------------------------------- freeing

  /** free_one: merge the block in hand with its buddy as long as the buddy is
      free, then list it. */
  ghost function Merge(a: Owners, x: nat): Owners
    requires x in a.out
    decreases if a.out[x].order <= MAX_ORDER then MAX_ORDER - a.out[x].order else 0
  {
    var k := a.out[x].order;
    var y := Buddy(x, k);
    if k < MAX_ORDER && Block(y, k) in a.free then Merge(Join(a, x, k), if x < y then x else y) else Give(a, x)
  }

  /** One turn of the loop. */
  lemma JoinTurn(a: Owners, lo: nat, hi: nat, x: nat) returns (z: nat, j: Owners)
    requires Sound(a, lo, hi) && x in a.out && a.out[x].order < MAX_ORDER
    requires Block(Buddy(x, a.out[x].order), a.out[x].order) in a.free
    ensures Sound(j, lo, hi) && z in j.out && j.out[z].order == a.out[x].order + 1 && j.out - {z} == a.out - {x}
    ensures j.quar == a.quar && j.lost == a.lost && Merge(a, x) == Merge(j, z)
    ensures SameBytes(j.free, Block(z, j.out[z].order), a.free, Block(x, a.out[x].order))
  {
    var k := a.out[x].order;
    var y := Buddy(x, k);
    z, j := if x < y then x else y, Join(a, x, k);
    JoinSound(a, lo, hi, x, k);
    JoinBytes(a, x, k, a.free, Block(x, k));
  }

  lemma {:induction false} MergeSound(a: Owners, lo: nat, hi: nat, x: nat)
    requires Sound(a, lo, hi) && x in a.out
    ensures Sound(Merge(a, x), lo, hi)
    ensures Merge(a, x).out == a.out - {x} && Merge(a, x).quar == a.quar && Merge(a, x).lost == a.lost
    ensures Gains(a.free, Merge(a, x).free, Block(x, a.out[x].order))
    decreases if a.out[x].order <= MAX_ORDER then MAX_ORDER - a.out[x].order else 0
  {
    var k := a.out[x].order;
    var y := Buddy(x, k);
    if k < MAX_ORDER && Block(y, k) in a.free {
      var z, j := JoinTurn(a, lo, hi, x);
      MergeSound(j, lo, hi, z);
      GainsSame(j.free, Block(z, k + 1), a.free, Block(x, k), Merge(j, z).free);
    } else {
      GiveSound(a, lo, hi, x);
    }
  }

  // ----------------------------------------------------------- allocation

  /** The split loop: the block in hand is cut to `order`, its upper halves are
      listed. */
  ghost function SplitTo(a: Owners, x: nat, order: nat): Owners
    requires x in a.out
    decreases a.out[x].order
  {
    if a.out[x].order > order then SplitTo(Split(a, x, a.out[x].order - 1), x, order) else a
  }

  lemma SplitTurn(a: Owners, x: nat, k: nat, order: nat)
    requires x in a.out && a.out[x].order == k + 1 > order
    ensures SplitTo(a, x, order) == SplitTo(Split(a, x, k), x, order)
  {}

  lemma SameBytesTrans(f: set<Block>, b: Block, g: set<Block>, c: Block, h: set<Block>, d: Block)
    requires SameBytes(f, b, g, c) && SameBytes(g, c, h, d)
    ensures SameBytes(f, b, h, d)
  {}

  lemma {:induction false} SplitToSound(a: Owners, lo: nat, hi: nat, x: nat, order: nat)
    requires Sound(a, lo, hi) && x in a.out && order <= a.out[x].order
    ensures Sound(SplitTo(a, x, order), lo, hi)
    ensures var b := SplitTo(a, x, order);
      && b.out == a.out[x := Held(order, a.out[x].table)] && b.quar == a.quar && b.lost == a.lost
      && SameBytes(b.free, Block(x, order), a.free, Block(x, a.out[x].order))
    decreases a.out[x].order
  {
    var k := a.out[x].order;
    if k > order {
      var s := HalveTurn(a, lo, hi, x, order);
      SplitToSound(s, lo, hi, x, order);
      SameBytesTrans(SplitTo(s, x, order).free, Block(x, order), s.free, Block(x, k - 1), a.free, Block(x, k));
    }
  }

  lemma HalveTurn(a: Owners, lo: nat, hi: nat, x: nat, order: nat) returns (s: Owners)
    requires Sound(a, lo, hi) && x in a.out && order < a.out[x].order
    ensures var k := a.out[x].order - 1;
      && Sound(s, lo, hi) && s.out == a.out[x := Held(k, a.out[x].table)] && s.quar == a.quar && s.lost == a.lost
      && SameBytes(s.free, Block(x, k), a.free, Block(x, k + 1))
    ensures SplitTo(a, x, order) == SplitTo(s, x, order)
  {
    var k := a.out[x].order - 1;
    s := Split(a, x, k);
    SplitSound(a, lo, hi, x, k);
    HalvesCover(a.free, s.free, x, k, a.free, Block(x, k + 1));
    SplitTurn(a, x, k, order);
  }

  /** A free block at `x` on the first non-empty list from `order` up. */
  ghost predicate Fitting(a: Owners, x: nat, o: nat, order: nat) {
    order <= o && Block(x, o) in a.free && forall b :: b in a.free && order <= b.order ==> o <= b.order
  }

  /** alloc_nolock: take that block whole and cut it to size. */
  ghost function Carved(a: Owners, x: nat, o: nat, order: nat): Owners {
    SplitTo(Take(a, Block(x, o)), x, order)
  }

  lemma CarvedSound(a: Owners, lo: nat, hi: nat, x: nat, o: nat, order: nat)
    requires Sound(a, lo, hi) && Block(x, o) in a.free && order <= o
    ensures x !in a.out && Sound(Carved(a, x, o, order), lo, hi)
    ensures var b := Carved(a, x, o, order);
      && b.out == a.out[x := Held(order, false)] && b.quar == a.quar && b.lost == a.lost
      && Gains(b.free, a.free, Block(x, order))
  {
    var t := Take(a, Block(x, o));
    TakeSound(a, lo, hi, Block(x, o));
    SplitToSound(t, lo, hi, x, order);
    CutGains(Carved(a, x, o, order).free, Block(x, order), t.free, Block(x, o), a.free);
    assert a.out[x := Held(o, false)][x := Held(order, false)] == a.out[x := Held(order, false)];
  }

  // -------------------------------------------------------- adding memory

  /** Block `b` is the largest that starts at its address and ends by `end`. */
  ghost predicate Largest(b: Block, end: nat) {
    b.order <= MAX_ORDER && EndsBy(b.addr, b.order, end)
      && forall k: nat :: b.order < k <= MAX_ORDER ==> !EndsBy(b.addr, k, end)
  }

  predicate EndsBy(addr: nat, k: nat, end: nat) {
    Aligned(addr, k) && addr + Size(k) <= end
  }

  /** No owned block reaches into [lo, hi). */
  ghost predicate Nobodys(a: Owners, lo: nat, hi: nat) {
    forall p, x | Has(a, p) && lo <= x < hi :: !p.b.Holds(x)
  }

  lemma NobodysBlock(a: Owners, b: Block, hi: nat)
    requires Nobodys(a, b.addr, hi) && b.addr + Size(b.order) <= hi
    ensures Unowned(a, b)
  {
    forall p | Has(a, p) ensures Apart(p.b, b) {
      var x := if p.b.addr < b.addr then b.addr else p.b.addr;
      assert !(b.addr <= x < hi && p.b.Holds(x));
    }
  }

  lemma StillNobodys(a: Owners, a2: Owners, b: Block, hi: nat)
    requires Nobodys(a, b.addr, hi) && Gains(a.free, a2.free, b)
    requires a2.out == a.out && a2.quar == a.quar && a2.lost == a.lost
    ensures Nobodys(a2, b.addr + Size(b.order), hi)
  {
    forall p, x: nat | Has(a2, p) && b.addr + Size(b.order) <= x < hi ensures !p.b.Holds(x) {
      FreeIsNobodys(a, b.addr, hi, x);
      assert p.Free? || Has(a, p);
      assert p.Free? && p.b.Holds(x) ==> Covers(a2.free, x);
    }
  }

  lemma FreeIsNobodys(a: Owners, lo: nat, hi: nat, x: nat)
    requires Nobodys(a, lo, hi) && lo <= x < hi
    ensures !Covers(a.free, x)
  {
    forall c | c in a.free ensures !c.Holds(x) {
      assert Has(a, Free(c)) && Free(c).b == c;
    }
  }

  lemma NextPage(addr: nat, order: nat)
    requires addr % PAGE == 0
    ensures (addr + Size(order)) % PAGE == 0
  {
    SizeAligned(order, 0);
    assert Size(0) == PAGE;
    SumAligned(addr, Size(order), PAGE);
  }

  lemma WholePages(start: nat, size: nat, addr: nat)
    requires start % PAGE == 0 && addr % PAGE == 0 && start <= addr <= start + size < addr + PAGE
    ensures addr == start + size / PAGE * PAGE
  {}

  /** The blocks add_region has cut from `lo` to `hi` on its way to `end`: one
      after the other, each the largest that fits. */
  ghost predicate Cut(bs: seq<Block>, lo: nat, hi: nat, end: nat) {
    if bs == [] then lo == hi
    else
      var b := bs[|bs| - 1];
      b.addr + Size(b.order) == hi && Largest(b, end) && Cut(bs[..|bs| - 1], lo, b.addr, end)
  }

  /** The whole cut: less than a page is left. */
  ghost predicate IsCut(bs: seq<Block>, lo: nat, end: nat) {
    exists hi: nat :: Cut(bs, lo, hi, end) && lo <= hi <= end < hi + PAGE
  }

  /** Each block freed in turn. */
  ghost function AddAll(a: Owners, bs: seq<Block>): Owners
    decreases |bs|
  {
    if bs == [] then a else
    var b := bs[|bs| - 1];
    Merge(Adopt(AddAll(a, bs[..|bs| - 1]), b), b.addr)
  }

  /** Memory that can be added: page aligned, managed, and nobody's yet. */
  ghost predicate Addable(a: Owners, start: nat, size: nat, lo: nat, hi: nat) {
    start % PAGE == 0 && lo <= start && start + size <= hi && Nobodys(a, start, start + size)
  }

  /** The free bytes gain those of [lo, hi). */
  ghost predicate GainsRange(f: set<Block>, g: set<Block>, lo: nat, hi: nat) {
    forall x: nat :: Covers(g, x) <==> Covers(f, x) || lo <= x < hi
  }

  lemma RangeBeforeBlock(f: set<Block>, g: set<Block>, h: set<Block>, b: Block, lo: nat)
    requires GainsRange(f, g, lo, b.addr) && Gains(g, h, b) && lo <= b.addr
    ensures GainsRange(f, h, lo, b.addr + Size(b.order))
  {}

  /** A block nobody had, freed. */
  lemma AdoptMerged(a: Owners, lo: nat, hi: nat, b: Block, end: nat)
    requires Sound(a, lo, hi) && Fits(b, lo, hi) && b.addr + Size(b.order) <= end && Nobodys(a, b.addr, end)
    ensures var n := Merge(Adopt(a, b), b.addr);
      && Sound(n, lo, hi) && n.out == a.out && n.quar == a.quar && n.lost == a.lost
      && Gains(a.free, n.free, b) && Nobodys(n, b.addr + Size(b.order), end)
  {
    var n := Merge(Adopt(a, b), b.addr);
    NobodysBlock(a, b, end);
    AdoptSound(a, lo, hi, b);
    MergeSound(Adopt(a, b), lo, hi, b.addr);
    assert Adopt(a, b).out - {b.addr} == a.out;
    StillNobodys(a, n, b, end);
  }

  lemma AddMore(a: Owners, bs: seq<Block>, b: Block)
    ensures AddAll(a, bs + [b]) == Merge(Adopt(AddAll(a, bs), b), b.addr)
  {
    assert (bs + [b])[..|bs|] == bs;
  }

  lemma {:induction false} CutOrder(bs: seq<Block>, lo: nat, hi: nat, end: nat)
    requires Cut(bs, lo, hi, end) && lo <= end
    ensures lo <= hi <= end && (lo % PAGE == 0 ==> hi % PAGE == 0)
    decreases |bs|
  {
    if bs != [] {
      var b := bs[|bs| - 1];
      CutOrder(bs[..|bs| - 1], lo, b.addr, end);
      if lo % PAGE == 0 { NextPage(b.addr, b.order); }
    }
  }

  /** Freeing the cut of memory nobody had makes exactly its bytes free. */
  lemma {:induction false} AddAllSound(a: Owners, lo: nat, hi: nat, bs: seq<Block>, start: nat, next: nat, end: nat)
    requires Sound(a, lo, hi) && Cut(bs, start, next, end) && lo <= start <= end <= hi && Nobodys(a, start, end)
    ensures var b := AddAll(a, bs);
      && Sound(b, lo, hi) && b.out == a.out && b.quar == a.quar && b.lost == a.lost
      && start <= next && GainsRange(a.free, b.free, start, next) && Nobodys(b, next, end)
    decreases |bs|
  {
    CutOrder(bs, start, next, end);
    if bs != [] {
      var b, c := bs[|bs| - 1], AddAll(a, bs[..|bs| - 1]);
      CutOrder(bs[..|bs| - 1], start, b.addr, end);
      AddAllSound(a, lo, hi, bs[..|bs| - 1], start, b.addr, end);
      AdoptMerged(c, lo, hi, b, end);
      RangeBeforeBlock(a.free, c.free, AddAll(a, bs).free, b, start);
    }
  }

  /** Every whole page of the region becomes free, once, and nothing else. */
  lemma RegionSound(a: Owners, lo: nat, hi: nat, start: nat, size: nat, bs: seq<Block>)
    requires Sound(a, lo, hi) && Addable(a, start, size, lo, hi) && IsCut(bs, start, start + size)
    ensures var b := AddAll(a, bs);
      && Sound(b, lo, hi) && b.out == a.out && b.quar == a.quar && b.lost == a.lost
      && GainsRange(a.free, b.free, start, start + size / PAGE * PAGE)
  {
    var next: nat :| Cut(bs, start, next, start + size) && start <= next <= start + size < next + PAGE;
    CutOrder(bs, start, next, start + size);
    AddAllSound(a, lo, hi, bs, start, next, start + size);
    WholePages(start, size, next);
  }

  // ---------------------------------------------------------------- calls

  datatype Action =
    | AddRegion(start: nat, size: nat, blocks: seq<Block>) // add_region, and how it cut the range
    | HandOut(x: nat, order: nat)     // alloc handed out the block at x
    | HandOutZeroed(x: nat)           // alloc_zeroed_page handed out page x
    | TakeBack(x: nat)                // free of the block in hand at x
    | Retyped(x: nat)                 // page x in hand became a table page
    | Refused                         // a failed alloc, or a free that was refused

  /** Where a freed block may go.  Which of the last two a table page takes
      depends on its count. */
  ghost predicate FreeStep(a: Owners, b: Owners, x: nat)
    requires x in a.out
  {
    if !a.out[x].table then b == Merge(a, x)
    else b == Lose(a, x) || b == if |a.quar| < QUARANTINE_CAP then Park(a, x) else Merge(a, x)
  }

  /** One call of the allocator over managed memory [lo, hi). */
  ghost predicate Next(a: Owners, act: Action, b: Owners, lo: nat, hi: nat) {
    match act
    case AddRegion(start, size, bs) => Addable(a, start, size, lo, hi) && IsCut(bs, start, start + size)
      && b == AddAll(a, bs)
    case HandOut(x, order) => exists o :: Fitting(a, x, o, order) && b == Carved(a, x, o, order)
    case HandOutZeroed(x) =>
      if a.quar != [] then x == a.quar[0] && b == Unpark(a)
      else exists o :: Fitting(a, x, o, 0) && x in Carved(a, x, o, 0).out && b == Retype(Carved(a, x, o, 0), x)
    case TakeBack(x) => x in a.out && FreeStep(a, b, x)
    case Retyped(x) => x in a.out && a.out[x].order == 0 && b == Retype(a, x)
    case Refused => b == a
  }

  /** The loop of add_region at `addr`, from owners `a` on. */
  ghost predicate Partway(a: Owners, b: Owners, bs: seq<Block>, start: nat, addr: nat, end: nat) {
    start <= addr <= end && addr % PAGE == 0 && Nobodys(b, addr, end) && Cut(bs, start, addr, end) && b == AddAll(a, bs)
  }

  lemma PartwayStart(a: Owners, start: nat, size: nat, lo: nat, hi: nat)
    requires Addable(a, start, size, lo, hi)
    ensures Partway(a, a, [], start, start, start + size)
  {}

  lemma PartwayMore(a: Owners, b: Owners, c: Owners, bs: seq<Block>, start: nat, x: Block, end: nat)
    requires Partway(a, b, bs, start, x.addr, end) && Largest(x, end)
    requires c == AddAll(a, bs + [x]) && Nobodys(c, x.addr + Size(x.order), end)
    ensures Partway(a, c, bs + [x], start, x.addr + Size(x.order), end)
  {
    assert (bs + [x])[..|bs|] == bs;
    NextPage(x.addr, x.order);
  }

  lemma PartwayDone(a: Owners, b: Owners, bs: seq<Block>, start: nat, addr: nat, end: nat)
    requires Partway(a, b, bs, start, addr, end) && end < addr + PAGE
    ensures IsCut(bs, start, end) && b == AddAll(a, bs)
  {}

  /** What every call keeps: owned blocks are aligned, in range and disjoint, the
      free lists fully coalesced, and table pages single pages. */
  ghost predicate Allowed(a: Owners, lo: nat, hi: nat) {
    Sound(a, lo, hi) && forall x :: x in a.out && a.out[x].table ==> a.out[x].order == 0
  }

  lemma StepSound(a: Owners, act: Action, b: Owners, lo: nat, hi: nat)
    requires Allowed(a, lo, hi) && Next(a, act, b, lo, hi)
    ensures Allowed(b, lo, hi)
  {
    match act {
      case AddRegion(start, size, bs) =>
        RegionSound(a, lo, hi, start, size, bs);
      case HandOut(x, order) =>
        var o :| Fitting(a, x, o, order) && b == Carved(a, x, o, order);
        CarvedSound(a, lo, hi, x, o, order);
      case HandOutZeroed(x) =>
        ZeroedSound(a, b, lo, hi, x);
      case TakeBack(x) =>
        FreeStepSound(a, b, lo, hi, x);
      case Retyped(x) =>
        RetypeSound(a, lo, hi, x);
      case Refused =>
    }
  }

  lemma ZeroedSound(a: Owners, b: Owners, lo: nat, hi: nat, x: nat)
    requires Sound(a, lo, hi) && Next(a, HandOutZeroed(x), b, lo, hi)
    ensures x !in a.out && Sound(b, lo, hi) && b.out == a.out[x := Held(0, true)] && b.lost == a.lost
    ensures if a.quar != [] then b.quar == a.quar[1..] && b.free == a.free
      else b.quar == [] && Gains(b.free, a.free, Block(x, 0))
  {
    if a.quar != [] {
      UnparkSound(a, lo, hi);
    } else {
      var o :| Fitting(a, x, o, 0) && x in Carved(a, x, o, 0).out && b == Retype(Carved(a, x, o, 0), x);
      TableSound(a, lo, hi, x, o, 0);
    }
  }

  lemma TableSound(a: Owners, lo: nat, hi: nat, x: nat, o: nat, order: nat)
    requires Sound(a, lo, hi) && Block(x, o) in a.free && order <= o
    ensures x !in a.out && x in Carved(a, x, o, order).out
    ensures var b := Retype(Carved(a, x, o, order), x);
      && Sound(b, lo, hi) && b.out == a.out[x := Held(order, true)] && b.quar == a.quar && b.lost == a.lost
      && Gains(b.free, a.free, Block(x, order))
  {
    CarvedSound(a, lo, hi, x, o, order);
    RetypeSound(Carved(a, x, o, order), lo, hi, x);
  }

  lemma FreeStepSound(a: Owners, b: Owners, lo: nat, hi: nat, x: nat)
    requires Allowed(a, lo, hi) && x in a.out && FreeStep(a, b, x)
    ensures Sound(b, lo, hi) && b.out == a.out - {x}
  {
    MergeSound(a, lo, hi, x);
    if a.out[x].table {
      ParkSound(a, lo, hi, x);
      LoseSound(a, lo, hi, x);
    }
  }
}
