/** Boot-time memory: the carved ranges are handed to the buddy allocator. */
module BootMemory {
  import opened BuddyBlocks
  import opened BuddyOwners
  import opened BuddySteps
  import opened BuddyAllocator
  import Carve

  /** Adding [lo, hi) leaves what lies behind it nobody's. */
  lemma StillNobodysBehind(a: Owners, b: Owners, lo: nat, hi: nat, end: nat)
    requires Nobodys(a, lo, end) && lo <= hi && GainsRange(a.free, b.free, lo, hi)
    requires b.out == a.out && b.quar == a.quar && b.lost == a.lost
    ensures Nobodys(b, hi, end)
  {
    forall p, x: nat | Has(b, p) && hi <= x < end ensures !p.b.Holds(x) {
      FreeIsNobodys(a, lo, end, x);
      assert p.Free? || Has(a, p);
      assert p.Free? && p.b.Holds(x) ==> Covers(b.free, x);
    }
  }

  /** Free bytes: those of `f` and those of the first ranges. */
  ghost predicate GainsRanges(f: set<Block>, g: set<Block>, ranges: seq<Carve.Interval>) {
    forall x: nat :: Covers(g, x) <==> Covers(f, x) || Carve.In(ranges, x)
  }

  lemma RangesMore(f: set<Block>, g: set<Block>, h: set<Block>, ranges: seq<Carve.Interval>, r: Carve.Interval)
    requires GainsRanges(f, g, ranges) && GainsRange(g, h, r.lo, r.hi)
    ensures GainsRanges(f, h, ranges + [r])
  {
    forall x: nat ensures Carve.In(ranges + [r], x) <==> Carve.In(ranges, x) || r.lo <= x < r.hi {
      Carve.SnocCovers(ranges, r, x);
    }
  }

  /** add_free_region_skipping: the free bytes gain exactly the region less what
      is reserved, and nothing else changes hands. */
  method AddFreeRegion(alloc: Buddies, b: Carve.Boot, start: nat, end: nat)
    requires Carve.Listed(b, start, end) <= Carve.MAX_MERGED && start % PAGE == 0 && end % PAGE == 0 && Carve.Rounded(b)
    requires alloc.Core() && alloc.base <= start <= end <= alloc.End() && Nobodys(alloc.own, start, end)
    modifies alloc
    ensures alloc.Core() && alloc.own.out == old(alloc.own).out && alloc.own.quar == old(alloc.own).quar
    ensures alloc.own.lost == old(alloc.own).lost
    ensures forall x: nat :: Covers(alloc.own.free, x) <==>
      Covers(old(alloc.own).free, x) || (start <= x < end && !Carve.Reserved(b, x))
  {
    var ranges := Carve.CarveRegion(b, start, end);
    ghost var cur := start;
    for i := 0 to |ranges|
      modifies alloc`heads, alloc`hdr, alloc`lists, alloc`own
      invariant alloc.Core() && start <= cur <= end && Nobodys(alloc.own, cur, end)
      invariant (i < |ranges| ==> cur <= ranges[i].lo)
      invariant alloc.own.out == old(alloc.own).out && alloc.own.quar == old(alloc.own).quar
      invariant alloc.own.lost == old(alloc.own).lost
      invariant GainsRanges(old(alloc.own).free, alloc.own.free, ranges[..i])
    {
      var r := ranges[i];
      ghost var was := alloc.own;
      AddRange(alloc, r, end);
      RangesMore(old(alloc.own).free, was.free, alloc.own.free, ranges[..i], r);
      assert ranges[..i + 1] == ranges[..i] + [r];
      cur := r.hi;
    }
    assert ranges[..|ranges|] == ranges;
  }

  method AddRange(alloc: Buddies, r: Carve.Interval, ghost end: nat)
    requires alloc.Core() && alloc.base <= r.lo <= r.hi <= end <= alloc.End() && Carve.Whole(r)
    requires Nobodys(alloc.own, r.lo, end)
    modifies alloc`heads, alloc`hdr, alloc`lists, alloc`own
    ensures alloc.Core() && alloc.own.out == old(alloc.own).out && alloc.own.quar == old(alloc.own).quar
    ensures alloc.own.lost == old(alloc.own).lost
    ensures GainsRange(old(alloc.own).free, alloc.own.free, r.lo, r.hi) && Nobodys(alloc.own, r.hi, end)
  {
    ghost var a := alloc.own;
    ghost var bs := alloc.AddRegion(r.lo, r.hi - r.lo);
    RangeAdded(a, alloc.base, alloc.End(), r.lo, r.hi, bs);
    StillNobodysBehind(a, alloc.own, r.lo, r.hi, end);
  }

  lemma RangeAdded(a: Owners, lo: nat, hi: nat, start: nat, end: nat, bs: seq<Block>)
    requires Sound(a, lo, hi) && start <= end && start % PAGE == 0 && end % PAGE == 0
    requires Addable(a, start, end - start, lo, hi) && IsCut(bs, start, end)
    ensures var b := AddAll(a, bs);
      b.out == a.out && b.quar == a.quar && b.lost == a.lost && GainsRange(a.free, b.free, start, end)
  {
    var size := end - start;
    WholeSize(start, end);
    RegionSound(a, lo, hi, start, size, bs);
  }

  lemma WholeSize(start: nat, end: nat)
    requires start <= end && start % PAGE == 0 && end % PAGE == 0
    ensures start + (end - start) / PAGE * PAGE == end
  {}
}
