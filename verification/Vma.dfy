/**
 The pool of mapped ranges.  Records of all address spaces share one array whose
 freed slots are reused; a lookup takes the first record in slot order.
 Addresses are 64-bit words and their sums wrap around.
 */
module Vma {
  import opened Options

  const WORD: nat := 0x1_0000_0000_0000_0000
  const MAX_RECORDS: nat := 65536
  const HOLE_BASE: nat := 0x7000_0000
  const HOLE_LIMIT: nat := 0x0000_7FFF_FFFF_F000

  datatype Range = Range(start: nat, end: nat, flags: nat)

  /** A slot of the pool; space 0 belongs to nobody. */
  datatype Rec = Rec(space: nat, vma: Range)

  predicate Covers(v: Range, a: int) {
    v.start <= a < v.end
  }

  predicate Free(r: Rec) {
    r.space == 0 && r.vma.start == 0
  }

  // ---------------------------------------------------- one space's records

  /** The ranges of space `p` in slot order. */
  function Of(recs: seq<Rec>, p: nat): seq<Range> {
    if recs == [] then [] else
    var r := recs[|recs| - 1];
    Of(recs[..|recs| - 1], p) + if r.space == p then [r.vma] else []
  }

  /** The first range that covers `a`. */
  function FindIn(vs: seq<Range>, a: nat): Option<Range> {
    if vs == [] then None else if Covers(vs[0], a) then Some(vs[0]) else FindIn(vs[1..], a)
  }

  function Spare(recs: seq<Rec>): nat {
    if recs == [] then 0 else
    Spare(recs[..|recs| - 1]) + if Free(recs[|recs| - 1]) then 1 else 0
  }

  /** How many more records the pool takes. */
  function Room(recs: seq<Rec>): nat
    requires |recs| <= MAX_RECORDS
  {
    Spare(recs) + (MAX_RECORDS - |recs|)
  }

  lemma {:induction false} OfConcat(a: seq<Rec>, b: seq<Rec>, p: nat)
    ensures Of(a + b, p) == Of(a, p) + Of(b, p)
    ensures Spare(a + b) == Spare(a) + Spare(b)
  {
    if b == [] {
      assert a + b == a;
    } else {
      var n := |b| - 1;
      OfConcat(a, b[..n], p);
      assert (a + b)[..|a + b| - 1] == a + b[..n];
    }
  }

  lemma OfOne(r: Rec, p: nat)
    ensures Of([r], p) == (if r.space == p then [r.vma] else []) && Spare([r]) == if Free(r) then 1 else 0
  {}

  lemma {:induction false} OfNone(recs: seq<Rec>, p: nat)
    ensures Of(recs, p) == [] <==> forall k :: 0 <= k < |recs| ==> recs[k].space != p
  {
    if recs != [] {
      var n := |recs| - 1;
      OfNone(recs[..n], p);
      assert recs == recs[..n] + [recs[n]];
    }
  }

  lemma {:induction false} SpareNone(recs: seq<Rec>)
    ensures Spare(recs) == 0 <==> forall k :: 0 <= k < |recs| ==> !Free(recs[k])
  {
    if recs != [] {
      var n := |recs| - 1;
      SpareNone(recs[..n]);
      assert recs == recs[..n] + [recs[n]];
    }
  }

  lemma OfAround(recs: seq<Rec>, j: nat, p: nat)
    requires j < |recs|
    ensures Of(recs, p) == Of(recs[..j], p) + (if recs[j].space == p then [recs[j].vma] else []) + Of(recs[j + 1..], p)
    ensures Spare(recs) == Spare(recs[..j]) + (if Free(recs[j]) then 1 else 0) + Spare(recs[j + 1..])
  {
    var a, b := recs[..j], recs[j + 1..];
    assert recs == a + ([recs[j]] + b);
    OfConcat(a, [recs[j]] + b, p);
    OfConcat([recs[j]], b, p);
    OfOne(recs[j], p);
  }

  /** Refilling slot `j` changes the lists of the two spaces involved there. */
  lemma OfReplace(recs: seq<Rec>, j: nat, r: Rec, p: nat)
    requires j < |recs|
    ensures Of(recs, p) == Of(recs[..j], p) + (if recs[j].space == p then [recs[j].vma] else []) + Of(recs[j + 1..], p)
    ensures Of(recs[j := r], p) == Of(recs[..j], p) + (if r.space == p then [r.vma] else []) + Of(recs[j + 1..], p)
    ensures Spare(recs[j := r]) + (if Free(recs[j]) then 1 else 0) == Spare(recs) + if Free(r) then 1 else 0
  {
    OfAround(recs, j, p);
    OfAround(recs[j := r], j, p);
    assert recs[j := r][..j] == recs[..j] && recs[j := r][j + 1..] == recs[j + 1..];
  }

  lemma {:induction false} FindConcat(a: seq<Range>, b: seq<Range>, x: nat)
    ensures FindIn(a + b, x) == if FindIn(a, x).Some? then FindIn(a, x) else FindIn(b, x)
  {
    if a == [] {
      assert a + b == b;
    } else {
      FindConcat(a[1..], b, x);
      assert (a + b)[1..] == a[1..] + b;
    }
  }

  lemma FindStep(recs: seq<Rec>, i: nat, p: nat, a: nat)
    requires i < |recs| && FindIn(Of(recs[..i], p), a).None?
    ensures if recs[i].space == p && Covers(recs[i].vma, a)
      then FindIn(Of(recs, p), a) == Some(recs[i].vma)
      else FindIn(Of(recs[..i + 1], p), a).None?
  {
    var x, y, b := recs[..i], recs[..i + 1], recs[i + 1..];
    assert recs == y + b;
    assert y == x + [recs[i]];
    OfConcat(x, [recs[i]], p);
    OfConcat(y, b, p);
    OfOne(recs[i], p);
    FindConcat(Of(x, p), Of([recs[i]], p), a);
    FindConcat(Of(y, p), Of(b, p), a);
  }

  /** A child that got only the first `room` ranges sees what its parent sees
      exactly when no range left out shows through the ones it got. */
  lemma TruncatedIff(vs: seq<Range>, room: nat)
    ensures (forall a: nat :: FindIn(Upto(vs, room), a) == FindIn(vs, a)) <==>
      (|vs| <= room || forall a: nat :: FindIn(vs[room..], a).Some? ==> FindIn(vs[..room], a).Some?)
  {
    if room < |vs| {
      forall a: nat
        ensures FindIn(vs, a) == if FindIn(vs[..room], a).Some? then FindIn(vs[..room], a) else FindIn(vs[room..], a)
      {
        assert vs == vs[..room] + vs[room..];
        FindConcat(vs[..room], vs[room..], a);
      }
    }
  }

  // --------------------------------------------------------- registration

  /** Slot `j` is the first free one; `|recs|` stands for none. */
  ghost predicate FirstFree(recs: seq<Rec>, j: nat) {
    j <= |recs| && (forall k :: 0 <= k < j ==> !Free(recs[k])) && (j < |recs| ==> Free(recs[j]))
  }

  /** A record goes into the first free slot, or behind all, or nowhere. */
  function Put(recs: seq<Rec>, j: nat, r: Rec): seq<Rec> {
    if j < |recs| then recs[j := r] else if |recs| < MAX_RECORDS then recs + [r] else recs
  }

  /** No record of space `p` lies behind a free slot. */
  ghost predicate Packed(recs: seq<Rec>, p: nat) {
    forall j, k :: 0 <= j < k < |recs| && Free(recs[j]) ==> recs[k].space != p
  }

  /** Putting a record in takes one place and disturbs no other space's list. */
  lemma PutOthers(recs: seq<Rec>, j: nat, r: Rec, p: nat)
    requires FirstFree(recs, j) && |recs| <= MAX_RECORDS && p != 0 && p != r.space && r.space != 0
    ensures |Put(recs, j, r)| <= MAX_RECORDS && Of(Put(recs, j, r), p) == Of(recs, p)
    ensures Room(Put(recs, j, r)) == if Room(recs) == 0 then 0 else Room(recs) - 1
  {
    SpareNone(recs);
    if j < |recs| {
      OfReplace(recs, j, r, p);
      assert !Free(r);
    } else {
      OfConcat(recs, [r], p);
      OfOne(r, p);
    }
  }

  lemma PutPacked(recs: seq<Rec>, j: nat, r: Rec)
    requires FirstFree(recs, j) && r.space != 0 && Packed(recs, r.space)
    ensures Packed(Put(recs, j, r), r.space)
  {}

  lemma PutOwnAt(recs: seq<Rec>, j: nat, r: Rec)
    requires j < |recs| && Free(recs[j]) && r.space != 0 && Packed(recs, r.space)
    ensures Of(recs[j := r], r.space) == Of(recs, r.space) + [r.vma]
  {
    OfReplace(recs, j, r, r.space);
    var b := recs[j + 1..];
    forall k | 0 <= k < |b| ensures b[k].space != r.space {
      assert b[k] == recs[j + 1 + k];
    }
    OfNone(b, r.space);
  }

  /** With the space packed, a new record is its last. */
  lemma PutOwn(recs: seq<Rec>, j: nat, r: Rec)
    requires FirstFree(recs, j) && |recs| <= MAX_RECORDS && r.space != 0 && Packed(recs, r.space)
    ensures Of(Put(recs, j, r), r.space) == Of(recs, r.space) + if Room(recs) == 0 then [] else [r.vma]
  {
    SpareNone(recs);
    if j < |recs| {
      PutOwnAt(recs, j, r);
    } else {
      OfConcat(recs, [r], r.space);
      OfOne(r, r.space);
    }
  }

  // ------------------------------------------------------------- unmapping

  /** What vma_clear_range does to one record of the space. */
  function Cut(r: Rec, start: nat, end: nat): Rec {
    var s, e := r.vma.start, r.vma.end;
    if s == 0 then r
    else if start <= s && end >= e then Rec(0, Range(0, 0, 0))
    else if start <= s && s < end < e then r.(vma := r.vma.(start := end))
    else if end >= e && s < start < e then r.(vma := r.vma.(end := start))
    else if start > s && end < e then r.(vma := r.vma.(end := start))
    else r
  }

  function CutAll(recs: seq<Rec>, p: nat, start: nat, end: nat): seq<Rec> {
    seq(|recs|, i requires 0 <= i < |recs| => if recs[i].space == p then Cut(recs[i], start, end) else recs[i])
  }

  ghost predicate Covered(recs: seq<Rec>, p: nat, a: int) {
    exists k :: 0 <= k < |recs| && recs[k].space == p && Covers(recs[k].vma, a)
  }

  /** The tail a record strictly around the range loses with it. */
  predicate LostTail(v: Range, start: nat, end: nat, a: int) {
    v.start < start && end < v.end && end <= a
  }

  /** One record after the cut covers exactly what it covered, less the range
      and less the tail if it strictly encloses the range. */
  lemma CutExact(r: Rec, start: nat, end: nat, a: int)
    requires start <= end && r.vma.start != 0 && r.space != 0
    ensures Cut(r, start, end).space == r.space && Covers(Cut(r, start, end).vma, a)
       <==> Covers(r.vma, a) && !(start <= a < end) && !LostTail(r.vma, start, end, a)
  {}

  /** Record `r` still covers `a` after [start, end) is unmapped from `p`. */
  predicate Remains(r: Rec, p: nat, start: nat, end: nat, a: int) {
    r.space == p && Covers(r.vma, a) && !(start <= a < end) && !LostTail(r.vma, start, end, a)
  }

  /** What unmapping [start, end) from `p` makes of a slot: another space's is left
      alone, a record within the range is freed, and any other keeps its space
      and flags and covers exactly what remains. */
  ghost predicate Trimmed(r: Rec, r2: Rec, p: nat, start: nat, end: nat) {
    if r.space != p then r2 == r
    else if start <= r.vma.start && r.vma.end <= end then Free(r2)
    else
      && r2.space == p && r2.vma.flags == r.vma.flags
      && forall a :: Covers(r2.vma, a) <==> Remains(r, p, start, end, a)
  }

  lemma CutTrims(r: Rec, start: nat, end: nat)
    requires start <= end && r.vma.start != 0 && r.space != 0
    ensures Trimmed(r, Cut(r, start, end), r.space, start, end)
  {
    if !(start <= r.vma.start && r.vma.end <= end) {
      forall a ensures Covers(Cut(r, start, end).vma, a) <==> Remains(r, r.space, start, end, a) {
        CutExact(r, start, end, a);
      }
    }
  }

  /** No record of a space starts at address 0, which marks a free slot. */
  ghost predicate Live(recs: seq<Rec>) {
    forall k :: 0 <= k < |recs| && recs[k].space != 0 ==> recs[k].vma.start != 0
  }

  ghost predicate InWords(recs: seq<Rec>) {
    forall k :: 0 <= k < |recs| ==> recs[k].vma.start < WORD && recs[k].vma.end < WORD
  }

  lemma PutLive(recs: seq<Rec>, j: nat, r: Rec)
    requires Live(recs) && InWords(recs) && 0 < r.vma.start < WORD && r.vma.end < WORD
    ensures Live(Put(recs, j, r)) && InWords(Put(recs, j, r))
  {}

  lemma CutLive(recs: seq<Rec>, p: nat, start: nat, end: nat)
    requires Live(recs)
    ensures Live(CutAll(recs, p, start, end))
  {}

  /** Address by address, what unmapping [start, end) leaves of a space. */
  lemma ClearExact(recs: seq<Rec>, p: nat, start: nat, end: nat, a: int)
    requires start <= end && p != 0 && Live(recs)
    ensures Covered(CutAll(recs, p, start, end), p, a) <==>
      exists k :: 0 <= k < |recs| && Remains(recs[k], p, start, end, a)
  {
    var cut := CutAll(recs, p, start, end);
    forall k | 0 <= k < |recs|
      ensures cut[k].space == p && Covers(cut[k].vma, a) <==> Remains(recs[k], p, start, end, a)
    {
      if recs[k].space == p { CutExact(recs[k], start, end, a); }
    }
    if Covered(cut, p, a) {
      var k :| 0 <= k < |cut| && cut[k].space == p && Covers(cut[k].vma, a);
      assert Remains(recs[k], p, start, end, a);
    }
    if exists k :: 0 <= k < |recs| && Remains(recs[k], p, start, end, a) {
      var k :| 0 <= k < |recs| && Remains(recs[k], p, start, end, a);
      assert cut[k].space == p && Covers(cut[k].vma, a);
    }
  }

  /** A record whose sum start + length wrapped around: it grows up to the start
      of the inverted range.  Otherwise a cut never adds an address. */
  lemma CutGrowsIff(r: Rec, start: nat, end: nat)
    requires r.vma.start != 0
    ensures (forall a :: Covers(Cut(r, start, end).vma, a) ==> Covers(r.vma, a))
       <==> !(r.vma.start < start && end < r.vma.end < start)
  {
    var v := r.vma;
    if v.start < start && end < v.end < start {
      var a := if v.end > v.start then v.end else v.start;
      assert Covers(Cut(r, start, end).vma, a) && !Covers(v, a);
    }
  }

  /** Unmapping [0x3000, 0x3000 + len) with a length that wraps to 0 extends the
      record [0x1000, 0x2000). */
  lemma WrappedUnmapGrows()
    ensures Cut(Rec(1, Range(0x1000, 0x2000, 0)), 0x3000, 0) == Rec(1, Range(0x1000, 0x3000, 0))
  {}

  lemma {:induction false} ClearOthers(recs: seq<Rec>, p: nat, start: nat, end: nat, q: nat)
    requires p != q && p != 0 && q != 0
    ensures Of(CutAll(recs, p, start, end), q) == Of(recs, q)
    decreases |recs|
  {
    if recs != [] {
      var n := |recs| - 1;
      ClearOthers(recs[..n], p, start, end, q);
      assert CutAll(recs, p, start, end)[..n] == CutAll(recs[..n], p, start, end);
    }
  }

  // ----------------------------------------------------------- hole search

  predicate Overlaps(r: Rec, p: nat, start: nat, end: nat) {
    r.space == p && start < r.vma.end && end > r.vma.start
  }

  /** A range of `size` at `c` ends below the limit and meets no record. */
  ghost predicate Fits(recs: seq<Rec>, p: nat, size: nat, c: nat) {
    c + size <= HOLE_LIMIT && forall k :: 0 <= k < |recs| ==> !Overlaps(recs[k], p, c, c + size)
  }

  ghost predicate FirstFit(recs: seq<Rec>, p: nat, size: nat, c: nat) {
    Fits(recs, p, size, c) && HOLE_BASE <= c && NoFitBefore(recs, p, size, c)
  }

  ghost predicate NoFitBefore(recs: seq<Rec>, p: nat, size: nat, c: nat) {
    forall x: nat :: HOLE_BASE <= x < c ==> !Fits(recs, p, size, x)
  }

  function Sum(a: nat, b: nat): nat {
    (a + b) % WORD
  }

  /** Jumping to the end of an overlapping record skips no hole. */
  lemma JumpSkipsNothing(recs: seq<Rec>, p: nat, size: nat, c: nat, k: nat)
    requires c < WORD && size < WORD && NoFitBefore(recs, p, size, c)
    requires k < |recs| && Overlaps(recs[k], p, c, Sum(c, size))
    ensures NoFitBefore(recs, p, size, recs[k].vma.end)
  {
    assert c + size < WORD ==> Sum(c, size) == c + size;
    forall x: nat | c <= x < recs[k].vma.end ensures !Fits(recs, p, size, x) {
      if c + size < WORD {
        assert Overlaps(recs[k], p, x, x + size);
      }
    }
  }

  /** Every record of the space ends at or below the limit. */
  ghost predicate EndsLow(recs: seq<Rec>, p: nat) {
    forall k :: 0 <= k < |recs| && recs[k].space == p ==> recs[k].vma.end <= HOLE_LIMIT
  }

  /** The one record of the space is in the way at the base and ends so high
      that the sum of its end and the size wraps around. */
  ghost predicate Huge(recs: seq<Rec>, p: nat, size: nat, k: nat) {
    && k < |recs| && recs[k].space == p && (forall j :: 0 <= j < |recs| && j != k ==> recs[j].space != p)
    && recs[k].vma.start < HOLE_BASE + size <= HOLE_LIMIT && WORD <= recs[k].vma.end + size
  }

  class Pool {
    var recs: seq<Rec>   // VMAS[..VMA_USED]

    ghost predicate Valid()
      reads this
    {
      && |recs| <= MAX_RECORDS
      && InWords(recs) && Live(recs)
    }

    constructor ()
      ensures Valid() && recs == []
    {
      recs := [];
    }

    method FindFree() returns (j: nat)
      ensures FirstFree(recs, j)
    {
      j := 0;
      while j < |recs| && !Free(recs[j])
        invariant j <= |recs| && forall k :: 0 <= k < j ==> !Free(recs[k])
      {
        j := j + 1;
      }
    }

    /** vma_register: refused exactly when the pool is full. */
    method Register(p: nat, v: Range) returns (ok: bool)
      requires Valid() && p != 0 && 0 < v.start < WORD && v.end < WORD
      modifies this
      ensures Valid() && (ok <==> old(Room(recs)) > 0) && (!ok ==> recs == old(recs))
      ensures ok <==> |old(recs)| < MAX_RECORDS || exists k :: 0 <= k < |old(recs)| && Free(old(recs)[k])
      ensures forall q: nat :: q != 0 && q != p ==> Of(recs, q) == Of(old(recs), q)
      ensures ok ==> exists a, b :: Of(old(recs), p) == a + b && Of(recs, p) == a + [v] + b
    {
      var j := FindFree();
      ghost var was := recs;
      forall q: nat | q != 0 && q != p ensures Of(Put(was, j, Rec(p, v)), q) == Of(was, q) {
        PutOthers(was, j, Rec(p, v), q);
      }
      SpareNone(recs);
      ok := j < |recs| || |recs| < MAX_RECORDS;
      if j < |recs| {
        OfReplace(recs, j, Rec(p, v), p);
        assert Of(was, p) == Of(was[..j], p) + Of(was[j + 1..], p);
        recs := recs[j := Rec(p, v)];
      } else if |recs| < MAX_RECORDS {
        OfConcat(recs, [Rec(p, v)], p);
        OfOne(Rec(p, v), p);
        assert Of(was, p) == Of(was, p) + [] && Of(was, p) + [v] == Of(was, p) + [v] + [];
        recs := recs + [Rec(p, v)];
      }
    }

    /** vma_find: the first record of the space that covers the address. */
    method Find(p: nat, a: nat) returns (r: Option<Range>)
      ensures r == FindIn(Of(recs, p), a)
      ensures r.None? <==> !Covered(recs, p, a)
      ensures r.Some? ==>
        exists k :: 0 <= k < |recs| && recs[k] == Rec(p, r.value) && Covers(r.value, a)
          && forall j :: 0 <= j < k ==> !(recs[j].space == p && Covers(recs[j].vma, a))
    {
      var i := 0;
      while i < |recs|
        invariant i <= |recs| && FindIn(Of(recs[..i], p), a).None?
        invariant forall j :: 0 <= j < i ==> !(recs[j].space == p && Covers(recs[j].vma, a))
      {
        FindStep(recs, i, p, a);
        if recs[i].space == p && a >= recs[i].vma.start && a < recs[i].vma.end {
          assert recs[i] == Rec(p, recs[i].vma);
          return Some(recs[i].vma);
        }
        i := i + 1;
      }
      assert recs[..i] == recs;
      r := None;
    }

    /** vma_clear_range: nothing of the range stays covered, and outside it all
        that was covered but the tails of records strictly around the range. */
    method ClearRange(p: nat, start: nat, end: nat)
      requires Valid() && p != 0 && start < WORD && end < WORD
      modifies this
      ensures Valid() && recs == CutAll(old(recs), p, start, end)
      ensures start <= end ==> forall a: nat :: start <= a < end ==> !Covered(recs, p, a)
      ensures |recs| == |old(recs)|
      ensures start <= end ==> forall k :: 0 <= k < |recs| ==> Trimmed(old(recs)[k], recs[k], p, start, end)
      ensures start <= end ==>
        forall a: nat :: Covered(recs, p, a) <==>
        exists k :: 0 <= k < |old(recs)| && Remains(old(recs)[k], p, start, end, a)
      ensures forall q: nat :: q != 0 && q != p ==> Of(recs, q) == Of(old(recs), q)
    {
      ghost var was := recs;
      var i := 0;
      while i < |recs|
        invariant i <= |recs| == |old(recs)|
        invariant forall k :: 0 <= k < i ==> recs[k] == CutAll(old(recs), p, start, end)[k]
        invariant forall k :: i <= k < |recs| ==> recs[k] == old(recs)[k]
      {
        if recs[i].space == p {
          recs := recs[i := Cut(recs[i], start, end)];
        }
        i := i + 1;
      }
      assert recs == CutAll(was, p, start, end);
      CutLive(was, p, start, end);
      if start <= end {
        forall k | 0 <= k < |recs| ensures Trimmed(was[k], recs[k], p, start, end) {
          if was[k].space == p { CutTrims(was[k], start, end); }
        }
        forall a: nat ensures Covered(recs, p, a) <==> exists k :: 0 <= k < |was| && Remains(was[k], p, start, end, a) {
          ClearExact(was, p, start, end, a);
        }
      }
      forall q: nat | q != 0 && q != p ensures Of(recs, q) == Of(was, q) {
        ClearOthers(was, p, start, end, q);
      }
    }

    /** vma_clone: the child gets the parent's records in the parent's order, as
        many as the pool takes. */
    method Clone(from: nat, to: nat)
      requires Valid() && from != 0 && to != 0 && from != to && Of(recs, to) == []
      modifies this
      ensures Valid()
      ensures Of(recs, to) == Upto(Of(old(recs), from), old(Room(recs)))
      ensures forall q: nat :: q != 0 && q != to ==> Of(recs, q) == Of(old(recs), q)
    {
      CopyStart(recs, from, to);
      ghost var was := recs;
      var i, n := 0, |recs|;
      while i < n
        invariant i <= n == |was| && Valid() && Copied(was, recs, from, to, i)
      {
        CopySlot(from, to, i, was);
        i := i + 1;
      }
      assert was[..n] == was;
    }

    method CopySlot(from: nat, to: nat, i: nat, ghost was: seq<Rec>)
      requires Valid() && from != 0 && to != 0 && from != to && i < |was| && Copied(was, recs, from, to, i)
      modifies this
      ensures Valid() && Copied(was, recs, from, to, i + 1)
    {
      CopyTurn(was, recs, from, to, i);
      var r := recs[i];
      if r.space == from {
        var j := FindFree();
        CopyOne(was, recs, from, to, i, j);
        PutLive(recs, j, Rec(to, r.vma));
        recs := Put(recs, j, Rec(to, r.vma));
      }
    }

    /** The end of the overlapping record that ends first. */
    method FirstOverlapEnd(p: nat, start: nat, end: nat) returns (best: Option<nat>)
      ensures best.None? <==> forall k :: 0 <= k < |recs| ==> !Overlaps(recs[k], p, start, end)
      ensures best.Some? ==>
        exists k :: 0 <= k < |recs| && Overlaps(recs[k], p, start, end) && recs[k].vma.end == best.value
      ensures best.Some? ==>
        forall k :: 0 <= k < |recs| && Overlaps(recs[k], p, start, end) ==> best.value <= recs[k].vma.end
    {
      best := None;
      for i := 0 to |recs|
        invariant best.None? <==> forall k :: 0 <= k < i ==> !Overlaps(recs[k], p, start, end)
        invariant best.Some? ==>
          exists k :: 0 <= k < i && Overlaps(recs[k], p, start, end) && recs[k].vma.end == best.value
        invariant best.Some? ==>
          forall k :: 0 <= k < i && Overlaps(recs[k], p, start, end) ==> best.value <= recs[k].vma.end
      {
        if Overlaps(recs[i], p, start, end) && (best.None? || recs[i].vma.end < best.value) {
          best := Some(recs[i].vma.end);
        }
      }
    }

    /** The hole search of mmap: where there is a hole it gives the least one from
        the base up.  With records that end below the limit it gives nothing else
        if and only if the size does not wrap around at the base.  A size that
        does is always granted, and so is one that wraps around behind a huge
        record. */
    method FindHole(p: nat, size: nat) returns (r: Option<nat>)
      requires Valid() && size < WORD
      ensures forall c: nat :: HOLE_BASE <= c && Fits(recs, p, size, c) ==> r.Some? && FirstFit(recs, p, size, r.value)
      ensures r.Some? ==> (FirstFit(recs, p, size, r.value) <==> r.value + size < WORD)
      ensures EndsLow(recs, p) ==> ((r.Some? ==> FirstFit(recs, p, size, r.value)) <==> HOLE_BASE + size < WORD)
      ensures EndsLow(recs, p) && HOLE_BASE + size >= WORD ==> r.Some?
      ensures forall k: nat :: Huge(recs, p, size, k) ==> r == Some(recs[k].vma.end)
    {
      var c := HOLE_BASE;
      while Sum(c, size) <= HOLE_LIMIT
        invariant HOLE_BASE <= c < WORD && NoFitBefore(recs, p, size, c)
        invariant EndsLow(recs, p) ==> c <= HOLE_LIMIT && (c + size < WORD <==> HOLE_BASE + size < WORD)
        invariant forall k: nat :: Huge(recs, p, size, k) ==> c == HOLE_BASE || c == recs[k].vma.end
        decreases WORD - c
      {
        var e := FirstOverlapEnd(p, c, Sum(c, size));
        SumIs(c, size);
        match e {
          case None => return Some(c);
          case Some(end) =>
            ghost var k :| 0 <= k < |recs| && Overlaps(recs[k], p, c, Sum(c, size)) && recs[k].vma.end == end;
            JumpSkipsNothing(recs, p, size, c, k);
            c := end;
        }
      }
      SumIs(c, size);
      r := None;
    }
  }

  lemma SumIs(a: nat, b: nat)
    requires a < WORD && b < WORD
    ensures Sum(a, b) == if a + b < WORD then a + b else a + b - WORD
  {}

  function Upto(vs: seq<Range>, room: nat): seq<Range> {
    if |vs| <= room then vs else vs[..room]
  }

  /** The pool after the first `i` slots of the parent were copied. */
  ghost predicate Copied(was: seq<Rec>, recs: seq<Rec>, from: nat, to: nat, i: nat) {
    && i <= |was| <= |recs| <= MAX_RECORDS && Packed(recs, to)
    && (forall k :: 0 <= k < |was| && (was[k].space == from || recs[k].space == from) ==> recs[k] == was[k])
    && (forall q: nat :: q != 0 && q != to ==> Of(recs, q) == Of(was, q))
    && Of(recs, to) == Upto(Of(was[..i], from), Room(was))
    && Room(recs) == Room(was) - |Of(recs, to)|
  }

  lemma CopyStart(was: seq<Rec>, from: nat, to: nat)
    requires |was| <= MAX_RECORDS && Of(was, to) == []
    ensures Copied(was, was, from, to, 0)
  {}

  /** A slot of another space is passed over. */
  lemma CopyTurn(was: seq<Rec>, recs: seq<Rec>, from: nat, to: nat, i: nat)
    requires Copied(was, recs, from, to, i) && i < |was|
    ensures Of(was[..i + 1], from) == Of(was[..i], from) + if recs[i].space == from then [recs[i].vma] else []
    ensures recs[i].space != from ==> Copied(was, recs, from, to, i + 1)
  {
    assert was[..i + 1] == was[..i] + [was[i]];
    OfConcat(was[..i], [was[i]], from);
    OfOne(was[i], from);
  }

  lemma CopyOne(was: seq<Rec>, recs: seq<Rec>, from: nat, to: nat, i: nat, j: nat)
    requires Copied(was, recs, from, to, i) && i < |was| && recs[i].space == from
    requires FirstFree(recs, j) && from != 0 && to != 0 && from != to
    ensures Copied(was, Put(recs, j, Rec(to, recs[i].vma)), from, to, i + 1)
  {
    var r := Rec(to, recs[i].vma);
    CopyTurn(was, recs, from, to, i);
    PutPacked(recs, j, r);
    PutOwn(recs, j, r);
    PutOthers(recs, j, r, from);
    forall q: nat | q != 0 && q != to ensures Of(Put(recs, j, r), q) == Of(was, q) {
      PutOthers(recs, j, r, q);
    }
    assert Of(Put(recs, j, r), to) == Upto(Of(was[..i + 1], from), Room(was));
  }
}
