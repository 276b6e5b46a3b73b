/** Whole runs of the allocator, seen through who owns which bytes. */
module BuddyRuns {
  import opened BuddyBlocks
  import opened BuddyOwners
  import opened BuddySteps

  datatype Run = Begin(a: Owners) | Step(prev: Run, act: Action, a: Owners)

  /** A run over managed memory [lo, hi).  Only its first state is known to be
      allowed; the allocator starts out owning nothing, which is. */
  ghost predicate IsRun(run: Run, lo: nat, hi: nat) {
    match run
    case Begin(a) => Allowed(a, lo, hi)
    case Step(prev, act, a) => IsRun(prev, lo, hi) && Next(prev.a, act, a, lo, hi)
  }

  /** Runs exist: the allocator as it is set up, owning nothing, may begin one. */
  lemma NothingIsAllowed(lo: nat, hi: nat)
    ensures IsRun(Begin(Owners({}, map[], [], {})), lo, hi)
  {}

  /** Every state of every run: owned blocks are aligned, in range and disjoint,
      and the free lists fully coalesced. */
  lemma {:induction false} RunSound(run: Run, lo: nat, hi: nat)
    requires IsRun(run, lo, hi)
    ensures Allowed(run.a, lo, hi)
  {
    if run.Step? {
      RunSound(run.prev, lo, hi);
      StepSound(run.prev.a, run.act, run.a, lo, hi);
    }
  }

  function Start(run: Run): Owners {
    if run.Begin? then run.a else Start(run.prev)
  }

  // -------------------------------------------------------- conservation

  ghost predicate HeldByte(a: Owners, y: nat) {
    exists x :: x in a.out && Block(x, a.out[x].order).Holds(y)
  }

  ghost predicate ParkedByte(a: Owners, y: nat) {
    exists x: nat :: x in a.quar && Block(x, 0).Holds(y)
  }

  ghost predicate LostByte(a: Owners, y: nat) {
    exists x :: x in a.lost && Block(x, 0).Holds(y)
  }

  ghost predicate OwnedByte(a: Owners, y: nat) {
    Covers(a.free, y) || HeldByte(a, y) || ParkedByte(a, y) || LostByte(a, y)
  }

  lemma HeldGain(a: Owners, b: Owners, x: nat, h: Held, y: nat)
    requires x !in a.out && b.out == a.out[x := h]
    ensures HeldByte(b, y) <==> HeldByte(a, y) || Block(x, h.order).Holds(y)
  {
    if HeldByte(a, y) {
      var z :| z in a.out && Block(z, a.out[z].order).Holds(y);
      assert z in b.out && b.out[z] == a.out[z];
    }
    if Block(x, h.order).Holds(y) { assert x in b.out; }
    if HeldByte(b, y) { var z :| z in b.out && Block(z, b.out[z].order).Holds(y); assert z == x || z in a.out; }
  }

  lemma HeldDrop(a: Owners, b: Owners, x: nat, y: nat)
    requires x in a.out && b.out == a.out - {x}
    ensures HeldByte(a, y) <==> HeldByte(b, y) || Block(x, a.out[x].order).Holds(y)
  {
    if HeldByte(b, y) { var z :| z in b.out && Block(z, b.out[z].order).Holds(y); assert z in a.out; }
    if HeldByte(a, y) { var z :| z in a.out && Block(z, a.out[z].order).Holds(y); assert z == x || z in b.out; }
  }

  lemma ParkedAppend(a: Owners, b: Owners, x: nat, y: nat)
    requires b.quar == a.quar + [x]
    ensures ParkedByte(b, y) <==> ParkedByte(a, y) || Block(x, 0).Holds(y)
  {}

  lemma ParkedTake(a: Owners, b: Owners, y: nat)
    requires a.quar != [] && b.quar == a.quar[1..]
    ensures ParkedByte(a, y) <==> ParkedByte(b, y) || Block(a.quar[0], 0).Holds(y)
  {}

  lemma LostGain(a: Owners, b: Owners, x: nat, y: nat)
    requires b.lost == a.lost + {x}
    ensures LostByte(b, y) <==> LostByte(a, y) || Block(x, 0).Holds(y)
  {}

  /** Byte `y` is added by a step. */
  predicate Adds(act: Action, y: nat) {
    act.AddRegion? && act.start <= y < act.start + act.size / PAGE * PAGE
  }

  /** No step creates or destroys a byte of managed memory, but region adds,
      which add bytes nobody had. */
  lemma StepConserves(a: Owners, act: Action, b: Owners, lo: nat, hi: nat, y: nat)
    requires Allowed(a, lo, hi) && Next(a, act, b, lo, hi)
    ensures OwnedByte(b, y) <==> OwnedByte(a, y) || Adds(act, y)
    ensures Adds(act, y) ==> !OwnedByte(a, y)
  {
    match act {
      case AddRegion(start, size, bs) =>
        RegionSound(a, lo, hi, start, size, bs);
        if Adds(act, y) { NobodysByte(a, start, start + size, y); }
      case HandOut(x, order) =>
        var o :| Fitting(a, x, o, order) && b == Carved(a, x, o, order);
        CarvedSound(a, lo, hi, x, o, order);
        HeldGain(a, b, x, Held(order, false), y);
      case HandOutZeroed(x) =>
        ZeroedSound(a, b, lo, hi, x);
        HeldGain(a, b, x, Held(0, true), y);
        if a.quar != [] { ParkedTake(a, b, y); }
      case TakeBack(x) =>
        FreeConserves(a, b, lo, hi, x, y);
      case Retyped(x) =>
        RetypeHolds(a, b, x, y);
      case Refused =>
    }
  }

  lemma NobodysByte(a: Owners, lo: nat, hi: nat, y: nat)
    requires Nobodys(a, lo, hi) && lo <= y < hi
    ensures !OwnedByte(a, y)
  {
    FreeIsNobodys(a, lo, hi, y);
    forall x | x in a.out ensures !Block(x, a.out[x].order).Holds(y) {
      var p := Out(Block(x, a.out[x].order));
      assert Has(a, p) && p.b == Block(x, a.out[x].order);
    }
    forall x: nat | x in a.quar ensures !Block(x, 0).Holds(y) {
      assert Has(a, Quar(Block(x, 0))) && Quar(Block(x, 0)).b == Block(x, 0);
    }
    forall x | x in a.lost ensures !Block(x, 0).Holds(y) {
      assert Has(a, Lost(Block(x, 0))) && Lost(Block(x, 0)).b == Block(x, 0);
    }
  }

  lemma FreeConserves(a: Owners, b: Owners, lo: nat, hi: nat, x: nat, y: nat)
    requires Allowed(a, lo, hi) && x in a.out && FreeStep(a, b, x)
    ensures OwnedByte(b, y) <==> OwnedByte(a, y)
  {
    MergeSound(a, lo, hi, x);
    HeldDrop(a, b, x, y);
    if b == Merge(a, x) {
    } else if b == Lose(a, x) {
      LostGain(a, b, x, y);
    } else {
      ParkedAppend(a, b, x, y);
    }
  }

  lemma RetypeHolds(a: Owners, b: Owners, x: nat, y: nat)
    requires x in a.out && b == Retype(a, x)
    ensures HeldByte(a, y) <==> HeldByte(b, y)
  {
    if HeldByte(a, y) {
      var z :| z in a.out && Block(z, a.out[z].order).Holds(y);
      assert z in b.out && b.out[z].order == a.out[z].order;
    }
    if HeldByte(b, y) {
      var z :| z in b.out && Block(z, b.out[z].order).Holds(y);
      assert z in a.out && b.out[z].order == a.out[z].order;
    }
  }

  /** Byte `y` was added somewhere along a run. */
  ghost predicate Added(run: Run, y: nat) {
    run.Step? && (Added(run.prev, y) || Adds(run.act, y))
  }

  /** Over every run, the owned bytes are those owned at the start and those
      added since. */
  lemma {:induction false} RunConserves(run: Run, lo: nat, hi: nat, y: nat)
    requires IsRun(run, lo, hi)
    ensures OwnedByte(run.a, y) <==> OwnedByte(Start(run), y) || Added(run, y)
    decreases run
  {
    if run.Step? {
      RunConserves(run.prev, lo, hi, y);
      RunSound(run.prev, lo, hi);
      StepConserves(run.prev.a, run.act, run.a, lo, hi, y);
    }
  }

  lemma QuarPiece(a: Owners, x: nat)
    requires x in a.quar
    ensures Has(a, Quar(Block(x, 0)))
  {}

  lemma LostPiece(a: Owners, x: nat)
    requires x in a.lost
    ensures Has(a, Lost(Block(x, 0)))
  {}

  /** A free byte has no other owner. */
  lemma FreeBytesAreFree(a: Owners, lo: nat, hi: nat, y: nat)
    requires Sound(a, lo, hi)
    ensures Covers(a.free, y) <==> OwnedByte(a, y) && !HeldByte(a, y) && !ParkedByte(a, y) && !LostByte(a, y)
  {
    if Covers(a.free, y) {
      var b :| b in a.free && b.Holds(y);
      assert Has(a, Free(b));
      if HeldByte(a, y) {
        var x :| x in a.out && Block(x, a.out[x].order).Holds(y);
        OutPiece(a, x);
        assert false;
      }
      if ParkedByte(a, y) {
        var x: nat :| x in a.quar && Block(x, 0).Holds(y);
        QuarPiece(a, x);
        assert false;
      }
      if LostByte(a, y) {
        var x :| x in a.lost && Block(x, 0).Holds(y);
        LostPiece(a, x);
        assert false;
      }
    }
  }

  ghost predicate SameHands(a: Owners, b: Owners) {
    && (forall x :: x in a.out <==> x in b.out)
    && (forall x :: x in a.out ==> a.out[x].order == b.out[x].order)
    && (forall x: nat :: x in a.quar <==> x in b.quar)
    && a.lost == b.lost
  }

  /** Whatever was added, allocated and freed in between, and in whatever order:
      once the same blocks are in hand, parked and lost as at the start, exactly
      the bytes free at the start and those added since are free. */
  lemma FreeBytesRestored(run: Run, lo: nat, hi: nat, y: nat)
    requires IsRun(run, lo, hi) && SameHands(Start(run), run.a)
    ensures Covers(run.a.free, y) <==> Covers(Start(run).free, y) || Added(run, y)
  {
    StartAllowed(run, lo, hi);
    RunSound(run, lo, hi);
    RunConserves(run, lo, hi, y);
    FreeBytesAreFree(Start(run), lo, hi, y);
    FreeBytesAreFree(run.a, lo, hi, y);
    SameHandsBytes(Start(run), run.a, y);
    AddedUnowned(run, lo, hi, y);
  }

  /** A byte added along a run was nobody's at the start. */
  lemma {:induction false} AddedUnowned(run: Run, lo: nat, hi: nat, y: nat)
    requires IsRun(run, lo, hi)
    ensures Added(run, y) ==> !OwnedByte(Start(run), y)
    decreases run
  {
    if run.Step? {
      AddedUnowned(run.prev, lo, hi, y);
      RunSound(run.prev, lo, hi);
      RunConserves(run.prev, lo, hi, y);
      StepConserves(run.prev.a, run.act, run.a, lo, hi, y);
    }
  }

  /** With nothing added, the free lists hold exactly the blocks they started
      with. */
  lemma FreeingRestoresLists(run: Run, lo: nat, hi: nat)
    requires IsRun(run, lo, hi) && SameHands(Start(run), run.a) && forall y :: !Added(run, y)
    ensures run.a.free == Start(run).free
  {
    StartAllowed(run, lo, hi);
    RunSound(run, lo, hi);
    var a, b := Start(run), run.a;
    forall y: nat ensures Covers(a.free, y) <==> Covers(b.free, y) {
      FreeBytesRestored(run, lo, hi, y);
    }
    SoundFree(a, lo, hi);
    SoundFree(b, lo, hi);
    CanonicalForm(a.free, b.free);
  }

  lemma {:induction false} StartAllowed(run: Run, lo: nat, hi: nat)
    requires IsRun(run, lo, hi)
    ensures Allowed(Start(run), lo, hi)
  {
    if run.Step? { StartAllowed(run.prev, lo, hi); }
  }

  /** Everything allocated since the allocator was empty and given back in any
      order: the lists are those of a run that only added the same regions. */
  lemma FreeingRestoresRegions(run: Run, adds: Run, lo: nat, hi: nat)
    requires IsRun(run, lo, hi) && IsRun(adds, lo, hi) && Start(run) == Start(adds)
    requires SameHands(Start(run), run.a) && SameHands(Start(adds), adds.a)
    requires forall y :: Added(run, y) <==> Added(adds, y)
    ensures run.a.free == adds.a.free
  {
    RunSound(run, lo, hi);
    RunSound(adds, lo, hi);
    forall y: nat ensures Covers(run.a.free, y) <==> Covers(adds.a.free, y) {
      FreeBytesRestored(run, lo, hi, y);
      FreeBytesRestored(adds, lo, hi, y);
    }
    SoundFree(run.a, lo, hi);
    SoundFree(adds.a, lo, hi);
    CanonicalForm(run.a.free, adds.a.free);
  }

  lemma SameHandsBytes(a: Owners, b: Owners, y: nat)
    requires SameHands(a, b)
    ensures HeldByte(a, y) == HeldByte(b, y) && ParkedByte(a, y) == ParkedByte(b, y) && LostByte(a, y) == LostByte(b, y)
  {}

  // ---------------------------------------------------------- exclusivity

  /** The block a step hands out, if it hands one out. */
  ghost predicate HandsOut(act: Action, b: Block) {
    (act.HandOut? && b == Block(act.x, act.order)) || (act.HandOutZeroed? && b == Block(act.x, 0))
  }

  /** Over every run, a block handed out was on no one's hands, in quarantine or
      lost before, is on no free list after, and comes aligned and in range. */
  lemma HandedOutOnce(run: Run, lo: nat, hi: nat, b: Block)
    requires IsRun(run, lo, hi) && run.Step? && HandsOut(run.act, b)
    ensures Fits(b, lo, hi)
    ensures forall p :: Has(run.prev.a, p) && !p.Free? && p != Quar(b) ==> Apart(p.b, b)
    ensures forall p :: Has(run.a, p) && p != Out(b) ==> Apart(p.b, b)
    ensures Has(run.a, Out(b)) && !Has(run.prev.a, Out(b))
  {
    RunSound(run.prev, lo, hi);
    RunSound(run, lo, hi);
    HandOutGains(run.prev.a, run.act, run.a, lo, hi, b);
    assert Has(run.a, Out(b));
    forall p | Has(run.prev.a, p) && !p.Free? && p != Quar(b) ensures Has(run.a, p) && p != Out(b) {
      if p.Quar? { StillParked(run.prev.a, run.act, run.a, b, p.b.addr); }
    }
  }

  lemma HandOutGains(a: Owners, act: Action, c: Owners, lo: nat, hi: nat, b: Block)
    requires Allowed(a, lo, hi) && Next(a, act, c, lo, hi) && HandsOut(act, b)
    ensures b.addr !in a.out && c.out == a.out[b.addr := Held(b.order, act.HandOutZeroed?)] && c.lost == a.lost
    ensures c.quar == a.quar
      || (act.HandOutZeroed? && a.quar != [] && b == Block(a.quar[0], 0) && c.quar == a.quar[1..])
  {
    if act.HandOut? {
      var o :| Fitting(a, act.x, o, act.order) && c == Carved(a, act.x, o, act.order);
      CarvedSound(a, lo, hi, act.x, o, act.order);
    } else {
      ZeroedSound(a, c, lo, hi, act.x);
    }
  }

  lemma StillParked(a: Owners, act: Action, c: Owners, b: Block, x: nat)
    requires x in a.quar && Block(x, 0) != b
    requires c.quar == a.quar || (a.quar != [] && b == Block(a.quar[0], 0) && c.quar == a.quar[1..])
    ensures x in c.quar
  {
    if c.quar != a.quar { assert a.quar == [a.quar[0]] + c.quar; }
  }

  // ------------------------------------------------------------ FIFO ring

  /** Pages that entered the quarantine along a run, in order. */
  ghost function Entered(run: Run): seq<nat> {
    if run.Begin? then []
    else Entered(run.prev) + (if run.act.TakeBack? && |run.a.quar| == |run.prev.a.quar| + 1 then [run.act.x] else [])
  }

  /** Pages handed out of the quarantine along a run, in order. */
  ghost function Left(run: Run): seq<nat> {
    if run.Begin? then []
    else Left(run.prev) + (if run.act.HandOutZeroed? && run.prev.a.quar != [] then [run.act.x] else [])
  }

  /** How a step changes the quarantine: a page joins its tail, its head leaves,
      or nothing. */
  lemma QuarantineStep(a: Owners, act: Action, b: Owners, lo: nat, hi: nat)
    requires Allowed(a, lo, hi) && Next(a, act, b, lo, hi)
    ensures
      if act.HandOutZeroed? && a.quar != [] then act.x == a.quar[0] && b.quar == a.quar[1..]
      else b.quar == a.quar || (act.TakeBack? && b.quar == a.quar + [act.x] && |a.quar| < QUARANTINE_CAP)
  {
    match act {
      case AddRegion(start, size, bs) => RegionSound(a, lo, hi, start, size, bs);
      case HandOut(x, order) => HandOutGains(a, act, b, lo, hi, Block(x, order));
      case HandOutZeroed(x) => ZeroedSound(a, b, lo, hi, x);
      case TakeBack(x) => MergeSound(a, lo, hi, x);
      case Retyped(x) =>
      case Refused =>
    }
  }

  lemma FifoStep(s: seq<nat>, e: seq<nat>, l: seq<nat>, a: Owners, act: Action, b: Owners, lo: nat, hi: nat)
    requires Allowed(a, lo, hi) && Next(a, act, b, lo, hi) && s + e == l + a.quar && |a.quar| <= QUARANTINE_CAP
    ensures |b.quar| <= QUARANTINE_CAP
    ensures s + (e + (if act.TakeBack? && |b.quar| == |a.quar| + 1 then [act.x] else []))
         == (l + (if act.HandOutZeroed? && a.quar != [] then [act.x] else [])) + b.quar
  {
    QuarantineStep(a, act, b, lo, hi);
    if act.HandOutZeroed? && a.quar != [] {
      assert l + a.quar == (l + [act.x]) + b.quar;
    } else if act.TakeBack? && |b.quar| == |a.quar| + 1 {
      assert s + (e + [act.x]) == (s + e) + [act.x];
      assert l + b.quar == (l + a.quar) + [act.x];
    } else {
      assert e + [] == e && l + [] == l && b.quar == a.quar;
    }
  }

  /** The quarantine is a bounded FIFO: what was in it and what entered is what
      left and what is in it, in that order. */
  lemma {:induction false} QuarantineIsFifo(run: Run, lo: nat, hi: nat)
    requires IsRun(run, lo, hi) && |Start(run).quar| <= QUARANTINE_CAP
    ensures Start(run).quar + Entered(run) == Left(run) + run.a.quar
    ensures |run.a.quar| <= QUARANTINE_CAP
    decreases run
  {
    if run.Step? {
      QuarantineIsFifo(run.prev, lo, hi);
      RunSound(run.prev, lo, hi);
      FifoStep(Start(run).quar, Entered(run.prev), Left(run.prev), run.prev.a, run.act, run.a, lo, hi);
    }
  }
}
