/** A space with one page is forked while memory runs out: the write faults that
    lose counts until a store leaks across the fork. */
module CowWitness {
  import opened Options
  import opened CowState
  import opened CowInvariant
  import opened CowFault
  import opened CowFork
  import opened CowRefused
  import opened CowRuns

  function One(e: Entry): Frame {
    Table(seq(ENTRIES, i => if i == 0 then e else ABSENT))
  }

  function To(p: nat): Entry {
    Entry(p, true, true, true, false, false)
  }

  function ReadOnlyTo(p: nat): Entry {
    Entry(p, true, false, true, false, false)
  }

  const NONE: seq<Entry> := seq(ENTRIES, _ => ABSENT)

  /** Spaces 0 and 4, each with tables of its own, share user page 8. */
  function Pair(count: nat, writable: bool, byte: Byte): State {
    State([One(To(1)), One(To(2)), One(To(3)), One(Entry(8, true, writable, true, false, false)),
           One(To(5)), One(To(6)), One(To(7)), One(ReadOnlyTo(8)), Bytes([byte])],
          seq(9, _ => 1), seq(9, i => if i == 8 then count else 0),
          {0, 1, 2, 3, 4, 5, 6, 7, 8}, {0, 1, 2, 3, 4, 5, 6, 7}, {0, 4}, NONE)
  }

  const PAGE: Path := Sub(Sub(Sub(Sub(Top, 0), 0), 0), 0)

  function NoPages(d: nat): Grant {
    Refused
  }

  lemma PairWalk(count: nat, writable: bool, byte: Byte)
    ensures WalkTo(Pair(count, writable, byte), 0, PAGE.up, NoPages) == At(Pair(count, writable, byte), 3)
  {
    var s := Pair(count, writable, byte);
    assert WalkTo(s, 0, Sub(Top, 0), NoPages) == At(s, 1);
    assert WalkTo(s, 0, Sub(Sub(Top, 0), 0), NoPages) == At(s, 2);
  }

  lemma PairReads(count: nat, writable: bool, byte: Byte)
    ensures Read(Pair(count, writable, byte), 0, PAGE) == Some([byte])
    ensures Read(Pair(count, writable, byte), 4, PAGE) == Some([byte])
    ensures writable ==> CanStore(Pair(count, writable, byte), 0, PAGE, 0)
    ensures Node(Pair(count, writable, byte).mem, 0, PAGE) == Some(8)
  {
    var s := Pair(count, writable, byte);
    assert Node(s.mem, 0, Sub(Top, 0)) == Some(1);
    assert Node(s.mem, 0, Sub(Sub(Top, 0), 0)) == Some(2);
    assert Node(s.mem, 0, PAGE.up) == Some(3);
    assert Node(s.mem, 4, Sub(Top, 0)) == Some(5);
    assert Node(s.mem, 4, Sub(Sub(Top, 0), 0)) == Some(6);
    assert Node(s.mem, 4, PAGE.up) == Some(7);
    assert Valid(PAGE) by { assert Valid(Sub(Top, 0)) && Valid(Sub(Sub(Top, 0), 0)) && Valid(PAGE.up); }
  }

  lemma PairRefused(count: nat, byte: Byte)
    requires count > 0
    ensures Remap(Pair(count, false, byte), 0, PAGE, NoPages) == (Pair(count - 1, false, byte), false)
  {
    PairWalk(count, false, byte);
    var s := Pair(count, false, byte);
    assert s.lcount[8 := count - 1] == Pair(count - 1, false, byte).lcount;
  }

  lemma PairFlips(byte: Byte)
    ensures Remap(Pair(0, false, byte), 0, PAGE, NoPages) == (Pair(0, true, byte), true)
  {
    PairWalk(0, false, byte);
    var s := Pair(0, false, byte);
    assert s.mem[3].es[0 := To(8)] == One(To(8)).es;
    assert s.mem[3 := One(To(8))] == Pair(0, true, byte).mem;
  }

  lemma PairStores(was: Byte, byte: Byte)
    requires CanStore(Pair(0, true, was), 0, PAGE, 0) && Node(Pair(0, true, was).mem, 0, PAGE) == Some(8)
    ensures Store(Pair(0, true, was), 0, PAGE, 0, byte) == Pair(0, true, byte)
  {
    var s := Pair(0, true, was);
    assert Poke(s.mem[8].bytes, 0, byte) == [byte];
    assert s.mem[8 := Bytes([byte])] == Pair(0, true, byte).mem;
  }

  // -------------------------------------------- from the load to the pair

  /** Space 0 as loaded: tables 1 to 3 above the writable user page 8. */
  const LOADED: State :=
    State([One(To(1)), One(To(2)), One(To(3)), One(To(8)), Junk, Junk, Junk, Junk, Bytes([7])],
          [1, 1, 1, 1, 0, 0, 0, 0, 1], seq(9, _ => 0), {0, 1, 2, 3, 8}, {0, 1, 2, 3}, {0}, NONE)

  /** Space 4 is the child of space 0 and has `n` tables of its own. */
  function Child4(n: nat): State {
    State([One(To(1)), One(To(2)), One(To(3)), One(ReadOnlyTo(8)),
           One(To(if n >= 1 then 5 else 1)),
           if n >= 1 then One(To(if n >= 2 then 6 else 2)) else Junk,
           if n >= 2 then One(To(if n >= 3 then 7 else 3)) else Junk,
           if n >= 3 then One(ReadOnlyTo(8)) else Junk, Bytes([7])],
          [1, if n >= 1 then 1 else 2, if n >= 2 then 1 else 2, if n >= 3 then 1 else 2, 1,
           if n >= 1 then 1 else 0, if n >= 2 then 1 else 0, if n >= 3 then 1 else 0, 1],
          seq(9, i => if i == 8 then 2 else 0),
          {0, 1, 2, 3, 4, 8} + Own(n), {0, 1, 2, 3, 4} + Own(n), {0, 4}, NONE)
  }

  function Own(n: nat): set<nat> {
    (if n >= 1 then {5} else {}) + (if n >= 2 then {6} else {}) + (if n >= 3 then {7} else {})
  }

  /** The path space 0 has to page `p`. */
  function SoloAt(v: Path): Option<nat> {
    if v == Top then Some(0)
    else if v == Sub(Top, 0) then Some(1)
    else if v == Sub(Sub(Top, 0), 0) then Some(2)
    else if v == PAGE.up then Some(3)
    else if v == PAGE then Some(8)
    else None
  }

  lemma Depths()
    ensures Depth(Sub(Top, 0)) == 1 && Depth(Sub(Sub(Top, 0), 0)) == 2 && Depth(PAGE.up) == 3 && Depth(PAGE) == 4
    ensures Valid(Sub(Top, 0)) && Valid(Sub(Sub(Top, 0), 0)) && Valid(PAGE.up) && Valid(PAGE)
  {}

  /** A table whose only entry is `e`, in slot 0. */
  predicate Lone(f: Frame, e: Entry) {
    && f.Table? && |f.es| == ENTRIES && f.es[0] == e
    && forall i :: 0 < i < ENTRIES ==> f.es[i] == ABSENT
  }

  predicate Solo(s: State) {
    && s.roots == {0} && s.used == {0, 1, 2, 3, 8} && s.typed == {0, 1, 2, 3}
    && |s.mem| == 9 && |s.tcount| == 9 && |s.lcount| == 9
    && Lone(s.mem[0], To(1)) && Lone(s.mem[1], To(2)) && Lone(s.mem[2], To(3)) && Lone(s.mem[3], To(8))
    && s.mem[8].Bytes?
  }

  lemma {:induction false} SoloNode(s: State, v: Path)
    requires Solo(s) && Valid(v)
    ensures Node(s.mem, 0, v) == SoloAt(v)
    decreases v
  {
    if v.Sub? {
      SoloNode(s, v.up);
      Depths();
    }
  }

  lemma SoloOwned(s: State, v: Path)
    requires Solo(s) && Valid(v) && SoloAt(v).Some?
    ensures OwnedAt(s, v, SoloAt(v).value)
  {
    Depths();
  }

  lemma SoloIsInitial(s: State)
    requires Solo(s) && Shape(s) && KernelLow(s)
    ensures Initial(s)
  {
    forall r, v | r in s.roots && Valid(v) && Node(s.mem, r, v).Some? ensures OwnedAt(s, v, Node(s.mem, r, v).value) {
      SoloNode(s, v);
      SoloOwned(s, v);
    }
    forall r1, r2, v1, v2 | r1 in s.roots && r2 in s.roots && Valid(v1) && Valid(v2)
      && Node(s.mem, r1, v1).Some? && Node(s.mem, r1, v1) == Node(s.mem, r2, v2)
      ensures r1 == r2 && v1 == v2
    {
      SoloNode(s, v1);
      SoloNode(s, v2);
    }
  }

  /** Which pages space 0 reaches at which depth. */
  lemma SoloReaches(s: State, p: nat, d: nat)
    requires Solo(s)
    ensures Reaches(s.mem, 0, p, d) <==> (p == d && d < 4) || (p == 8 && d == 4)
  {
    Depths();
    if Reaches(s.mem, 0, p, d) {
      var v :| Valid(v) && Depth(v) == d && Node(s.mem, 0, v) == Some(p);
      SoloNode(s, v);
    }
    var v := if d == 0 then Top else if d == 1 then Sub(Top, 0) else if d == 2 then Sub(Sub(Top, 0), 0)
             else if d == 3 then PAGE.up else PAGE;
    SoloNode(s, v);
  }

  lemma LoadedIsSolo()
    ensures Solo(LOADED) && Shape(LOADED) && KernelLow(LOADED)
  {}

  /** What the fork does to page `p`. */
  ghost predicate PageForked(s: State, s2: State, p: nat)
    requires Shape(s) && Shape(s2) && |s2.mem| == |s.mem| && p < |s.mem|
  {
    && s2.mem[p] == (if Reaches(s.mem, 0, p, 3) then ReadOnly(s.mem[p]) else s.mem[p])
    && s2.tcount[p] == (if ReachesTable(s.mem, 0, p) then Shared(s.tcount[p], U16_MAX) else s.tcount[p])
    && s2.lcount[p] == (if Reaches(s.mem, 0, p, 4) then Shared(s.lcount[p], U8_MAX) else s.lcount[p])
  }

  lemma ChildShape()
    ensures Shape(Child4(0))
  {
    assert |{0, 4}| == 2;
  }

  lemma ForkedPage(p: nat)
    requires p < 9 && p != 4 && Shape(LOADED) && Shape(Child4(0))
    ensures PageForked(LOADED, Child4(0), p)
  {
    LoadedIsSolo();
    SoloReaches(LOADED, p, 1);
    SoloReaches(LOADED, p, 2);
    SoloReaches(LOADED, p, 3);
    SoloReaches(LOADED, p, 4);
    assert ReadOnly(One(To(8))).es == One(ReadOnlyTo(8)).es;
  }

  lemma ForkedByPages(s: State, s2: State)
    requires Solo(s) && Shape(s) && Shape(s2) && s.kernel == NONE && s2.kernel == NONE
    requires |s2.mem| == 9 && s2.used == s.used + {4} && s2.typed == s.typed + {4} && s2.roots == {0, 4}
    requires Lone(s2.mem[4], To(1)) && s2.lcount[4] == s.lcount[4]
    requires forall p :: 0 <= p < 9 && p != 4 ==> PageForked(s, s2, p)
    ensures Forked(s, s2, 0, 4)
  {
    forall i | 0 <= i < ENTRIES ensures s2.mem[4].es[i] == ForkSlot(s, EntryAt(s.mem, 0, i), i) {
      assert i > 0 ==> EntryAt(s.mem, 0, i) == ABSENT;
    }
    forall p | 0 <= p < |s.mem| && p != 4
      ensures s2.mem[p] == (if Reaches(s.mem, 0, p, 3) then ReadOnly(s.mem[p]) else s.mem[p])
      ensures s2.tcount[p] == (if ReachesTable(s.mem, 0, p) then Shared(s.tcount[p], U16_MAX) else s.tcount[p])
      ensures s2.lcount[p] == (if Reaches(s.mem, 0, p, 4) then Shared(s.lcount[p], U8_MAX) else s.lcount[p])
    {
      assert PageForked(s, s2, p);
    }
  }

  lemma ForkOfLoaded()
    ensures Forked(LOADED, Child4(0), 0, 4)
  {
    LoadedIsSolo();
    ChildShape();
    forall p | 0 <= p < 9 && p != 4 ensures PageForked(LOADED, Child4(0), p) {
      ForkedPage(p);
    }
    ForkedByPages(LOADED, Child4(0));
  }

  /** Pages for three tables and then no more. */
  function ThreePages(d: nat): Grant {
    if d < 3 then Fresh(5 + d) else Refused
  }

  /** A table with two holders is copied to the free page `n`. */
  lemma CopyTable(s: State, q: nat, e: Entry, n: nat)
    requires |s.tcount| == |s.mem| && q < |s.mem| && s.mem[q].Table? && |s.mem[q].es| == ENTRIES && s.mem[q].es[0] == e
    requires e.page < |s.mem| && n < |s.mem| && n !in s.used && n != q && n != e.page && s.tcount[n] == 0
    requires s.tcount[e.page] == 2
    ensures Unshare(s, q, 0, Fresh(n)) ==
      At(s.(mem := s.mem[n := s.mem[e.page]][q := Table(s.mem[q].es[0 := e.(page := n)])],
            tcount := s.tcount[n := 1][e.page := 1], used := s.used + {n}, typed := s.typed + {n}), n)
  {
    var s1 := Alloc(s, Fresh(n)).0;
    assert s1.mem[n := s1.mem[e.page]] == s.mem[n := s.mem[e.page]];
  }

  /** The child gets a copy of its next table. */
  lemma OneTable(n: nat)
    requires n < 3
    ensures Unshare(Child4(n), 4 + n, 0, Fresh(5 + n)) == At(Child4(n + 1), 5 + n)
    ensures Follows(EntryAt(Child4(n).mem, 4 + n, 0), n)
  {
    var s := Child4(n);
    CopyTable(s, 4 + n, To(1 + n), 5 + n);
    NextMem(n);
    NextCounts(n);
  }

  lemma NextMem(n: nat)
    requires n < 3
    ensures var s := Child4(n);
      && s.mem[4 + n] == One(To(1 + n))
      && s.mem[5 + n := s.mem[1 + n]][4 + n := Table(s.mem[4 + n].es[0 := To(5 + n)])] == Child4(n + 1).mem
  {
    assert One(To(1 + n)).es[0 := To(5 + n)] == One(To(5 + n)).es;
  }

  lemma NextCounts(n: nat)
    requires n < 3
    ensures var s, s2 := Child4(n), Child4(n + 1);
      s.tcount[5 + n := 1][1 + n := 1] == s2.tcount && s.used + {5 + n} == s2.used && s.typed + {5 + n} == s2.typed
  {}

  lemma WalkOn(s: State, r: nat, up: Path, g: nat -> Grant, s1: State, q: nat, s2: State, n: nat)
    requires WalkTo(s, r, up, g) == At(s1, q) && Follows(EntryAt(s1.mem, q, 0), Depth(up))
    requires Unshare(s1, q, 0, g(Depth(up))) == At(s2, n)
    ensures WalkTo(s, r, Sub(up, 0), g) == At(s2, n)
  {}

  lemma WalkCopies()
    ensures WalkTo(Child4(0), 4, PAGE.up, ThreePages) == At(Child4(3), 7)
  {
    OneTable(0);
    WalkOn(Child4(0), 4, Top, ThreePages, Child4(0), 4, Child4(1), 5);
    OneTable(1);
    WalkOn(Child4(0), 4, Sub(Top, 0), ThreePages, Child4(1), 5, Child4(2), 6);
    OneTable(2);
    WalkOn(Child4(0), 4, Sub(Sub(Top, 0), 0), ThreePages, Child4(2), 6, Child4(3), 7);
  }

  lemma ChildIsPair()
    ensures Child4(3) == Pair(2, false, 7)
  {
    var s, s2 := Child4(3), Pair(2, false, 7);
    assert s.mem == s2.mem;
    assert s.tcount == s2.tcount;
    assert s.lcount == s2.lcount;
    assert s.used == s2.used;
    assert s.typed == s2.typed;
  }

  /** The child's first fault gives it tables of its own and loses a count. */
  lemma FirstFault()
    ensures Remap(Child4(0), 4, PAGE, ThreePages) == (Pair(1, false, 7), false)
  {
    WalkCopies();
    ChildIsPair();
    LastCopyRefused();
  }

  lemma LastCopyRefused()
    ensures RemapLeaf(Pair(2, false, 7), 7, 0, Refused) == (Pair(1, false, 7), false)
  {
    assert Pair(2, false, 7).lcount[8 := 1] == Pair(1, false, 7).lcount;
  }

  // ---------------------------------------------------------- the whole run

  /** The loaded space is forked. */
  lemma AfterFork() returns (run: Run)
    ensures IsAnyRun(run) && run.s == Child4(0)
  {
    LoadedIsSolo();
    SoloIsInitial(LOADED);
    ForkOfLoaded();
    run := Step(Begin(LOADED), Fork(0, 4), Child4(0));
  }

  /** A run goes on with a fault of a space at the shared page. */
  lemma AfterFault(run: Run, r: nat, g: nat -> Grant, s2: State) returns (next: Run)
    requires IsAnyRun(run) && r in run.s.roots && Remap(run.s, r, PAGE, g).0 == s2
    ensures IsAnyRun(next) && next.s == s2
  {
    Depths();
    next := Step(run, Fault(r, PAGE, g), s2);
  }

  /** The child's fault and one of the parent, each refused its copy, empty the
      count of their page, and a third makes it writable in place. */
  lemma AfterFaults(run: Run) returns (next: Run)
    requires IsAnyRun(run) && run.s == Child4(0)
    ensures IsAnyRun(next) && next.s == Pair(0, true, 7)
  {
    FirstFault();
    next := AfterFault(run, 4, ThreePages, Pair(1, false, 7));
    PairRefused(1, 7);
    next := AfterFault(next, 0, NoPages, Pair(0, false, 7));
    PairFlips(7);
    next := AfterFault(next, 0, NoPages, Pair(0, true, 7));
  }

  /** From a loaded space, a run of a fork, three faults and a store, after which
      the store by the parent has changed what the child reads. */
  lemma RefusedFaultsLeakStore() returns (run: Run)
    ensures IsAnyRun(run) && run.Step? && run.a == StoreByte(0, PAGE, 0, 9)
    ensures Read(run.prev.s, 4, PAGE) == Some([7]) && Read(run.s, 4, PAGE) == Some([9])
  {
    run := AfterFork();
    run := AfterFaults(run);
    PairReads(0, true, 7);
    PairStores(7, 9);
    run := Step(run, StoreByte(0, PAGE, 0, 9), Pair(0, true, 9));
    PairReads(0, true, 9);
  }
}
