/**
 How often user pages are counted, exactly.  A page no fork has shared has count
 0, and a shared one is counted once per space that has it.  So the last space to
 leave a shared page takes its count from 1 to 0 and does not free it: once
 shared, a page is never given back.
 */
module CowCounts {
  import opened Options
  import opened CowState
  import opened CowInvariant
  import opened CowFault
  import opened CowFork
  import opened CowRefused
  import opened CowRuns

  /** The spaces that have page `p` as a user page. */
  ghost function Users(s: State, p: nat): set<nat> {
    set r | r in s.roots && Reaches(s.mem, r, p, LEAF)
  }

  ghost predicate ExactAt(s: State, p: nat) {
    Get(s.lcount, p) == 0 || Get(s.lcount, p) == |Users(s, p)|
  }

  ghost predicate Exact(s: State) {
    forall p: nat :: ExactAt(s, p)
  }

  // ----------------------------------------------------------- leaf by leaf

  lemma ReachesLeaf(s: State, place: map<nat, Path>, r: nat, p: nat, v: Path)
    requires Placed(s, place) && r in s.roots && Valid(v) && Depth(v) == LEAF && p in place && place[p] == v
    ensures Reaches(s.mem, r, p, LEAF) <==> Node(s.mem, r, v) == Some(p)
  {}

  lemma ForkUsers(s: State, s2: State, place: map<nat, Path>, r: nat, c: nat, p: nat)
    requires Inv(s, place) && Forked(s, s2, r, c)
    ensures Users(s2, p) == Users(s, p) + if r in Users(s, p) then {c} else {}
  {
    forall o | o in s.roots ensures Reaches(s2.mem, o, p, LEAF) <==> Reaches(s.mem, o, p, LEAF) {
      ForkReaches(s, s2, place, r, c, o, o, p);
    }
    ForkReaches(s, s2, place, r, c, r, c, p);
    JoinedUsers(s, s2, r, c, p);
  }

  lemma JoinedUsers(s: State, s2: State, r: nat, c: nat, p: nat)
    requires r in s.roots && s2.roots == s.roots + {c}
    requires forall o :: o in s.roots ==> (Reaches(s2.mem, o, p, LEAF) <==> Reaches(s.mem, o, p, LEAF))
    requires Reaches(s2.mem, c, p, LEAF) <==> Reaches(s.mem, r, p, LEAF)
    ensures Users(s2, p) == Users(s, p) + if r in Users(s, p) then {c} else {}
  {}

  lemma ForkReaches(s: State, s2: State, place: map<nat, Path>, r: nat, c: nat, o: nat, o2: nat, p: nat)
    requires Inv(s, place) && Forked(s, s2, r, c) && o in s.roots && (o2 == o || (o == r && o2 == c))
    ensures Reaches(s2.mem, o2, p, LEAF) <==> Reaches(s.mem, o, p, LEAF)
  {
    ForkedNodes(s, s2, place, r, c);
    if Reaches(s2.mem, o2, p, LEAF) {
      var v :| Valid(v) && Depth(v) == LEAF && Node(s2.mem, o2, v) == Some(p);
      assert Node(s.mem, o, v) == Some(p);
    }
    if Reaches(s.mem, o, p, LEAF) {
      var v :| Valid(v) && Depth(v) == LEAF && Node(s.mem, o, v) == Some(p);
      assert Node(s2.mem, o2, v) == Some(p);
    }
  }

  /** Only a page in use has users. */
  lemma UsersOwn(s: State, place: map<nat, Path>, p: nat)
    requires Inv(s, place)
    ensures p !in s.used ==> Users(s, p) == {}
  {
    forall r | r in s.roots && Reaches(s.mem, r, p, LEAF) ensures p in s.used {
      var v :| Valid(v) && Depth(v) == LEAF && Node(s.mem, r, v) == Some(p);
      assert OwnedAt(s, v, p);
    }
  }

  lemma UsersFit(s: State, p: nat)
    requires Shape(s)
    ensures |Users(s, p)| <= MAX_TASKS
  {
    SubsetSize(Users(s, p), s.roots);
  }

  /** A page with no count has at most one user. */
  lemma UncountedAlone(s: State, place: map<nat, Path>, p: nat, r: nat)
    requires Inv(s, place) && r in Users(s, p) && Get(s.lcount, p) == 0
    ensures Users(s, p) == {r}
  {
    var v :| Valid(v) && Depth(v) == LEAF && Node(s.mem, r, v) == Some(p);
    UncountedIsPrivate(s, place, r, v);
    forall o | o in Users(s, p) ensures o == r {
      assert place[p] == v;
      ReachesLeaf(s, place, o, p, v);
    }
  }

  lemma ForkExact(s: State, s2: State, place: map<nat, Path>, r: nat, c: nat, p: nat)
    requires Inv(s, place) && Forked(s, s2, r, c) && Exact(s)
    ensures ExactAt(s2, p)
  {
    assert ExactAt(s, p);
    ForkUsers(s, s2, place, r, c, p);
    UsersFit(s, p);
    if p == c {
      UsersOwn(s, place, c);
    } else if r in Users(s, p) && Get(s.lcount, p) == 0 {
      UncountedAlone(s, place, p, r);
      assert Users(s2, p) == {r, c};
    }
  }

  // --------------------------------------------------------------- faults

  /** Leaves are where they were, except that of `r` at `v`, which is page `n`. */
  ghost predicate LeafMoved(s: State, s2: State, r: nat, v: Path, n: nat) {
    && s2.roots == s.roots
    && forall o, w :: o in s.roots && Valid(w) && Depth(w) == LEAF ==>
         Node(s2.mem, o, w) == if o == r && w == v then Some(n) else Node(s.mem, o, w)
  }

  /** What a fault does to leaves and their counts: nothing; or the count of its
      page is given up and the leaf is a page nothing used; or, refused, the
      count is given up and the leaf stays. */
  ghost predicate LeafEffect(s: State, s2: State, r: nat, v: Path, refused: bool, g: Grant) {
    || (SameLeaves(s, s2) && s2.roots == s.roots && s2.lcount == s.lcount)
    || (&& GivesUp(s, s2, r, v)
        && if refused then SameLeaves(s, s2) && s2.roots == s.roots
           else !g.Refused? && g.page !in s.used && LeafMoved(s, s2, r, v, g.page))
  }

  /** The count of the page `r` has at `v` is one less, and no other. */
  ghost predicate GivesUp(s: State, s2: State, r: nat, v: Path) {
    && Node(s.mem, r, v).Some?
    && var p := Node(s.mem, r, v).value;
    && p < |s.lcount| && s.lcount[p] > 0 && s2.lcount == s.lcount[p := s.lcount[p] - 1]
  }

  lemma FaultLeaves(s: State, place: map<nat, Path>, r: nat, v: Path, g: nat -> Grant)
    requires Inv(s, place) && r in s.roots && Valid(v) && Depth(v) == LEAF
    ensures LeafEffect(s, Remap(s, r, v, g).0, r, v, RemapRefused(s, r, v, g), g(3))
  {
    var place1 := WalkKeeps(s, place, r, v.up, g);
    var w := WalkTo(s, r, v.up, g);
    WalkRoots(s, r, v.up, g);
    if w.At? {
      LeafStepLeaves(w.s, place1, r, v, w.page, g(3));
      var s2 := RemapLeaf(w.s, w.page, v.idx, g(3)).0;
      EffectAfterWalk(s, w.s, s2, r, v, LeafRefused(w.s, w.page, v.idx, g(3)), g(3));
    }
  }

  lemma EffectAfterWalk(s: State, s1: State, s2: State, r: nat, v: Path, refused: bool, g: Grant)
    requires r in s.roots && Valid(v) && Depth(v) == LEAF
    requires SameLeaves(s, s1) && s1.roots == s.roots && s1.lcount == s.lcount && s.used <= s1.used
    requires LeafEffect(s1, s2, r, v, refused, g)
    ensures LeafEffect(s, s2, r, v, refused, g)
  {
    assert Node(s1.mem, r, v) == Node(s.mem, r, v);
  }

  lemma {:induction false} WalkRoots(s: State, r: nat, v: Path, g: nat -> Grant)
    ensures WalkTo(s, r, v, g).s.roots == s.roots && s.used <= WalkTo(s, r, v, g).s.used
  {
    if v.Sub? { WalkRoots(s, r, v.up, g); }
  }

  lemma LeafStepLeaves(s: State, place: map<nat, Path>, r: nat, v: Path, pt: nat, g: Grant)
    requires Inv(s, place) && r in s.roots && Valid(v) && Depth(v) == LEAF
    requires Node(s.mem, r, v.up) == Some(pt) && Private(s, r, v.up)
    ensures LeafEffect(s, RemapLeaf(s, pt, v.idx, g).0, r, v, LeafRefused(s, pt, v.idx, g), g)
  {
    var e := EntryAt(s.mem, pt, v.idx);
    assert OwnedAt(s, v.up, pt);
    if e.present && !e.writable {
      assert Node(s.mem, r, v) == Some(e.page);
      assert OwnedAt(s, v, e.page);
      if Get(s.lcount, e.page) == 0 {
        FlipNodes(s, pt, v.idx);
      } else if !LeafRefused(s, pt, v.idx, g) {
        LeafCopies(s, r, v, pt, g);
        CopyMoves(s, RemapLeaf(s, pt, v.idx, g).0, place, r, v, pt, g.page);
      }
    }
  }

  lemma CopyMoves(s: State, s2: State, place: map<nat, Path>, r: nat, v: Path, pt: nat, n: nat)
    requires Inv(s, place) && Copied(s, s2, r, v, pt, n) && Private(s, r, v.up) && Depth(v) == LEAF
    ensures LeafMoved(s, s2, r, v, n)
  {
    forall o, w | o in s.roots && Valid(w) && Depth(w) == LEAF
      ensures Node(s2.mem, o, w) == if o == r && w == v then Some(n) else Node(s.mem, o, w)
    {
      RedirectedNode(s, s2, place, r, v, pt, n, o, w);
    }
  }

  lemma SameUsers(s: State, s2: State, p: nat)
    requires SameLeaves(s, s2) && s2.roots == s.roots
    ensures Users(s2, p) == Users(s, p)
  {
    forall o | o in s.roots ensures Reaches(s2.mem, o, p, LEAF) <==> Reaches(s.mem, o, p, LEAF) {
      if Reaches(s2.mem, o, p, LEAF) {
        var w :| Valid(w) && Depth(w) == LEAF && Node(s2.mem, o, w) == Some(p);
        assert Node(s.mem, o, w) == Some(p);
      }
      if Reaches(s.mem, o, p, LEAF) {
        var w :| Valid(w) && Depth(w) == LEAF && Node(s.mem, o, w) == Some(p);
        assert Node(s2.mem, o, w) == Some(p);
      }
    }
  }

  lemma MovedReaches(s: State, s2: State, place: map<nat, Path>, r: nat, v: Path, n: nat, o: nat, p: nat)
    requires Inv(s, place) && r in s.roots && Valid(v) && Depth(v) == LEAF && Node(s.mem, r, v).Some?
    requires LeafMoved(s, s2, r, v, n) && n !in s.used && o in s.roots
    ensures Reaches(s2.mem, o, p, LEAF) <==>
      if o == r && p == n then true
      else if o == r && p == Node(s.mem, r, v).value then false
      else Reaches(s.mem, o, p, LEAF)
  {
    assert OwnedAt(s, v, Node(s.mem, r, v).value);
    if Reaches(s2.mem, o, p, LEAF) {
      var w :| Valid(w) && Depth(w) == LEAF && Node(s2.mem, o, w) == Some(p);
      if !(o == r && w == v) {
        assert Node(s.mem, o, w) == Some(p);
        assert OwnedAt(s, w, p) && place[p] == w;
      }
    }
    if Reaches(s.mem, o, p, LEAF) {
      var w :| Valid(w) && Depth(w) == LEAF && Node(s.mem, o, w) == Some(p);
      assert OwnedAt(s, w, p) && place[p] == w;
      if !(o == r && w == v) { assert Node(s2.mem, o, w) == Some(p); }
    }
    if o == r && p == n { assert Node(s2.mem, r, v) == Some(n); }
  }

  lemma MovedUsers(s: State, s2: State, place: map<nat, Path>, r: nat, v: Path, n: nat, p: nat)
    requires Inv(s, place) && r in s.roots && Valid(v) && Depth(v) == LEAF && Node(s.mem, r, v).Some?
    requires LeafMoved(s, s2, r, v, n) && n !in s.used
    ensures Users(s2, p) ==
      if p == n then {r} else if p == Node(s.mem, r, v).value then Users(s, p) - {r} else Users(s, p)
  {
    UsersOwn(s, place, n);
    assert OwnedAt(s, v, Node(s.mem, r, v).value);
    forall o | o in s.roots
      ensures Reaches(s2.mem, o, p, LEAF) <==>
        if o == r && p == n then true
        else if o == r && p == Node(s.mem, r, v).value then false
        else Reaches(s.mem, o, p, LEAF)
    {
      MovedReaches(s, s2, place, r, v, n, o, p);
    }
  }

  lemma FaultExact(s: State, place: map<nat, Path>, r: nat, v: Path, g: nat -> Grant, p: nat)
    requires Inv(s, place) && r in s.roots && Valid(v) && Depth(v) == LEAF && !LosesCount(s, r, v, g) && Exact(s)
    ensures ExactAt(Remap(s, r, v, g).0, p)
  {
    var s2 := Remap(s, r, v, g).0;
    assert ExactAt(s, p);
    FaultLeaves(s, place, r, v, g);
    if SameLeaves(s, s2) && s2.roots == s.roots {
      SameUsers(s, s2, p);
      if s2.lcount != s.lcount && Node(s.mem, r, v) == Some(p) {
        HoldersAreSharers(s, place, r, v);
        UsersAreHolders(s, place, r, v);
      }
    } else {
      var n := g(3).page;
      MovedUsers(s, s2, place, r, v, n, p);
      UsersOwn(s, place, n);
      assert ExactAt(s, n);
      if Node(s.mem, r, v) == Some(p) { assert r in Users(s, p); }
    }
  }

  lemma UsersAreHolders(s: State, place: map<nat, Path>, r: nat, v: Path)
    requires Inv(s, place) && r in s.roots && Valid(v) && Depth(v) == LEAF && Node(s.mem, r, v).Some?
    ensures Users(s, Node(s.mem, r, v).value) == Holders(s, Node(s.mem, r, v).value)
    ensures r in Users(s, Node(s.mem, r, v).value)
  {
    var p := Node(s.mem, r, v).value;
    HoldersAreSharers(s, place, r, v);
    forall o | o in s.roots ensures Reaches(s.mem, o, p, LEAF) <==> Node(s.mem, o, v) == Some(p) {
      assert place[p] == v;
      ReachesLeaf(s, place, o, p, v);
    }
  }

  // ------------------------------------------------------ stores, teardowns

  lemma StoreExact(s: State, r: nat, v: Path, off: nat, b: Byte, p: nat)
    requires CanStore(s, r, v, off) && Exact(s)
    ensures ExactAt(Store(s, r, v, off, b), p)
  {
    var s2 := Store(s, r, v, off, b);
    assert ExactAt(s, p);
    forall o, w | o in s.roots && Valid(w) && Depth(w) == LEAF ensures Node(s2.mem, o, w) == Node(s.mem, o, w) {
      StoreNode(s, r, v, off, b, o, w);
    }
    SameUsers(s, s2, p);
  }

  lemma TeardownUsers(s: State, s2: State, place: map<nat, Path>, r: nat, p: nat)
    requires Inv(s, place) && TornDown(s, s2, r)
    ensures Users(s2, p) == Users(s, p) - {r}
  {
    forall o | o in s2.roots ensures Reaches(s2.mem, o, p, LEAF) <==> Reaches(s.mem, o, p, LEAF) {
      TeardownReaches(s, s2, place, r, o, p);
    }
  }

  lemma TeardownReaches(s: State, s2: State, place: map<nat, Path>, r: nat, o: nat, p: nat)
    requires Inv(s, place) && TornDown(s, s2, r) && o in s2.roots
    ensures Reaches(s2.mem, o, p, LEAF) <==> Reaches(s.mem, o, p, LEAF)
  {
    forall w | Valid(w) && Depth(w) == LEAF ensures Node(s2.mem, o, w) == Node(s.mem, o, w) {
      TornDownNode(s, s2, place, r, o, w);
    }
    if Reaches(s2.mem, o, p, LEAF) {
      var w :| Valid(w) && Depth(w) == LEAF && Node(s2.mem, o, w) == Some(p);
      assert Node(s.mem, o, w) == Some(p);
    }
    if Reaches(s.mem, o, p, LEAF) {
      var w :| Valid(w) && Depth(w) == LEAF && Node(s.mem, o, w) == Some(p);
      assert Node(s2.mem, o, w) == Some(p);
    }
  }

  lemma TeardownExact(s: State, s2: State, place: map<nat, Path>, r: nat, p: nat)
    requires Inv(s, place) && TornDown(s, s2, r) && Exact(s)
    ensures ExactAt(s2, p)
  {
    assert ExactAt(s, p);
    TeardownUsers(s, s2, place, r, p);
    if p >= |s.mem| {
      UsersOwn(s, place, p);
    }
  }

  // ----------------------------------------------------------------- runs

  function First(run: Run): State {
    match run
    case Begin(s) => s
    case Step(prev, _, _) => First(prev)
  }

  ghost predicate Uncounted(s: State) {
    forall p: nat :: Get(s.lcount, p) == 0
  }

  lemma StepExact(s: State, a: Action, s2: State)
    requires Good(s) && Next(s, a, s2) && Exact(s)
    ensures Exact(s2)
  {
    var place :| Inv(s, place);
    forall p: nat ensures ExactAt(s2, p) {
      match a {
        case Fork(r, c) => ForkExact(s, s2, place, r, c, p);
        case Fault(r, v, g) => FaultExact(s, place, r, v, g, p);
        case StoreByte(r, v, off, b) => StoreExact(s, r, v, off, b, p);
        case Teardown(r) => TeardownExact(s, s2, place, r, p);
      }
    }
  }

  /** Over every run from uncounted pages in which no count is lost, each user
      page is counted not at all or exactly once per space that has it. */
  lemma {:induction false} CountsAreExact(run: Run)
    requires IsRun(run) && Uncounted(First(run))
    ensures Exact(run.s)
    decreases run
  {
    match run {
      case Begin(s) =>
      case Step(prev, a, s) =>
        CountsAreExact(prev);
        LazyForkIsEager(prev);
        StepExact(prev.s, a, s);
    }
  }

  // ---------------------------------------------------------- what is lost

  /** Page `p` holds user bytes and is counted once per space that has it, be it
      none. */
  ghost predicate Tallied(s: State, p: nat) {
    p < |s.mem| && p in s.used && s.mem[p].Bytes? && Get(s.lcount, p) == |Users(s, p)|
  }

  lemma {:induction false} WalkKeepsBytes(s: State, r: nat, v: Path, g: nat -> Grant, p: nat)
    requires p < |s.mem| && p in s.used && s.mem[p].Bytes?
    ensures var w := WalkTo(s, r, v, g); |w.s.mem| == |s.mem| && p in w.s.used && w.s.mem[p] == s.mem[p]
  {
    if v.Sub? { WalkKeepsBytes(s, r, v.up, g, p); }
  }

  lemma FaultKeepsBytes(s: State, r: nat, v: Path, g: nat -> Grant, p: nat)
    requires v.Sub? && p < |s.mem| && p in s.used && s.mem[p].Bytes?
    ensures var s2 := Remap(s, r, v, g).0; p < |s2.mem| && p in s2.used && s2.mem[p] == s.mem[p]
  {
    WalkKeepsBytes(s, r, v.up, g, p);
  }

  lemma UserPathIsTable(s: State, place: map<nat, Path>, r: nat, p: nat)
    requires Inv(s, place) && r in s.roots
    ensures OnUserPath(s.mem, r, p) ==> p < |s.mem| && s.mem[p].Table?
  {
    if OnUserPath(s.mem, r, p) {
      OnUserPathPlaced(s, place, r, p);
      assert OwnedAt(s, place[p], p);
    }
  }

  lemma TalliedStays(s: State, place: map<nat, Path>, s2: State, r: nat, p: nat)
    requires Inv(s, place) && TornDown(s, s2, r) && Tallied(s, p)
    ensures Tallied(s2, p)
  {
    TeardownUsers(s, s2, place, r, p);
    assert Node(s.mem, r, Top) == Some(r);
    assert OwnedAt(s, Top, r);
    UserPathIsTable(s, place, r, p);
    if Reaches(s.mem, r, p, LEAF) { assert r in Users(s, p); }
  }

  /** What a fork does to a page in use that holds user bytes. */
  lemma ForkLeaf(s: State, s2: State, r: nat, c: nat, p: nat)
    requires Forked(s, s2, r, c) && p < |s.mem| && p in s.used && s.mem[p].Bytes?
    ensures p != c && p < |s2.mem| && p in s2.used && s2.mem[p] == s.mem[p]
    ensures Get(s2.lcount, p) == if r in Users(s, p) then Shared(Get(s.lcount, p), U8_MAX) else Get(s.lcount, p)
  {}

  lemma TalliedFork(s: State, place: map<nat, Path>, s2: State, r: nat, c: nat, p: nat)
    requires Inv(s, place) && Forked(s, s2, r, c) && Tallied(s, p)
    ensures Tallied(s2, p)
  {
    ForkLeaf(s, s2, r, c, p);
    ForkUsers(s, s2, place, r, c, p);
    UsersFit(s, p);
    OneMore(Users(s, p), s.roots, r, c);
  }

  lemma OneMore(users: set<nat>, roots: set<nat>, r: nat, c: nat)
    requires users <= roots && c !in roots
    ensures |users + {c}| == |users| + 1 && (r in users ==> |users| > 0)
  {}

  lemma TalliedFault(s: State, place: map<nat, Path>, r: nat, v: Path, g: nat -> Grant, p: nat)
    requires Inv(s, place) && r in s.roots && Valid(v) && Depth(v) == LEAF && !RemapRefused(s, r, v, g) && Tallied(s, p)
    ensures Tallied(Remap(s, r, v, g).0, p)
  {
    var s2 := Remap(s, r, v, g).0;
    FaultKeepsBytes(s, r, v, g, p);
    FaultLeaves(s, place, r, v, g);
    if SameLeaves(s, s2) && s2.roots == s.roots && s2.lcount == s.lcount {
      SameUsers(s, s2, p);
    } else {
      MovedUsers(s, s2, place, r, v, g(3).page, p);
      if Node(s.mem, r, v) == Some(p) { assert r in Users(s, p); }
    }
  }

  /** The step is a fault whose copy is refused. */
  ghost predicate Refuses(s: State, a: Action) {
    a.Fault? && a.v.Sub? && RemapRefused(s, a.r, a.v, a.g)
  }

  lemma TalliedStep(s: State, a: Action, s2: State, p: nat)
    requires Good(s) && Next(s, a, s2) && Tallied(s, p) && !Refuses(s, a)
    ensures Tallied(s2, p)
  {
    var place :| Inv(s, place);
    match a {
      case Fork(r, c) => TalliedFork(s, place, s2, r, c, p);
      case Fault(r, v, g) => TalliedFault(s, place, r, v, g, p);
      case StoreByte(r, v, off, b) =>
        forall o, w | o in s.roots && Valid(w) && Depth(w) == LEAF ensures Node(s2.mem, o, w) == Node(s.mem, o, w) {
          StoreNode(s, r, v, off, b, o, w);
        }
        SameUsers(s, s2, p);
      case Teardown(r) => TalliedStays(s, place, s2, r, p);
    }
  }

  /** Run `later` goes on from `run`, and no copy is refused on the way. */
  ghost predicate GoesOn(run: Run, later: Run) {
    later == run || (later.Step? && GoesOn(run, later.prev) && !Refuses(later.prev.s, later.a))
  }

  lemma {:induction false} TalliedForGood(run: Run, later: Run, p: nat)
    requires IsRun(later) && GoesOn(run, later) && Tallied(run.s, p)
    ensures Tallied(later.s, p)
    decreases later
  {
    if later != run {
      TalliedForGood(run, later.prev, p);
      LazyForkIsEager(later.prev);
      TalliedStep(later.prev.s, later.a, later.s, p);
    }
  }

  /** A user page of a space that forks stays allocated for good: whoever copies
      it away or exits afterwards, nobody frees it, also when no space has it any
      more. */
  lemma SharedPagesLeak(run: Run, later: Run, v: Path)
    requires IsRun(later) && GoesOn(run, later) && IsRun(run) && run.Step? && run.a.Fork?
    requires Uncounted(First(run)) && Valid(v) && Depth(v) == LEAF && Node(run.s.mem, run.a.parent, v).Some?
    ensures var p := Node(run.s.mem, run.a.parent, v).value;
      p in later.s.used && Get(later.s.lcount, p) == |Users(later.s, p)|
  {
    var r, p := run.a.parent, Node(run.s.mem, run.a.parent, v).value;
    LazyForkIsEager(run);
    CountsAreExact(run);
    var place :| Inv(run.s, place);
    assert OwnedAt(run.s, v, p) && ExactAt(run.s, p);
    SharedIsCounted(run, v);
    TalliedForGood(run, later, p);
  }

  lemma SharedIsCounted(run: Run, v: Path)
    requires IsRun(run) && run.Step? && run.a.Fork? && Valid(v) && Depth(v) == LEAF
    requires Node(run.s.mem, run.a.parent, v).Some?
    ensures Get(run.s.lcount, Node(run.s.mem, run.a.parent, v).value) > 0
  {
    var r, s := run.a.parent, run.prev.s;
    LazyForkIsEager(run.prev);
    var place :| Inv(s, place);
    ForkedNode(s, run.s, place, r, run.a.child, r, v);
    var p := Node(s.mem, r, v).value;
    assert OwnedAt(s, v, p);
    assert Reaches(s.mem, r, p, LEAF) && r in Users(s, p);
    ForkLeaf(s, run.s, r, run.a.child, p);
  }

  /** The teardown of a space frees a user page of it if and only if the page has
      no count; the last user of a page with one leaves it allocated to nobody. */
  lemma TeardownFreesIff(s: State, s2: State, place: map<nat, Path>, r: nat, p: nat)
    requires Inv(s, place) && Exact(s) && TornDown(s, s2, r) && r in Users(s, p)
    ensures p !in s2.used <==> Get(s.lcount, p) == 0
    ensures Users(s, p) == {r} ==> Users(s2, p) == {} && Get(s.lcount, p) <= 1
  {
    var v :| Valid(v) && Depth(v) == LEAF && Node(s.mem, r, v) == Some(p);
    assert OwnedAt(s, v, p) && ExactAt(s, p) && place[p] == v && Node(s.mem, r, Top) == Some(r);
    assert OwnedAt(s, Top, r);
    if OnUserPath(s.mem, r, p) { OnUserPathPlaced(s, place, r, p); }
    TeardownUsers(s, s2, place, r, p);
  }
}
