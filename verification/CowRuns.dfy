/** Whole runs of forks, write faults, stores and teardowns. */
module CowRuns {
  import opened Options
  import opened CowState
  import opened CowInvariant
  import opened CowFault
  import opened CowFork
  import opened CowRefused

  datatype Action =
    | Fork(parent: nat, child: nat)
    | Fault(r: nat, v: Path, g: nat -> Grant)
    | StoreByte(r: nat, v: Path, off: nat, b: Byte)
    | Teardown(r: nat)

  /** One step of the kernel.  Write faults are taken however the allocator
      answers. */
  ghost predicate Taken(s: State, a: Action, s2: State) {
    match a
    case Fork(r, c) => Forked(s, s2, r, c)
    case Fault(r, v, g) => r in s.roots && Valid(v) && Depth(v) == LEAF && s2 == Remap(s, r, v, g).0
    case StoreByte(r, v, off, b) =>
      r in s.roots && CanStore(s, r, v, off) && s2 == Store(s, r, v, off, b)
    case Teardown(r) => TornDown(s, s2, r)
  }

  /** The step is a write fault that loses a count it cannot spare. */
  ghost predicate Loses(s: State, a: Action) {
    a.Fault? && Valid(a.v) && Depth(a.v) == LEAF && LosesCount(s, a.r, a.v, a.g)
  }

  ghost predicate Next(s: State, a: Action, s2: State) {
    Taken(s, a, s2) && !Loses(s, a)
  }

  /** A run: an initial state, then steps with the states they lead to. */
  datatype Run = Begin(s: State) | Step(prev: Run, a: Action, s: State)

  ghost predicate IsRun(run: Run) {
    match run
    case Begin(s) => Initial(s)
    case Step(prev, a, s) => IsRun(prev) && Next(prev.s, a, s)
  }

  /** Runs with all the faults the kernel takes. */
  ghost predicate IsAnyRun(run: Run) {
    match run
    case Begin(s) => Initial(s)
    case Step(prev, a, s) => IsAnyRun(prev) && Taken(prev.s, a, s)
  }

  /** No fault of the run loses a count. */
  ghost predicate Lossless(run: Run) {
    run.Step? ==> Lossless(run.prev) && !Loses(run.prev.s, run.a)
  }

  /** The sharing invariant holds in every state of the run. */
  ghost predicate AlwaysGood(run: Run) {
    Good(run.s) && (run.Step? ==> AlwaysGood(run.prev))
  }

  /** Spaces as loaded, before any fork: well-formed, and no page in two places. */
  ghost predicate Initial(s: State) {
    && Shape(s) && Owned(s) && KernelLow(s)
    && forall r1, r2, v1, v2 | r1 in s.roots && r2 in s.roots && Valid(v1) && Valid(v2) ::
         Node(s.mem, r1, v1).Some? && Node(s.mem, r1, v1) == Node(s.mem, r2, v2) ==> r1 == r2 && v1 == v2
  }

  ghost predicate HasPath(s: State, p: nat, v: Path) {
    Valid(v) && exists r :: r in s.roots && Node(s.mem, r, v) == Some(p)
  }

  ghost function PlaceOf(s: State, p: nat): Path
    requires exists v :: HasPath(s, p, v)
    ensures HasPath(s, p, PlaceOf(s, p))
  {
    var v :| HasPath(s, p, v); v
  }

  lemma InitialPlaced(s: State) returns (place: map<nat, Path>)
    requires Initial(s)
    ensures Placed(s, place)
  {
    place := map p | p in s.used && exists v :: HasPath(s, p, v) :: PlaceOf(s, p);
    forall r, v | r in s.roots && Valid(v) && Node(s.mem, r, v).Some?
      ensures Node(s.mem, r, v).value in place && place[Node(s.mem, r, v).value] == v
    {
      var p := Node(s.mem, r, v).value;
      assert OwnedAt(s, v, p);
      assert HasPath(s, p, v);
      var r2 :| r2 in s.roots && Node(s.mem, r2, PlaceOf(s, p)) == Some(p);
    }
  }

  lemma InitialCounted(s: State)
    requires Initial(s)
    ensures Counted(s) && Exclusive(s)
  {
    forall r, v | r in s.roots && Valid(v) && v.Sub? && Node(s.mem, r, v).Some?
      ensures CountOk(s, v, Node(s.mem, r, v).value)
    {
      assert Sharers(s, v, Node(s.mem, r, v).value) == {r};
    }
  }

  lemma InitialIsGood(s: State)
    requires Initial(s)
    ensures Good(s)
  {
    var place := InitialPlaced(s);
    InitialCounted(s);
    assert Inv(s, place);
  }

  // ----------------------------------------------------- eager reference

  /** What each space would hold if fork copied every page at once. */
  type Spaces = map<nat, imap<Path, seq<Byte>>>

  ghost function ViewOf(s: State, r: nat): imap<Path, seq<Byte>> {
    imap v | Valid(v) && Depth(v) == LEAF && Read(s, r, v).Some? :: Read(s, r, v).value
  }

  ghost function Views(s: State): Spaces {
    map r | r in s.roots :: ViewOf(s, r)
  }

  ghost function Eager(e: Spaces, a: Action): Spaces {
    match a
    case Fork(r, c) => if r in e then e[c := e[r]] else e
    case Fault(_, _, _) => e
    case StoreByte(r, v, off, b) =>
      if r in e && v in e[r] && off < |e[r][v]| then e[r := e[r][v := Poke(e[r][v], off, b)]] else e
    case Teardown(r) => e - {r}
  }

  /** The eager reference along a run. */
  ghost function EagerRun(run: Run): Spaces {
    match run
    case Begin(s) => Views(s)
    case Step(prev, a, _) => Eager(EagerRun(prev), a)
  }

  lemma SameViews(s: State, s2: State, r: nat, r2: nat)
    requires forall v :: Valid(v) && Depth(v) == LEAF ==> Read(s2, r2, v) == Read(s, r, v)
    ensures ViewOf(s2, r2) == ViewOf(s, r)
  {}

  lemma StoreView(s: State, place: map<nat, Path>, r: nat, v: Path, off: nat, b: Byte, o: nat)
    requires Inv(s, place) && r in s.roots && CanStore(s, r, v, off) && o in s.roots
    ensures var s2 := Store(s, r, v, off, b);
      if o != r then ViewOf(s2, o) == ViewOf(s, o)
      else
        && v in ViewOf(s, r) && off < |ViewOf(s, r)[v]|
        && ViewOf(s2, r) == ViewOf(s, r)[v := Poke(ViewOf(s, r)[v], off, b)]
  {
    StoreKeeps(s, place, r, v, off, b);
    if o != r {
      SameViews(s, Store(s, r, v, off, b), o, o);
    }
  }

  lemma StoreViews(s: State, place: map<nat, Path>, r: nat, v: Path, off: nat, b: Byte)
    requires Inv(s, place) && r in s.roots && CanStore(s, r, v, off)
    ensures Views(Store(s, r, v, off, b)) == Eager(Views(s), StoreByte(r, v, off, b))
  {
    StoreRoots(s, r, v, off, b);
    StoreView(s, place, r, v, off, b, r);
    var e2 := Eager(Views(s), StoreByte(r, v, off, b));
    forall o | o in s.roots
      ensures Views(Store(s, r, v, off, b))[o] == e2[o]
    {
      StoreView(s, place, r, v, off, b, o);
    }
    MapsAgree(Views(Store(s, r, v, off, b)), e2);
  }

  lemma StoreRoots(s: State, r: nat, v: Path, off: nat, b: Byte)
    requires CanStore(s, r, v, off)
    ensures Store(s, r, v, off, b).roots == s.roots
  {}

  lemma MapsAgree(a: Spaces, b: Spaces)
    requires a.Keys == b.Keys && forall r :: r in a ==> a[r] == b[r]
    ensures a == b
  {}

  lemma ForkViews(s: State, s2: State, place: map<nat, Path>, r: nat, c: nat)
    requires Inv(s, place) && Forked(s, s2, r, c)
    ensures Good(s2) && Views(s2) == Eager(Views(s), Fork(r, c))
  {
    ForkKeeps(s, s2, place, r, c);
    forall o | o in s.roots ensures ViewOf(s2, o) == ViewOf(s, o) {
      SameViews(s, s2, o, o);
    }
    SameViews(s, s2, r, c);
    MapsAgree(Views(s2), Eager(Views(s), Fork(r, c)));
  }

  lemma FaultViews(s: State, place: map<nat, Path>, r: nat, v: Path, g: nat -> Grant)
    requires Inv(s, place) && r in s.roots && Valid(v) && Depth(v) == LEAF && !LosesCount(s, r, v, g)
    ensures Good(Remap(s, r, v, g).0) && Views(Remap(s, r, v, g).0) == Views(s)
  {
    FaultKeepsIff(s, place, r, v, g);
    var s2 := Remap(s, r, v, g).0;
    forall o | o in s.roots ensures ViewOf(s2, o) == ViewOf(s, o) {
      SameViews(s, s2, o, o);
    }
  }

  lemma TeardownViews(s: State, s2: State, place: map<nat, Path>, r: nat)
    requires Inv(s, place) && TornDown(s, s2, r)
    ensures Good(s2) && Views(s2) == Eager(Views(s), Teardown(r))
  {
    TeardownKeeps(s, s2, place, r);
    forall o | o in s2.roots ensures ViewOf(s2, o) == ViewOf(s, o) {
      SameViews(s, s2, o, o);
    }
    MapsAgree(Views(s2), Eager(Views(s), Teardown(r)));
  }

  /** Each kernel step is one step of the eager reference. */
  lemma StepRefines(s: State, a: Action, s2: State)
    requires Good(s) && Next(s, a, s2)
    ensures Good(s2) && Views(s2) == Eager(Views(s), a)
  {
    var place :| Inv(s, place);
    match a {
      case Fork(r, c) => ForkViews(s, s2, place, r, c);
      case Fault(r, v, g) => FaultViews(s, place, r, v, g);
      case StoreByte(r, v, off, b) =>
        StoreViews(s, place, r, v, off, b);
        StoreKeeps(s, place, r, v, off, b);
      case Teardown(r) => TeardownViews(s, s2, place, r);
    }
  }

  /** Lazy fork refines eager copy: after any run, every live space reads what
      it would read had every fork copied all user pages. */
  lemma {:induction false} LazyForkIsEager(run: Run)
    requires IsRun(run)
    ensures Good(run.s) && Views(run.s) == EagerRun(run)
    decreases run
  {
    match run {
      case Begin(s) => InitialIsGood(s);
      case Step(prev, a, s) =>
        LazyForkIsEager(prev);
        StepRefines(prev.s, a, s);
    }
  }

  /** Over all runs: the invariant holds throughout exactly when no write fault
      loses a count, and then every space reads what eager forks would give it. */
  lemma {:induction false} GoodIffLossless(run: Run)
    requires IsAnyRun(run)
    ensures AlwaysGood(run) <==> Lossless(run)
    ensures Lossless(run) ==> IsRun(run) && Views(run.s) == EagerRun(run)
    decreases run
  {
    match run {
      case Begin(s) => InitialIsGood(s);
      case Step(prev, a, s) =>
        GoodIffLossless(prev);
        if Lossless(run) {
          LazyForkIsEager(run);
        } else if AlwaysGood(prev) {
          LossIsBad(prev.s, a, s);
        }
    }
  }

  lemma LossIsBad(s: State, a: Action, s2: State)
    requires Good(s) && Taken(s, a, s2) && Loses(s, a)
    ensures !Good(s2)
  {
    var place :| Inv(s, place);
    FaultKeepsIff(s, place, a.r, a.v, a.g);
  }

  // ------------------------------------------------------ safety of runs

  /** A page below a root held by n >= 2 live spaces has a count of at least n. */
  ghost predicate CountsCover(s: State) {
    forall r, v :: r in s.roots && Valid(v) && v.Sub? && Node(s.mem, r, v).Some? ==>
      var p := Node(s.mem, r, v).value;
      |Holders(s, p)| >= 2 ==> CountAt(s, v, p) >= |Holders(s, p)|
  }

  /** A writable user leaf, and every table on its path, has a single holder. */
  ghost predicate WritersAlone(s: State) {
    forall r, v, w :: r in s.roots && Valid(v) && Depth(v) == LEAF && WritableAt(s, r, v) && (w == v || Below(v, w)) ==>
      Node(s.mem, r, w).Some? && Holders(s, Node(s.mem, r, w).value) == {r}
  }

  /** Tearing down a space frees no page another live space holds. */
  ghost predicate TeardownFreesOwn(s: State) {
    forall r, p: nat :: r in s.roots && Released(s, r, p) ==> Holders(s, p) <= {r}
  }

  lemma {:induction false} PrivatePath(s: State, place: map<nat, Path>, r: nat, v: Path, w: Path)
    requires Inv(s, place) && r in s.roots && Valid(v) && Node(s.mem, r, v).Some? && Private(s, r, v)
    requires w == v || Below(v, w)
    ensures Valid(w) && Node(s.mem, r, w).Some? && Holders(s, Node(s.mem, r, w).value) == {r}
    decreases v
  {
    if w == v {
      HoldersAreSharers(s, place, r, v);
      assert Sharers(s, v, Node(s.mem, r, v).value) == {r};
    } else {
      PrivateAbove(s, r, v);
      PrivatePath(s, place, r, v.up, w);
    }
  }

  lemma CountsAreCovered(s: State, place: map<nat, Path>)
    requires Inv(s, place)
    ensures CountsCover(s)
  {
    forall r, v | r in s.roots && Valid(v) && v.Sub? && Node(s.mem, r, v).Some?
      ensures var p := Node(s.mem, r, v).value; |Holders(s, p)| >= 2 ==> CountAt(s, v, p) >= |Holders(s, p)|
    {
      HoldersAreSharers(s, place, r, v);
      assert CountOk(s, v, Node(s.mem, r, v).value);
    }
  }

  lemma WritersAreAlone(s: State, place: map<nat, Path>)
    requires Inv(s, place)
    ensures WritersAlone(s)
  {
    forall r, v, w | r in s.roots && Valid(v) && Depth(v) == LEAF && WritableAt(s, r, v) && (w == v || Below(v, w))
      ensures Node(s.mem, r, w).Some? && Holders(s, Node(s.mem, r, w).value) == {r}
    {
      assert Private(s, r, v);
      PrivatePath(s, place, r, v, w);
    }
  }

  lemma TeardownsFreeOwn(s: State, place: map<nat, Path>)
    requires Inv(s, place)
    ensures TeardownFreesOwn(s)
  {
    forall r, p: nat | r in s.roots && Released(s, r, p)
      ensures Holders(s, p) <= {r}
    {
      forall o | o in Holders(s, p) && o != r ensures false {
        var v :| Valid(v) && Node(s.mem, o, v) == Some(p);
        ReleasedIsOurs(s, place, r, o, v);
      }
    }
  }

  /** The counts and the writable bits are right at the end of every run, hence
      in every state of every run. */
  lemma RunsAreSafe(run: Run)
    requires IsRun(run)
    ensures CountsCover(run.s) && WritersAlone(run.s) && TeardownFreesOwn(run.s)
  {
    LazyForkIsEager(run);
    var place :| Inv(run.s, place);
    CountsAreCovered(run.s, place);
    WritersAreAlone(run.s, place);
    TeardownsFreeOwn(run.s, place);
  }
}
