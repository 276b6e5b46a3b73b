/** The sharing invariant, and that resolving a write fault keeps it. */
module CowInvariant {
  import opened Options
  import opened CowState

  // ------------------------------------------------------------ invariant

  /** Array bounds, machine widths and the task limit. */
  ghost predicate Shape(s: State) {
    && |s.tcount| == |s.mem| && |s.lcount| == |s.mem| && |s.mem| <= MAX_REFC_PAGES
    && (forall p :: 0 <= p < |s.mem| ==> s.tcount[p] <= U16_MAX && s.lcount[p] <= U8_MAX)
    && (forall p :: p in s.used ==> p < |s.mem|)
    && s.roots <= s.used
    && |s.roots| <= MAX_TASKS
    && |s.kernel| == ENTRIES
  }

  /** Kernel-owned entries that a walk meets: identity leaves are writable and
      huge leaves are never user pages. */
  predicate KernelEntriesOk(es: seq<Entry>, d: nat) {
    && (d == 3 ==> forall i :: 0 <= i < |es| && es[i].present && !es[i].user ==> es[i].writable)
    && (0 < d < 3 ==> forall i :: 0 <= i < |es| && es[i].present && es[i].huge ==> !es[i].user)
  }

  /** A page a live space reaches at `v` is allocated and holds what the depth
      of `v` calls for. */
  predicate OwnedAt(s: State, v: Path, p: nat) {
    && p < |s.mem| && p in s.used
    && (Depth(v) < LEAF ==>
          && p in s.typed && s.mem[p].Table? && |s.mem[p].es| == ENTRIES
          && KernelEntriesOk(s.mem[p].es, Depth(v)))
    && (Depth(v) == LEAF ==> s.mem[p].Bytes?)
  }

  ghost predicate Owned(s: State) {
    forall r, v :: r in s.roots && Valid(v) && Node(s.mem, r, v).Some? ==>
      OwnedAt(s, v, Node(s.mem, r, v).value)
  }

  /** Every page sits at one path only, in whichever spaces reach it. */
  ghost predicate Placed(s: State, place: map<nat, Path>) {
    forall r, v :: r in s.roots && Valid(v) && Node(s.mem, r, v).Some? ==>
      Node(s.mem, r, v).value in place && place[Node(s.mem, r, v).value] == v
  }

  /** The live spaces that reach page `p` at path `v`. */
  function Sharers(s: State, v: Path, p: nat): set<nat> {
    set r | r in s.roots && Node(s.mem, r, v) == Some(p)
  }

  function CountAt(s: State, v: Path, p: nat): nat {
    if Depth(v) == LEAF then Get(s.lcount, p) else Get(s.tcount, p)
  }

  /** A page reached by several live spaces is counted at least that often. */
  ghost predicate Counted(s: State) {
    forall r, v :: r in s.roots && Valid(v) && v.Sub? && Node(s.mem, r, v).Some? ==>
      CountOk(s, v, Node(s.mem, r, v).value)
  }

  ghost predicate CountOk(s: State, v: Path, p: nat) {
    |Sharers(s, v, p)| >= 2 ==> CountAt(s, v, p) >= |Sharers(s, v, p)|
  }

  predicate WritableAt(s: State, r: nat, v: Path) {
    && v.Sub? && Node(s.mem, r, v).Some? && Node(s.mem, r, v.up).Some?
    && EntryAt(s.mem, Node(s.mem, r, v.up).value, v.idx).writable
  }

  /** Nobody but `r` reaches the page `r` has at `v`. */
  ghost predicate Private(s: State, r: nat, v: Path) {
    forall o :: o in s.roots && o != r ==> Node(s.mem, o, v).None? || Node(s.mem, o, v) != Node(s.mem, r, v)
  }

  /** A writable user leaf belongs to one space. */
  ghost predicate Exclusive(s: State) {
    forall r, v :: r in s.roots && Valid(v) && Depth(v) == LEAF && WritableAt(s, r, v) ==> Private(s, r, v)
  }

  /** The loader copies the kernel's low root slots into every space. */
  ghost predicate KernelLow(s: State) {
    forall r, i :: r in s.roots && 0 <= i < 2 && |s.kernel| == ENTRIES && s.kernel[i].present ==>
      EntryAt(s.mem, r, i).present
  }

  ghost predicate Inv(s: State, place: map<nat, Path>) {
    && Shape(s) && Owned(s) && Placed(s, place) && Counted(s) && Exclusive(s) && KernelLow(s)
  }

  // -------------------------------------------------------- basic lemmas

  /** Spaces that meet at a path agree at every path below it, so a page that
      is private has a private path above it. */
  lemma PrivateAbove(s: State, r: nat, v: Path)
    requires v.Sub? && Node(s.mem, r, v).Some? && Private(s, r, v)
    ensures Private(s, r, v.up)
  {}

  /** A page whose count says it is not shared is private. */
  lemma UncountedIsPrivate(s: State, place: map<nat, Path>, r: nat, v: Path)
    requires Inv(s, place) && r in s.roots && Valid(v) && v.Sub?
    requires Node(s.mem, r, v).Some? && CountAt(s, v, Node(s.mem, r, v).value) <= 1
    ensures Private(s, r, v)
  {
    var p := Node(s.mem, r, v).value;
    assert CountOk(s, v, p);
    forall o | o in s.roots && o != r && Node(s.mem, o, v) == Some(p)
      ensures false
    {
      assert {r, o} <= Sharers(s, v, p);
      SubsetSize({r, o}, Sharers(s, v, p));
    }
  }

  lemma SubsetSize(a: set<nat>, b: set<nat>)
    requires a <= b
    ensures |a| <= |b|
  {
    assert b == a + (b - a);
  }

  // ------------------------------------------- redirecting one entry

  /** `s2` is `s` after the entry of the private table `q` at path `v.up` was
      made to point to page `n`, a copy of what it pointed to before. */
  ghost predicate Redirected(s: State, s2: State, r: nat, v: Path, q: nat, n: nat) {
    && v.Sub? && Valid(v) && r in s.roots
    && Node(s.mem, r, v.up) == Some(q) && Node(s.mem, r, v).Some?
    && var p := Node(s.mem, r, v).value;
    && n < |s.mem| && q < |s.mem| && p < |s.mem|
    && s.mem[q].Table? && v.idx < |s.mem[q].es|
    && var e := s.mem[q].es[v.idx];
    && (exists w :: s2.mem == s.mem[n := s.mem[p]][q := Table(s.mem[q].es[v.idx := e.(page := n, writable := w)])])
    && s2.roots == s.roots && s2.kernel == s.kernel
  }

  /** After a redirect every walk ends where it did, except the one redirected. */
  lemma {:induction false} RedirectedNode(s: State, s2: State, place: map<nat, Path>, r: nat, v: Path, q: nat, n: nat,
                                          o: nat, w: Path)
    requires Inv(s, place) && Redirected(s, s2, r, v, q, n)
    requires Private(s, r, v.up)
    requires n !in s.used || Node(s.mem, r, v) == Some(n)
    requires n in s.used ==> Private(s, r, v)
    requires o in s.roots && Valid(w)
    ensures Node(s2.mem, o, w) == if o == r && w == v then Some(n) else Node(s.mem, o, w)
    decreases w
  {
    match w {
      case Top =>
      case Sub(up, i) =>
        RedirectedNode(s, s2, place, r, v, q, n, o, up);
        if Node(s.mem, o, up).Some? {
          var x := Node(s.mem, o, up).value;
          assert OwnedAt(s, up, x);
          assert place[x] == up;
          assert OwnedAt(s, v.up, q);
          assert place[q] == v.up;
          assert OwnedAt(s, v, Node(s.mem, r, v).value);
        }
    }
  }

  /** A redirect to a fresh copy that gives up one count of the original. */
  ghost predicate Copied(s: State, s2: State, r: nat, v: Path, q: nat, n: nat) {
    && Redirected(s, s2, r, v, q, n) && Shape(s2)
    && n !in s.used && s2.used == s.used + {n} && s2.typed == s.typed + {n}
    && var p := Node(s.mem, r, v).value;
    && (forall x :: 0 <= x < |s.mem| && x != n && x != p ==>
      s2.tcount[x] == Get(s.tcount, x) && s2.lcount[x] == Get(s.lcount, x))
    && (p != n && p < |s.mem| ==>
          && s2.tcount[p] == (if Depth(v) < LEAF then Dec(Get(s.tcount, p)) else Get(s.tcount, p))
          && s2.lcount[p] == (if Depth(v) < LEAF then Get(s.lcount, p) else Dec(Get(s.lcount, p))))
    && (Depth(v) < LEAF ==>
      s2.mem[q].Table? && v.idx < |s2.mem[q].es| && s2.mem[q].es[v.idx].writable == EntryAt(s.mem, q, v.idx).writable)
  }

  /** Entries met along a walk keep their writable bit, except the redirected one. */
  lemma CopiedEntry(s: State, s2: State, place: map<nat, Path>, r: nat, v: Path, q: nat, n: nat, o: nat, w: Path)
    requires Inv(s, place) && Copied(s, s2, r, v, q, n) && Private(s, r, v.up)
    requires o in s.roots && Valid(w) && w.Sub? && !(o == r && w == v)
    ensures WritableAt(s2, o, w) == WritableAt(s, o, w)
  {
    RedirectedNode(s, s2, place, r, v, q, n, o, w);
    RedirectedNode(s, s2, place, r, v, q, n, o, w.up);
    if Node(s.mem, o, w.up).Some? {
      assert OwnedAt(s, w.up, Node(s.mem, o, w.up).value);
    }
  }

  lemma CopiedOwned(s: State, s2: State, place: map<nat, Path>, r: nat, v: Path, q: nat, n: nat)
    requires Inv(s, place) && Copied(s, s2, r, v, q, n) && Private(s, r, v.up)
    ensures Owned(s2) && Placed(s2, place[n := v])
  {
    forall o, w | o in s2.roots && Valid(w) && Node(s2.mem, o, w).Some?
      ensures OwnedAt(s2, w, Node(s2.mem, o, w).value)
      ensures Node(s2.mem, o, w).value in place[n := v] && place[n := v][Node(s2.mem, o, w).value] == w
    {
      RedirectedNode(s, s2, place, r, v, q, n, o, w);
      assert OwnedAt(s, v, Node(s.mem, r, v).value);
      assert OwnedAt(s, v.up, q);
      if !(o == r && w == v) {
        assert OwnedAt(s, w, Node(s.mem, o, w).value);
      }
    }
  }

  lemma CopiedCounted(s: State, s2: State, place: map<nat, Path>, r: nat, v: Path, q: nat, n: nat)
    requires Inv(s, place) && Copied(s, s2, r, v, q, n) && Private(s, r, v.up)
    ensures Counted(s2)
  {
    forall o, w | o in s2.roots && Valid(w) && w.Sub? && Node(s2.mem, o, w).Some?
      ensures CountOk(s2, w, Node(s2.mem, o, w).value)
    {
      var x := Node(s2.mem, o, w).value;
      forall o2 | o2 in s.roots
        ensures Node(s2.mem, o2, w) == if o2 == r && w == v then Some(n) else Node(s.mem, o2, w)
      {
        RedirectedNode(s, s2, place, r, v, q, n, o2, w);
      }
      var p := Node(s.mem, r, v).value;
      assert OwnedAt(s, v, p);
      forall o2 | o2 in s.roots && Node(s.mem, o2, w).Some?
        ensures Node(s.mem, o2, w).value != n
      {
        assert OwnedAt(s, w, Node(s.mem, o2, w).value);
      }
      if o == r && w == v {
        assert Sharers(s2, w, x) == {r};
      } else if w == v && x == p {
        assert Sharers(s2, w, x) == Sharers(s, w, x) - {r};
        assert r in Sharers(s, w, x);
        assert CountOk(s, w, x);
      } else {
        assert Sharers(s2, w, x) == Sharers(s, w, x);
        assert CountOk(s, w, x);
        assert place[x] == w && place[p] == v;
      }
    }
  }

  lemma CopiedExclusive(s: State, s2: State, place: map<nat, Path>, r: nat, v: Path, q: nat, n: nat)
    requires Inv(s, place) && Copied(s, s2, r, v, q, n) && Private(s, r, v.up)
    ensures Exclusive(s2) && KernelLow(s2)
  {
    forall o, w | o in s2.roots && Valid(w) && Depth(w) == LEAF && WritableAt(s2, o, w)
      ensures Private(s2, o, w)
    {
      forall o2 | o2 in s.roots
        ensures Node(s2.mem, o2, w) == if o2 == r && w == v then Some(n) else Node(s.mem, o2, w)
        ensures Node(s.mem, o2, w) != Some(n)
      {
        RedirectedNode(s, s2, place, r, v, q, n, o2, w);
        if Node(s.mem, o2, w).Some? { assert OwnedAt(s, w, Node(s.mem, o2, w).value); }
      }
      if !(o == r && w == v) {
        CopiedEntry(s, s2, place, r, v, q, n, o, w);
        assert Private(s, o, w);
      }
    }
    forall o, i | o in s2.roots && 0 <= i < 2 && s2.kernel[i].present
      ensures EntryAt(s2.mem, o, i).present
    {
      assert EntryAt(s.mem, o, i).present;
    }
  }

  /** Moving one space to a private copy of a page it shares keeps the
      invariant and changes nothing any space reads. */
  lemma CopiedKeeps(s: State, s2: State, place: map<nat, Path>, r: nat, v: Path, q: nat, n: nat)
    requires Inv(s, place) && Copied(s, s2, r, v, q, n) && Private(s, r, v.up)
    ensures Inv(s2, place[n := v]) && SameReads(s, s2)
    ensures Node(s2.mem, r, v) == Some(n) && Private(s2, r, v)
  {
    CopiedOwned(s, s2, place, r, v, q, n);
    CopiedCounted(s, s2, place, r, v, q, n);
    CopiedExclusive(s, s2, place, r, v, q, n);
    RedirectedNode(s, s2, place, r, v, q, n, r, v);
    forall o, w | o in s.roots && Valid(w) && Depth(w) == LEAF
      ensures Read(s2, o, w) == Read(s, o, w)
    {
      RedirectedNode(s, s2, place, r, v, q, n, o, w);
      if Node(s.mem, o, w).Some? { assert OwnedAt(s, w, Node(s.mem, o, w).value); }
      assert OwnedAt(s, v.up, q);
    }
    forall o | o in s.roots && o != r
      ensures Node(s2.mem, o, v) != Some(n)
    {
      RedirectedNode(s, s2, place, r, v, q, n, o, v);
      if Node(s.mem, o, v).Some? { assert OwnedAt(s, v, Node(s.mem, o, v).value); }
    }
  }

  /** The same live spaces read the same at every virtual page. */
  ghost predicate SameReads(s: State, s2: State) {
    && s2.roots == s.roots
    && forall o, w :: o in s.roots && Valid(w) && Depth(w) == LEAF ==> Read(s2, o, w) == Read(s, o, w)
  }
}
