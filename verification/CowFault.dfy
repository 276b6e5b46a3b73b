/** Write faults and stores: what they keep, what they change, and the one
    failure path that breaks the counts. */
module CowFault {
  import opened Options
  import opened CowState
  import opened CowInvariant

  /** A granted un-sharing step is a redirect to a fresh copy. */
  lemma UnshareCopies(s: State, place: map<nat, Path>, r: nat, v: Path, q: nat, g: Grant)
    requires Shape(s) && r in s.roots && Valid(v) && v.Sub? && Depth(v) < LEAF
    requires Node(s.mem, r, v.up) == Some(q) && Node(s.mem, r, v).Some?
    requires OwnedAt(s, v, Node(s.mem, r, v).value) && OwnedAt(s, v.up, q)
    requires Get(s.tcount, Node(s.mem, r, v).value) > 1 && !g.Refused? && Grantable(s, g.page)
    ensures Unshare(s, q, v.idx, g).At? && Unshare(s, q, v.idx, g).page == g.page
    ensures Unshare(s, q, v.idx, g).s.lcount == s.lcount
    ensures Copied(s, Unshare(s, q, v.idx, g).s, r, v, q, g.page)
  {
    var p := Node(s.mem, r, v).value;
    var s2 := Unshare(s, q, v.idx, g).s;
    var n := g.page;
    var e := s.mem[q].es[v.idx];
    assert s2.mem == s.mem[n := s.mem[p]][q := Table(s.mem[q].es[v.idx := e.(page := n, writable := e.writable)])];
  }

  /** Every user page stays where it was. */
  ghost predicate SameLeaves(s: State, s2: State) {
    forall o, w :: o in s.roots && Valid(w) && Depth(w) == LEAF ==> Node(s2.mem, o, w) == Node(s.mem, o, w)
  }

  /** One un-sharing step below a private table. */
  lemma UnshareKeeps(s: State, place: map<nat, Path>, r: nat, v: Path, q: nat, g: Grant)
    returns (place2: map<nat, Path>)
    requires Inv(s, place) && r in s.roots && Valid(v) && v.Sub? && Depth(v) < LEAF
    requires Node(s.mem, r, v.up) == Some(q) && Private(s, r, v.up) && Node(s.mem, r, v).Some?
    ensures var w := Unshare(s, q, v.idx, g);
      && Inv(w.s, place2) && SameReads(s, w.s) && SameLeaves(s, w.s)
      && w.s.lcount == s.lcount
      && (w.Stop? ==> w.s == s)
      && (w.At? ==> Node(w.s.mem, r, v) == Some(w.page) && Private(w.s, r, v))
  {
    place2 := place;
    var p := Node(s.mem, r, v).value;
    assert OwnedAt(s, v, p);
    assert OwnedAt(s, v.up, q);
    if Get(s.tcount, p) <= 1 {
      UncountedIsPrivate(s, place, r, v);
    } else if !g.Refused? && Grantable(s, g.page) {
      UnshareCopies(s, place, r, v, q, g);
      CopiedKeeps(s, Unshare(s, q, v.idx, g).s, place, r, v, q, g.page);
      forall o, w | o in s.roots && Valid(w) && Depth(w) == LEAF
        ensures Node(Unshare(s, q, v.idx, g).s.mem, o, w) == Node(s.mem, o, w)
      {
        RedirectedNode(s, Unshare(s, q, v.idx, g).s, place, r, v, q, g.page, o, w);
      }
      place2 := place[g.page := v];
    }
  }

  /** The walk of a write fault, however far the allocator lets it get, changes
      no space's reads; a completed walk owns every table it passed. */
  lemma {:induction false} WalkKeeps(s: State, place: map<nat, Path>, r: nat, v: Path, g: nat -> Grant)
    returns (place2: map<nat, Path>)
    requires Inv(s, place) && r in s.roots && Valid(v) && Depth(v) < LEAF
    ensures var w := WalkTo(s, r, v, g);
      && Inv(w.s, place2) && SameReads(s, w.s) && SameLeaves(s, w.s)
      && w.s.lcount == s.lcount
      && (w.At? ==> Node(w.s.mem, r, v) == Some(w.page) && Private(w.s, r, v))
    decreases v
  {
    match v {
      case Top =>
        place2 := place;
      case Sub(up, i) =>
        place2 := WalkKeeps(s, place, r, up, g);
        var w := WalkTo(s, r, up, g);
        if w.At? && Follows(EntryAt(w.s.mem, w.page, i), Depth(up)) {
          place2 := UnshareKeeps(w.s, place2, r, v, w.page, g(Depth(up)));
        }
    }
  }

  // ------------------------------------------------- the leaf of the walk

  /** The leaf copy is refused although the count was already given up. */
  predicate LeafRefused(s: State, pt: nat, i: nat, g: Grant) {
    var e := EntryAt(s.mem, pt, i);
    e.present && !e.writable && Get(s.lcount, e.page) > 0 && (g.Refused? || !Grantable(s, g.page))
  }

  /** `s` with the leaf entry of `r` at `v` made writable. */
  function Flipped(s: State, pt: nat, i: nat): State {
    s.(mem := SetEntry(s.mem, pt, i, EntryAt(s.mem, pt, i).(writable := true)))
  }

  lemma FlipNode(s: State, pt: nat, i: nat, o: nat, w: Path)
    ensures Node(Flipped(s, pt, i).mem, o, w) == Node(s.mem, o, w)
  {}

  lemma FlipNodes(s: State, pt: nat, i: nat)
    ensures forall o, w :: Node(Flipped(s, pt, i).mem, o, w) == Node(s.mem, o, w)
  {
    forall o, w ensures Node(Flipped(s, pt, i).mem, o, w) == Node(s.mem, o, w) {
      FlipNode(s, pt, i, o, w);
    }
  }

  lemma FlipOwned(s: State, place: map<nat, Path>, r: nat, v: Path, pt: nat)
    requires Inv(s, place) && r in s.roots && Valid(v) && Depth(v) == LEAF
    requires Node(s.mem, r, v.up) == Some(pt) && Node(s.mem, r, v).Some?
    ensures var s2 := Flipped(s, pt, v.idx); Owned(s2) && SameReads(s, s2) && KernelLow(s2)
  {
    var s2 := Flipped(s, pt, v.idx);
    FlipNodes(s, pt, v.idx);
    assert OwnedAt(s, v.up, pt);
    assert place[pt] == v.up;
    forall o, w | o in s2.roots && Valid(w) && Node(s2.mem, o, w).Some?
      ensures OwnedAt(s2, w, Node(s2.mem, o, w).value)
      ensures Read(s2, o, w) == Read(s, o, w)
    {
      assert OwnedAt(s, w, Node(s.mem, o, w).value);
      assert place[Node(s.mem, o, w).value] == w;
    }
    forall o, i | o in s2.roots && 0 <= i < 2 && s2.kernel[i].present
      ensures EntryAt(s2.mem, o, i).present
    {
      assert EntryAt(s.mem, o, i).present;
    }
  }

  lemma FlipCounted(s: State, place: map<nat, Path>, pt: nat, i: nat)
    requires Inv(s, place)
    ensures var s2 := Flipped(s, pt, i); Placed(s2, place) && Counted(s2)
  {
    var s2 := Flipped(s, pt, i);
    FlipNodes(s, pt, i);
    forall o, w | o in s2.roots && Valid(w) && w.Sub? && Node(s2.mem, o, w).Some?
      ensures CountOk(s2, w, Node(s2.mem, o, w).value)
    {
      var x := Node(s.mem, o, w).value;
      assert CountOk(s, w, x);
      assert Sharers(s2, w, x) == Sharers(s, w, x);
    }
  }

  lemma FlipExclusive(s: State, place: map<nat, Path>, r: nat, v: Path, pt: nat)
    requires Inv(s, place) && r in s.roots && Valid(v) && Depth(v) == LEAF
    requires Node(s.mem, r, v.up) == Some(pt) && Private(s, r, v.up)
    requires Node(s.mem, r, v).Some? && Private(s, r, v)
    ensures var s2 := Flipped(s, pt, v.idx); Exclusive(s2) && WritableAt(s2, r, v)
  {
    var s2 := Flipped(s, pt, v.idx);
    FlipNodes(s, pt, v.idx);
    assert OwnedAt(s, v.up, pt);
    assert place[pt] == v.up;
    forall o, w | o in s2.roots && Valid(w) && Depth(w) == LEAF && WritableAt(s2, o, w)
      ensures Private(s2, o, w)
    {
      var x := Node(s.mem, o, w.up).value;
      assert place[x] == w.up;
      if x == pt && w.idx == v.idx {
        assert o == r;
      } else {
        assert WritableAt(s, o, w);
        assert Private(s, o, w);
      }
    }
  }

  /** Making a private leaf writable in place. */
  lemma LeafFlipKeeps(s: State, place: map<nat, Path>, r: nat, v: Path, pt: nat)
    requires Inv(s, place) && r in s.roots && Valid(v) && Depth(v) == LEAF
    requires Node(s.mem, r, v.up) == Some(pt) && Private(s, r, v.up)
    requires Node(s.mem, r, v).Some? && Private(s, r, v)
    ensures var s2 := Flipped(s, pt, v.idx);
      Inv(s2, place) && SameReads(s, s2) && WritableAt(s2, r, v)
  {
    FlipOwned(s, place, r, v, pt);
    FlipCounted(s, place, pt, v.idx);
    FlipExclusive(s, place, r, v, pt);
  }

  /** A granted leaf copy is a redirect to a fresh copy. */
  lemma LeafCopies(s: State, r: nat, v: Path, pt: nat, g: Grant)
    requires Shape(s) && r in s.roots && Valid(v) && Depth(v) == LEAF
    requires Node(s.mem, r, v.up) == Some(pt) && Node(s.mem, r, v).Some?
    requires OwnedAt(s, v, Node(s.mem, r, v).value) && OwnedAt(s, v.up, pt)
    requires Get(s.lcount, Node(s.mem, r, v).value) > 0 && !g.Refused? && Grantable(s, g.page)
    requires !EntryAt(s.mem, pt, v.idx).writable
    ensures RemapLeaf(s, pt, v.idx, g).1
    ensures Copied(s, RemapLeaf(s, pt, v.idx, g).0, r, v, pt, g.page)
    ensures EntryAt(RemapLeaf(s, pt, v.idx, g).0.mem, pt, v.idx).writable
  {
    var e := s.mem[pt].es[v.idx];
    var s2 := RemapLeaf(s, pt, v.idx, g).0;
    var n := g.page;
    assert s2.mem == s.mem[n := s.mem[e.page]][pt := Table(s.mem[pt].es[v.idx := e.(page := n, writable := true)])];
  }

  /** The leaf step keeps the invariant unless the copy was refused, and a
      step that reports success leaves a writable leaf. */
  lemma LeafKeeps(s: State, place: map<nat, Path>, r: nat, v: Path, pt: nat, g: Grant) returns (place2: map<nat, Path>)
    requires Inv(s, place) && r in s.roots && Valid(v) && Depth(v) == LEAF
    requires Node(s.mem, r, v.up) == Some(pt) && Private(s, r, v.up)
    requires !LeafRefused(s, pt, v.idx, g)
    ensures var (s2, ok) := RemapLeaf(s, pt, v.idx, g);
      && Inv(s2, place2) && SameReads(s, s2)
      && (ok ==> WritableAt(s2, r, v)) && (!ok ==> s2 == s)
  {
    place2 := place;
    var e := EntryAt(s.mem, pt, v.idx);
    assert OwnedAt(s, v.up, pt);
    if e.present && !e.writable {
      assert Node(s.mem, r, v) == Some(e.page);
      assert OwnedAt(s, v, e.page);
      if Get(s.lcount, e.page) == 0 {
        UncountedIsPrivate(s, place, r, v);
        LeafFlipKeeps(s, place, r, v, pt);
      } else {
        LeafCopies(s, r, v, pt, g);
        var s2 := RemapLeaf(s, pt, v.idx, g).0;
        CopiedKeeps(s, s2, place, r, v, pt, g.page);
        RedirectedNode(s, s2, place, r, v, pt, g.page, r, v.up);
        place2 := place[g.page := v];
      }
    }
  }

  /** Resolving a write fault changes no space's reads and keeps the sharing
      invariant unless the leaf copy is refused; success means the faulting
      space can now store. */
  lemma RemapKeeps(s: State, place: map<nat, Path>, r: nat, v: Path, g: nat -> Grant) returns (place2: map<nat, Path>)
    requires Inv(s, place) && r in s.roots && Valid(v) && Depth(v) == LEAF
    requires !RemapRefused(s, r, v, g)
    ensures var (s2, ok) := Remap(s, r, v, g);
      && Inv(s2, place2) && SameReads(s, s2)
      && (ok ==> WritableAt(s2, r, v))
  {
    place2 := WalkKeeps(s, place, r, v.up, g);
    var w := WalkTo(s, r, v.up, g);
    if w.At? {
      var p1 := LeafKeeps(w.s, place2, r, v, w.page, g(3));
      place2 := p1;
    }
  }

  predicate RemapRefused(s: State, r: nat, v: Path, g: nat -> Grant)
    requires v.Sub?
  {
    var w := WalkTo(s, r, v.up, g);
    w.At? && LeafRefused(w.s, w.page, v.idx, g(3))
  }

  // --------------------------------------------------------------- stores

  /** A store reaches the storing space only. */
  lemma StoreKeeps(s: State, place: map<nat, Path>, r: nat, v: Path, off: nat, b: Byte)
    requires Inv(s, place) && r in s.roots && CanStore(s, r, v, off)
    ensures var s2 := Store(s, r, v, off, b);
      && Inv(s2, place) && s2.roots == s.roots
      && Read(s, r, v).Some? && off < |Read(s, r, v).value|
      && Read(s2, r, v) == Some(Poke(Read(s, r, v).value, off, b))
      && forall o, w :: o in s.roots && Valid(w) && Depth(w) == LEAF && !(o == r && w == v) ==>
           Read(s2, o, w) == Read(s, o, w)
  {
    var s2 := Store(s, r, v, off, b);
    var p := Node(s.mem, r, v).value;
    forall o, w
      ensures Node(s2.mem, o, w) == Node(s.mem, o, w)
    {
      StoreNode(s, r, v, off, b, o, w);
    }
    assert Private(s, r, v);
    forall o, w | o in s2.roots && Valid(w) && Node(s2.mem, o, w).Some?
      ensures OwnedAt(s2, w, Node(s2.mem, o, w).value)
    {
      assert OwnedAt(s, w, Node(s.mem, o, w).value);
    }
    forall o, w | o in s2.roots && Valid(w) && w.Sub? && Node(s2.mem, o, w).Some?
      ensures CountOk(s2, w, Node(s2.mem, o, w).value)
    {
      var x := Node(s.mem, o, w).value;
      assert CountOk(s, w, x);
      assert Sharers(s2, w, x) == Sharers(s, w, x);
    }
    forall o, w | o in s2.roots && Valid(w) && Depth(w) == LEAF && WritableAt(s2, o, w)
      ensures Private(s2, o, w)
    {
      assert WritableAt(s, o, w);
      assert Private(s, o, w);
    }
    forall o, i | o in s2.roots && 0 <= i < 2 && s2.kernel[i].present
      ensures EntryAt(s2.mem, o, i).present
    {
      assert EntryAt(s.mem, o, i).present;
      assert Node(s.mem, o, Top) == Some(o);
      assert OwnedAt(s, Top, o);
    }
    forall o, w | o in s.roots && Valid(w) && Depth(w) == LEAF && !(o == r && w == v)
      ensures Read(s2, o, w) == Read(s, o, w)
    {
      if Node(s.mem, o, w).Some? {
        assert place[Node(s.mem, o, w).value] == w;
        assert place[p] == v;
      }
    }
  }

  lemma StoreNode(s: State, r: nat, v: Path, off: nat, b: Byte, o: nat, w: Path)
    requires CanStore(s, r, v, off)
    ensures Node(Store(s, r, v, off, b).mem, o, w) == Node(s.mem, o, w)
  {}
}
