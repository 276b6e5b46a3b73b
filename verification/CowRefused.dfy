/**
 The one way a write fault breaks the counts: cow_remap_in gives up its count
 of a shared page before it asks for the copy, so a refused copy leaves the
 page with one count too few.
 */
module CowRefused {
  import opened Options
  import opened CowState
  import opened CowInvariant
  import opened CowFault

  ghost predicate Good(s: State) {
    exists place :: Inv(s, place)
  }

  ghost predicate ReachesAny(mem: seq<Frame>, r: nat, p: nat) {
    exists v :: Valid(v) && Node(mem, r, v) == Some(p)
  }

  /** The live spaces that reach page `p` at all. */
  ghost function Holders(s: State, p: nat): set<nat> {
    set r | r in s.roots && ReachesAny(s.mem, r, p)
  }

  lemma HoldersAreSharers(s: State, place: map<nat, Path>, r: nat, v: Path)
    requires Inv(s, place) && r in s.roots && Valid(v) && Node(s.mem, r, v).Some?
    ensures Holders(s, Node(s.mem, r, v).value) == Sharers(s, v, Node(s.mem, r, v).value)
  {
    var p := Node(s.mem, r, v).value;
    forall o | o in s.roots
      ensures ReachesAny(s.mem, o, p) <==> Node(s.mem, o, v) == Some(p)
    {
      if ReachesAny(s.mem, o, p) {
        var w :| Valid(w) && Node(s.mem, o, w) == Some(p);
        assert place[p] == w && place[p] == v;
      }
    }
  }

  /** The fault gives up a count it cannot spare: the copy is refused and the
      shared page had exactly one count per holder. */
  ghost predicate LosesCount(s: State, r: nat, v: Path, g: nat -> Grant)
    requires v.Sub?
  {
    && RemapRefused(s, r, v, g)
    && Node(s.mem, r, v).Some?
    && var p := Node(s.mem, r, v).value;
       |Holders(s, p)| >= 2 && Get(s.lcount, p) == |Holders(s, p)|
  }

  lemma RefusedState(s: State, r: nat, v: Path, g: nat -> Grant)
    requires v.Sub? && RemapRefused(s, r, v, g)
    ensures var w := WalkTo(s, r, v.up, g);
      var p := EntryAt(w.s.mem, w.page, v.idx).page;
      Remap(s, r, v, g).0 == w.s.(lcount := Put(w.s.lcount, p, Get(w.s.lcount, p) - 1))
  {}

  lemma LowerOneLeaf(s: State, place: map<nat, Path>, r: nat, v: Path, p: nat)
    requires Inv(s, place) && r in s.roots && Valid(v) && Depth(v) == LEAF
    requires Node(s.mem, r, v) == Some(p) && Get(s.lcount, p) > 0
    ensures var s2 := s.(lcount := Put(s.lcount, p, Get(s.lcount, p) - 1));
      Good(s2) <==> !(|Sharers(s, v, p)| >= 2 && Get(s.lcount, p) == |Sharers(s, v, p)|)
  {
    var s2 := s.(lcount := Put(s.lcount, p, Get(s.lcount, p) - 1));
    assert OwnedAt(s, v, p) && CountOk(s, v, p);
    assert Sharers(s2, v, p) == Sharers(s, v, p);
    if |Sharers(s, v, p)| >= 2 && Get(s.lcount, p) == |Sharers(s, v, p)| {
      assert Node(s2.mem, r, v) == Some(p);
      assert !CountOk(s2, v, p);
      assert !Counted(s2);
    } else {
      forall o, w | o in s2.roots && Valid(w) && w.Sub? && Node(s2.mem, o, w).Some?
        ensures CountOk(s2, w, Node(s2.mem, o, w).value)
      {
        var x := Node(s.mem, o, w).value;
        assert CountOk(s, w, x) && place[x] == w && place[p] == v;
        assert Sharers(s2, w, x) == Sharers(s, w, x);
      }
      forall o, w | o in s2.roots && Valid(w) && Node(s2.mem, o, w).Some?
        ensures OwnedAt(s2, w, Node(s2.mem, o, w).value)
      {
        assert OwnedAt(s, w, Node(s.mem, o, w).value);
      }
      forall o, w | o in s2.roots && Valid(w) && Depth(w) == LEAF && WritableAt(s2, o, w)
        ensures Private(s2, o, w)
      {
        assert WritableAt(s, o, w) && Private(s, o, w);
      }
      assert Inv(s2, place);
    }
  }

  lemma RefusedLeaf(s: State, place: map<nat, Path>, r: nat, v: Path, g: nat -> Grant)
    returns (place1: map<nat, Path>, p: nat)
    requires Inv(s, place) && r in s.roots && Valid(v) && Depth(v) == LEAF && RemapRefused(s, r, v, g)
    ensures var w := WalkTo(s, r, v.up, g).s;
      && Inv(w, place1) && SameReads(s, w) && w.lcount == s.lcount
      && Node(w.mem, r, v) == Some(p) && Node(s.mem, r, v) == Some(p) && Get(s.lcount, p) > 0
      && Remap(s, r, v, g).0 == w.(lcount := Put(w.lcount, p, Get(w.lcount, p) - 1))
      && Sharers(w, v, p) == Sharers(s, v, p)
  {
    place1 := WalkKeeps(s, place, r, v.up, g);
    var w := WalkTo(s, r, v.up, g);
    p := EntryAt(w.s.mem, w.page, v.idx).page;
    RefusedPage(w.s, place1, r, v, w.page);
    RefusedState(s, r, v, g);
    SameSharers(s, w.s, v, p);
  }

  lemma RefusedPage(s: State, place: map<nat, Path>, r: nat, v: Path, pt: nat)
    requires Inv(s, place) && r in s.roots && Valid(v) && Depth(v) == LEAF && Node(s.mem, r, v.up) == Some(pt)
    requires EntryAt(s.mem, pt, v.idx).present && !EntryAt(s.mem, pt, v.idx).writable
    ensures Node(s.mem, r, v) == Some(EntryAt(s.mem, pt, v.idx).page)
  {}

  lemma SameSharers(s: State, s2: State, v: Path, p: nat)
    requires SameLeaves(s, s2) && s2.roots == s.roots && Valid(v) && Depth(v) == LEAF
    ensures Sharers(s2, v, p) == Sharers(s, v, p)
  {}

  lemma RefusedIff(s: State, place: map<nat, Path>, r: nat, v: Path, g: nat -> Grant)
    requires Inv(s, place) && r in s.roots && Valid(v) && Depth(v) == LEAF && RemapRefused(s, r, v, g)
    ensures Good(Remap(s, r, v, g).0) <==> !LosesCount(s, r, v, g)
    ensures SameReads(s, Remap(s, r, v, g).0)
  {
    var place1, p := RefusedLeaf(s, place, r, v, g);
    var w := WalkTo(s, r, v.up, g).s;
    LowerOneLeaf(w, place1, r, v, p);
    HoldersAreSharers(s, place, r, v);
  }

  /** A write fault keeps the sharing invariant exactly when it does not lose a
      count it cannot spare; reads are unchanged either way. */
  lemma FaultKeepsIff(s: State, place: map<nat, Path>, r: nat, v: Path, g: nat -> Grant)
    requires Inv(s, place) && r in s.roots && Valid(v) && Depth(v) == LEAF
    ensures Good(Remap(s, r, v, g).0) <==> !LosesCount(s, r, v, g)
    ensures SameReads(s, Remap(s, r, v, g).0)
  {
    if RemapRefused(s, r, v, g) {
      RefusedIff(s, place, r, v, g);
    } else {
      var place2 := RemapKeeps(s, place, r, v, g);
    }
  }
}
