/**
 When a write fault is resolved, and what it does to page-table entries: it
 succeeds exactly for a read-only user page whose copies the allocator grants.
 */
module CowProgress {
  import opened Options
  import opened CowState
  import opened CowInvariant
  import opened CowFault
  import opened CowFork

  /** The fault copies the page `r` has at `v`: a table counted more than once, a
      user page counted at all. */
  predicate Needs(s: State, r: nat, v: Path) {
    match Node(s.mem, r, v)
    case None => false
    case Some(p) => if Depth(v) < LEAF then Get(s.tcount, p) > 1 else Get(s.lcount, p) > 0
  }

  /** The pages granted for the copies along path `v`. */
  function Taken(s: State, r: nat, v: Path, g: nat -> Grant): set<nat> {
    match v
    case Top => {}
    case Sub(up, _) =>
      Taken(s, r, up, g) + if Needs(s, r, v) && !g(Depth(up)).Refused? then {g(Depth(up)).page} else {}
  }

  /** Each copy along path `v` is granted a page that nothing uses, and no page
      is granted twice. */
  predicate AllGranted(s: State, r: nat, v: Path, g: nat -> Grant) {
    match v
    case Top => true
    case Sub(up, _) =>
      && AllGranted(s, r, up, g)
      && (Needs(s, r, v) ==>
            var a := g(Depth(up));
            !a.Refused? && a.page < |s.mem| && a.page !in s.used && a.page !in Taken(s, r, up, g))
  }

  /** The entry by which space `o` comes to path `u`. */
  function EntryTo(mem: seq<Frame>, o: nat, u: Path): Entry
    requires u.Sub?
  {
    match Node(mem, o, u.up)
    case None => ABSENT
    case Some(p) => EntryAt(mem, p, u.idx)
  }

  /** Nobody's entries change, except for the page where a table was copied. */
  ghost predicate SameEntries(s: State, s2: State) {
    forall o, u :: o in s.roots && Valid(u) && u.Sub? ==>
      EntryTo(s2.mem, o, u) == EntryTo(s.mem, o, u).(page := EntryTo(s2.mem, o, u).page)
  }

  /** What lies below path `w` is as it was. */
  ghost predicate SameBelow(s: State, s2: State, r: nat, w: Path) {
    forall u :: Valid(u) && Below(u, w) ==>
      && Node(s2.mem, r, u) == Node(s.mem, r, u) && EntryTo(s2.mem, r, u) == EntryTo(s.mem, r, u)
      && (Depth(u) < LEAF && Node(s.mem, r, u).Some? ==>
            Get(s2.tcount, Node(s.mem, r, u).value) == Get(s.tcount, Node(s.mem, r, u).value))
  }

  /** The walk has come to `w`. */
  ghost predicate Arrived(s: State, s2: State, r: nat, w: Path, g: nat -> Grant) {
    && |s2.mem| == |s.mem| && s2.used == s.used + Taken(s, r, w, g) && s2.lcount == s.lcount
    && SameBelow(s, s2, r, w) && SameEntries(s, s2)
  }

  // ------------------------------------------------------------ one copy

  lemma CopiedEntryTo(s: State, s2: State, place: map<nat, Path>, r: nat, v: Path, q: nat, n: nat, o: nat, u: Path)
    requires Inv(s, place) && Copied(s, s2, r, v, q, n) && Private(s, r, v.up)
    requires o in s.roots && Valid(u) && u.Sub?
    ensures !(o == r && u == v) ==> EntryTo(s2.mem, o, u) == EntryTo(s.mem, o, u)
    ensures o == r && u == v ==>
      && EntryTo(s2.mem, r, v) == EntryTo(s.mem, r, v).(page := n, writable := EntryTo(s2.mem, r, v).writable)
      && (Depth(v) < LEAF ==> EntryTo(s2.mem, r, v).writable == EntryTo(s.mem, r, v).writable)
  {
    RedirectedNode(s, s2, place, r, v, q, n, o, u.up);
    if Node(s.mem, o, u.up).Some? {
      var x := Node(s.mem, o, u.up).value;
      assert OwnedAt(s, u.up, x) && place[x] == u.up;
      assert OwnedAt(s, v.up, q) && place[q] == v.up;
    }
  }

  lemma CopiedBelow(s: State, s2: State, place: map<nat, Path>, r: nat, v: Path, q: nat, n: nat)
    requires Inv(s, place) && Copied(s, s2, r, v, q, n) && Private(s, r, v.up)
    ensures SameBelow(s, s2, r, v)
  {
    forall u | Valid(u) && Below(u, v)
      ensures Node(s2.mem, r, u) == Node(s.mem, r, u) && EntryTo(s2.mem, r, u) == EntryTo(s.mem, r, u)
      ensures Depth(u) < LEAF && Node(s.mem, r, u).Some? ==>
        Get(s2.tcount, Node(s.mem, r, u).value) == Get(s.tcount, Node(s.mem, r, u).value)
    {
      BelowDepth(u, v);
      RedirectedNode(s, s2, place, r, v, q, n, r, u);
      CopiedEntryTo(s, s2, place, r, v, q, n, r, u);
      if Node(s.mem, r, u).Some? {
        assert OwnedAt(s, u, Node(s.mem, r, u).value);
        assert place[Node(s.mem, r, u).value] == u && place[Node(s.mem, r, v).value] == v;
      }
    }
  }

  lemma CopiedEntries(s: State, s2: State, place: map<nat, Path>, r: nat, v: Path, q: nat, n: nat)
    requires Inv(s, place) && Copied(s, s2, r, v, q, n) && Private(s, r, v.up) && Depth(v) < LEAF
    ensures SameEntries(s, s2)
  {
    forall o, u | o in s.roots && Valid(u) && u.Sub?
      ensures EntryTo(s2.mem, o, u) == EntryTo(s.mem, o, u).(page := EntryTo(s2.mem, o, u).page)
    {
      CopiedEntryTo(s, s2, place, r, v, q, n, o, u);
    }
  }

  // ------------------------------------------------------------- the walk

  lemma SameBelowOn(s: State, s1: State, s2: State, r: nat, v: Path)
    requires v.Sub? && SameBelow(s, s1, r, v.up) && SameBelow(s1, s2, r, v)
    ensures SameBelow(s, s2, r, v)
  {
    forall u | Valid(u) && Below(u, v)
      ensures Node(s2.mem, r, u) == Node(s.mem, r, u) && EntryTo(s2.mem, r, u) == EntryTo(s.mem, r, u)
      ensures Depth(u) < LEAF && Node(s.mem, r, u).Some? ==>
        Get(s2.tcount, Node(s.mem, r, u).value) == Get(s.tcount, Node(s.mem, r, u).value)
    {
      BelowUp(u, v);
    }
  }

  lemma {:induction false} BelowUp(u: Path, v: Path)
    requires v.Sub? && Below(u, v)
    ensures Below(u, v.up)
  {
    if u.up != v { BelowUp(u.up, v); }
  }

  lemma SameEntriesOn(s: State, s1: State, s2: State)
    requires s1.roots == s.roots && SameEntries(s, s1) && SameEntries(s1, s2)
    ensures SameEntries(s, s2)
  {
    forall o, u | o in s.roots && Valid(u) && u.Sub?
      ensures EntryTo(s2.mem, o, u) == EntryTo(s.mem, o, u).(page := EntryTo(s2.mem, o, u).page)
    {
      assert EntryTo(s1.mem, o, u) == EntryTo(s.mem, o, u).(page := EntryTo(s1.mem, o, u).page);
    }
  }

  /** One level of the walk goes on exactly when its copy, if any, is granted. */
  lemma LevelProgress(s: State, place: map<nat, Path>, r: nat, v: Path, q: nat, g: Grant)
    requires Inv(s, place) && r in s.roots && Valid(v) && v.Sub? && Depth(v) < LEAF
    requires Node(s.mem, r, v.up) == Some(q) && Private(s, r, v.up) && Node(s.mem, r, v).Some?
    ensures var w := Unshare(s, q, v.idx, g);
      && (w.At? <==> (Needs(s, r, v) ==> !g.Refused? && Grantable(s, g.page)))
      && (w.At? ==>
            && |w.s.mem| == |s.mem| && w.s.lcount == s.lcount && w.s.roots == s.roots
            && w.s.used == s.used + (if Needs(s, r, v) then {g.page} else {})
            && SameBelow(s, w.s, r, v) && SameEntries(s, w.s))
  {
    var p := Node(s.mem, r, v).value;
    assert OwnedAt(s, v, p) && OwnedAt(s, v.up, q);
    if Needs(s, r, v) && !g.Refused? && Grantable(s, g.page) {
      UnshareCopies(s, place, r, v, q, g);
      var s2 := Unshare(s, q, v.idx, g).s;
      CopiedBelow(s, s2, place, r, v, q, g.page);
      CopiedEntries(s, s2, place, r, v, q, g.page);
    }
  }

  lemma {:induction false} NodeAbove(mem: seq<Frame>, r: nat, v: Path)
    requires v.Sub? && Node(mem, r, v).Some?
    ensures Node(mem, r, v.up).Some?
  {}

  lemma {:induction false} WalkArrives(s: State, place: map<nat, Path>, r: nat, v: Path, g: nat -> Grant)
    requires Inv(s, place) && r in s.roots && Valid(v) && Depth(v) < LEAF && Node(s.mem, r, v).Some?
    ensures var w := WalkTo(s, r, v, g);
      && (w.At? <==> AllGranted(s, r, v, g))
      && (w.At? ==> Arrived(s, w.s, r, v, g) && w.s.roots == s.roots)
    decreases v
  {
    if v.Sub? {
      var up := v.up;
      NodeAbove(s.mem, r, v);
      WalkArrives(s, place, r, up, g);
      var w := WalkTo(s, r, up, g);
      if w.At? {
        var place1 := WalkKeeps(s, place, r, up, g);
        assert Below(v, up);
        assert EntryTo(w.s.mem, r, v) == EntryTo(s.mem, r, v) && Node(w.s.mem, r, v) == Node(s.mem, r, v);
        LevelProgress(w.s, place1, r, v, w.page, g(Depth(up)));
        var w2 := Unshare(w.s, w.page, v.idx, g(Depth(up)));
        assert Needs(w.s, r, v) == Needs(s, r, v);
        if w2.At? {
          SameBelowOn(s, w.s, w2.s, r, v);
          SameEntriesOn(s, w.s, w2.s);
        }
      }
    }
  }

  /** A walk through a table that is not there stops. */
  lemma {:induction false} WalkStops(s: State, place: map<nat, Path>, r: nat, v: Path, g: nat -> Grant)
    requires Inv(s, place) && r in s.roots && Valid(v) && Depth(v) < LEAF && Node(s.mem, r, v).None?
    ensures WalkTo(s, r, v, g).Stop?
    decreases v
  {
    if Node(s.mem, r, v.up).None? {
      WalkStops(s, place, r, v.up, g);
    } else {
      WalkArrives(s, place, r, v.up, g);
      var w := WalkTo(s, r, v.up, g);
      if w.At? {
        var place1 := WalkKeeps(s, place, r, v.up, g);
        assert Below(v, v.up);
        assert Node(w.s.mem, r, v) == Node(s.mem, r, v);
      }
    }
  }

  // ------------------------------------------------------------ the fault

  /** The user page of `r` at `v` is mapped read-only. */
  predicate ReadOnlyAt(s: State, r: nat, v: Path)
    requires v.Sub?
  {
    Node(s.mem, r, v).Some? && !EntryTo(s.mem, r, v).writable
  }

  lemma LeafAnswers(s: State, place: map<nat, Path>, r: nat, v: Path, pt: nat, g: Grant)
    requires Inv(s, place) && r in s.roots && Valid(v) && Depth(v) == LEAF && Node(s.mem, r, v.up) == Some(pt)
    ensures var (s2, ok) := RemapLeaf(s, pt, v.idx, g);
      && (ok <==> ReadOnlyAt(s, r, v) && (Needs(s, r, v) ==> !g.Refused? && Grantable(s, g.page)))
      && (ok ==> s2.used == s.used + if Needs(s, r, v) then {g.page} else {})
  {
    var e := EntryAt(s.mem, pt, v.idx);
    assert OwnedAt(s, v.up, pt);
    if e.present && !e.writable {
      assert Node(s.mem, r, v) == Some(e.page);
      assert OwnedAt(s, v, e.page);
    }
  }

  lemma LeafEntryTo(s: State, place: map<nat, Path>, r: nat, v: Path, pt: nat, g: Grant, o: nat, u: Path)
    requires Inv(s, place) && r in s.roots && Valid(v) && Depth(v) == LEAF
    requires Node(s.mem, r, v.up) == Some(pt) && Private(s, r, v.up) && Node(s.mem, r, v).Some?
    requires RemapLeaf(s, pt, v.idx, g).1 && o in s.roots && Valid(u) && u.Sub?
    ensures var s2 := RemapLeaf(s, pt, v.idx, g).0;
      if o == r && u == v then
        EntryTo(s2.mem, r, v) == EntryTo(s.mem, r, v).(
          page := if Needs(s, r, v) then g.page else Node(s.mem, r, v).value, writable := true)
      else EntryTo(s2.mem, o, u) == EntryTo(s.mem, o, u)
  {
    var e := EntryAt(s.mem, pt, v.idx);
    var s2 := RemapLeaf(s, pt, v.idx, g).0;
    assert OwnedAt(s, v.up, pt) && OwnedAt(s, v, e.page) && place[pt] == v.up;
    if Get(s.lcount, e.page) == 0 {
      FlipNode(s, pt, v.idx, o, u.up);
      if Node(s.mem, o, u.up).Some? { assert place[Node(s.mem, o, u.up).value] == u.up; }
    } else {
      LeafCopies(s, r, v, pt, g);
      CopiedEntryTo(s, s2, place, r, v, pt, g.page, o, u);
      RedirectedNode(s, s2, place, r, v, pt, g.page, r, v.up);
    }
  }

  /** The entry by which space `o` comes to `u` after a fault of `r` at `v`. */
  predicate FaultEntry(s: State, s2: State, r: nat, v: Path, g: Grant, o: nat, u: Path)
    requires u.Sub?
  {
    var e, e2 := EntryTo(s.mem, o, u), EntryTo(s2.mem, o, u);
    if o == r && u == v then
      e2 == e.(page := if Needs(s, r, v) && !g.Refused? then g.page else e.page, writable := true)
    else e2 == e.(page := e2.page)
  }

  /** cow_remap_in answers true if and only if the space has a read-only user page
      there and every copy the fault needs is granted.  Then the page is writable
      with its other bits kept, and no other entry changes but for the tables
      that were copied. */
  lemma FaultSucceedsIff(s: State, place: map<nat, Path>, r: nat, v: Path, g: nat -> Grant)
    requires Inv(s, place) && r in s.roots && Valid(v) && Depth(v) == LEAF
    ensures Remap(s, r, v, g).1 <==> ReadOnlyAt(s, r, v) && AllGranted(s, r, v, g)
    ensures Remap(s, r, v, g).1 ==>
      var s2 := Remap(s, r, v, g).0;
      && s2.used == s.used + Taken(s, r, v, g)
      && forall o, u :: o in s.roots && Valid(u) && u.Sub? ==> FaultEntry(s, s2, r, v, g(3), o, u)
  {
    var up := v.up;
    if Node(s.mem, r, up).None? {
      WalkStops(s, place, r, up, g);
    } else {
      WalkArrives(s, place, r, up, g);
      var w := WalkTo(s, r, up, g);
      if w.At? {
        var place1 := WalkKeeps(s, place, r, up, g);
        assert Below(v, up);
        assert EntryTo(w.s.mem, r, v) == EntryTo(s.mem, r, v) && Node(w.s.mem, r, v) == Node(s.mem, r, v);
        LeafAnswers(w.s, place1, r, v, w.page, g(3));
        assert Needs(w.s, r, v) == Needs(s, r, v);
        if Remap(s, r, v, g).1 {
          forall o, u | o in s.roots && Valid(u) && u.Sub?
            ensures FaultEntry(s, Remap(s, r, v, g).0, r, v, g(3), o, u)
          {
            LeafEntryTo(w.s, place1, r, v, w.page, g(3), o, u);
          }
        }
      }
    }
  }
}
