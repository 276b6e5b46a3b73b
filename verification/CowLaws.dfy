/**
 What fork and teardown do to page tables, entry by entry and page by page: the
 relations of the runs in terms of walks, entries and counts alone.
 */
module CowLaws {
  import opened Options
  import opened CowState
  import opened CowInvariant
  import opened CowFork

  // ----------------------------------------------------------------- fork

  /** Entry `e` of a table at depth `d` as it is shared: every bit kept, but a
      user leaf is not writable any more. */
  predicate SharedEntry(e: Entry, e2: Entry, d: nat) {
    && e2.present == e.present
    && (e.present ==>
          && e2.page == e.page && e2.user == e.user && e2.huge == e.huge && e2.nx == e.nx
          && e2.writable == (e.writable && !(d == 3 && e.user)))
  }

  /** Slot `i` of the user half of a table at path `v`. */
  predicate UserSlot(v: Path, i: nat) {
    Valid(v) && Depth(v) < LEAF && i < if v.Top? then USER_SLOTS else ENTRIES
  }

  /** Wherever the parent `r` had a table, it and its child `c` have one, with the
      same entries but for writable user leaves; elsewhere neither has. */
  ghost predicate Inherits(s: State, s2: State, r: nat, c: nat) {
    forall v, i :: UserSlot(v, i) ==> InheritsAt(s, s2, r, r, v, i) && InheritsAt(s, s2, r, c, v, i)
  }

  predicate InheritsAt(s: State, s2: State, r: nat, o: nat, v: Path, i: nat) {
    match Node(s.mem, r, v)
    case None => Node(s2.mem, o, v).None?
    case Some(p) =>
      && Node(s2.mem, o, v).Some?
      && SharedEntry(EntryAt(s.mem, p, i), EntryAt(s2.mem, Node(s2.mem, o, v).value, i), Depth(v))
  }

  /** The tables and user pages of the parent are counted once more, a private
      one as two; no other page's count changes. */
  ghost predicate CountsShare(s: State, s2: State, r: nat, c: nat)
    requires Shape(s) && Shape(s2) && |s.mem| == |s2.mem|
  {
    && (forall v :: Valid(v) && Depth(v) == LEAF && Node(s.mem, r, v).Some? ==>
          var p := Node(s.mem, r, v).value;
          && p < |s.mem|
          && s2.lcount[p] == if s.lcount[p] == 0 then 2 else if s.lcount[p] < 255 then s.lcount[p] + 1 else 255)
    && (forall v :: Valid(v) && 0 < Depth(v) < LEAF && Node(s.mem, r, v).Some? ==>
          var p := Node(s.mem, r, v).value;
          && p < |s.mem|
          && s2.tcount[p] == if s.tcount[p] == 0 then 2 else if s.tcount[p] < 65535 then s.tcount[p] + 1 else 65535)
    && (forall p :: 0 <= p < |s.mem| && p != c && (forall v :: Valid(v) && v.Sub? ==> Node(s.mem, r, v) != Some(p)) ==>
          s2.lcount[p] == s.lcount[p] && s2.tcount[p] == s.tcount[p])
  }

  lemma ForkInheritsAt(s: State, s2: State, place: map<nat, Path>, r: nat, c: nat, o: nat, v: Path, i: nat)
    requires Inv(s, place) && Forked(s, s2, r, c) && UserSlot(v, i) && (o == r || o == c)
    ensures InheritsAt(s, s2, r, o, v, i)
  {
    ForkedNode(s, s2, place, r, c, r, v);
    if Node(s.mem, r, v).Some? {
      var p := Node(s.mem, r, v).value;
      assert OwnedAt(s, v, p) && place[p] == v;
      assert Reaches(s.mem, r, p, 3) <==> Depth(v) == 3;
      if v.Top? && o == c {
        ForkRootSlot(s, s2, place, r, c, i);
      }
    }
  }

  lemma ForkRootSlot(s: State, s2: State, place: map<nat, Path>, r: nat, c: nat, i: nat)
    requires Inv(s, place) && Forked(s, s2, r, c) && i < USER_SLOTS
    ensures SharedEntry(EntryAt(s.mem, r, i), EntryAt(s2.mem, c, i), 0)
  {
    var v := Sub(Top, i);
    assert Valid(v) && Node(s.mem, r, Top) == Some(r);
    if EntryAt(s.mem, r, i).present {
      assert Node(s.mem, r, v).Some?;
      assert OwnedAt(s, v, Node(s.mem, r, v).value);
    } else if i < 2 {
      assert !s.kernel[i].present;
    }
  }

  /** A fork in terms of walks and entries: the child's kernel half is the
      kernel's, and its user half is the parent's, read-only at the leaves of
      both. */
  lemma ForkGives(s: State, s2: State, place: map<nat, Path>, r: nat, c: nat)
    requires Inv(s, place) && Forked(s, s2, r, c)
    ensures forall i :: USER_SLOTS <= i < ENTRIES ==> EntryAt(s2.mem, c, i) == s.kernel[i]
    ensures Inherits(s, s2, r, c) && CountsShare(s, s2, r, c)
  {
    forall v, i | UserSlot(v, i) ensures InheritsAt(s, s2, r, r, v, i) && InheritsAt(s, s2, r, c, v, i) {
      ForkInheritsAt(s, s2, place, r, c, r, v, i);
      ForkInheritsAt(s, s2, place, r, c, c, v, i);
    }
    ForkCounts(s, s2, place, r, c);
  }

  lemma ForkCounts(s: State, s2: State, place: map<nat, Path>, r: nat, c: nat)
    requires Inv(s, place) && Forked(s, s2, r, c)
    ensures CountsShare(s, s2, r, c)
  {
    forall v | Valid(v) && v.Sub? && Node(s.mem, r, v).Some?
      ensures var p := Node(s.mem, r, v).value; p < |s.mem| && p != c && Reaches(s.mem, r, p, Depth(v))
    {
      assert OwnedAt(s, v, Node(s.mem, r, v).value);
    }
    forall p, d: nat | 0 <= p < |s.mem| && 0 < d && Reaches(s.mem, r, p, d)
      ensures exists v :: Valid(v) && v.Sub? && Node(s.mem, r, v) == Some(p)
    {
      var v :| Valid(v) && Depth(v) == d && Node(s.mem, r, v) == Some(p);
      assert v.Sub?;
    }
  }

  // ------------------------------------------------------------- teardown

  /** Some user page of `r` lies below path `w`. */
  ghost predicate LeadsToUser(mem: seq<Frame>, r: nat, w: Path) {
    exists v :: Valid(v) && Depth(v) == LEAF && Node(mem, r, v).Some? && Below(v, w)
  }

  /** What the teardown of `r` does to the page it has at path `v`: a user page
      goes back to the allocator when it has no count, a table above user pages
      when it has at most one, the root always; a page that stays loses one count
      and nothing else.  A table above no user page stays as it is. */
  ghost predicate GivesBackAt(s: State, s2: State, r: nat, v: Path, p: nat)
    requires p < |s.lcount| == |s2.lcount| && p < |s.tcount| == |s2.tcount|
  {
    if v.Top? then p !in s2.used
    else if Depth(v) == LEAF then
      && (p in s2.used <==> s.lcount[p] > 0)
      && (s.lcount[p] > 0 ==> s2.lcount[p] == s.lcount[p] - 1)
    else if LeadsToUser(s.mem, r, v) then
      && (p in s2.used <==> s.tcount[p] > 1)
      && (s.tcount[p] > 1 ==> s2.tcount[p] == s.tcount[p] - 1)
    else p in s2.used && s2.tcount[p] == s.tcount[p]
  }

  ghost predicate GivesBack(s: State, s2: State, r: nat)
    requires Shape(s) && |s2.mem| == |s2.lcount| == |s2.tcount| == |s.mem|
  {
    && s2.roots == s.roots - {r}
    && (forall v :: Valid(v) && Node(s.mem, r, v).Some? ==>
          var p := Node(s.mem, r, v).value;
          p < |s.mem| && GivesBackAt(s, s2, r, v, p) && (p in s2.used ==> s2.mem[p] == s.mem[p]))
    && (forall p :: 0 <= p < |s.mem| && (forall v :: Valid(v) ==> Node(s.mem, r, v) != Some(p)) ==>
          && (p in s2.used <==> p in s.used) && s2.mem[p] == s.mem[p]
          && s2.lcount[p] == s.lcount[p] && s2.tcount[p] == s.tcount[p])
  }

  lemma TeardownAt(s: State, s2: State, place: map<nat, Path>, r: nat, v: Path)
    requires Inv(s, place) && TornDown(s, s2, r) && Valid(v) && Node(s.mem, r, v).Some?
    ensures var p := Node(s.mem, r, v).value;
      p < |s.mem| && GivesBackAt(s, s2, r, v, p) && (p in s2.used ==> s2.mem[p] == s.mem[p])
  {
    var p := Node(s.mem, r, v).value;
    assert OwnedAt(s, v, p) && place[p] == v && Node(s.mem, r, Top) == Some(r);
    if OnUserPath(s.mem, r, p) {
      OnUserPathPlaced(s, place, r, p);
    }
    assert OnUserPath(s.mem, r, p) <==> v.Sub? && LeadsToUser(s.mem, r, v) by {
      if OnUserPath(s.mem, r, p) {
        var u, w :| Valid(u) && Depth(u) == LEAF && Node(s.mem, r, u).Some? && Below(u, w) && w.Sub?
          && Node(s.mem, r, w) == Some(p);
        BelowDepth(u, w);
        assert w == v;
      }
    }
    assert Reaches(s.mem, r, p, 4) <==> Depth(v) == LEAF;
    if LeadsToUser(s.mem, r, v) {
      var u :| Valid(u) && Depth(u) == LEAF && Node(s.mem, r, u).Some? && Below(u, v);
      BelowDepth(u, v);
    }
  }

  /** A teardown page by page. */
  lemma TeardownGives(s: State, s2: State, place: map<nat, Path>, r: nat)
    requires Inv(s, place) && TornDown(s, s2, r)
    ensures GivesBack(s, s2, r)
  {
    forall v | Valid(v) && Node(s.mem, r, v).Some?
      ensures var p := Node(s.mem, r, v).value;
        p < |s.mem| && GivesBackAt(s, s2, r, v, p) && (p in s2.used ==> s2.mem[p] == s.mem[p])
    {
      TeardownAt(s, s2, place, r, v);
    }
    forall p | 0 <= p < |s.mem| && (forall v :: Valid(v) ==> Node(s.mem, r, v) != Some(p))
      ensures !Released(s, r, p) && !Reaches(s.mem, r, p, 4) && !OnUserPath(s.mem, r, p)
    {
      assert Node(s.mem, r, Top) == Some(r);
      if OnUserPath(s.mem, r, p) {
        OnUserPathPlaced(s, place, r, p);
        assert false;
      }
    }
  }
}
