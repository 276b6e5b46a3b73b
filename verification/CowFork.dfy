/** Fork and teardown as relations between states, and what they keep. */
module CowFork {
  import opened Options
  import opened CowState
  import opened CowInvariant

  /** Space `r` reaches page `p` at depth `d`. */
  ghost predicate Reaches(mem: seq<Frame>, r: nat, p: nat, d: nat) {
    exists v :: Valid(v) && Depth(v) == d && Node(mem, r, v) == Some(p)
  }

  ghost predicate ReachesTable(mem: seq<Frame>, r: nat, p: nat) {
    Reaches(mem, r, p, 1) || Reaches(mem, r, p, 2) || Reaches(mem, r, p, 3)
  }

  // ----------------------------------------------------------------- fork

  predicate LiveTable(s: State, p: nat) {
    p < |s.mem| && p in s.used && p in s.typed
  }

  /** The child's root slot `i`, given the parent's entry `e`. */
  function ForkSlot(s: State, e: Entry, i: nat): Entry
    requires i < |s.kernel|
  {
    if i >= USER_SLOTS then s.kernel[i]
    else if !e.present then (if i < 2 then s.kernel[i] else ABSENT)
    else if LiveTable(s, e.page) then e
    else ABSENT
  }

  function LeafReadOnly(e: Entry): Entry {
    if e.present && e.user then e.(writable := false) else e
  }

  function ReadOnly(f: Frame): Frame {
    if f.Table? then Table(seq(|f.es|, i requires 0 <= i < |f.es| => LeafReadOnly(f.es[i]))) else f
  }

  /** cow_fork_pml4 gave space `r` the child `c`: the child's root shares the
      parent's tables, every shared table and user page is counted once more,
      and every shared user leaf is read-only. */
  ghost predicate Forked(s: State, s2: State, r: nat, c: nat) {
    && Shape(s) && Shape(s2) && |s2.mem| == |s.mem|
    && r in s.roots && c < |s.mem| && c !in s.used
    && s2.used == s.used + {c} && s2.typed == s.typed + {c}
    && s2.roots == s.roots + {c} && s2.kernel == s.kernel
    && s2.mem[c].Table? && |s2.mem[c].es| == ENTRIES && s2.lcount[c] == s.lcount[c]
    && (forall i :: 0 <= i < ENTRIES ==> s2.mem[c].es[i] == ForkSlot(s, EntryAt(s.mem, r, i), i))
    && forall p :: 0 <= p < |s.mem| && p != c ==>
         && s2.mem[p] == (if Reaches(s.mem, r, p, 3) then ReadOnly(s.mem[p]) else s.mem[p])
         && s2.tcount[p] == (if ReachesTable(s.mem, r, p) then Shared(s.tcount[p], U16_MAX) else s.tcount[p])
         && s2.lcount[p] == (if Reaches(s.mem, r, p, 4) then Shared(s.lcount[p], U8_MAX) else s.lcount[p])
  }

  lemma ForkedChild(s: State, s2: State, place: map<nat, Path>, r: nat, c: nat, o: nat, v: Path, i: nat)
    requires Inv(s, place) && Forked(s, s2, r, c) && o in s.roots
    requires Valid(v) && Depth(v) < LEAF && Node(s.mem, o, v).Some?
    ensures Child(s2.mem, Node(s.mem, o, v).value, Depth(v), i) == Child(s.mem, Node(s.mem, o, v).value, Depth(v), i)
  {
    var p := Node(s.mem, o, v).value;
    assert OwnedAt(s, v, p);
    if Reaches(s.mem, r, p, 3) {
      assert place[p] == v;
    }
    SameChild(s.mem, s2.mem, p, Depth(v), i);
  }

  lemma SameChild(mem: seq<Frame>, mem2: seq<Frame>, p: nat, d: nat, i: nat)
    requires p < |mem| == |mem2|
    requires mem2[p] == mem[p] || (d == 3 && mem2[p] == ReadOnly(mem[p]))
    ensures Child(mem2, p, d, i) == Child(mem, p, d, i)
  {}

  /** Old spaces keep their walks and the child has its parent's. */
  lemma {:induction false} ForkedNode(s: State, s2: State, place: map<nat, Path>, r: nat, c: nat, o: nat, v: Path)
    requires Inv(s, place) && Forked(s, s2, r, c) && Valid(v) && o in s.roots
    ensures Node(s2.mem, o, v) == Node(s.mem, o, v)
    ensures v.Sub? ==> Node(s2.mem, c, v) == Node(s.mem, r, v)
    decreases v
  {
    if v.Sub? {
      ForkedNode(s, s2, place, r, c, o, v.up);
      if Node(s.mem, o, v.up).Some? {
        ForkedChild(s, s2, place, r, c, o, v.up, v.idx);
      }
      if v.up.Top? {
        assert OwnedAt(s, Top, Node(s.mem, r, Top).value);
        if Node(s.mem, r, v).Some? {
          assert OwnedAt(s, v, Node(s.mem, r, v).value);
        }
        assert KernelLow(s);
        assert EntryAt(s.mem, r, v.idx).present || v.idx >= 2 || !s.kernel[v.idx].present;
      } else if Node(s.mem, r, v.up).Some? {
        ForkedChild(s, s2, place, r, c, r, v.up, v.idx);
      }
    }
  }

  lemma ForkedNodes(s: State, s2: State, place: map<nat, Path>, r: nat, c: nat)
    requires Inv(s, place) && Forked(s, s2, r, c)
    ensures forall o, v :: o in s.roots && Valid(v) ==> Node(s2.mem, o, v) == Node(s.mem, o, v)
    ensures forall v :: Valid(v) && v.Sub? ==> Node(s2.mem, c, v) == Node(s.mem, r, v)
  {
    forall o, v | o in s.roots && Valid(v) ensures Node(s2.mem, o, v) == Node(s.mem, o, v) {
      ForkedNode(s, s2, place, r, c, o, v);
    }
    forall v | Valid(v) && v.Sub? ensures Node(s2.mem, c, v) == Node(s.mem, r, v) {
      ForkedNode(s, s2, place, r, c, r, v);
    }
  }

  lemma ForkedOwned(s: State, s2: State, place: map<nat, Path>, r: nat, c: nat)
    requires Inv(s, place) && Forked(s, s2, r, c)
    ensures Owned(s2) && Placed(s2, place[c := Top])
  {
    ForkedNodes(s, s2, place, r, c);
    forall o, v | o in s2.roots && Valid(v) && Node(s2.mem, o, v).Some?
      ensures OwnedAt(s2, v, Node(s2.mem, o, v).value)
      ensures Node(s2.mem, o, v).value in place[c := Top] && place[c := Top][Node(s2.mem, o, v).value] == v
    {
      if o == c && v.Top? {
      } else {
        var q := if o == c then r else o;
        var p := Node(s.mem, q, v).value;
        assert OwnedAt(s, v, p);
        assert place[p] == v;
        if Reaches(s.mem, r, p, 3) {
          assert Depth(v) == 3;
        }
      }
    }
  }

  /** The child joins exactly the sharers its parent belongs to. */
  lemma ForkedSharers(s: State, s2: State, place: map<nat, Path>, r: nat, c: nat, v: Path, p: nat)
    requires Inv(s, place) && Forked(s, s2, r, c) && Valid(v) && v.Sub?
    ensures Sharers(s2, v, p) == Sharers(s, v, p) + (if Node(s.mem, r, v) == Some(p) then {c} else {})
  {
    forall o | o in s.roots
      ensures Node(s2.mem, o, v) == Node(s.mem, o, v) && Node(s2.mem, c, v) == Node(s.mem, r, v)
    {
      ForkedNode(s, s2, place, r, c, o, v);
    }
  }

  lemma ForkedCountAt(s: State, s2: State, r: nat, c: nat, v: Path, p: nat)
    requires Forked(s, s2, r, c) && Valid(v) && v.Sub? && OwnedAt(s, v, p)
    ensures CountAt(s2, v, p) >= CountAt(s, v, p)
    ensures Node(s.mem, r, v) == Some(p) ==>
      CountAt(s2, v, p) == Shared(CountAt(s, v, p), if Depth(v) == LEAF then U8_MAX else U16_MAX)
  {
    assert Node(s.mem, r, v) == Some(p) ==> Reaches(s.mem, r, p, Depth(v));
  }

  /** One more sharer, one more count. */
  lemma CountSurvivesFork(s: State, s2: State, v: Path, p: nat, shared: bool, c: nat)
    requires CountOk(s, v, p) && |Sharers(s, v, p)| >= 1 && |Sharers(s2, v, p)| <= MAX_TASKS
    requires Sharers(s2, v, p) == Sharers(s, v, p) + (if shared then {c} else {})
    requires CountAt(s2, v, p) >= CountAt(s, v, p)
    requires shared ==> CountAt(s2, v, p) == Shared(CountAt(s, v, p), if Depth(v) == LEAF then U8_MAX else U16_MAX)
    ensures CountOk(s2, v, p)
  {
    assert |Sharers(s2, v, p)| <= |Sharers(s, v, p)| + 1;
  }

  lemma ForkedCountOk(s: State, s2: State, place: map<nat, Path>, r: nat, c: nat, q: nat, v: Path)
    requires Inv(s, place) && Forked(s, s2, r, c) && Valid(v) && v.Sub?
    requires q in s.roots && Node(s.mem, q, v).Some?
    ensures CountOk(s2, v, Node(s.mem, q, v).value)
  {
    var p := Node(s.mem, q, v).value;
    assert OwnedAt(s, v, p) && CountOk(s, v, p);
    ForkedCountAt(s, s2, r, c, v, p);
    ForkedSharers(s, s2, place, r, c, v, p);
    SubsetSize(Sharers(s2, v, p), s2.roots);
    assert q in Sharers(s, v, p);
    CountSurvivesFork(s, s2, v, p, Node(s.mem, r, v) == Some(p), c);
  }

  lemma ForkedCounted(s: State, s2: State, place: map<nat, Path>, r: nat, c: nat)
    requires Inv(s, place) && Forked(s, s2, r, c)
    ensures Counted(s2)
  {
    forall o, v | o in s2.roots && Valid(v) && v.Sub? && Node(s2.mem, o, v).Some?
      ensures CountOk(s2, v, Node(s2.mem, o, v).value)
    {
      var q := if o == c then r else o;
      ForkedNode(s, s2, place, r, c, q, v);
      ForkedCountOk(s, s2, place, r, c, q, v);
    }
  }

  /** A leaf writable after the fork was not the parent's to share. */
  lemma ForkedWritable(s: State, s2: State, place: map<nat, Path>, r: nat, c: nat, o: nat, v: Path)
    requires Inv(s, place) && Forked(s, s2, r, c) && o in s2.roots && Valid(v) && Depth(v) == LEAF
    requires WritableAt(s2, o, v)
    ensures o in s.roots && WritableAt(s, o, v) && Node(s.mem, r, v.up) != Node(s.mem, o, v.up)
  {
    var q := if o == c then r else o;
    ForkedNode(s, s2, place, r, c, q, v);
    ForkedNode(s, s2, place, r, c, q, v.up);
    var pt := Node(s.mem, q, v.up).value;
    assert OwnedAt(s, v.up, pt);
    assert Node(s.mem, r, v.up) == Some(pt) ==> Reaches(s.mem, r, pt, 3);
    assert !Reaches(s.mem, r, pt, 3);
  }

  lemma ForkedExclusive(s: State, s2: State, place: map<nat, Path>, r: nat, c: nat)
    requires Inv(s, place) && Forked(s, s2, r, c)
    ensures Exclusive(s2)
  {
    ForkedNodes(s, s2, place, r, c);
    forall o, v | o in s2.roots && Valid(v) && Depth(v) == LEAF && WritableAt(s2, o, v)
      ensures Private(s2, o, v)
    {
      ForkedWritable(s, s2, place, r, c, o, v);
      assert Private(s, o, v);
    }
  }

  lemma ForkedLow(s: State, s2: State, place: map<nat, Path>, r: nat, c: nat)
    requires Inv(s, place) && Forked(s, s2, r, c)
    ensures KernelLow(s2)
  {
    forall o, i | o in s2.roots && 0 <= i < 2 && s2.kernel[i].present
      ensures EntryAt(s2.mem, o, i).present
    {
      var q := if o == c then r else o;
      assert EntryAt(s.mem, q, i).present;
      assert OwnedAt(s, Top, Node(s.mem, q, Top).value);
      assert place[q] == Top;
      if Reaches(s.mem, r, q, 3) { assert false; }
      if o == c {
        var v := Sub(Top, i);
        assert Valid(v) && Node(s.mem, r, v).Some?;
        assert OwnedAt(s, v, Node(s.mem, r, v).value);
      }
    }
  }

  /** Fork keeps the sharing invariant; the child reads what its parent reads
      and no other space notices. */
  lemma ForkKeeps(s: State, s2: State, place: map<nat, Path>, r: nat, c: nat)
    requires Inv(s, place) && Forked(s, s2, r, c)
    ensures Inv(s2, place[c := Top])
    ensures forall o, v :: o in s.roots && Valid(v) && Depth(v) == LEAF ==> Read(s2, o, v) == Read(s, o, v)
    ensures forall v :: Valid(v) && Depth(v) == LEAF ==> Read(s2, c, v) == Read(s, r, v)
  {
    ForkedOwned(s, s2, place, r, c);
    ForkedCounted(s, s2, place, r, c);
    ForkedExclusive(s, s2, place, r, c);
    ForkedLow(s, s2, place, r, c);
    ForkedNodes(s, s2, place, r, c);
    forall o, v | o in s.roots && Valid(v) && Depth(v) == LEAF
      ensures Read(s2, o, v) == Read(s, o, v)
    {
      if Node(s.mem, o, v).Some? {
        var p := Node(s.mem, o, v).value;
        assert OwnedAt(s, v, p);
        assert ReadOnly(s.mem[p]) == s.mem[p];
      }
    }
    forall v | Valid(v) && Depth(v) == LEAF
      ensures Read(s2, c, v) == Read(s, r, v)
    {
      if Node(s.mem, r, v).Some? {
        var p := Node(s.mem, r, v).value;
        assert OwnedAt(s, v, p);
        assert ReadOnly(s.mem[p]) == s.mem[p];
      }
    }
  }

  // ------------------------------------------------------------- teardown

  /** Page `p` lies on the way from root `r` to some user page of `r`. */
  ghost predicate OnUserPath(mem: seq<Frame>, r: nat, p: nat) {
    exists v, w :: Valid(v) && Depth(v) == LEAF && Node(mem, r, v).Some? && Below(v, w) && w.Sub?
      && Node(mem, r, w) == Some(p)
  }

  /** `w` is a proper prefix of `v`. */
  predicate Below(v: Path, w: Path) {
    v.Sub? && (v.up == w || Below(v.up, w))
  }

  /** Pages the teardown of `r` gives back to the allocator. */
  ghost predicate Released(s: State, r: nat, p: nat) {
    || p == r
    || (Reaches(s.mem, r, p, 4) && Get(s.lcount, p) == 0)
    || (OnUserPath(s.mem, r, p) && Get(s.tcount, p) <= 1)
  }

  /** free_address_space(r): one count of every user page and of every table
      above a user page is given up, and what nobody else counts is freed. */
  ghost predicate TornDown(s: State, s2: State, r: nat) {
    && Shape(s) && r in s.roots
    && |s2.mem| == |s.mem| && |s2.tcount| == |s.mem| && |s2.lcount| == |s.mem|
    && s2.roots == s.roots - {r} && s2.kernel == s.kernel
    && (forall p :: p in s2.used <==> p in s.used && !Released(s, r, p))
    && (forall p :: p in s2.typed ==> p in s.typed)
    && forall p :: 0 <= p < |s.mem| ==>
         && s2.mem[p] == (if Released(s, r, p) then Junk else s.mem[p])
         && s2.lcount[p] == (if Reaches(s.mem, r, p, 4) then Dec(s.lcount[p]) else s.lcount[p])
         && (if Released(s, r, p) then s2.tcount[p] <= U16_MAX
             else
               && (p in s.typed ==> p in s2.typed)
               && s2.tcount[p] == (if OnUserPath(s.mem, r, p) then Dec(s.tcount[p]) else s.tcount[p]))
  }

  lemma BelowDepth(v: Path, w: Path)
    requires Below(v, w)
    ensures Depth(w) < Depth(v)
    ensures Valid(v) ==> Valid(w)
  {}

  /** Teardown never frees a page that another live space still reaches. */
  lemma ReleasedIsOurs(s: State, place: map<nat, Path>, r: nat, o: nat, v: Path)
    requires Inv(s, place) && r in s.roots && o in s.roots && o != r && Valid(v)
    requires Node(s.mem, o, v).Some?
    ensures !Released(s, r, Node(s.mem, o, v).value)
  {
    var p := Node(s.mem, o, v).value;
    assert place[p] == v;
    assert Node(s.mem, r, Top) == Some(r);
    if Released(s, r, p) {
      if p == r {
        assert false;
      } else if Reaches(s.mem, r, p, 4) && Get(s.lcount, p) == 0 {
        var w :| Valid(w) && Depth(w) == 4 && Node(s.mem, r, w) == Some(p);
        assert place[p] == w;
        UncountedIsPrivate(s, place, r, w);
        assert false;
      } else {
        var u, w :| Valid(u) && Depth(u) == LEAF && Node(s.mem, r, u).Some? && Below(u, w) && w.Sub?
          && Node(s.mem, r, w) == Some(p);
        BelowDepth(u, w);
        assert place[p] == w;
        UncountedIsPrivate(s, place, r, w);
        assert false;
      }
    }
  }

  lemma {:induction false} TornDownNode(s: State, s2: State, place: map<nat, Path>, r: nat, o: nat, v: Path)
    requires Inv(s, place) && TornDown(s, s2, r) && o in s2.roots && Valid(v)
    ensures Node(s2.mem, o, v) == Node(s.mem, o, v)
    decreases v
  {
    if v.Sub? {
      TornDownNode(s, s2, place, r, o, v.up);
      if Node(s.mem, o, v.up).Some? {
        ReleasedIsOurs(s, place, r, o, v.up);
        assert OwnedAt(s, v.up, Node(s.mem, o, v.up).value);
      }
    }
  }

  lemma TornDownCountAt(s: State, s2: State, place: map<nat, Path>, r: nat, o: nat, v: Path)
    requires Inv(s, place) && TornDown(s, s2, r) && o in s2.roots && Valid(v) && v.Sub? && Node(s.mem, o, v).Some?
    ensures var p := Node(s.mem, o, v).value;
      && CountAt(s2, v, p) >= Dec(CountAt(s, v, p))
      && (Node(s.mem, r, v) != Some(p) ==> CountAt(s2, v, p) == CountAt(s, v, p))
  {
    var p := Node(s.mem, o, v).value;
    assert OwnedAt(s, v, p);
    assert place[p] == v;
    ReleasedIsOurs(s, place, r, o, v);
    if OnUserPath(s.mem, r, p) { OnUserPathPlaced(s, place, r, p); }
  }

  lemma TornDownCounted(s: State, s2: State, place: map<nat, Path>, r: nat)
    requires Inv(s, place) && TornDown(s, s2, r)
    requires forall o, v :: o in s2.roots && Valid(v) ==> Node(s2.mem, o, v) == Node(s.mem, o, v)
    ensures Counted(s2)
  {
    forall o, v | o in s2.roots && Valid(v) && v.Sub? && Node(s2.mem, o, v).Some?
      ensures CountOk(s2, v, Node(s2.mem, o, v).value)
    {
      var p := Node(s.mem, o, v).value;
      assert CountOk(s, v, p);
      TornDownCountAt(s, s2, place, r, o, v);
      assert Sharers(s2, v, p) == Sharers(s, v, p) - {r};
    }
  }

  lemma OnUserPathPlaced(s: State, place: map<nat, Path>, r: nat, p: nat)
    requires Inv(s, place) && r in s.roots && OnUserPath(s.mem, r, p)
    ensures p in place && Valid(place[p]) && place[p].Sub? && Depth(place[p]) < LEAF
    ensures Node(s.mem, r, place[p]) == Some(p)
  {
    var u, w :| Valid(u) && Depth(u) == LEAF && Node(s.mem, r, u).Some? && Below(u, w) && w.Sub?
      && Node(s.mem, r, w) == Some(p);
    BelowDepth(u, w);
  }

  /** Teardown keeps the invariant for the spaces that stay, and none of them
      reads anything different. */
  lemma TeardownKeeps(s: State, s2: State, place: map<nat, Path>, r: nat)
    requires Inv(s, place) && TornDown(s, s2, r)
    ensures Inv(s2, place)
    ensures forall o, v :: o in s2.roots && Valid(v) && Depth(v) == LEAF ==> Read(s2, o, v) == Read(s, o, v)
  {
    forall o, v | o in s2.roots && Valid(v)
      ensures Node(s2.mem, o, v) == Node(s.mem, o, v)
      ensures Node(s.mem, o, v).Some? ==>
        var p := Node(s.mem, o, v).value;
        OwnedAt(s, v, p) && !Released(s, r, p) && OwnedAt(s2, v, p)
    {
      TornDownNode(s, s2, place, r, o, v);
      if Node(s.mem, o, v).Some? {
        ReleasedIsOurs(s, place, r, o, v);
        assert OwnedAt(s, v, Node(s.mem, o, v).value);
      }
    }
    TornDownCounted(s, s2, place, r);
    SubsetSize(s2.roots, s.roots);
    forall o | o in s2.roots ensures o in s2.used {
      assert Node(s.mem, o, Top) == Some(o);
    }
    forall o, v | o in s2.roots && Valid(v) && Depth(v) == LEAF && WritableAt(s2, o, v)
      ensures Private(s2, o, v)
    {
      assert WritableAt(s, o, v);
      assert Private(s, o, v);
    }
    forall o, i | o in s2.roots && 0 <= i < 2 && s2.kernel[i].present
      ensures EntryAt(s2.mem, o, i).present
    {
      assert EntryAt(s.mem, o, i).present;
      assert Node(s.mem, o, Top) == Some(o);
    }
  }
}
