/** Bookkeeping for the fork and teardown loops: which pages lie below a table,
    and what processing a set of them does to the state. */
module CowShare {
  import opened Options
  import opened CowState
  import opened CowInvariant
  import opened CowFork

  /** `place` lists exactly the pages that space `r` reaches in `m0`, with the
      path of each. */
  ghost predicate Exact(m0: seq<Frame>, r: nat, place: map<nat, Path>) {
    && (forall q :: q in place ==> Valid(place[q]) && Node(m0, r, place[q]) == Some(q))
    && (forall v :: Valid(v) && Node(m0, r, v).Some? ==>
          Node(m0, r, v).value in place && place[Node(m0, r, v).value] == v)
  }

  /** `w` lies below the first `n` entries of the table at `v`. */
  predicate Beneath(w: Path, v: Path, n: nat) {
    w.Sub? && ((w.up == v && w.idx < n) || Beneath(w.up, v, n))
  }

  function BelowSet(place: map<nat, Path>, v: Path, n: nat): set<nat> {
    set q | q in place && Beneath(place[q], v, n)
  }

  lemma BeneathDepth(w: Path, v: Path, n: nat)
    requires Beneath(w, v, n)
    ensures Depth(w) > Depth(v)
  {}

  lemma BeneathSplit(w: Path, v: Path, n: nat)
    requires Valid(w) && Valid(v)
    ensures Beneath(w, v, n + 1) <==> Beneath(w, v, n) || w == Sub(v, n) || Beneath(w, Sub(v, n), ENTRIES)
    ensures Beneath(w, v, n) ==> w != Sub(v, n) && !Beneath(w, Sub(v, n), ENTRIES)
  {
    if w.Sub? {
      BeneathSplit(w.up, v, n);
      if Beneath(w.up, v, n) { BeneathDepth(w.up, v, n); }
      if Beneath(w, v, n) { BeneathDepth(w, v, n); }
      if Beneath(w.up, Sub(v, n), ENTRIES) { BeneathDepth(w.up, Sub(v, n), ENTRIES); }
    }
  }

  lemma BeneathReached(m0: seq<Frame>, r: nat, w: Path, v: Path, n: nat)
    requires Beneath(w, v, n) && Node(m0, r, w).Some?
    ensures Node(m0, r, v).Some?
  {}

  /** Below the next entry: the child's subtree, or nothing when the walk does
      not follow the entry. */
  lemma BelowNext(m0: seq<Frame>, r: nat, place: map<nat, Path>, v: Path, n: nat)
    requires Exact(m0, r, place) && Valid(v) && Valid(Sub(v, n))
    ensures BelowSet(place, v, n + 1) == BelowSet(place, v, n)
      + (match Node(m0, r, Sub(v, n)) case None => {} case Some(x) => {x} + BelowSet(place, Sub(v, n), ENTRIES))
    ensures Node(m0, r, Sub(v, n)).Some? ==>
      var x := Node(m0, r, Sub(v, n)).value;
      && x !in BelowSet(place, v, n) && x !in BelowSet(place, Sub(v, n), ENTRIES)
      && BelowSet(place, v, n) !! BelowSet(place, Sub(v, n), ENTRIES)
  {
    var w := Sub(v, n);
    forall q | q in place
      ensures Beneath(place[q], v, n + 1) <==> Beneath(place[q], v, n) || place[q] == w || Beneath(place[q], w, ENTRIES)
      ensures Beneath(place[q], v, n) ==> place[q] != w && !Beneath(place[q], w, ENTRIES)
      ensures Node(m0, r, w).None? ==> place[q] != w && !Beneath(place[q], w, ENTRIES)
      ensures !Beneath(w, w, ENTRIES)
    {
      BeneathSplit(place[q], v, n);
      if Beneath(place[q], w, ENTRIES) {
        BeneathReached(m0, r, place[q], w, ENTRIES);
      }
      if Beneath(w, w, ENTRIES) { BeneathDepth(w, w, ENTRIES); }
    }
  }

  lemma BelowNone(place: map<nat, Path>, v: Path)
    ensures BelowSet(place, v, 0) == {}
  {
    forall q | q in place ensures !Beneath(place[q], v, 0) { BeneathZero(place[q], v); }
  }

  lemma BeneathZero(w: Path, v: Path)
    ensures !Beneath(w, v, 0)
  {}

  // ------------------------------------------------------------- sharing

  ghost predicate AtDepth(place: map<nat, Path>, h: set<nat>, q: nat, d: nat) {
    q in h && q in place && Depth(place[q]) == d
  }

  ghost predicate TableIn(place: map<nat, Path>, h: set<nat>, q: nat) {
    q in h && q in place && Depth(place[q]) < LEAF
  }

  /** `a` with the pages of `h` shared once more. */
  ghost function ShareAll(place: map<nat, Path>, a: State, h: set<nat>): State {
    a.(mem := seq(|a.mem|, q requires 0 <= q < |a.mem| =>
         if AtDepth(place, h, q, 3) then ReadOnly(a.mem[q]) else a.mem[q]),
       tcount := seq(|a.tcount|, q requires 0 <= q < |a.tcount| =>
         if TableIn(place, h, q) then Shared(a.tcount[q], U16_MAX) else a.tcount[q]),
       lcount := seq(|a.lcount|, q requires 0 <= q < |a.lcount| =>
         if AtDepth(place, h, q, LEAF) then Shared(a.lcount[q], U8_MAX) else a.lcount[q]))
  }

  lemma ShareNone(place: map<nat, Path>, a: State)
    ensures ShareAll(place, a, {}) == a
  {}

  lemma ShareTwice(place: map<nat, Path>, a: State, h1: set<nat>, h2: set<nat>)
    requires h1 !! h2
    ensures ShareAll(place, ShareAll(place, a, h1), h2) == ShareAll(place, a, h1 + h2)
  {}

  // ------------------------------------------------------------ releasing

  /** A user page, or a table on the way to one. */
  ghost predicate UserPage(place: map<nat, Path>, q: nat) {
    q in place && (Depth(place[q]) == LEAF
      || exists x :: x in place && Depth(place[x]) == LEAF && Below(place[x], place[q]))
  }

  /** Giving up a count of `q` leaves none, so the page is freed. */
  predicate Frees(place: map<nat, Path>, a: State, q: nat) {
    q in place && (if Depth(place[q]) == LEAF then Get(a.lcount, q) == 0 else Get(a.tcount, q) <= 1)
  }

  ghost predicate Freed(place: map<nat, Path>, a: State, h: set<nat>, q: nat) {
    q in h && UserPage(place, q) && Frees(place, a, q)
  }

  ghost function FreedSet(place: map<nat, Path>, a: State, h: set<nat>): set<nat> {
    set q | q in h && Freed(place, a, h, q)
  }

  ghost function TableCountAfter(place: map<nat, Path>, a: State, h: set<nat>, q: nat): nat {
    if !(q in h && UserPage(place, q)) then Get(a.tcount, q)
    else if Depth(place[q]) < LEAF then Dec(Get(a.tcount, q))
    else if Frees(place, a, q) && q in a.typed then Dec(Get(a.tcount, q))
    else Get(a.tcount, q)
  }

  /** `a` with one count of every user page in `h` given up. */
  ghost function ReleaseAll(place: map<nat, Path>, a: State, h: set<nat>): State {
    a.(mem := seq(|a.mem|, q requires 0 <= q < |a.mem| => if Freed(place, a, h, q) then Junk else a.mem[q]),
       tcount := seq(|a.tcount|, q requires 0 <= q < |a.tcount| => TableCountAfter(place, a, h, q)),
       lcount := seq(|a.lcount|, q requires 0 <= q < |a.lcount| =>
         if AtDepth(place, h, q, LEAF) then Dec(a.lcount[q]) else a.lcount[q]),
       used := a.used - FreedSet(place, a, h),
       typed := a.typed - FreedSet(place, a, h))
  }

  lemma ReleaseNone(place: map<nat, Path>, a: State)
    ensures ReleaseAll(place, a, {}) == a
  {}

  lemma ReleaseTwice(place: map<nat, Path>, a: State, h1: set<nat>, h2: set<nat>)
    requires h1 !! h2
    ensures ReleaseAll(place, ReleaseAll(place, a, h1), h2) == ReleaseAll(place, a, h1 + h2)
  {
    var b := ReleaseAll(place, a, h1);
    forall q | q in h2 ensures Frees(place, b, q) == Frees(place, a, q) && (q in b.typed <==> q in a.typed) {
      assert q !in h1;
    }
    forall q | q in h1 ensures !Freed(place, b, h2, q) { assert q !in h2; }
    var d := ReleaseAll(place, b, h2);
    var e := ReleaseAll(place, a, h1 + h2);
    assert FreedSet(place, a, h1 + h2) == FreedSet(place, a, h1) + FreedSet(place, b, h2);
    assert d.mem == e.mem;
    assert d.lcount == e.lcount;
    assert d.tcount == e.tcount;
    assert d.used == e.used && d.typed == e.typed;
  }

  /** Some user page is among `h`. */
  ghost predicate Leafy(place: map<nat, Path>, h: set<nat>) {
    exists q :: q in h && q in place && Depth(place[q]) == LEAF
  }

  lemma BeneathIsBelow(w: Path, v: Path)
    requires Valid(w)
    ensures Beneath(w, v, if v.Top? then USER_SLOTS else ENTRIES) <==> Below(w, v)
  {}

  /** A table leads to a user page when one lies below it. */
  lemma UserTable(place: map<nat, Path>, x: nat)
    requires x in place && Depth(place[x]) < LEAF && place[x].Sub?
    requires forall q :: q in place ==> Valid(place[q])
    ensures UserPage(place, x) <==> Leafy(place, BelowSet(place, place[x], ENTRIES))
  {
    forall q | q in place ensures Beneath(place[q], place[x], ENTRIES) <==> Below(place[q], place[x]) {
      BeneathIsBelow(place[q], place[x]);
    }
  }
}
