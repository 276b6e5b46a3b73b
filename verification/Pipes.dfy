/**
 Pipe slots and the descriptors that name their ends, over all tasks' tables.
 Each end has a reference count; a slot is free for a new pipe when it is not
 marked used.
 */
module Pipes {
  import opened Options

  const TASKS: nat := 64
  const FDS: nat := 64
  const ALL: nat := 4096       // descriptors of all tables
  const INODES: nat := 256
  const PIPE_MAX: nat := 8
  const ENDS: nat := 16        // end 2p reads pipe p, end 2p + 1 writes it
  const PIPE_BASE: nat := 240  // end e has inode PIPE_BASE + e
  const U32_MAX: nat := 0xFFFF_FFFF

  datatype Desc = Desc(ino: nat, used: bool)

  predicate Names(d: Desc, e: nat) {
    d.used && d.ino == PIPE_BASE + e
  }

  /** Used descriptors that name end `e`. */
  function Count(ds: seq<Desc>, e: nat): (n: nat)
    ensures n <= |ds|
  {
    if ds == [] then 0 else Count(ds[..|ds| - 1], e) + if Names(ds[|ds| - 1], e) then 1 else 0
  }

  lemma {:induction false} CountConcat(a: seq<Desc>, b: seq<Desc>, e: nat)
    ensures Count(a + b, e) == Count(a, e) + Count(b, e)
  {
    if b == [] {
      assert a + b == a;
    } else {
      var n := |b| - 1;
      CountConcat(a, b[..n], e);
      assert (a + b)[..|a + b| - 1] == a + b[..n];
    }
  }

  lemma CountOne(d: Desc, e: nat)
    ensures Count([d], e) == if Names(d, e) then 1 else 0
  {}

  /** Changing one descriptor. */
  lemma CountUpdate(ds: seq<Desc>, i: nat, d: Desc, e: nat)
    requires i < |ds|
    ensures Count(ds[i := d], e) + (if Names(ds[i], e) then 1 else 0) == Count(ds, e) + if Names(d, e) then 1 else 0
  {
    var a, b := ds[..i], ds[i + 1..];
    assert ds == a + ([ds[i]] + b) && ds[i := d] == a + ([d] + b);
    CountConcat(a, [ds[i]] + b, e);
    CountConcat(a, [d] + b, e);
    CountConcat([ds[i]], b, e);
    CountConcat([d], b, e);
    CountOne(ds[i], e);
    CountOne(d, e);
  }

  lemma CountNamed(ds: seq<Desc>, i: nat, e: nat)
    requires i < |ds| && Names(ds[i], e)
    ensures Count(ds, e) > 0
  {}

  // ------------------------------------------------------------ the counts

  /** Each end is counted at least as often as it is named, and a slot with a
      named end is in use. */
  ghost predicate Counted(ds: seq<Desc>, refs: seq<nat>, used: seq<bool>) {
    && |refs| == ENDS && |used| == PIPE_MAX
    && forall e: nat :: e < ENDS ==> EndOk(ds, refs, used, e)
  }

  ghost predicate EndOk(ds: seq<Desc>, refs: seq<nat>, used: seq<bool>, e: nat)
    requires |refs| == ENDS && |used| == PIPE_MAX && e < ENDS
  {
    Count(ds, e) <= refs[e] <= U32_MAX && (Count(ds, e) > 0 ==> used[e / 2])
  }

  /** pipe_idx_of, and which end. */
  function EndOf(ino: nat): Option<nat> {
    if PIPE_BASE <= ino < INODES then Some(ino - PIPE_BASE) else None
  }

  /** pipe_inc_refs. */
  function Inc(refs: seq<nat>, ino: nat): seq<nat>
    requires |refs| == ENDS
  {
    match EndOf(ino)
    case None => refs
    case Some(e) => refs[e := if refs[e] < U32_MAX then refs[e] + 1 else U32_MAX]
  }

  /** pipe_close: the counts, and the slots still in use. */
  function Dec(refs: seq<nat>, ino: nat): seq<nat>
    requires |refs| == ENDS
  {
    match EndOf(ino)
    case None => refs
    case Some(e) => if refs[e] > 0 then refs[e := refs[e] - 1] else refs
  }

  function DecUsed(refs: seq<nat>, used: seq<bool>, ino: nat): seq<bool>
    requires |refs| == ENDS && |used| == PIPE_MAX
  {
    match EndOf(ino)
    case None => used
    case Some(e) =>
      var p, r := e / 2, Dec(refs, ino);
      if r[2 * p] == 0 && r[2 * p + 1] == 0 then used[p := false] else used
  }

  /** What closing a descriptor of inode `ino` does: its pipe end, if it is one, is
      counted once less, and the slot is given back exactly when that leaves both
      ends uncounted. */
  ghost predicate Closed(refs: seq<nat>, refs2: seq<nat>, used: seq<bool>, used2: seq<bool>, ino: nat)
    requires |refs| == ENDS == |refs2| && |used| == PIPE_MAX == |used2|
  {
    && (forall e: nat :: e < ENDS ==>
          refs2[e] == if ino == PIPE_BASE + e && refs[e] > 0 then refs[e] - 1 else refs[e])
    && forall p: nat :: p < PIPE_MAX ==>
         used2[p] == (used[p] && !((ino == PIPE_BASE + 2 * p || ino == PIPE_BASE + 2 * p + 1)
                                   && refs2[2 * p] == 0 && refs2[2 * p + 1] == 0))
  }

  /** A descriptor copied over another, with one more reference: the counts of
      a saturated end still cover the at most 4096 descriptors there are. */
  lemma DupCounted(ds: seq<Desc>, refs: seq<nat>, used: seq<bool>, from: nat, to: nat)
    requires Counted(ds, refs, used) && |ds| <= ALL && from < |ds| && to < |ds| && ds[from].used && from != to
    ensures Counted(ds[to := ds[from]], Inc(refs, ds[from].ino), used)
  {
    var n, r := ds[to := ds[from]], Inc(refs, ds[from].ino);
    forall e: nat | e < ENDS ensures EndOk(n, r, used, e) {
      assert EndOk(ds, refs, used, e);
      CountUpdate(ds, to, ds[from], e);
      if Names(ds[from], e) { CountNamed(ds, from, e); }
    }
  }

  /** A descriptor closed, with one reference dropped. */
  lemma CloseCounted(ds: seq<Desc>, refs: seq<nat>, used: seq<bool>, i: nat)
    requires Counted(ds, refs, used) && i < |ds| && ds[i].used
    ensures Counted(ds[i := ds[i].(used := false)], Dec(refs, ds[i].ino), DecUsed(refs, used, ds[i].ino))
  {
    var n, r, u := ds[i := ds[i].(used := false)], Dec(refs, ds[i].ino), DecUsed(refs, used, ds[i].ino);
    forall e: nat | e < ENDS ensures EndOk(n, r, u, e) {
      assert EndOk(ds, refs, used, e);
      CountUpdate(ds, i, ds[i].(used := false), e);
    }
  }

  /** A descriptor for an ordinary file. */
  lemma FileCounted(ds: seq<Desc>, refs: seq<nat>, used: seq<bool>, i: nat, ino: nat)
    requires Counted(ds, refs, used) && i < |ds| && !ds[i].used && ino < PIPE_BASE
    ensures Counted(ds[i := Desc(ino, true)], refs, used)
  {
    var n := ds[i := Desc(ino, true)];
    forall e: nat | e < ENDS ensures EndOk(n, refs, used, e) {
      assert EndOk(ds, refs, used, e);
      CountUpdate(ds, i, Desc(ino, true), e);
    }
  }

  // ----------------------------------------------------------- a new pipe

  /** A slot not in use is named by nobody, so it can be claimed. */
  lemma ClaimCounted(ds: seq<Desc>, refs: seq<nat>, used: seq<bool>, p: nat)
    requires Counted(ds, refs, used) && p < PIPE_MAX && !used[p]
    ensures Count(ds, 2 * p) == 0 && Count(ds, 2 * p + 1) == 0
    ensures Counted(ds, refs[2 * p := 1][2 * p + 1 := 1], used[p := true])
  {
    assert EndOk(ds, refs, used, 2 * p) && EndOk(ds, refs, used, 2 * p + 1);
    var r, u := refs[2 * p := 1][2 * p + 1 := 1], used[p := true];
    forall e: nat | e < ENDS ensures EndOk(ds, r, u, e) {
      assert EndOk(ds, refs, used, e);
    }
  }

  /** A claimed end gets its first descriptor. */
  lemma FirstCounted(ds: seq<Desc>, refs: seq<nat>, used: seq<bool>, i: nat, e: nat)
    requires Counted(ds, refs, used) && i < |ds| && !ds[i].used && e < ENDS && Count(ds, e) < refs[e] && used[e / 2]
    ensures Counted(ds[i := Desc(PIPE_BASE + e, true)], refs, used)
    ensures forall o: nat :: o < ENDS ==>
      Count(ds[i := Desc(PIPE_BASE + e, true)], o) == Count(ds, o) + if o == e then 1 else 0
  {
    var n := ds[i := Desc(PIPE_BASE + e, true)];
    forall o: nat | o < ENDS ensures EndOk(n, refs, used, o) && Count(n, o) == Count(ds, o) + if o == e then 1 else 0 {
      assert EndOk(ds, refs, used, o);
      CountUpdate(ds, i, Desc(PIPE_BASE + e, true), o);
    }
  }

  /** A slot nobody names can be given back. */
  lemma UnclaimCounted(ds: seq<Desc>, refs: seq<nat>, used: seq<bool>, p: nat)
    requires Counted(ds, refs, used) && p < PIPE_MAX && Count(ds, 2 * p) == 0 && Count(ds, 2 * p + 1) == 0
    ensures Counted(ds, refs, used[p := false])
  {
    var u := used[p := false];
    forall e: nat | e < ENDS ensures EndOk(ds, refs, u, e) {
      assert EndOk(ds, refs, used, e);
      assert e / 2 == p ==> e == 2 * p || e == 2 * p + 1;
    }
  }

  /** Task `t` has two descriptors to spare. */
  ghost predicate TwoFree(ds: seq<Desc>, t: nat)
    requires |ds| == ALL && t < TASKS
  {
    exists i, j :: t * FDS <= i < j < t * FDS + FDS && !ds[i].used && !ds[j].used
  }

  lemma OneFree(ds: seq<Desc>, n: seq<Desc>, t: nat, i: nat)
    requires |ds| == ALL == |n| && t < TASKS && i < ALL && n == ds[i := n[i]]
    requires forall j :: t * FDS <= j < t * FDS + FDS ==> n[j].used
    ensures !TwoFree(ds, t)
  {
    forall j | t * FDS <= j < t * FDS + FDS && j != i ensures ds[j].used { assert n[j].used; }
  }

  lemma TwoIndeed(ds: seq<Desc>, n: seq<Desc>, t: nat, i: nat, j: nat)
    requires |ds| == ALL == |n| && t < TASKS && t * FDS <= i < t * FDS + FDS && t * FDS <= j < t * FDS + FDS
    requires !ds[i].used && n == ds[i := n[i]] && n[i].used && !n[j].used
    ensures TwoFree(ds, t)
  {
    assert ds[j] == n[j];
    if i < j { assert !ds[i].used && !ds[j].used; } else { assert j < i && !ds[j].used && !ds[i].used; }
  }

  lemma FreeSame(ds: seq<Desc>, n: seq<Desc>, i: nat)
    requires i < |ds| == |n| && n == ds[i := n[i]] && !ds[i].used && !n[i].used
    ensures forall e: nat :: e < ENDS ==> Count(n, e) == Count(ds, e)
  {
    forall e: nat | e < ENDS ensures Count(n, e) == Count(ds, e) { CountUpdate(ds, i, n[i], e); }
  }

  // ------------------------------------------------------------------ fork

  function Table(ds: seq<Desc>, t: nat): seq<Desc>
    requires |ds| == ALL && t < TASKS
  {
    ds[t * FDS..t * FDS + FDS]
  }

  /** The child's table overwritten with the parent's. */
  function Copied(ds: seq<Desc>, parent: nat, child: nat): (n: seq<Desc>)
    requires |ds| == ALL && parent < TASKS && child < TASKS
    ensures |n| == ALL
  {
    ds[..child * FDS] + Table(ds, parent) + ds[child * FDS + FDS..]
  }

  /** One more reference for every open pipe end in a table. */
  function IncAll(refs: seq<nat>, ds: seq<Desc>): (r: seq<nat>)
    requires |refs| == ENDS
    ensures |r| == ENDS
  {
    if ds == [] then refs else
    var r := IncAll(refs, ds[..|ds| - 1]);
    if ds[|ds| - 1].used then Inc(r, ds[|ds| - 1].ino) else r
  }

  /** Counts cover all descriptors but those of `owed`, whose references are
      still to be added. */
  ghost predicate Owing(ds: seq<Desc>, refs: seq<nat>, used: seq<bool>, owed: seq<Desc>) {
    && |refs| == ENDS && |used| == PIPE_MAX
    && forall e: nat :: e < ENDS ==> EndOwing(ds, refs, used, owed, e)
  }

  ghost predicate EndOwing(ds: seq<Desc>, refs: seq<nat>, used: seq<bool>, owed: seq<Desc>, e: nat)
    requires |refs| == ENDS && |used| == PIPE_MAX && e < ENDS
  {
    (Count(ds, e) <= refs[e] + Count(owed, e) || refs[e] == U32_MAX) && refs[e] <= U32_MAX
      && (Count(ds, e) > 0 ==> used[e / 2])
  }

  lemma ForkOwes(ds: seq<Desc>, refs: seq<nat>, used: seq<bool>, parent: nat, child: nat)
    requires Counted(ds, refs, used) && |ds| == ALL && parent < TASKS && child < TASKS
    ensures Owing(Copied(ds, parent, child), refs, used, Table(ds, parent))
  {
    var n, own := Copied(ds, parent, child), Table(ds, parent);
    forall e: nat | e < ENDS ensures EndOwing(n, refs, used, own, e) {
      assert EndOk(ds, refs, used, e);
      CountSplit(ds, parent, e);
      CountSplit(ds, child, e);
      CountConcat(ds[..child * FDS] + own, ds[child * FDS + FDS..], e);
      CountConcat(ds[..child * FDS], own, e);
    }
  }

  lemma CountSplit(ds: seq<Desc>, t: nat, e: nat)
    requires |ds| == ALL && t < TASKS
    ensures Count(ds, e) == Count(ds[..t * FDS], e) + Count(Table(ds, t), e) + Count(ds[t * FDS + FDS..], e)
  {
    var a, b, c := ds[..t * FDS], Table(ds, t), ds[t * FDS + FDS..];
    assert ds == (a + b) + c;
    CountConcat(a + b, c, e);
    CountConcat(a, b, e);
  }

  lemma OwingTurn(ds: seq<Desc>, refs: seq<nat>, used: seq<bool>, owed: seq<Desc>)
    requires Owing(ds, refs, used, owed) && owed != []
    ensures Owing(ds, if owed[0].used then Inc(refs, owed[0].ino) else refs, used, owed[1..])
  {
    var r := if owed[0].used then Inc(refs, owed[0].ino) else refs;
    forall e: nat | e < ENDS ensures EndOwing(ds, r, used, owed[1..], e) {
      assert EndOwing(ds, refs, used, owed, e);
      assert owed == [owed[0]] + owed[1..];
      CountConcat([owed[0]], owed[1..], e);
      CountOne(owed[0], e);
    }
  }

  lemma OwingDone(ds: seq<Desc>, refs: seq<nat>, used: seq<bool>)
    requires Owing(ds, refs, used, []) && |ds| <= ALL
    ensures Counted(ds, refs, used)
  {
    forall e: nat | e < ENDS ensures EndOk(ds, refs, used, e) {
      assert EndOwing(ds, refs, used, [], e);
    }
  }

  // --------------------------------------------------------- exact counts

  /** The ends of a pipe in use are counted exactly, and a slot is in use only
      while one of its ends is named. */
  ghost predicate Exact(ds: seq<Desc>, refs: seq<nat>, used: seq<bool>) {
    && |refs| == ENDS && |used| == PIPE_MAX
    && (forall e: nat :: e < ENDS ==> EndExact(ds, refs, used, e))
    && forall p: nat :: p < PIPE_MAX ==> SlotNamed(ds, used, p)
  }

  ghost predicate EndExact(ds: seq<Desc>, refs: seq<nat>, used: seq<bool>, e: nat)
    requires |refs| == ENDS && |used| == PIPE_MAX && e < ENDS
  {
    used[e / 2] ==> refs[e] == Count(ds, e)
  }

  ghost predicate SlotNamed(ds: seq<Desc>, used: seq<bool>, p: nat)
    requires |used| == PIPE_MAX && p < PIPE_MAX
  {
    used[p] ==> Count(ds, 2 * p) > 0 || Count(ds, 2 * p + 1) > 0
  }

  /** Two states in which every end is named equally often and counted alike. */
  lemma ExactSame(ds: seq<Desc>, n: seq<Desc>, refs: seq<nat>, used: seq<bool>)
    requires Exact(ds, refs, used) && forall e: nat :: e < ENDS ==> Count(n, e) == Count(ds, e)
    ensures Exact(n, refs, used)
  {
    forall e: nat | e < ENDS ensures EndExact(n, refs, used, e) { assert EndExact(ds, refs, used, e); }
    forall p: nat | p < PIPE_MAX ensures SlotNamed(n, used, p) { assert SlotNamed(ds, used, p); }
  }

  /** Closing keeps counts exact: the slot is given back with its last name. */
  lemma CloseExact(ds: seq<Desc>, refs: seq<nat>, used: seq<bool>, i: nat)
    requires Counted(ds, refs, used) && Exact(ds, refs, used) && i < |ds| && ds[i].used
    ensures Exact(ds[i := ds[i].(used := false)], Dec(refs, ds[i].ino), DecUsed(refs, used, ds[i].ino))
  {
    var n, r, u := ds[i := ds[i].(used := false)], Dec(refs, ds[i].ino), DecUsed(refs, used, ds[i].ino);
    forall e: nat | e < ENDS ensures EndExact(n, r, u, e) {
      assert EndExact(ds, refs, used, e) && EndOk(ds, refs, used, e);
      CountUpdate(ds, i, ds[i].(used := false), e);
    }
    forall p: nat | p < PIPE_MAX ensures SlotNamed(n, u, p) {
      assert SlotNamed(ds, used, p) && EndExact(n, r, u, 2 * p) && EndExact(n, r, u, 2 * p + 1);
      CountUpdate(ds, i, ds[i].(used := false), 2 * p);
      CountUpdate(ds, i, ds[i].(used := false), 2 * p + 1);
    }
  }

  /** dup2 does not close the descriptor it overwrites: a duplicate keeps the counts
      exact if and only if it is not put over an open pipe end. */
  lemma DupKeepsExactIff(ds: seq<Desc>, refs: seq<nat>, used: seq<bool>, from: nat, to: nat)
    requires Counted(ds, refs, used) && Exact(ds, refs, used) && |ds| <= ALL
    requires from < |ds| && to < |ds| && ds[from].used && from != to
    ensures Exact(ds[to := ds[from]], Inc(refs, ds[from].ino), used) <==> !(ds[to].used && EndOf(ds[to].ino).Some?)
  {
    var n, r := ds[to := ds[from]], Inc(refs, ds[from].ino);
    forall e: nat | e < ENDS
      ensures used[e / 2] ==> r[e] == Count(n, e) + if Names(ds[to], e) then 1 else 0
      ensures Names(ds[to], e) ==> used[e / 2]
    {
      assert EndExact(ds, refs, used, e) && EndOk(ds, refs, used, e);
      CountUpdate(ds, to, ds[from], e);
      if Names(ds[to], e) { CountNamed(ds, to, e); }
    }
    if ds[to].used && EndOf(ds[to].ino).Some? {
      var e := EndOf(ds[to].ino).value;
      assert Names(ds[to], e) && !EndExact(n, r, used, e);
    } else {
      forall e: nat | e < ENDS ensures EndExact(n, r, used, e) { assert !Names(ds[to], e); }
      forall p: nat | p < PIPE_MAX ensures SlotNamed(n, used, p) {
        assert SlotNamed(ds, used, p);
        CountUpdate(ds, to, ds[from], 2 * p);
        CountUpdate(ds, to, ds[from], 2 * p + 1);
      }
    }
  }

  lemma {:induction false} IncAllCount(refs: seq<nat>, ds: seq<Desc>, e: nat)
    requires |refs| == ENDS && e < ENDS && refs[e] + |ds| <= U32_MAX
    ensures IncAll(refs, ds)[e] == refs[e] + Count(ds, e)
  {
    if ds != [] { IncAllCount(refs, ds[..|ds| - 1], e); }
  }

  lemma CopiedCount(ds: seq<Desc>, parent: nat, child: nat, e: nat)
    requires |ds| == ALL && parent < TASKS && child < TASKS
    ensures Count(Copied(ds, parent, child), e) + Count(Table(ds, child), e)
         == Count(ds, e) + Count(Table(ds, parent), e)
  {
    var own := Table(ds, parent);
    CountSplit(ds, child, e);
    CountConcat(ds[..child * FDS] + own, ds[child * FDS + FDS..], e);
    CountConcat(ds[..child * FDS], own, e);
  }

  /** A fork keeps counts exact if and only if the table it overwrites had no open
      pipe end. */
  lemma ForkKeepsExactIff(ds: seq<Desc>, refs: seq<nat>, used: seq<bool>, parent: nat, child: nat)
    requires Counted(ds, refs, used) && Exact(ds, refs, used) && |ds| == ALL && parent < TASKS && child < TASKS
    ensures Exact(Copied(ds, parent, child), IncAll(refs, Table(ds, parent)), used) <==>
      forall e: nat :: e < ENDS ==> Count(Table(ds, child), e) == 0
  {
    var n, r := Copied(ds, parent, child), IncAll(refs, Table(ds, parent));
    forall e: nat | e < ENDS
      ensures used[e / 2] ==> r[e] == Count(n, e) + Count(Table(ds, child), e)
      ensures Count(Table(ds, child), e) > 0 ==> used[e / 2]
      ensures Count(Table(ds, child), e) == 0 ==> Count(n, e) >= Count(ds, e)
    {
      assert EndExact(ds, refs, used, e) && EndOk(ds, refs, used, e);
      CopiedCount(ds, parent, child, e);
      CountSplit(ds, child, e);
      if used[e / 2] { IncAllCount(refs, Table(ds, parent), e); }
    }
    if e: nat :| e < ENDS && Count(Table(ds, child), e) > 0 {
      assert Count(Table(ds, child), e) != 0 && !EndExact(n, r, used, e);
    } else {
      forall e: nat | e < ENDS ensures EndExact(n, r, used, e) { assert Count(Table(ds, child), e) == 0; }
      forall p: nat | p < PIPE_MAX ensures SlotNamed(n, used, p) {
        assert SlotNamed(ds, used, p);
        assert Count(Table(ds, child), 2 * p) == 0 && Count(Table(ds, child), 2 * p + 1) == 0;
      }
    }
  }

  /** A new pipe, with one descriptor for each of its ends. */
  lemma PipeExact(ds: seq<Desc>, refs: seq<nat>, used: seq<bool>, p: nat, n: seq<Desc>)
    requires Counted(ds, refs, used) && Exact(ds, refs, used) && p < PIPE_MAX && !used[p]
    requires forall e: nat :: e < ENDS ==> Count(n, e) == Count(ds, e) + if e / 2 == p then 1 else 0
    ensures Exact(n, refs[2 * p := 1][2 * p + 1 := 1], used[p := true])
  {
    var r, u := refs[2 * p := 1][2 * p + 1 := 1], used[p := true];
    forall e: nat | e < ENDS ensures EndExact(n, r, u, e) {
      assert EndExact(ds, refs, used, e) && EndOk(ds, refs, used, e);
      assert e / 2 == p ==> e == 2 * p || e == 2 * p + 1;
    }
    forall q: nat | q < PIPE_MAX ensures SlotNamed(n, u, q) {
      assert SlotNamed(ds, used, q) && 2 * q / 2 == q;
    }
  }

  /** Stale counts of a slot not in use do not matter. */
  lemma RefusedExact(ds: seq<Desc>, refs: seq<nat>, used: seq<bool>, p: nat, n: seq<Desc>, r: seq<nat>)
    requires Exact(ds, refs, used) && p < PIPE_MAX && !used[p] && |r| == ENDS
    requires forall e: nat :: e < ENDS ==> Count(n, e) == Count(ds, e)
    requires forall e: nat :: e < ENDS && e / 2 != p ==> r[e] == refs[e]
    ensures Exact(n, r, used)
  {
    forall e: nat | e < ENDS ensures EndExact(n, r, used, e) { assert EndExact(ds, refs, used, e); }
    forall q: nat | q < PIPE_MAX ensures SlotNamed(n, used, q) { assert SlotNamed(ds, used, q); }
  }

  // --------------------------------------------------------- the operations

  class Files {
    var descs: seq<Desc>     // the tables of all tasks, one after the other
    var refs: seq<nat>
    var used: seq<bool>
    var inodes: seq<bool>    // flat inodes in use

    /** No file has an inode in the pipe range, and every pipe end is counted at
        least as often as it is named. */
    ghost predicate Valid()
      reads this
    {
      && |descs| == ALL && |inodes| == INODES
      && Counted(descs, refs, used)
      && forall i :: PIPE_BASE <= i < INODES ==> !inodes[i]
    }

    constructor ()
      ensures Valid() && Exact(descs, refs, used)
    {
      descs := seq(ALL, _ => Desc(0, false));
      refs, used, inodes := seq(ENDS, _ => 0), seq(PIPE_MAX, _ => false), seq(INODES, _ => false);
      new;
      NoneNamed(descs);
      assert forall e: nat :: e < ENDS ==> EndOk(descs, refs, used, e);
      assert forall e: nat :: e < ENDS ==> EndExact(descs, refs, used, e);
      assert forall p: nat :: p < PIPE_MAX ==> SlotNamed(descs, used, p);
    }

    /** The lowest unused descriptor of a table from `start` up. */
    method FreeFd(t: nat, start: nat) returns (fd: Option<nat>)
      requires Valid() && t < TASKS
      ensures fd.Some? ==> start <= fd.value < FDS && !descs[t * FDS + fd.value].used
      ensures fd.Some? ==> forall j :: t * FDS + start <= j < t * FDS + fd.value ==> descs[j].used
      ensures fd.None? ==> forall j :: t * FDS + start <= j < t * FDS + FDS ==> descs[j].used
    {
      var i := start;
      while i < FDS
        invariant start <= i && forall j :: t * FDS + start <= j < t * FDS + i && j < t * FDS + FDS ==> descs[j].used
      {
        if !descs[t * FDS + i].used { return Some(i); }
        i := i + 1;
      }
      fd := None;
    }

    /** alloc_flat_inode: never one of the pipe range. */
    method AllocInode() returns (r: Option<nat>)
      requires Valid()
      modifies this`inodes
      ensures Valid()
      ensures r.Some? ==> r.value < PIPE_BASE && !old(inodes)[r.value] && inodes == old(inodes)[r.value := true]
      ensures r.None? ==> inodes == old(inodes) && forall i :: 0 <= i < PIPE_BASE ==> inodes[i]
    {
      var i := 0;
      while i < PIPE_BASE
        invariant i <= PIPE_BASE && inodes == old(inodes) && forall k :: 0 <= k < i ==> inodes[k]
      {
        if !inodes[i] {
          inodes := inodes[i := true];
          return Some(i);
        }
        i := i + 1;
      }
      r := None;
    }

    /** A descriptor for a file found or made under an inode in use. */
    method OpenFd(t: nat, ino: nat) returns (fd: Option<nat>)
      requires Valid() && t < TASKS && ino < INODES && inodes[ino]
      modifies this`descs
      ensures Valid()
      ensures fd.Some? ==>
        fd.value < FDS && !old(descs)[t * FDS + fd.value].used
        && descs == old(descs)[t * FDS + fd.value := Desc(ino, true)]
      ensures fd.None? ==> descs == old(descs) && forall j :: t * FDS <= j < t * FDS + FDS ==> descs[j].used
      ensures old(Exact(descs, refs, used)) ==> Exact(descs, refs, used)
    {
      fd := FreeFd(t, 0);
      if fd.None? { return; }
      FileCounted(descs, refs, used, t * FDS + fd.value, ino);
      forall e: nat | e < ENDS ensures Count(descs[t * FDS + fd.value := Desc(ino, true)], e) == Count(descs, e) {
        CountUpdate(descs, t * FDS + fd.value, Desc(ino, true), e);
      }
      if Exact(descs, refs, used) { ExactSame(descs, descs[t * FDS + fd.value := Desc(ino, true)], refs, used); }
      descs := descs[t * FDS + fd.value := Desc(ino, true)];
    }

    /** close_fd. */
    method Close(t: nat, fd: nat) returns (ok: bool)
      requires Valid() && t < TASKS
      modifies this`descs, this`refs, this`used
      ensures Valid()
      ensures ok <==> fd < FDS && old(descs)[t * FDS + fd].used
      ensures !ok ==> descs == old(descs) && refs == old(refs) && used == old(used)
      ensures ok ==> descs == old(descs)[t * FDS + fd := old(descs)[t * FDS + fd].(used := false)]
      ensures ok ==>
        refs == Dec(old(refs), old(descs)[t * FDS + fd].ino)
        && used == DecUsed(old(refs), old(used), old(descs)[t * FDS + fd].ino)
      ensures ok ==> Closed(old(refs), refs, old(used), used, old(descs)[t * FDS + fd].ino)
      ensures old(Exact(descs, refs, used)) ==> Exact(descs, refs, used)
    {
      if fd >= FDS || !descs[t * FDS + fd].used { return false; }
      var i := t * FDS + fd;
      CloseCounted(descs, refs, used, i);
      if Exact(descs, refs, used) { CloseExact(descs, refs, used, i); }
      used := DecUsed(refs, used, descs[i].ino);
      refs := Dec(refs, descs[i].ino);
      descs := descs[i := descs[i].(used := false)];
      ok := true;
    }

    /** dup2. */
    method Dup2(t: nat, oldfd: nat, newfd: nat) returns (r: Option<nat>)
      requires Valid() && t < TASKS
      modifies this`descs, this`refs
      ensures Valid()
      ensures r == if oldfd < FDS && old(descs)[t * FDS + oldfd].used then Some(newfd) else None
      ensures r.None? || newfd >= FDS || oldfd == newfd ==> descs == old(descs) && refs == old(refs)
      ensures r.Some? && newfd < FDS && oldfd != newfd ==>
        && descs == old(descs)[t * FDS + newfd := old(descs)[t * FDS + oldfd]]
        && refs == Inc(old(refs), old(descs)[t * FDS + oldfd].ino)
      ensures old(Exact(descs, refs, used)) && r.Some? && newfd < FDS && oldfd != newfd ==>
        (Exact(descs, refs, used) <==>
          !(old(descs)[t * FDS + newfd].used && PIPE_BASE <= old(descs)[t * FDS + newfd].ino < INODES))
    {
      if oldfd >= FDS || !descs[t * FDS + oldfd].used { return None; }
      if oldfd == newfd { return Some(newfd); }
      if newfd < FDS {
        DupCounted(descs, refs, used, t * FDS + oldfd, t * FDS + newfd);
        if Exact(descs, refs, used) { DupKeepsExactIff(descs, refs, used, t * FDS + oldfd, t * FDS + newfd); }
        refs := Inc(refs, descs[t * FDS + oldfd].ino);
        descs := descs[t * FDS + newfd := descs[t * FDS + oldfd]];
      }
      r := Some(newfd);
    }

    /** F_DUPFD: the lowest unused descriptor from `start` up. */
    method DupFd(t: nat, fd: nat, start: nat) returns (r: Option<nat>)
      requires Valid() && t < TASKS
      modifies this`descs, this`refs
      ensures Valid()
      ensures r.None? <==>
        fd >= FDS || !old(descs)[t * FDS + fd].used
        || forall j :: t * FDS + start <= j < t * FDS + FDS ==> old(descs)[j].used
      ensures r.None? ==> descs == old(descs) && refs == old(refs)
      ensures r.Some? ==>
        && start <= r.value < FDS && (forall j :: t * FDS + start <= j < t * FDS + r.value ==> old(descs)[j].used)
        && descs == old(descs)[t * FDS + r.value := old(descs)[t * FDS + fd]]
        && refs == Inc(old(refs), old(descs)[t * FDS + fd].ino)
      ensures old(Exact(descs, refs, used)) ==> Exact(descs, refs, used)
    {
      r := FreeFd(t, start);
      if r.None? { return; }
      if fd >= FDS || !descs[t * FDS + fd].used { return None; }
      DupCounted(descs, refs, used, t * FDS + fd, t * FDS + r.value);
      if Exact(descs, refs, used) { DupKeepsExactIff(descs, refs, used, t * FDS + fd, t * FDS + r.value); }
      refs := Inc(refs, descs[t * FDS + fd].ino);
      descs := descs[t * FDS + r.value := descs[t * FDS + fd]];
    }

    /** The table part of fork and clone: copy, then count. */
    method Fork(parent: nat, child: nat)
      requires Valid() && parent < TASKS && child < TASKS && parent != child
      modifies this`descs, this`refs
      ensures Valid() && descs == Copied(old(descs), parent, child)
      ensures refs == IncAll(old(refs), Table(old(descs), parent))
      ensures old(Exact(descs, refs, used)) ==>
        (Exact(descs, refs, used) <==> forall e: nat :: e < ENDS ==> Count(Table(old(descs), child), e) == 0)
    {
      if Exact(descs, refs, used) { ForkKeepsExactIff(descs, refs, used, parent, child); }
      ForkOwes(descs, refs, used, parent, child);
      var own := Table(descs, parent);
      descs := Copied(descs, parent, child);
      assert own[0..] == own;
      for i := 0 to FDS
        invariant descs == Copied(old(descs), parent, child) && Owing(descs, refs, used, own[i..])
        invariant refs == IncAll(old(refs), own[..i])
      {
        assert own[..i + 1][..i] == own[..i];
        OwingTurn(descs, refs, used, own[i..]);
        assert own[i..][1..] == own[i + 1..];
        if own[i].used { refs := Inc(refs, own[i].ino); }
      }
      assert own[..FDS] == own && own[FDS..] == [];
      OwingDone(descs, refs, used);
    }

    /** pipe: claim the lowest slot not in use; nobody named either of its ends,
        and now one descriptor each does. */
    method Pipe(t: nat) returns (r: Option<(nat, nat)>, ghost p: nat)
      requires Valid() && t < TASKS
      modifies this`descs, this`refs, this`used
      ensures Valid()
      ensures r.Some? <==> (exists k :: 0 <= k < PIPE_MAX && !old(used)[k]) && TwoFree(old(descs), t)
      ensures r.None? ==> used == old(used) && forall i :: 0 <= i < ALL ==>
        descs[i].used == old(descs)[i].used && (descs[i].used ==> descs[i] == old(descs)[i])
      ensures old(Exact(descs, refs, used)) ==> Exact(descs, refs, used)
      ensures r.Some? ==>
        && r.value.0 < r.value.1 < FDS && p < PIPE_MAX && (forall k :: 0 <= k < p ==> old(used)[k])
        && !old(used)[p] && used == old(used)[p := true] && refs == old(refs)[2 * p := 1][2 * p + 1 := 1]
        && Count(old(descs), 2 * p) == 0 && Count(old(descs), 2 * p + 1) == 0
        && descs == old(descs)[t * FDS + r.value.0 := Desc(PIPE_BASE + 2 * p, true)]
                              [t * FDS + r.value.1 := Desc(PIPE_BASE + 2 * p + 1, true)]
    {
      r := None;
      var q := FreeSlot();
      p := q;
      if q == PIPE_MAX { return; }
      ghost var ds, rs, us := descs, refs, used;
      ClaimCounted(descs, refs, used, q);
      refs, used := refs[2 * q := 1][2 * q + 1 := 1], used[q := true];
      r := NameEnds(t, q);
      if r.None? {
        assert used == us;
        if Exact(ds, rs, us) { RefusedExact(ds, rs, us, q, descs, refs); }
      } else {
        if Exact(ds, rs, us) { PipeExact(ds, rs, us, q, descs); }
      }
    }

    /** Descriptors for the ends of a claimed slot, or the slot is given up. */
    method NameEnds(t: nat, p: nat) returns (r: Option<(nat, nat)>)
      requires Valid() && t < TASKS && p < PIPE_MAX && used[p] && refs[2 * p] == 1 && refs[2 * p + 1] == 1
      requires Count(descs, 2 * p) == 0 && Count(descs, 2 * p + 1) == 0
      modifies this`descs, this`refs, this`used
      ensures Valid() && (r.Some? <==> TwoFree(old(descs), t))
      ensures r.None? ==>
        && used == old(used)[p := false] && (forall e: nat :: e < ENDS ==> Count(descs, e) == Count(old(descs), e))
        && (forall e: nat :: e < ENDS && e / 2 != p ==> refs[e] == old(refs)[e])
        && forall i :: 0 <= i < ALL ==>
             descs[i].used == old(descs)[i].used && (descs[i].used ==> descs[i] == old(descs)[i])
      ensures r.Some? ==>
        && r.value.0 < r.value.1 < FDS && used == old(used) && refs == old(refs)
        && (forall e: nat :: e < ENDS ==> Count(descs, e) == Count(old(descs), e) + if e / 2 == p then 1 else 0)
        && descs == old(descs)[t * FDS + r.value.0 := Desc(PIPE_BASE + 2 * p, true)]
                              [t * FDS + r.value.1 := Desc(PIPE_BASE + 2 * p + 1, true)]
    {
      r := None;
      ghost var ds := descs;
      var a := FreeFd(t, 0);
      if a.None? {
        UnclaimCounted(descs, refs, used, p);
        used := used[p := false];
        return;
      }
      FirstCounted(descs, refs, used, t * FDS + a.value, 2 * p);
      descs := descs[t * FDS + a.value := Desc(PIPE_BASE + 2 * p, true)];
      ghost var half := descs;
      var b := NameWriteEnd(t, p, a.value);
      if b.None? {
        OneFree(ds, half, t, t * FDS + a.value);
        FreeSame(ds, descs, t * FDS + a.value);
        return;
      }
      TwoIndeed(ds, half, t, t * FDS + a.value, t * FDS + b.value);
      r := Some((a.value, b.value));
    }

    /** The second descriptor, or the first is closed again. */
    method NameWriteEnd(t: nat, p: nat, a: nat) returns (b: Option<nat>)
      requires Valid() && t < TASKS && p < PIPE_MAX && a < FDS && used[p] && refs[2 * p + 1] == 1
      requires descs[t * FDS + a] == Desc(PIPE_BASE + 2 * p, true)
      requires Count(descs, 2 * p) == 1 && Count(descs, 2 * p + 1) == 0
      modifies this`descs, this`refs, this`used
      ensures Valid()
      ensures b.None? ==>
        && descs == old(descs)[t * FDS + a := Desc(PIPE_BASE + 2 * p, false)] && used == old(used)[p := false]
        && (forall e: nat :: e < ENDS && e / 2 != p ==> refs[e] == old(refs)[e])
        && forall j :: t * FDS <= j < t * FDS + FDS ==> old(descs)[j].used
      ensures b.Some? ==>
        && b.value < FDS && !old(descs)[t * FDS + b.value].used && used == old(used) && refs == old(refs)
        && (forall j :: t * FDS <= j < t * FDS + b.value ==> old(descs)[j].used)
        && descs == old(descs)[t * FDS + b.value := Desc(PIPE_BASE + 2 * p + 1, true)]
        && forall e: nat :: e < ENDS ==> Count(descs, e) == Count(old(descs), e) + if e == 2 * p + 1 then 1 else 0
    {
      b := FreeFd(t, 0);
      if b.None? {
        GiveBack(t, a, p);
      } else {
        FirstCounted(descs, refs, used, t * FDS + b.value, 2 * p + 1);
        descs := descs[t * FDS + b.value := Desc(PIPE_BASE + 2 * p + 1, true)];
      }
    }

    /** No descriptor is left for the write end: close the read end again. */
    method GiveBack(t: nat, fd: nat, p: nat)
      requires Valid() && t < TASKS && fd < FDS && p < PIPE_MAX && descs[t * FDS + fd] == Desc(PIPE_BASE + 2 * p, true)
      requires Count(descs, 2 * p) == 1 && Count(descs, 2 * p + 1) == 0
      modifies this`descs, this`refs, this`used
      ensures Valid() && descs == old(descs)[t * FDS + fd := Desc(PIPE_BASE + 2 * p, false)]
      ensures used == old(used)[p := false] && forall e: nat :: e < ENDS && e / 2 != p ==> refs[e] == old(refs)[e]
    {
      CountUpdate(descs, t * FDS + fd, Desc(PIPE_BASE + 2 * p, false), 2 * p);
      CountUpdate(descs, t * FDS + fd, Desc(PIPE_BASE + 2 * p, false), 2 * p + 1);
      var ok := Close(t, fd);
      UnclaimCounted(descs, refs, used, p);
      used := used[p := false];
    }

    method FreeSlot() returns (p: nat)
      requires Valid()
      ensures p <= PIPE_MAX && (p < PIPE_MAX ==> !used[p]) && forall k :: 0 <= k < p ==> used[k]
    {
      p := 0;
      while p < PIPE_MAX && used[p]
        invariant p <= PIPE_MAX && forall k :: 0 <= k < p ==> used[k]
      {
        p := p + 1;
      }
    }

    /** exit_task: every descriptor of the task is closed. */
    method Exit(t: nat)
      requires Valid() && t < TASKS
      modifies this`descs, this`refs, this`used
      ensures Valid() && forall k :: t * FDS <= k < t * FDS + FDS ==> !descs[k].used
      ensures old(Exact(descs, refs, used)) ==> Exact(descs, refs, used)
      ensures forall k :: 0 <= k < ALL && !(t * FDS <= k < t * FDS + FDS) ==> descs[k] == old(descs)[k]
    {
      for i := 0 to FDS
        invariant Valid() && forall k :: t * FDS <= k < t * FDS + i ==> !descs[k].used
        invariant old(Exact(descs, refs, used)) ==> Exact(descs, refs, used)
        invariant forall k :: 0 <= k < ALL && !(t * FDS <= k < t * FDS + FDS) ==> descs[k] == old(descs)[k]
      {
        if descs[t * FDS + i].used { var ok := Close(t, i); }
      }
    }
  }

  lemma {:induction false} NoneNamed(ds: seq<Desc>)
    requires forall i :: 0 <= i < |ds| ==> !ds[i].used
    ensures forall e: nat :: Count(ds, e) == 0
  {
    if ds != [] { NoneNamed(ds[..|ds| - 1]); }
  }
}
