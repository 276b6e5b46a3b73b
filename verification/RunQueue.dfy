/**
 The scheduler's run queues: per CPU a bitmap of 40 levels and a list per level,
 threaded through the tasks themselves.  They are proved to be one stable
 priority queue: a plain list of waiting tasks in order of arrival.
 */
module RunQueue {
  import opened Options

  const MAX_TASKS: nat := 64
  const LEVELS: nat := 40
  const MAX_CPUS: nat := 2

  /** A waiting task; a run queue's abstract value is a sequence of these in
      order of arrival. */
  datatype Entry = Entry(tid: nat, cpu: nat, prio: nat)

  datatype Queue = Queue(bits: seq<bool>, heads: seq<Option<nat>>, tails: seq<Option<nat>>, running: nat)

  // ------------------------------------------------------- arrival order

  /** The tasks waiting at one level of one CPU, oldest first. */
  function Level(order: seq<Entry>, c: nat, p: nat): seq<nat> {
    if order == [] then [] else
    var e := order[|order| - 1];
    Level(order[..|order| - 1], c, p) + if e.cpu == c && e.prio == p then [e.tid] else []
  }

  function OnCpu(order: seq<Entry>, c: nat): nat {
    if order == [] then 0 else
    OnCpu(order[..|order| - 1], c) + if order[|order| - 1].cpu == c then 1 else 0
  }

  function Without(order: seq<Entry>, i: nat): seq<Entry>
    requires i < |order|
  {
    order[..i] + order[i + 1..]
  }

  ghost predicate Distinct(order: seq<Entry>) {
    forall i, j :: 0 <= i < j < |order| ==> order[i].tid != order[j].tid
  }

  ghost predicate Known(order: seq<Entry>, n: nat) {
    forall i :: 0 <= i < |order| ==> order[i].tid < n
  }

  ghost predicate Waiting(order: seq<Entry>, tid: nat) {
    exists i :: 0 <= i < |order| && order[i].tid == tid
  }

  /** Entry `i` is the one a stable priority queue serves next on CPU `c`: no
      task of that CPU has a better priority, none of its own came earlier. */
  ghost predicate Best(order: seq<Entry>, c: nat, i: nat) {
    && i < |order| && order[i].cpu == c
    && forall j :: 0 <= j < |order| && order[j].cpu == c ==>
         order[i].prio < order[j].prio || (order[i].prio == order[j].prio && i <= j)
  }

  lemma {:induction false} LevelMember(order: seq<Entry>, c: nat, p: nat, x: nat)
    ensures x in Level(order, c, p) <==> Entry(x, c, p) in order
  {
    if order != [] {
      LevelMember(order[..|order| - 1], c, p, x);
      assert order == order[..|order| - 1] + [order[|order| - 1]];
    }
  }

  lemma {:induction false} LevelDistinct(order: seq<Entry>, c: nat, p: nat)
    requires Distinct(order)
    ensures AllDifferent(Level(order, c, p))
  {
    if order != [] {
      var n := |order| - 1;
      LevelDistinct(order[..n], c, p);
      LevelMember(order[..n], c, p, order[n].tid);
    }
  }

  lemma {:induction false} LevelConcat(a: seq<Entry>, b: seq<Entry>, c: nat, p: nat)
    ensures Level(a + b, c, p) == Level(a, c, p) + Level(b, c, p)
    ensures OnCpu(a + b, c) == OnCpu(a, c) + OnCpu(b, c)
  {
    if b == [] {
      assert a + b == a;
    } else {
      var n := |b| - 1;
      LevelConcat(a, b[..n], c, p);
      assert (a + b)[..|a + b| - 1] == a + b[..n];
    }
  }

  /** Taking entry `i` out of the arrival order takes one task out of its own
      level and leaves the order of the rest. */
  lemma LevelWithout(order: seq<Entry>, i: nat, c: nat, p: nat)
    requires i < |order|
    ensures var e, l, k := order[i], Level(order, c, p), |Level(order[..i], c, p)|;
      if e.cpu == c && e.prio == p
      then k < |l| && l[k] == e.tid && Level(Without(order, i), c, p) == l[..k] + l[k + 1..]
      else Level(Without(order, i), c, p) == l
    ensures OnCpu(order, c) == OnCpu(Without(order, i), c) + if order[i].cpu == c then 1 else 0
  {
    var a, e, b := order[..i], order[i], order[i + 1..];
    assert order == a + ([e] + b);
    LevelConcat(a, [e] + b, c, p);
    LevelConcat([e], b, c, p);
    LevelConcat(a, b, c, p);
    assert Level([e], c, p) == if e.cpu == c && e.prio == p then [e.tid] else [] by {
      assert [e][..0] == [];
    }
    assert OnCpu([e], c) == if e.cpu == c then 1 else 0 by {
      assert [e][..0] == [];
    }
  }

  /** The head of the lowest non-empty level is the best entry. */
  lemma {:induction false} HeadIsBest(order: seq<Entry>, c: nat, p: nat) returns (i: nat)
    requires Level(order, c, p) != []
    requires forall q :: 0 <= q < p ==> Level(order, c, q) == []
    ensures i < |order| && order[i] == Entry(Level(order, c, p)[0], c, p)
    ensures Level(order[..i], c, p) == [] && Best(order, c, i)
  {
    i := FirstOf(order, c, p);
    forall j | 0 <= j < |order| && order[j].cpu == c && order[j].prio < p ensures false {
      LevelMember(order, c, order[j].prio, order[j].tid);
    }
    forall j | 0 <= j < i && order[j].cpu == c && order[j].prio == p ensures false {
      assert order[..i][j] == order[j];
      LevelMember(order[..i], c, p, order[j].tid);
    }
  }

  lemma {:induction false} FirstOf(order: seq<Entry>, c: nat, p: nat) returns (i: nat)
    requires Level(order, c, p) != []
    ensures i < |order| && order[i] == Entry(Level(order, c, p)[0], c, p) && Level(order[..i], c, p) == []
  {
    var n := |order| - 1;
    if Level(order[..n], c, p) == [] {
      i := n;
    } else {
      i := FirstOf(order[..n], c, p);
      assert order[..n][..i] == order[..i];
    }
  }

  // -------------------------------------------------------------- threads

  predicate LinkAt(next: seq<Option<nat>>, l: seq<nat>, i: nat)
    requires i < |l|
  {
    l[i] < |next| && next[l[i]] == if i + 1 < |l| then Some(l[i + 1]) else None
  }

  /** `l` is threaded through `next` from `head` to `tail`. */
  ghost predicate Linked(next: seq<Option<nat>>, l: seq<nat>, head: Option<nat>, tail: Option<nat>) {
    && (forall i: nat :: i < |l| ==> LinkAt(next, l, i))
    && head == (if l == [] then None else Some(l[0]))
    && tail == (if l == [] then None else Some(l[|l| - 1]))
  }

  ghost predicate AllDifferent(l: seq<nat>) {
    forall i, j :: 0 <= i < j < |l| ==> l[i] != l[j]
  }

  lemma PushLinked(next: seq<Option<nat>>, l: seq<nat>, head: Option<nat>, tail: Option<nat>, x: nat)
    requires Linked(next, l, head, tail) && AllDifferent(l) && x < |next| && x !in l
    ensures l == [] ==> Linked(next[x := None], [x], Some(x), Some(x))
    ensures l != [] ==>
      tail.Some? && tail.value < |next|
      && Linked(next[x := None][tail.value := Some(x)], l + [x], head, Some(x))
  {
    if l != [] {
      assert LinkAt(next, l, |l| - 1);
      var next2 := next[x := None][tail.value := Some(x)];
      forall i: nat | i < |l| + 1 ensures LinkAt(next2, l + [x], i) {
        assert i < |l| ==> LinkAt(next, l, i);
      }
    }
  }

  /** Unthreading the head. */
  lemma PopLinked(next: seq<Option<nat>>, l: seq<nat>, head: Option<nat>, tail: Option<nat>)
    requires Linked(next, l, head, tail) && AllDifferent(l) && l != []
    ensures l[0] < |next| && Linked(next[l[0] := None], l[1..], next[l[0]], if tail == Some(l[0]) then None else tail)
  {
    var r := l[1..];
    assert LinkAt(next, l, 0);
    var next2 := next[l[0] := None];
    forall i: nat | i < |r| ensures LinkAt(next2, r, i) {
      assert LinkAt(next, l, i + 1);
    }
    assert |l| > 1 ==> l[0] != l[|l| - 1];
  }

  /** Unthreading position `k`, whose predecessor takes over its link. */
  lemma CutLinked(next: seq<Option<nat>>, l: seq<nat>, head: Option<nat>, tail: Option<nat>, k: nat)
    requires Linked(next, l, head, tail) && AllDifferent(l) && 0 < k < |l|
    ensures l[k] < |next| && l[k - 1] < |next|
    ensures Linked(next[l[k - 1] := next[l[k]]][l[k] := None], l[..k] + l[k + 1..], head,
              if tail == Some(l[k]) then Some(l[k - 1]) else tail)
  {
    var x, y, r := l[k], l[k - 1], l[..k] + l[k + 1..];
    assert LinkAt(next, l, k) && LinkAt(next, l, k - 1);
    var next2 := next[y := next[x]][x := None];
    forall i: nat | i < |r| ensures LinkAt(next2, r, i) {
      assert LinkAt(next, l, if i < k then i else i + 1);
    }
    assert tail == Some(x) <==> k == |l| - 1;
  }

  lemma FrameLinked(next: seq<Option<nat>>, next2: seq<Option<nat>>, l: seq<nat>, head: Option<nat>, tail: Option<nat>)
    requires Linked(next, l, head, tail) && |next| == |next2|
    requires forall x :: x in l ==> x < |next| && next2[x] == next[x]
    ensures Linked(next2, l, head, tail)
  {
    forall i: nat | i < |l| ensures LinkAt(next2, l, i) {
      assert LinkAt(next, l, i) && l[i] in l;
    }
  }

  // ------------------------------------------------------------ one level

  ghost predicate LevelOk(next: seq<Option<nat>>, q: Queue, order: seq<Entry>, c: nat, p: nat)
    requires p < |q.heads| && p < |q.tails| && p < |q.bits|
  {
    && Linked(next, Level(order, c, p), q.heads[p], q.tails[p])
    && (q.bits[p] <==> Level(order, c, p) != [])
  }

  ghost predicate QueueOk(next: seq<Option<nat>>, q: Queue, order: seq<Entry>, c: nat) {
    && |q.bits| == LEVELS && |q.heads| == LEVELS && |q.tails| == LEVELS
    && q.running == OnCpu(order, c)
    && forall p: nat :: p < LEVELS ==> LevelOk(next, q, order, c, p)
  }

  ghost predicate OrderOk(order: seq<Entry>, cpu: seq<nat>, prio: seq<nat>)
    requires |cpu| == MAX_TASKS && |prio| == MAX_TASKS
  {
    && Distinct(order)
    && forall i :: 0 <= i < |order| ==>
         && order[i].tid < MAX_TASKS && order[i].cpu < MAX_CPUS && order[i].prio < LEVELS
         && cpu[order[i].tid] == order[i].cpu && prio[order[i].tid] == order[i].prio
  }

  /** A queue none of whose tasks has its link changed is unaffected. */
  lemma FrameQueue(next: seq<Option<nat>>, next2: seq<Option<nat>>, q: Queue, order: seq<Entry>, order2: seq<Entry>,
                   c: nat)
    requires QueueOk(next, q, order, c) && |next| == |next2| && OnCpu(order2, c) == OnCpu(order, c)
    requires forall p: nat :: p < LEVELS ==> Level(order2, c, p) == Level(order, c, p)
    requires forall e :: e in order && e.cpu == c ==> e.tid < |next| && next2[e.tid] == next[e.tid]
    ensures QueueOk(next2, q, order2, c)
  {
    forall p: nat | p < LEVELS ensures LevelOk(next2, q, order2, c, p) {
      assert LevelOk(next, q, order, c, p);
      FrameLevel(next, next2, q, order, c, p);
    }
  }

  lemma FrameLevel(next: seq<Option<nat>>, next2: seq<Option<nat>>, q: Queue, order: seq<Entry>, c: nat, p: nat)
    requires QueueOk(next, q, order, c) && |next| == |next2| && p < LEVELS
    requires forall e :: e in order && e.cpu == c && e.prio == p ==> e.tid < |next| && next2[e.tid] == next[e.tid]
    ensures Linked(next2, Level(order, c, p), q.heads[p], q.tails[p])
  {
    assert LevelOk(next, q, order, c, p);
    forall x | x in Level(order, c, p) ensures x < |next| && next2[x] == next[x] {
      LevelMember(order, c, p, x);
      assert Entry(x, c, p).tid == x;
    }
    FrameLinked(next, next2, Level(order, c, p), q.heads[p], q.tails[p]);
  }

  lemma SameTask(order: seq<Entry>, d: Entry, e: Entry)
    requires Distinct(order) && d in order && e in order && d != e
    ensures d.tid != e.tid
  {}

  /** Rebuilding one level, with no link of the other levels' tasks changed,
      rebuilds the queue. */
  lemma ChangeLevel(next: seq<Option<nat>>, next2: seq<Option<nat>>, q: Queue, q2: Queue,
                    order: seq<Entry>, order2: seq<Entry>, c: nat, p: nat)
    requires QueueOk(next, q, order, c) && |next| == |next2| && p < LEVELS
    requires |q2.bits| == LEVELS && |q2.heads| == LEVELS && |q2.tails| == LEVELS && q2.running == OnCpu(order2, c)
    requires LevelOk(next2, q2, order2, c, p)
    requires forall r: nat :: r < LEVELS && r != p ==>
      Level(order2, c, r) == Level(order, c, r) && q2.heads[r] == q.heads[r] && q2.tails[r] == q.tails[r]
        && q2.bits[r] == q.bits[r]
    requires forall e :: e in order && e.cpu == c && e.prio != p ==> e.tid < |next| && next2[e.tid] == next[e.tid]
    ensures QueueOk(next2, q2, order2, c)
  {
    forall r: nat | r < LEVELS ensures LevelOk(next2, q2, order2, c, r) {
      if r != p {
        assert LevelOk(next, q, order, c, r);
        FrameLevel(next, next2, q, order, c, r);
      }
    }
  }

  // ------------------------------------------------------ the three moves

  /** What enqueue_task does to the threads and to one CPU's queue. */
  function PushNext(next: seq<Option<nat>>, q: Queue, x: nat, p: nat): seq<Option<nat>>
    requires x < |next| && p < |q.tails| && (q.tails[p].Some? ==> q.tails[p].value < |next|)
  {
    var n := next[x := None];
    if q.tails[p].None? then n else n[q.tails[p].value := Some(x)]
  }

  function PushQueue(q: Queue, x: nat, p: nat): Queue
    requires p < |q.heads| && p < |q.tails| && p < |q.bits|
  {
    if q.tails[p].None?
    then Queue(q.bits[p := true], q.heads[p := Some(x)], q.tails[p := Some(x)], q.running + 1)
    else q.(tails := q.tails[p := Some(x)], running := q.running + 1)
  }

  ghost predicate TailKnown(next: seq<Option<nat>>, q: Queue, order: seq<Entry>, c: nat, p: nat) {
    p < |q.tails| && (q.tails[p].Some? ==> q.tails[p].value < |next| && Entry(q.tails[p].value, c, p) in order)
  }

  lemma TailIsKnown(next: seq<Option<nat>>, q: Queue, order: seq<Entry>, c: nat, p: nat)
    requires QueueOk(next, q, order, c) && p < LEVELS
    ensures TailKnown(next, q, order, c, p)
  {
    var l := Level(order, c, p);
    assert LevelOk(next, q, order, c, p);
    if l != [] {
      assert LinkAt(next, l, |l| - 1);
      LevelMember(order, c, p, l[|l| - 1]);
    }
  }

  lemma PushOk(next: seq<Option<nat>>, q: Queue, order: seq<Entry>, c: nat, x: nat, p: nat)
    requires QueueOk(next, q, order, c) && Distinct(order) && !Waiting(order, x) && x < |next| && p < LEVELS
    requires Known(order, |next|)
    ensures TailKnown(next, q, order, c, p)
    ensures QueueOk(PushNext(next, q, x, p), PushQueue(q, x, p), order + [Entry(x, c, p)], c)
  {
    TailIsKnown(next, q, order, c, p);
    var e, l, next2 := Entry(x, c, p), Level(order, c, p), PushNext(next, q, x, p);
    assert (order + [e])[..|order|] == order;
    assert LevelOk(next, q, order, c, p);
    LevelDistinct(order, c, p);
    LevelMember(order, c, p, x);
    PushLinked(next, l, q.heads[p], q.tails[p], x);
    forall d | d in order && d.cpu == c && d.prio != p ensures d.tid < |next| && next2[d.tid] == next[d.tid] {
      if l != [] { SameTask(order, d, Entry(l[|l| - 1], c, p)); }
    }
    ChangeLevel(next, next2, q, PushQueue(q, x, p), order, order + [e], c, p);
  }

  /** Unthreading task `x`, which follows `prev` at its level. */
  function CutNext(next: seq<Option<nat>>, x: nat, prev: Option<nat>): seq<Option<nat>>
    requires x < |next| && (prev.Some? ==> prev.value < |next|)
  {
    if prev.None? then next[x := None] else next[prev.value := next[x]][x := None]
  }

  function CutQueue(q: Queue, p: nat, x: nat, prev: Option<nat>, after: Option<nat>): Queue
    requires p < |q.heads| && p < |q.tails| && p < |q.bits| && q.running > 0
  {
    var h := if prev.None? then after else q.heads[p];
    Queue(q.bits[p := q.bits[p] && h.Some?], q.heads[p := h],
          q.tails[p := if q.tails[p] == Some(x) then prev else q.tails[p]], q.running - 1)
  }

  /** The task in front of entry `i` at its level. */
  ghost function Before(order: seq<Entry>, i: nat): Option<nat>
    requires i < |order|
  {
    var l := Level(order[..i], order[i].cpu, order[i].prio);
    if l == [] then None else Some(l[|l| - 1])
  }

  lemma {:induction false} BeforeIn(order: seq<Entry>, i: nat)
    requires i < |order|
    ensures var e, l := order[i], Level(order, order[i].cpu, order[i].prio);
      var k := |Level(order[..i], e.cpu, e.prio)|;
      && k < |l| && l[k] == e.tid
      && (k == 0 ==> Before(order, i).None?)
      && (k > 0 ==> Before(order, i) == Some(l[k - 1]) && Entry(l[k - 1], e.cpu, e.prio) in order)
  {
    var e := order[i];
    var a := Level(order[..i], e.cpu, e.prio);
    LevelWithout(order, i, e.cpu, e.prio);
    assert order == order[..i] + order[i..];
    LevelConcat(order[..i], order[i..], e.cpu, e.prio);
    if a != [] {
      LevelMember(order[..i], e.cpu, e.prio, a[|a| - 1]);
    }
  }

  lemma CutAny(next: seq<Option<nat>>, l: seq<nat>, head: Option<nat>, tail: Option<nat>, k: nat, prev: Option<nat>)
    requires Linked(next, l, head, tail) && AllDifferent(l) && k < |l|
    requires prev == if k == 0 then None else Some(l[k - 1])
    ensures l[k] < |next| && (prev.Some? ==> prev.value < |next|)
    ensures Linked(CutNext(next, l[k], prev), l[..k] + l[k + 1..], if k == 0 then next[l[k]] else head,
              if tail == Some(l[k]) then prev else tail)
  {
    assert LinkAt(next, l, k);
    if k == 0 {
      PopLinked(next, l, head, tail);
      assert l[..k] + l[k + 1..] == l[1..];
    } else {
      assert LinkAt(next, l, k - 1);
      CutLinked(next, l, head, tail, k);
    }
  }

  lemma CutLevel(next: seq<Option<nat>>, q: Queue, order: seq<Entry>, i: nat)
    requires i < |order| && order[i].prio < LEVELS && QueueOk(next, q, order, order[i].cpu) && Distinct(order)
    requires Known(order, |next|)
    ensures Before(order, i).Some? ==>
      Before(order, i).value < |next| && Entry(Before(order, i).value, order[i].cpu, order[i].prio) in order
    ensures q.running > 0
    ensures var e, b := order[i], Before(order, i);
      LevelOk(CutNext(next, e.tid, b), CutQueue(q, e.prio, e.tid, b, next[e.tid]), Without(order, i), e.cpu, e.prio)
  {
    var e := order[i];
    var l, k := Level(order, e.cpu, e.prio), |Level(order[..i], e.cpu, e.prio)|;
    BeforeIn(order, i);
    LevelWithout(order, i, e.cpu, e.prio);
    LevelDistinct(order, e.cpu, e.prio);
    assert LevelOk(next, q, order, e.cpu, e.prio);
    CutAny(next, l, q.heads[e.prio], q.tails[e.prio], k, Before(order, i));
  }

  lemma CutOk(next: seq<Option<nat>>, q: Queue, order: seq<Entry>, i: nat)
    requires i < |order| && order[i].prio < LEVELS && QueueOk(next, q, order, order[i].cpu) && Distinct(order)
    requires Known(order, |next|)
    ensures Before(order, i).Some? ==>
      Before(order, i).value < |next| && Entry(Before(order, i).value, order[i].cpu, order[i].prio) in order
    ensures q.running > 0
    ensures var e, b := order[i], Before(order, i);
      QueueOk(CutNext(next, e.tid, b), CutQueue(q, e.prio, e.tid, b, next[e.tid]), Without(order, i), e.cpu)
  {
    var e, b := order[i], Before(order, i);
    CutLevel(next, q, order, i);
    var next2 := CutNext(next, e.tid, b);
    forall r: nat | r < LEVELS && r != e.prio ensures Level(Without(order, i), e.cpu, r) == Level(order, e.cpu, r) {
      LevelWithout(order, i, e.cpu, r);
    }
    LevelWithout(order, i, e.cpu, e.prio);
    forall d | d in order && d.cpu == e.cpu && d.prio != e.prio ensures d.tid < |next| && next2[d.tid] == next[d.tid] {
      SameTask(order, d, e);
      if b.Some? { SameTask(order, d, Entry(b.value, e.cpu, e.prio)); }
    }
    ChangeLevel(next, next2, q, CutQueue(q, e.prio, e.tid, b, next[e.tid]), order, Without(order, i), e.cpu, e.prio);
  }

  // --------------------------------------------------- the other CPU's queue

  lemma PushFrame(next: seq<Option<nat>>, next2: seq<Option<nat>>, q: Queue, order: seq<Entry>, e: Entry, c: nat,
                  touched: Option<Entry>)
    requires QueueOk(next, q, order, c) && Distinct(order) && Known(order, |next|) && c != e.cpu
    requires !Waiting(order, e.tid)
    requires |next| == |next2| && (touched.Some? ==> touched.value in order && touched.value.cpu == e.cpu)
    requires forall x :: 0 <= x < |next| && x != e.tid && (touched.Some? ==> x != touched.value.tid) ==>
      next2[x] == next[x]
    ensures QueueOk(next2, q, order + [e], c)
  {
    assert (order + [e])[..|order|] == order;
    forall d | d in order && d.cpu == c ensures d.tid < |next| && next2[d.tid] == next[d.tid] {
      if touched.Some? { SameTask(order, d, touched.value); }
    }
    FrameQueue(next, next2, q, order, order + [e], c);
  }

  lemma CutFrame(next: seq<Option<nat>>, next2: seq<Option<nat>>, q: Queue, order: seq<Entry>, i: nat, c: nat,
                 touched: Option<Entry>)
    requires i < |order| && QueueOk(next, q, order, c) && Distinct(order) && Known(order, |next|) && c != order[i].cpu
    requires |next| == |next2| && (touched.Some? ==> touched.value in order && touched.value.cpu == order[i].cpu)
    requires forall x :: 0 <= x < |next| && x != order[i].tid && (touched.Some? ==> x != touched.value.tid) ==>
      next2[x] == next[x]
    ensures QueueOk(next2, q, Without(order, i), c)
  {
    forall p: nat ensures Level(Without(order, i), c, p) == Level(order, c, p) {
      LevelWithout(order, i, c, p);
    }
    LevelWithout(order, i, c, 0);
    forall d | d in order && d.cpu == c ensures d.tid < |next| && next2[d.tid] == next[d.tid] {
      SameTask(order, d, order[i]);
      if touched.Some? { SameTask(order, d, touched.value); }
    }
    FrameQueue(next, next2, q, order, Without(order, i), c);
  }

  // ------------------------------------------------------------ both queues

  ghost predicate AllOk(next: seq<Option<nat>>, queues: seq<Queue>, order: seq<Entry>, cpu: seq<nat>, prio: seq<nat>) {
    && |next| == MAX_TASKS && |cpu| == MAX_TASKS && |prio| == MAX_TASKS && |queues| == MAX_CPUS
    && OrderOk(order, cpu, prio)
    && forall c: nat :: c < MAX_CPUS ==> QueueOk(next, queues[c], order, c)
  }

  lemma PushAll(next: seq<Option<nat>>, queues: seq<Queue>, order: seq<Entry>, cpu: seq<nat>, prio: seq<nat>, e: Entry)
    requires AllOk(next, queues, order, cpu, prio) && !Waiting(order, e.tid)
    requires e.tid < MAX_TASKS && e.cpu == cpu[e.tid] < MAX_CPUS && e.prio == prio[e.tid] < LEVELS
    ensures TailKnown(next, queues[e.cpu], order, e.cpu, e.prio) && |queues[e.cpu].heads| == LEVELS
    ensures |queues[e.cpu].bits| == LEVELS
    ensures var q := queues[e.cpu];
      AllOk(PushNext(next, q, e.tid, e.prio), queues[e.cpu := PushQueue(q, e.tid, e.prio)], order + [e], cpu, prio)
  {
    var c, q := e.cpu, queues[e.cpu];
    PushOk(next, q, order, c, e.tid, e.prio);
    var touched := if q.tails[e.prio].None? then None else Some(Entry(q.tails[e.prio].value, c, e.prio));
    PushFrame(next, PushNext(next, q, e.tid, e.prio), queues[1 - c], order, e, 1 - c, touched);
  }

  lemma CutAll(next: seq<Option<nat>>, queues: seq<Queue>, order: seq<Entry>, cpu: seq<nat>, prio: seq<nat>, i: nat)
    requires AllOk(next, queues, order, cpu, prio) && i < |order|
    ensures order[i].tid < MAX_TASKS && order[i].cpu < MAX_CPUS && order[i].prio < LEVELS
    ensures Before(order, i).Some? ==> Before(order, i).value < MAX_TASKS
    ensures var q := queues[order[i].cpu];
      q.running > 0 && |q.heads| == LEVELS && |q.tails| == LEVELS && |q.bits| == LEVELS
    ensures var e, b := order[i], Before(order, i);
      AllOk(CutNext(next, e.tid, b), queues[e.cpu := CutQueue(queues[e.cpu], e.prio, e.tid, b, next[e.tid])],
        Without(order, i), cpu, prio)
  {
    var e, b := order[i], Before(order, i);
    CutOk(next, queues[e.cpu], order, i);
    var touched := if b.None? then None else Some(Entry(b.value, e.cpu, e.prio));
    CutFrame(next, CutNext(next, e.tid, b), queues[1 - e.cpu], order, i, 1 - e.cpu, touched);
    WithoutOk(order, cpu, prio, i);
  }

  lemma WithoutOk(order: seq<Entry>, cpu: seq<nat>, prio: seq<nat>, i: nat)
    requires |cpu| == MAX_TASKS && |prio| == MAX_TASKS && OrderOk(order, cpu, prio) && i < |order|
    ensures OrderOk(Without(order, i), cpu, prio) && !Waiting(Without(order, i), order[i].tid)
  {}

  /** Giving a task that is not waiting another CPU or priority disturbs no
      queue. */
  lemma RetuneOk(order: seq<Entry>, cpu: seq<nat>, prio: seq<nat>, tid: nat, c: nat, p: nat)
    requires |cpu| == MAX_TASKS && |prio| == MAX_TASKS && OrderOk(order, cpu, prio) && tid < MAX_TASKS
    requires !Waiting(order, tid)
    ensures OrderOk(order, cpu[tid := c], prio[tid := p])
  {}

  lemma HeadIsTail(next: seq<Option<nat>>, l: seq<nat>, head: Option<nat>, tail: Option<nat>)
    requires Linked(next, l, head, tail) && AllDifferent(l) && l != []
    ensures l[0] < |next| && (next[l[0]].None? <==> tail == Some(l[0]))
  {
    assert LinkAt(next, l, 0);
  }

  /** What dequeue_task does to the queue whose level `p` it serves. */
  function TakeQueue(q: Queue, p: nat, h: Option<nat>): Queue
    requires p < |q.heads| && p < |q.tails| && p < |q.bits| && q.running > 0
  {
    if h.None?
    then Queue(q.bits[p := false], q.heads[p := None], q.tails[p := None], q.running - 1)
    else Queue(q.bits, q.heads[p := h], q.tails, q.running - 1)
  }

  /** Serving the head of the lowest level takes out the best entry. */
  lemma TakeAll(next: seq<Option<nat>>, queues: seq<Queue>, order: seq<Entry>, cpu: seq<nat>, prio: seq<nat>, c: nat,
                p: nat)
    returns (i: nat)
    requires AllOk(next, queues, order, cpu, prio) && c < MAX_CPUS && p < LEVELS && Level(order, c, p) != []
    requires forall r :: 0 <= r < p ==> Level(order, c, r) == []
    ensures Best(order, c, i)
    ensures var q := queues[c];
      && |q.heads| == LEVELS && |q.tails| == LEVELS && |q.bits| == LEVELS && q.running > 0
      && q.heads[p] == Some(order[i].tid) && order[i].tid < MAX_TASKS
      && AllOk(next[order[i].tid := None], queues[c := TakeQueue(q, p, next[order[i].tid])], Without(order, i), cpu,
        prio)
  {
    i := HeadIsBest(order, c, p);
    assert LevelOk(next, queues[c], order, c, p);
    CutAll(next, queues, order, cpu, prio, i);
    LevelDistinct(order, c, p);
    var q, x := queues[c], order[i].tid;
    HeadIsTail(next, Level(order, c, p), q.heads[p], q.tails[p]);
    assert CutQueue(q, p, x, None, next[x]) == TakeQueue(q, p, next[x]);
  }

  /** A waiting task waits at the level of its priority on its CPU. */
  lemma OnlyThere(order: seq<Entry>, cpu: seq<nat>, prio: seq<nat>, tid: nat)
    requires |cpu| == MAX_TASKS && |prio| == MAX_TASKS && OrderOk(order, cpu, prio) && tid < MAX_TASKS
    ensures Waiting(order, tid) <==> tid in Level(order, cpu[tid], prio[tid])
  {}

  /** The entry behind position `k` of a level. */
  lemma {:induction false} EntryAt(order: seq<Entry>, c: nat, p: nat, k: nat) returns (i: nat)
    requires k < |Level(order, c, p)|
    ensures i < |order| && order[i] == Entry(Level(order, c, p)[k], c, p) && |Level(order[..i], c, p)| == k
  {
    var n := |order| - 1;
    if k == |Level(order[..n], c, p)| {
      i := n;
    } else {
      i := EntryAt(order[..n], c, p, k);
      assert order[..n][..i] == order[..i];
    }
  }

  /** What remove_from_runqueue leaves of a level's queue. */
  function RemoveQueue(q: Queue, p: nat, x: nat, prev: Option<nat>, after: Option<nat>): Queue
    requires p < |q.heads| && p < |q.tails| && p < |q.bits| && q.running > 0
  {
    var h := if prev.None? then after else q.heads[p];
    Queue(if h.None? then q.bits[p := false] else q.bits, if prev.None? then q.heads[p := h] else q.heads,
          if q.tails[p] == Some(x) then q.tails[p := prev] else q.tails, q.running - 1)
  }

  /** Task `x` is at position `k`, behind `prev`. */
  predicate Follows(l: seq<nat>, k: nat, x: nat, prev: Option<nat>) {
    k < |l| && l[k] == x && prev == if k == 0 then None else Some(l[k - 1])
  }

  lemma CutAt(next: seq<Option<nat>>, queues: seq<Queue>, order: seq<Entry>, cpu: seq<nat>, prio: seq<nat>, tid: nat,
              k: nat, prev: Option<nat>)
    returns (i: nat)
    requires AllOk(next, queues, order, cpu, prio) && tid < MAX_TASKS && cpu[tid] < MAX_CPUS && prio[tid] < LEVELS
    requires Follows(Level(order, cpu[tid], prio[tid]), k, tid, prev)
    ensures i < |order| && order[i].tid == tid && (prev.Some? ==> prev.value < MAX_TASKS)
    ensures var q := queues[cpu[tid]]; q.running > 0 && |q.heads| == LEVELS && |q.tails| == LEVELS && |q.bits| == LEVELS
    ensures AllOk(CutNext(next, tid, prev),
      queues[cpu[tid] := RemoveQueue(queues[cpu[tid]], prio[tid], tid, prev, next[tid])], Without(order, i), cpu, prio)
    ensures !Waiting(Without(order, i), tid)
  {
    var c, p := cpu[tid], prio[tid];
    i := EntryAt(order, c, p, k);
    BeforeIn(order, i);
    CutAll(next, queues, order, cpu, prio, i);
    WithoutOk(order, cpu, prio, i);
    assert LevelOk(next, queues[c], order, c, p);
    assert RemoveQueue(queues[c], p, tid, prev, next[tid]) == CutQueue(queues[c], p, tid, prev, next[tid]);
  }

  lemma NoneWaiting(order: seq<Entry>, cpu: seq<nat>, prio: seq<nat>, c: nat)
    requires |cpu| == MAX_TASKS && |prio| == MAX_TASKS && OrderOk(order, cpu, prio)
    requires forall p :: 0 <= p < LEVELS ==> Level(order, c, p) == []
    ensures forall i :: 0 <= i < |order| ==> order[i].cpu != c
  {
    forall i | 0 <= i < |order| ensures order[i].cpu != c {
      LevelMember(order, c, order[i].prio, order[i].tid);
    }
  }

  // ------------------------------------------------- a task queued twice

  /** The queues are those of no arrival order at all. */
  ghost predicate Broken(next: seq<Option<nat>>, queues: seq<Queue>, cpu: seq<nat>, prio: seq<nat>) {
    forall order :: !AllOk(next, queues, order, cpu, prio)
  }

  /** Threads that start alike are alike as far as their links agree. */
  lemma {:induction false} SameThread(next: seq<Option<nat>>, next2: seq<Option<nat>>, l: seq<nat>, l2: seq<nat>,
                                      head: Option<nat>, tail: Option<nat>, tail2: Option<nat>, k: nat)
    requires Linked(next, l, head, tail) && Linked(next2, l2, head, tail2) && k < |l| && |next| == |next2|
    requires forall i :: 0 <= i < k ==> l[i] < |next| && next2[l[i]] == next[l[i]]
    ensures k < |l2| && l2[k] == l[k]
  {
    if k > 0 {
      SameThread(next, next2, l, l2, head, tail, tail2, k - 1);
      assert LinkAt(next, l, k - 1) && LinkAt(next2, l2, k - 1);
    }
  }

  lemma SameList(next: seq<Option<nat>>, next2: seq<Option<nat>>, l: seq<nat>, l2: seq<nat>,
                 head: Option<nat>, tail: Option<nat>, tail2: Option<nat>)
    requires Linked(next, l, head, tail) && Linked(next2, l2, head, tail2) && |next| == |next2|
    requires forall i :: 0 <= i < |l| ==> l[i] < |next| && next2[l[i]] == next[l[i]]
    ensures l2 == l
  {
    forall k | 0 <= k < |l| ensures k < |l2| && l2[k] == l[k] {
      SameThread(next, next2, l, l2, head, tail, tail2, k);
    }
    if l != [] {
      assert LinkAt(next, l, |l| - 1) && LinkAt(next2, l2, |l| - 1);
    }
  }

  /** Tasks at the first `n` levels of a CPU. */
  function Total(order: seq<Entry>, c: nat, n: nat): nat {
    if n == 0 then 0 else Total(order, c, n - 1) + |Level(order, c, n - 1)|
  }

  lemma {:induction false} TotalSnoc(order: seq<Entry>, e: Entry, c: nat, n: nat)
    ensures Total(order + [e], c, n) == Total(order, c, n) + if e.cpu == c && e.prio < n then 1 else 0
  {
    if n > 0 {
      TotalSnoc(order, e, c, n - 1);
      assert (order + [e])[..|order|] == order;
    }
  }

  lemma {:induction false} NoTotal(c: nat, n: nat)
    ensures Total([], c, n) == 0
  {
    if n > 0 { NoTotal(c, n - 1); }
  }

  /** Every waiting task is at one level. */
  lemma {:induction false} TotalIsAll(order: seq<Entry>, c: nat, n: nat)
    requires forall i :: 0 <= i < |order| ==> order[i].prio < n
    ensures Total(order, c, n) == OnCpu(order, c)
  {
    if order == [] {
      NoTotal(c, n);
    } else {
      var m := |order| - 1;
      TotalIsAll(order[..m], c, n);
      TotalSnoc(order[..m], order[m], c, n);
      assert order == order[..m] + [order[m]];
    }
  }

  /** Orders that differ at level `p` only. */
  lemma {:induction false} TotalsDiffer(a: seq<Entry>, b: seq<Entry>, c: nat, p: nat, n: nat)
    requires forall r: nat :: r < n && r != p ==> |Level(a, c, r)| == |Level(b, c, r)|
    ensures Total(a, c, n) + (if p < n then |Level(b, c, p)| else 0) == Total(b, c, n) + if p < n then |Level(a, c, p)|
      else 0
  {
    if n > 0 { TotalsDiffer(a, b, c, p, n - 1); }
  }

  /** A level none of whose links changed is that of any order the queue has. */
  lemma SameLevel(next: seq<Option<nat>>, next2: seq<Option<nat>>, q: Queue, q2: Queue,
                  order: seq<Entry>, o: seq<Entry>, c: nat, r: nat)
    requires r < |q.heads| && r < |q.tails| && r < |q.bits| && r < |q2.heads| && r < |q2.tails| && r < |q2.bits|
    requires LevelOk(next, q, order, c, r) && LevelOk(next2, q2, o, c, r) && |next| == |next2|
    requires q2.heads[r] == q.heads[r]
    requires forall x :: x in Level(order, c, r) ==> x < |next| && next2[x] == next[x]
    ensures Level(o, c, r) == Level(order, c, r)
  {
    var l := Level(order, c, r);
    assert forall i :: 0 <= i < |l| ==> l[i] in l;
    SameList(next, next2, l, Level(o, c, r), q.heads[r], q.tails[r], q2.tails[r]);
  }

  /** Up to task `x`, whose own link may have changed, a level is still there. */
  lemma StillListed(next: seq<Option<nat>>, next2: seq<Option<nat>>, q: Queue, q2: Queue,
                    order: seq<Entry>, o: seq<Entry>, c: nat, r: nat, k: nat)
    requires r < |q.heads| && r < |q.tails| && r < |q.bits| && r < |q2.heads| && r < |q2.tails| && r < |q2.bits|
    requires LevelOk(next, q, order, c, r) && LevelOk(next2, q2, o, c, r) && |next| == |next2|
    requires q2.heads[r] == q.heads[r]
    requires k < |Level(order, c, r)|
    requires forall i :: 0 <= i < k ==>
      Level(order, c, r)[i] < |next| && next2[Level(order, c, r)[i]] == next[Level(order, c, r)[i]]
    ensures k < |Level(o, c, r)| && Level(o, c, r)[k] == Level(order, c, r)[k]
  {
    SameThread(next, next2, Level(order, c, r), Level(o, c, r), q.heads[r], q.tails[r], q2.tails[r], k);
  }

  /** Queueing a task again behind its own level cuts off the tasks behind it. */
  lemma TwiceShort(next: seq<Option<nat>>, q: Queue, order: seq<Entry>, c: nat, p: nat, k: nat, o: seq<Entry>)
    requires QueueOk(next, q, order, c) && p < LEVELS && k < |Level(order, c, p)| && AllDifferent(Level(order, c, p))
    requires TailKnown(next, q, order, c, p) && Level(order, c, p)[k] < |next|
    requires var x := Level(order, c, p)[k]; LevelOk(PushNext(next, q, x, p), PushQueue(q, x, p), o, c, p)
    ensures |Level(o, c, p)| <= k + 1
  {
    var l, x := Level(order, c, p), Level(order, c, p)[k];
    var next2, q2 := PushNext(next, q, x, p), PushQueue(q, x, p);
    assert LevelOk(next, q, order, c, p);
    forall i | 0 <= i < k ensures l[i] < |next| && next2[l[i]] == next[l[i]] {
      assert LinkAt(next, l, i);
    }
    StillListed(next, next2, q, q2, order, o, c, p, k);
    var l2 := Level(o, c, p);
    assert LinkAt(next2, l2, k) && LinkAt(next2, l2, |l2| - 1);
  }

  lemma OtherLevels(next: seq<Option<nat>>, q: Queue, order: seq<Entry>, c: nat, p: nat, x: nat, o: seq<Entry>, r: nat)
    requires QueueOk(next, q, order, c) && Distinct(order) && p < LEVELS && r < LEVELS && r != p && x < |next|
    requires Known(order, |next|) && TailKnown(next, q, order, c, p) && x !in Level(order, c, r)
    requires LevelOk(PushNext(next, q, x, p), PushQueue(q, x, p), o, c, r)
    ensures Level(o, c, r) == Level(order, c, r)
  {
    var next2 := PushNext(next, q, x, p);
    forall y | y in Level(order, c, r) ensures y < |next| && next2[y] == next[y] {
      LevelMember(order, c, r, y);
      assert Entry(y, c, r).tid == y;
      if q.tails[p].Some? { SameTask(order, Entry(y, c, r), Entry(q.tails[p].value, c, p)); }
    }
    assert LevelOk(next, q, order, c, r);
    SameLevel(next, next2, q, PushQueue(q, x, p), order, o, c, r);
  }

  /** No arrival order has the queue: its level lost the tasks behind the task, or
      runs in a circle, and the count of waiting tasks is off. */
  lemma TwiceNoQueue(next: seq<Option<nat>>, q: Queue, order: seq<Entry>, c: nat, p: nat, tid: nat, o: seq<Entry>)
    requires QueueOk(next, q, order, c) && Distinct(order) && Known(order, |next|) && p < LEVELS && tid < |next|
    requires Entry(tid, c, p) in order && TailKnown(next, q, order, c, p)
    requires forall i :: 0 <= i < |order| ==> order[i].prio < LEVELS
    requires forall i :: 0 <= i < |o| ==> o[i].prio < LEVELS
    ensures !QueueOk(PushNext(next, q, tid, p), PushQueue(q, tid, p), o, c)
  {
    var next2, q2 := PushNext(next, q, tid, p), PushQueue(q, tid, p);
    if QueueOk(next2, q2, o, c) {
      LevelMember(order, c, p, tid);
      LevelDistinct(order, c, p);
      var k :| 0 <= k < |Level(order, c, p)| && Level(order, c, p)[k] == tid;
      assert LevelOk(next2, q2, o, c, p);
      TwiceShort(next, q, order, c, p, k, o);
      forall r: nat | r < LEVELS && r != p ensures Level(o, c, r) == Level(order, c, r) {
        assert LevelOk(next2, q2, o, c, r);
        LevelMember(order, c, r, tid);
        OtherLevels(next, q, order, c, p, tid, o, r);
      }
      TotalsDiffer(o, order, c, p, LEVELS);
      TotalIsAll(o, c, LEVELS);
      TotalIsAll(order, c, LEVELS);
      assert false;
    }
  }

  /** A task that waits and is queued again leaves the queues in no order. */
  lemma TwiceBreaks(next: seq<Option<nat>>, queues: seq<Queue>, order: seq<Entry>, cpu: seq<nat>, prio: seq<nat>,
                    tid: nat)
    requires AllOk(next, queues, order, cpu, prio) && tid < MAX_TASKS && Waiting(order, tid)
    ensures cpu[tid] < MAX_CPUS && prio[tid] < LEVELS && TailKnown(next, queues[cpu[tid]], order, cpu[tid], prio[tid])
    ensures |queues[cpu[tid]].heads| == LEVELS && |queues[cpu[tid]].bits| == LEVELS
    ensures var c, p := cpu[tid], prio[tid];
      Broken(PushNext(next, queues[c], tid, p), queues[c := PushQueue(queues[c], tid, p)], cpu, prio)
  {
    var c, p := cpu[tid], prio[tid];
    var q := queues[c];
    OnlyThere(order, cpu, prio, tid);
    LevelMember(order, c, p, tid);
    TailIsKnown(next, q, order, c, p);
    var next2, queues2 := PushNext(next, q, tid, p), queues[c := PushQueue(q, tid, p)];
    forall o ensures !AllOk(next2, queues2, o, cpu, prio) {
      if AllOk(next2, queues2, o, cpu, prio) {
        assert queues2[c] == PushQueue(q, tid, p) && QueueOk(next2, queues2[c], o, c);
        TwiceNoQueue(next, q, order, c, p, tid, o);
        assert false;
      }
    }
  }

  /** A waiting task whose priority is changed under it is still at its old level,
      where it does not belong, also after it was queued at the new one. */
  lemma MovedBreaks(next: seq<Option<nat>>, queues: seq<Queue>, order: seq<Entry>, cpu: seq<nat>, prio: seq<nat>,
                    tid: nat, p: nat, again: bool)
    requires AllOk(next, queues, order, cpu, prio) && tid < MAX_TASKS && Waiting(order, tid) && p < LEVELS
    requires p != prio[tid]
    ensures cpu[tid] < MAX_CPUS && TailKnown(next, queues[cpu[tid]], order, cpu[tid], p)
    ensures var c := cpu[tid]; |queues[c].heads| == LEVELS && |queues[c].bits| == LEVELS
    ensures var c := cpu[tid];
      if again then Broken(PushNext(next, queues[c], tid, p), queues[c := PushQueue(queues[c], tid, p)], cpu,
        prio[tid := p])
      else Broken(next, queues, cpu, prio[tid := p])
  {
    var c, was := cpu[tid], prio[tid];
    var q := queues[c];
    OnlyThere(order, cpu, prio, tid);
    TailIsKnown(next, q, order, c, p);
    var next2, q2 := if again then PushNext(next, q, tid, p) else next, if again then PushQueue(q, tid, p) else q;
    var queues2, prio2 := queues[c := q2], prio[tid := p];
    forall o ensures !AllOk(next2, queues2, o, cpu, prio2) {
      if AllOk(next2, queues2, o, cpu, prio2) {
        assert queues2[c] == q2 && QueueOk(next2, queues2[c], o, c);
        LeftBehind(next, next2, q, q2, order, o, c, was, p, tid);
        LevelMember(o, c, was, tid);
        assert false;
      }
    }
    assert queues[c := q] == queues;
  }

  lemma LeftBehind(next: seq<Option<nat>>, next2: seq<Option<nat>>, q: Queue, q2: Queue,
                   order: seq<Entry>, o: seq<Entry>, c: nat, was: nat, p: nat, tid: nat)
    requires QueueOk(next, q, order, c) && Distinct(order) && Known(order, |next|)
    requires was < LEVELS && p < LEVELS && p != was && tid < |next| && tid in Level(order, c, was) && |next2| == |next|
    requires TailKnown(next, q, order, c, p) && next2 in {next, PushNext(next, q, tid, p)}
    requires was < |q2.heads| && was < |q2.tails| && was < |q2.bits| && q2.heads[was] == q.heads[was]
    requires LevelOk(next2, q2, o, c, was)
    ensures tid in Level(o, c, was)
  {
    var l := Level(order, c, was);
    LevelDistinct(order, c, was);
    var k :| 0 <= k < |l| && l[k] == tid;
    assert LevelOk(next, q, order, c, was);
    forall i | 0 <= i < k ensures l[i] < |next| && next2[l[i]] == next[l[i]] {
      LevelMember(order, c, was, l[i]);
      assert Entry(l[i], c, was).tid == l[i];
      if q.tails[p].Some? { SameTask(order, Entry(l[i], c, was), Entry(q.tails[p].value, c, p)); }
    }
    StillListed(next, next2, q, q2, order, o, c, was, k);
  }

  class Scheduler {
    var next: seq<Option<nat>>   // each task's runqueue_next
    var cpu: seq<nat>            // each task's home CPU
    var prio: seq<nat>           // each task's priority
    var queues: seq<Queue>       // RUNQUEUE
    ghost var order: seq<Entry>  // who is waiting, in order of arrival

    ghost predicate Valid()
      reads this
    {
      AllOk(next, queues, order, cpu, prio)
    }

    constructor ()
      ensures Valid() && order == []
    {
      var none := seq(LEVELS, _ => None);
      next := seq(MAX_TASKS, _ => None);
      cpu := seq(MAX_TASKS, _ => 0);
      prio := seq(MAX_TASKS, _ => 0);
      queues := seq(MAX_CPUS, _ => Queue(seq(LEVELS, _ => false), none, none, 0));
      order := [];
    }

    /** The assignments of enqueue_task. */
    method Link(tid: nat, p: nat)
      requires tid < |cpu| && cpu[tid] < |queues| && tid < |next|
      requires var q := queues[cpu[tid]];
        p < |q.heads| && p < |q.bits| && p < |q.tails| && (q.tails[p].Some? ==> q.tails[p].value < |next|)
      modifies this`next, this`queues
      ensures next == PushNext(old(next), old(queues)[cpu[tid]], tid, p)
      ensures queues == old(queues)[cpu[tid] := PushQueue(old(queues)[cpu[tid]], tid, p)]
    {
      var c := cpu[tid];
      var q := queues[c];
      next := next[tid := None];
      if q.tails[p].None? {
        q := q.(heads := q.heads[p := Some(tid)], tails := q.tails[p := Some(tid)]);
        q := q.(bits := q.bits[p := true]);
      } else {
        next := next[q.tails[p].value := Some(tid)];
        q := q.(tails := q.tails[p := Some(tid)]);
      }
      queues := queues[c := q.(running := q.running + 1)];
    }

    /** enqueue_task: behind every task of its level.  A task that is waiting
        already breaks the queues. */
    method Enqueue(tid: nat, p: nat)
      requires Valid() && tid < MAX_TASKS && cpu[tid] < MAX_CPUS && p < LEVELS && prio[tid] == p
      modifies this`next, this`queues, this`order
      ensures !old(Waiting(order, tid)) ==> Valid() && order == old(order) + [Entry(tid, cpu[tid], p)]
      ensures old(Waiting(order, tid)) ==> Broken(next, queues, cpu, prio)
    {
      ghost var e := Entry(tid, cpu[tid], p);
      if Waiting(order, tid) {
        TwiceBreaks(next, queues, order, cpu, prio, tid);
      } else {
        PushAll(next, queues, order, cpu, prio, e);
      }
      Link(tid, p);
      order := order + [e];
    }

    /** bitmap.trailing_zeros(): the lowest level with a task, if any. */
    method LowestLevel(c: nat) returns (p: nat)
      requires Valid() && c < MAX_CPUS
      ensures p <= LEVELS && (forall r :: 0 <= r < p ==> Level(order, c, r) == [])
      ensures p < LEVELS ==> Level(order, c, p) != []
    {
      p := 0;
      while p < LEVELS && !queues[c].bits[p]
        invariant p <= LEVELS
        invariant forall r :: 0 <= r < p ==> Level(order, c, r) == []
      {
        assert LevelOk(next, queues[c], order, c, p);
        p := p + 1;
      }
      assert p < LEVELS ==> LevelOk(next, queues[c], order, c, p);
    }

    /** dequeue_task: the task a stable priority queue would serve next. */
    method Dequeue(c: nat) returns (r: Option<nat>)
      requires Valid() && c < MAX_CPUS
      modifies this`next, this`queues, this`order
      ensures Valid()
      ensures r.None? ==> order == old(order) && forall i :: 0 <= i < |order| ==> order[i].cpu != c
      ensures r.Some? ==> exists i: nat ::
        Best(old(order), c, i) && r.value == old(order)[i].tid
        && order == Without(old(order), i)
    {
      var p := LowestLevel(c);
      if p == LEVELS {
        NoneWaiting(order, cpu, prio, c);
        return None;
      }
      ghost var i := TakeAll(next, queues, order, cpu, prio, c, p);
      var q := queues[c];
      var tid := q.heads[p].value;
      q := q.(heads := q.heads[p := next[tid]]);
      next := next[tid := None];
      if q.heads[p].None? {
        q := q.(tails := q.tails[p := None]);
        q := q.(bits := q.bits[p := false]);
      }
      queues := queues[c := q.(running := q.running - 1)];
      order := Without(order, i);
      r := Some(tid);
    }

    /** The walk of remove_from_runqueue along one level, with the task it
        passed last. */
    method Find(tid: nat, c: nat, p: nat) returns (found: bool, prev: Option<nat>)
      requires c < |queues| && p < LEVELS && QueueOk(next, queues[c], order, c)
      ensures found == (tid in Level(order, c, p))
      ensures found ==> exists k: nat :: Follows(Level(order, c, p), k, tid, prev)
    {
      ghost var l := Level(order, c, p);
      assert LevelOk(next, queues[c], order, c, p);
      ghost var k := 0;
      prev := None;
      var curr := queues[c].heads[p];
      while curr.Some?
        invariant k <= |l| && prev == (if k == 0 then None else Some(l[k - 1]))
        invariant curr == if k < |l| then Some(l[k]) else None
        invariant tid !in l[..k]
        decreases |l| - k
      {
        assert LinkAt(next, l, k);
        if curr.value == tid {
          assert Follows(l, k, tid, prev);
          return true, prev;
        }
        prev := curr;
        curr := next[curr.value];
        k := k + 1;
      }
      assert l[..k] == l;
      found := false;
    }

    /** Unthread a task found behind `prev`. */
    method Unlink(c: nat, p: nat, tid: nat, prev: Option<nat>)
      requires c < |queues| && tid < |next| && (prev.Some? ==> prev.value < |next|)
      requires var q := queues[c]; q.running > 0 && p < |q.heads| && p < |q.tails| && p < |q.bits|
      modifies this`next, this`queues
      ensures next == CutNext(old(next), tid, prev)
      ensures queues == old(queues)[c := RemoveQueue(old(queues)[c], p, tid, prev, old(next)[tid])]
    {
      var q := queues[c];
      if prev.Some? {
        next := next[prev.value := next[tid]];
      } else {
        q := q.(heads := q.heads[p := next[tid]]);
      }
      if q.tails[p] == Some(tid) {
        q := q.(tails := q.tails[p := prev]);
      }
      next := next[tid := None];
      if q.heads[p].None? {
        q := q.(bits := q.bits[p := false]);
      }
      queues := queues[c := q.(running := q.running - 1)];
    }

    /** remove_from_runqueue: the rest keep their order.  The walk looks only at
        the level of the task's present priority on its present CPU. */
    method Remove(tid: nat) returns (ok: bool)
      requires Valid() && tid < MAX_TASKS && cpu[tid] < MAX_CPUS && prio[tid] < LEVELS
      modifies this`next, this`queues, this`order
      ensures Valid() && !Waiting(order, tid)
      ensures ok <==> Waiting(old(order), tid)
      ensures !ok ==> order == old(order)
      ensures ok ==> exists i: nat :: i < |old(order)| && old(order)[i].tid == tid && order == Without(old(order), i)
    {
      var c, p := cpu[tid], prio[tid];
      var prev;
      ok, prev := Find(tid, c, p);
      OnlyThere(order, cpu, prio, tid);
      if !ok { return; }
      ghost var k: nat :| Follows(Level(order, c, p), k, tid, prev);
      ghost var i := CutAt(next, queues, order, cpu, prio, tid, k, prev);
      Unlink(c, p, tid, prev);
      order := Without(order, i);
    }

    /** Moving a waiting task to CPU `c`: it arrives last there. */
    method Migrate(tid: nat, c: nat)
      requires Valid() && tid < MAX_TASKS && cpu[tid] < MAX_CPUS && prio[tid] < LEVELS && c < MAX_CPUS
      requires Waiting(order, tid)
      modifies this`next, this`queues, this`order, this`cpu
      ensures Valid() && cpu == old(cpu)[tid := c]
      ensures exists i: nat ::
        i < |old(order)| && old(order)[i].tid == tid
        && order == Without(old(order), i) + [Entry(tid, c, prio[tid])]
    {
      var ok := Remove(tid);
      RetuneOk(order, cpu, prio, tid, c, prio[tid]);
      cpu := cpu[tid := c];
      Enqueue(tid, prio[tid]);
    }

    /** Priority inheritance: the owner of a contended lock is lifted to the
        waiter's priority, behind the tasks already there. */
    method Boost(tid: nat, p: nat, ready: bool)
      requires Valid() && tid < MAX_TASKS && cpu[tid] < MAX_CPUS && p < prio[tid] < LEVELS
      requires (Waiting(order, tid) ==> ready)
      modifies this`next, this`queues, this`order, this`prio
      ensures Valid() && prio == old(prio)[tid := p]
      ensures !old(Waiting(order, tid)) ==> order == old(order) + if ready then [Entry(tid, cpu[tid], p)] else []
      ensures old(Waiting(order, tid)) ==>
        exists i: nat :: i < |old(order)| && old(order)[i].tid == tid
          && order == Without(old(order), i) + [Entry(tid, cpu[tid], p)]
    {
      var ok := Remove(tid);
      RetuneOk(order, cpu, prio, tid, cpu[tid], p);
      prio := prio[tid := p];
      if ready { Enqueue(tid, p); }
    }

    /** The end of priority inheritance in futex_unlock_pi: the priority goes back
        to `p` before the task is taken out, so that the walk looks at the wrong
        level.  The queues stay in order if and only if the task is not waiting or
        its priority does not change. */
    method Unboost(tid: nat, p: nat, ready: bool)
      requires Valid() && tid < MAX_TASKS && cpu[tid] < MAX_CPUS && p < LEVELS
      modifies this`next, this`queues, this`order, this`prio
      ensures prio == old(prio)[tid := p]
      ensures old(Waiting(order, tid)) && old(prio)[tid] != p ==> Broken(next, queues, cpu, prio)
      ensures !old(Waiting(order, tid)) || old(prio)[tid] == p ==>
        Valid() && order == old(order) + if ready && old(prio)[tid] != p then [Entry(tid, cpu[tid], p)] else []
    {
      var was, c := prio[tid], cpu[tid];
      ghost var e, waits := Entry(tid, c, p), Waiting(order, tid);
      LevelMember(order, c, p, tid);
      if waits {
        if was != p { MovedBreaks(next, queues, order, cpu, prio, tid, p, ready); }
      } else {
        RetuneOk(order, cpu, prio, tid, c, p);
      }
      prio := prio[tid := p];
      if ready && was != p {
        var found, prev := Find(tid, c, p);
        assert !found;   // it is not at that level: remove_from_runqueue does nothing
        if !waits { PushAll(next, queues, order, cpu, prio, e); }
        Link(tid, p);
        order := if waits then order else order + [e];
      }
    }
  }
}
