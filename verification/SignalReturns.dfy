/**
 Returns from signal handlers on several CPUs.  Two words are shared by all tasks.
 Every system call entered leaves its user stack pointer in one, and rt_sigreturn
 finds its frame through it.  The context it reads there is parked in the other,
 and the exit path of the next system call to end, whoever made it, takes it out
 and resumes with it.
 */
module SignalReturns {
  import opened Options
  import opened Signals

  /** What the memory of a task shows rt_sigreturn: for each stack pointer, the
      context the frame below it gives back. */
  type View = nat -> Context

  datatype Step =
    | Call(t: nat, c: Context, rsp: nat)   // a system call, after which the task would go on as `c`
    | Park(t: nat, view: View)             // that call is rt_sigreturn
    | Exit(t: nat)                         // the exit path of the task's call

  datatype Phase = User | Kernel | Returning

  datatype Machine = Machine(
    word: nat,                        // SYSCALL_USER_RSP
    cell: Option<seq<nat>>,           // PENDING_RESTORE, as the 14 slots it restores
    own: map<nat, nat>,               // the stack pointer of each task's call
    has: map<nat, Context>,           // what each task will resume with
    owed: map<nat, Context>,          // what it should resume with
    phase: map<nat, Phase>)

  function PhaseOf(m: Machine, t: nat): Phase {
    if t in m.phase then m.phase[t] else User
  }

  /** Each task makes one call at a time and parks at most once in it; task 0 is
      refused. */
  predicate Enabled(m: Machine, s: Step) {
    match s
    case Call(t, _, _) => PhaseOf(m, t) == User
    case Park(t, _) => PhaseOf(m, t) == Kernel && t != 0
    case Exit(t) => PhaseOf(m, t) != User
  }

  /** The view of a memory. */
  function FrameAt(mem: Memory, rsp: nat): (c: Context)
    ensures Holds(mem, FrameBelow(rsp), c)
  {
    SavedContext(mem, FrameBelow(rsp))
  }

  /** rt_sigreturn reads rax and the mask at once, and parks the rest; it should
      read the frame below its own stack pointer. */
  function ApplyPark(m: Machine, t: nat, view: View): Machine {
    var now, own := view(m.word), if t in m.own then m.own[t] else 0;
    var regs := if t in m.has then m.has[t].regs else [];
    m.(cell := Some(now.regs), has := m.has[t := now.(regs := regs)],
       owed := m.owed[t := view(own)], phase := m.phase[t := Returning])
  }

  function Apply(m: Machine, s: Step): Machine {
    match s
    case Call(t, c, rsp) =>
      m.(word := rsp, own := m.own[t := rsp], has := m.has[t := c], owed := m.owed[t := c],
        phase := m.phase[t := Kernel])
    case Park(t, view) => ApplyPark(m, t, view)
    case Exit(t) =>
      if m.cell.Some? && t in m.has
      then m.(cell := None, has := m.has[t := m.has[t].(regs := m.cell.value)], phase := m.phase[t := User])
      else m.(cell := None, phase := m.phase[t := User])
  }

  /** The machine after the first `n` steps. */
  function After(run: seq<Step>, n: nat): Machine
    requires n <= |run|
  {
    if n == 0 then Machine(0, None, map[], map[], map[], map[]) else Apply(After(run, n - 1), run[n - 1])
  }

  function Final(run: seq<Step>): Machine {
    After(run, |run|)
  }

  predicate Legal(run: seq<Step>, i: nat)
    requires i < |run|
  {
    Enabled(After(run, i), run[i])
  }

  ghost predicate IsRun(run: seq<Step>) {
    forall i: nat :: i < |run| ==> Legal(run, i)
  }

  /** Task `t` has what it is owed. */
  predicate Right(m: Machine, t: nat) {
    t in m.has && t in m.owed && m.has[t] == m.owed[t]
  }

  /** The exit at step `i` is of a task that resumes as it should. */
  predicate RightAfter(run: seq<Step>, i: nat)
    requires i < |run| && run[i].Exit?
  {
    Right(After(run, i + 1), run[i].t)
  }

  /** Every call of the run ends with its task resuming as it should. */
  ghost predicate AllRight(run: seq<Step>) {
    forall i: nat :: i < |run| && run[i].Exit? ==> RightAfter(run, i)
  }

  // ------------------------------------------------------ the shared words

  /** Of the calls before step `i`, `j` is the last to be entered. */
  ghost predicate Latest(run: seq<Step>, j: nat, i: nat) {
    j < i <= |run| && run[j].Call? && forall k :: j < k < i ==> !run[k].Call?
  }

  /** Of the calls task `t` made before step `i`, `e` is the last. */
  ghost predicate LatestOf(run: seq<Step>, t: nat, e: nat, i: nat) {
    e < i <= |run| && run[e].Call? && run[e].t == t && forall k :: e < k < i ==> !(run[k].Call? && run[k].t == t)
  }

  /** When a task reads its frame, the last call entered anywhere is its own, or
      has the same stack pointer. */
  ghost predicate FramesOwn(run: seq<Step>) {
    forall i, j: nat, e: nat :: 0 <= i < |run| && run[i].Park? && Latest(run, j, i) && LatestOf(run, run[i].t, e, i) ==>
      run[j].rsp == run[e].rsp
  }

  /** A step under the signal lock that writes or empties the cell. */
  predicate Touches(s: Step) {
    s.Park? || s.Exit?
  }

  /** Between a task's rt_sigreturn and the exit of that call, no other task
      returns from a handler or leaves a system call. */
  ghost predicate Unmixed(run: seq<Step>) {
    forall i, j :: 0 <= i < j < |run| && run[i].Park? && Touches(run[j]) && run[j].t != run[i].t ==>
      Left(run, run[i].t, i, j)
  }

  ghost predicate Left(run: seq<Step>, t: nat, i: int, j: int) {
    exists k :: i < k < j && 0 <= k < |run| && run[k] == Exit(t)
  }

  /** Task `t` is in a call with stack pointer `own` and saved registers `regs`,
      and the shared word is `word`. */
  ghost predicate InCall(m: Machine, t: nat, word: nat, own: nat, regs: seq<nat>) {
    && m.word == word && t in m.own && m.own[t] == own
    && t in m.owed && t in m.has && m.has[t].regs == regs
  }

  /** A task is in a call because it has just made it or was in it before. */
  lemma InCallAt(run: seq<Step>, n: nat, t: nat)
    requires IsRun(run) && n <= |run| && PhaseOf(After(run, n), t) != User
    ensures n > 0
    ensures var s := run[n - 1];
      if s.Call? && s.t == t then InCall(After(run, n), t, s.rsp, s.rsp, s.c.regs)
      else PhaseOf(After(run, n - 1), t) != User
  {
    if n > 0 { assert Legal(run, n - 1); }
  }

  lemma WordsNext(run: seq<Step>, n: nat, t: nat, word: nat, own: nat, regs: seq<nat>)
    requires n < |run| && InCall(After(run, n), t, word, own, regs) && PhaseOf(After(run, n + 1), t) != User
    requires !(run[n].Call? && run[n].t == t)
    ensures InCall(After(run, n + 1), t, if run[n].Call? then run[n].rsp else word, own, regs)
  {
  }

  /** In a call, a task's own pointer is that of its last call, the shared word
      that of the last call of all, and its slots are what its call saved. */
  lemma {:induction false} Words(run: seq<Step>, n: nat, t: nat) returns (j: nat, e: nat)
    requires IsRun(run) && n <= |run| && PhaseOf(After(run, n), t) != User
    ensures Latest(run, j, n) && LatestOf(run, t, e, n)
    ensures InCall(After(run, n), t, run[j].rsp, run[e].rsp, run[e].c.regs)
    decreases n
  {
    InCallAt(run, n, t);
    var s := run[n - 1];
    if s.Call? && s.t == t {
      j, e := n - 1, n - 1;
    } else {
      j, e := Words(run, n - 1, t);
      WordsNext(run, n - 1, t, run[j].rsp, run[e].rsp, run[e].c.regs);
      if s.Call? { j := n - 1; }
    }
  }

  /** The registers return `i` would read below the stack pointer of call `e`. */
  function Seen(run: seq<Step>, i: nat, e: nat): seq<nat>
    requires i < |run| && run[i].Park? && e < |run| && run[e].Call?
  {
    run[i].view(run[e].rsp).regs
  }

  // --------------------------------------------- clean schedules are right

  /** Task `t` parked in the run and has not exited since. */
  ghost predicate Parked(run: seq<Step>, n: nat, t: nat) {
    exists i :: 0 <= i < n && i < |run| && run[i].Park? && run[i].t == t && !Left(run, t, i, n)
  }

  /** Context `c` but for the registers, which are in the cell. */
  predicate Due(m: Machine, t: nat) {
    && m.cell.Some? && t in m.has && t in m.owed
    && m.owed[t] == m.has[t].(regs := m.cell.value)
  }

  /** A returning task's context is in the cell, a full cell is some returning
      task's, and a task in any other call will resume where it made it. */
  ghost predicate Fine(m: Machine) {
    && (forall t :: PhaseOf(m, t) == Returning ==> Due(m, t))
    && (m.cell.Some? ==> exists t :: PhaseOf(m, t) == Returning)
    && (forall t :: PhaseOf(m, t) == Kernel ==> Right(m, t))
  }

  /** The step reads no frame but the one below the task's own pointer. */
  predicate ReadsOwn(m: Machine, s: Step) {
    s.Park? ==> s.t in m.own && m.own[s.t] == m.word
  }

  lemma FineNext(m: Machine, s: Step)
    requires Fine(m) && Enabled(m, s) && ReadsOwn(m, s)
    requires Touches(s) ==> forall t :: PhaseOf(m, t) == Returning ==> t == s.t
    ensures Fine(Apply(m, s)) && (s.Exit? ==> Right(Apply(m, s), s.t))
  {
    var m2 := Apply(m, s);
    if s.Park? {
      assert PhaseOf(m2, s.t) == Returning;
    } else if s.Call? && m.cell.Some? {
      var t :| PhaseOf(m, t) == Returning;
      assert PhaseOf(m2, t) == Returning;
    }
    forall t | t != s.t ensures PhaseOf(m2, t) == PhaseOf(m, t) && (Right(m, t) ==> Right(m2, t)) {}
  }

  /** The machine after `n` steps of a clean run. */
  ghost predicate Kept(run: seq<Step>, n: nat)
    requires n <= |run|
  {
    Fine(After(run, n)) && forall t: nat :: PhaseOf(After(run, n), t) == Returning ==> Parked(run, n, t)
  }

  lemma ParkedStays(run: seq<Step>, n: nat, t: nat)
    requires n < |run| && Parked(run, n, t) && run[n] != Exit(t)
    ensures Parked(run, n + 1, t)
  {
    var i :| 0 <= i < n && i < |run| && run[i].Park? && run[i].t == t && !Left(run, t, i, n);
    assert !Left(run, t, i, n + 1);
  }

  /** When a task touches the cell, no other is returning. */
  lemma Alone(run: seq<Step>, n: nat, t: nat)
    requires n < |run| && Unmixed(run) && Touches(run[n]) && Parked(run, n, t)
    ensures run[n].t == t
  {
    var i :| 0 <= i < n && i < |run| && run[i].Park? && run[i].t == t && !Left(run, t, i, n);
  }

  lemma OwnWord(run: seq<Step>, n: nat)
    requires n < |run| && IsRun(run) && FramesOwn(run)
    ensures ReadsOwn(After(run, n), run[n])
  {
    assert Legal(run, n);
    if run[n].Park? {
      var j, e := Words(run, n, run[n].t);
    }
  }

  lemma KeptNext(run: seq<Step>, n: nat)
    requires n < |run| && IsRun(run) && FramesOwn(run) && Unmixed(run) && Kept(run, n)
    ensures Kept(run, n + 1)
    ensures run[n].Exit? ==> Right(After(run, n + 1), run[n].t)
  {
    var m, s := After(run, n), run[n];
    assert Legal(run, n);
    OwnWord(run, n);
    var m2 := After(run, n + 1);
    forall t: nat | PhaseOf(m, t) == Returning && Touches(s) ensures t == s.t {
      Alone(run, n, t);
    }
    FineNext(m, s);
    forall t: nat | PhaseOf(m2, t) == Returning ensures Parked(run, n + 1, t) {
      if s.Park? && s.t == t {
        assert !Left(run, t, n, n + 1);
      } else {
        ParkedStays(run, n, t);
      }
    }
  }

  lemma {:induction false} KeptAlways(run: seq<Step>, n: nat)
    requires n <= |run| && IsRun(run) && FramesOwn(run) && Unmixed(run)
    ensures Kept(run, n)
  {
    if n == 0 {
    } else {
      KeptAlways(run, n - 1);
      KeptNext(run, n - 1);
    }
  }

  /** Whatever the contexts: in a schedule in which tasks read their own frames
      and returns do not mix, every task resumes as it should. */
  lemma CleanIsRight(run: seq<Step>)
    requires IsRun(run) && FramesOwn(run) && Unmixed(run)
    ensures AllRight(run)
  {
    forall i | 0 <= i < |run| && run[i].Exit? ensures Right(After(run, i + 1), run[i].t) {
      KeptAlways(run, i);
      KeptNext(run, i);
    }
  }

  // ------------------------------------------------------- others are not

  /** No task is left between its rt_sigreturn and its exit. */
  ghost predicate Complete(run: seq<Step>) {
    forall t :: PhaseOf(Final(run), t) != Returning
  }

  predicate IsPark(run: seq<Step>, i: int) {
    0 <= i < |run| && run[i].Park?
  }

  predicate IsCall(run: seq<Step>, e: int) {
    0 <= e < |run| && run[e].Call?
  }

  /** What the returns can read tells them apart: in one memory below different
      stack pointers, in the memories of different returns, and from what calls
      save. */
  ghost predicate Telling(run: seq<Step>) {
    && (forall i, e, f :: IsPark(run, i) && IsCall(run, e) && IsCall(run, f) && run[e].rsp != run[f].rsp ==>
          Seen(run, i, e) != Seen(run, i, f))
    && (forall i, j, e, f :: IsPark(run, i) && IsPark(run, j) && i != j && IsCall(run, e) && IsCall(run, f) ==>
          Seen(run, i, e) != Seen(run, j, f))
    && (forall i, e, f :: IsPark(run, i) && IsCall(run, e) && IsCall(run, f) ==> Seen(run, i, e) != run[f].c.regs)
  }

  /** Until its exit, a task that parked at `i` is owed what is below its own
      pointer. */
  lemma {:induction false} StaysOwed(run: seq<Step>, i: nat, n: nat, e: nat)
    requires IsRun(run) && i < n <= |run| && run[i].Park? && !Left(run, run[i].t, i, n) && LatestOf(run, run[i].t, e, i)
    ensures var m, t := After(run, n), run[i].t;
      PhaseOf(m, t) == Returning && t in m.owed && m.owed[t].regs == Seen(run, i, e)
    decreases n
  {
    if n > i + 1 {
      assert !Left(run, run[i].t, i, n - 1);
      StaysOwed(run, i, n - 1, e);
      assert run[n - 1] != Exit(run[i].t);
      assert Legal(run, n - 1);
      OwedStep(After(run, n - 1), run[n - 1], run[i].t);
    } else {
      assert Legal(run, i);
      var j, e2 := Words(run, i, run[i].t);
      assert e2 == e;
    }
  }

  lemma OwedStep(m: Machine, s: Step, t: nat)
    requires Enabled(m, s) && PhaseOf(m, t) == Returning && t in m.owed && s != Exit(t)
    ensures PhaseOf(Apply(m, s), t) == Returning && t in Apply(m, s).owed && Apply(m, s).owed[t] == m.owed[t]
  {}

  /** Return `i` reads context `c` below the pointer of call `j`, the last one. */
  ghost predicate Reads(run: seq<Step>, i: nat, j: nat, c: seq<nat>) {
    i < |run| && run[i].Park? && Latest(run, j, i) && c == Seen(run, i, j)
  }

  /** A full cell holds what some return read; after step `from` touched the cell,
      no return before that. */
  lemma {:induction false} Origin(run: seq<Step>, from: nat, n: nat, c: seq<nat>) returns (i: nat, j: nat)
    requires IsRun(run) && n <= |run| && After(run, n).cell == Some(c)
    requires from == 0 || (from < n && Touches(run[from]))
    ensures from <= i < n && Reads(run, i, j, c)
    decreases n
  {
    CellStays(run, n);
    if run[n - 1].Park? {
      i := n - 1;
      j := ParkReads(run, i, c);
    } else {
      i, j := Origin(run, from, n - 1, c);
    }
  }

  /** Only a return fills the cell, and an exit empties it. */
  lemma CellStays(run: seq<Step>, n: nat)
    requires n <= |run| && After(run, n).cell.Some?
    ensures n > 0 && (run[n - 1].Park? || (run[n - 1].Call? && After(run, n - 1).cell == After(run, n).cell))
  {
  }

  /** A return parks what is below the pointer of the last call before it. */
  lemma ParkReads(run: seq<Step>, i: nat, c: seq<nat>) returns (j: nat)
    requires IsRun(run) && i < |run| && run[i].Park? && After(run, i + 1).cell == Some(c)
    ensures Reads(run, i, j, c)
  {
    assert Legal(run, i);
    var e;
    j, e := Words(run, i, run[i].t);
  }

  /** The first exit of a task after it parked. */
  lemma {:induction false} FirstExit(run: seq<Step>, i: nat, n: nat) returns (k: nat)
    requires i < n <= |run| && Left(run, run[i].t, i, n)
    ensures i < k < n && run[k] == Exit(run[i].t) && !Left(run, run[i].t, i, k)
    decreases n
  {
    k :| i < k < n && 0 <= k < |run| && run[k] == Exit(run[i].t);
    if Left(run, run[i].t, i, k) { k := FirstExit(run, i, k); }
  }

  /** A complete run has the exit of every return. */
  lemma ItsExit(run: seq<Step>, i: nat, e: nat) returns (k: nat)
    requires IsRun(run) && Complete(run) && i < |run| && run[i].Park? && LatestOf(run, run[i].t, e, i)
    ensures i < k < |run| && run[k] == Exit(run[i].t) && !Left(run, run[i].t, i, k)
  {
    assert PhaseOf(Final(run), run[i].t) != Returning;
    if !Left(run, run[i].t, i, |run|) {
      StaysOwed(run, i, |run|, e);
      assert false;
    }
    k := FirstExit(run, i, |run|);
  }

  /** A task whose context is not in the cell when it leaves resumes with
      something else than it is owed. */
  lemma WrongAtExit(run: seq<Step>, i: nat, k: nat, e: nat)
    requires IsRun(run) && Telling(run) && i < k < |run| && run[i].Park? && run[k] == Exit(run[i].t)
    requires !Left(run, run[i].t, i, k) && LatestOf(run, run[i].t, e, i)
    requires var c := After(run, k).cell; c.Some? ==> c.value != Seen(run, i, e)
    ensures !Right(After(run, k + 1), run[i].t)
  {
    var t := run[i].t;
    StaysOwed(run, i, k, e);
    var j, f := Words(run, k, t);
    assert IsPark(run, i) && IsCall(run, e) && IsCall(run, f);
    assert Seen(run, i, e) != run[f].c.regs;
  }

  /** A task whose parked context another task touched goes wrong. */
  lemma MixedGoesWrong(run: seq<Step>, i: nat, j: nat) returns (k: nat)
    requires IsRun(run) && Complete(run) && Telling(run) && i < j < |run| && run[i].Park? && Touches(run[j])
    requires run[j].t != run[i].t && !Left(run, run[i].t, i, j)
    ensures j < k < |run| && run[k] == Exit(run[i].t) && !Right(After(run, k + 1), run[i].t)
  {
    assert Legal(run, i);
    var w, e := Words(run, i, run[i].t);
    k := ItsExit(run, i, e);
    assert k > j;
    if After(run, k).cell.Some? {
      var i2, j2 := Origin(run, j, k, After(run, k).cell.value);
      assert IsPark(run, i) && IsPark(run, i2) && IsCall(run, e) && IsCall(run, j2);
    }
    WrongAtExit(run, i, k, e);
  }

  /** A task that read its frame below another pointer than its own goes wrong. */
  lemma MisreadGoesWrong(run: seq<Step>, i: nat, j: nat, e: nat) returns (k: nat)
    requires IsRun(run) && Complete(run) && Telling(run) && i < |run| && run[i].Park?
    requires Latest(run, j, i) && LatestOf(run, run[i].t, e, i) && run[j].rsp != run[e].rsp
    ensures i < k < |run| && run[k] == Exit(run[i].t) && !Right(After(run, k + 1), run[i].t)
  {
    k := ItsExit(run, i, e);
    if After(run, k).cell.Some? {
      var i2, j2 := Origin(run, 0, k, After(run, k).cell.value);
      assert IsPark(run, i) && IsPark(run, i2) && IsCall(run, e) && IsCall(run, j2);
      assert i2 == i ==> j2 == j;
    }
    WrongAtExit(run, i, k, e);
  }

  /** With frames that tell, every task resumes as it should if and only if each
      reads its frame while the last call entered anywhere is its own or has the
      same stack pointer, and between its rt_sigreturn and the exit of that call
      no other task returns from a handler or leaves a system call. */
  lemma RestoreReachesOwnerIff(run: seq<Step>)
    requires IsRun(run) && Complete(run) && Telling(run)
    ensures AllRight(run) <==> FramesOwn(run) && Unmixed(run)
  {
    if FramesOwn(run) && Unmixed(run) {
      CleanIsRight(run);
    } else if !FramesOwn(run) {
      var i, j: nat, e: nat :| 0 <= i < |run| && run[i].Park? && Latest(run, j, i) && LatestOf(run, run[i].t, e, i)
        && run[j].rsp != run[e].rsp;
      var k := MisreadGoesWrong(run, i, j, e);
      assert !RightAfter(run, k);
    } else {
      var i, j :| 0 <= i < j < |run| && run[i].Park? && Touches(run[j]) && run[j].t != run[i].t
        && !Left(run, run[i].t, i, j);
      var k := MixedGoesWrong(run, i, j);
      assert !RightAfter(run, k);
    }
  }

  /** No other task enters a call between a task's call and the return it is. */
  ghost predicate Quiet(run: seq<Step>) {
    forall i, j, e: nat :: 0 <= i < |run| && run[i].Park? && LatestOf(run, run[i].t, e, i) && e < j < i ==>
      !run[j].Call?
  }

  ghost predicate StacksApart(run: seq<Step>) {
    forall e, f :: IsCall(run, e) && IsCall(run, f) && run[e].t != run[f].t ==> run[e].rsp != run[f].rsp
  }

  lemma {:induction false} LatestFrom(run: seq<Step>, j: nat, i: nat) returns (k: nat)
    requires j < i <= |run| && run[j].Call?
    ensures j <= k && Latest(run, k, i)
    decreases i - j
  {
    k := j;
    if !Latest(run, j, i) {
      var l :| j < l < i && run[l].Call?;
      k := LatestFrom(run, l, i);
    }
  }

  /** With the stacks of different tasks apart, tasks read their own frames if
      and only if no other enters a call between a task's call and its return. */
  lemma QuietIffOwn(run: seq<Step>)
    requires IsRun(run)
    ensures Quiet(run) ==> FramesOwn(run)
    ensures StacksApart(run) && FramesOwn(run) ==> Quiet(run)
  {
    if Quiet(run) {
      forall i, j: nat, e: nat | 0 <= i < |run| && run[i].Park? && Latest(run, j, i) && LatestOf(run, run[i].t, e, i)
        ensures run[j].rsp == run[e].rsp
      {
        assert !(e < j);
      }
    }
    if StacksApart(run) && FramesOwn(run) {
      forall i, j, e: nat | 0 <= i < |run| && run[i].Park? && LatestOf(run, run[i].t, e, i) && e < j < i
        ensures !run[j].Call?
      {
        if run[j].Call? {
          var k := LatestFrom(run, j, i);
          assert IsCall(run, k) && IsCall(run, e);
        }
      }
    }
  }

  // ------------------------------------------------------------ witnesses

  lemma {:induction false} AfterPrefix(run: seq<Step>, more: seq<Step>, n: nat)
    requires n <= |run| && run <= more
    ensures After(more, n) == After(run, n)
    decreases n
  {
    if n > 0 { AfterPrefix(run, more, n - 1); }
  }

  lemma Append(run: seq<Step>, s: Step)
    requires IsRun(run) && Enabled(Final(run), s)
    ensures IsRun(run + [s]) && Final(run + [s]) == Apply(Final(run), s)
  {
    var r := run + [s];
    AfterPrefix(run, r, |run|);
    forall i: nat | i < |r| ensures Legal(r, i) {
      if i < |run| {
        AfterPrefix(run, r, i);
        assert Legal(run, i);
      }
    }
  }

  /** From every state with one task returning, any other task in a call steals
      its context by leaving first, and the first is left with what its
      rt_sigreturn saved. */
  lemma ExitSteals(run: seq<Step>, t: nat, u: nat)
    requires IsRun(run) && PhaseOf(Final(run), t) == Returning && Final(run).cell.Some?
    requires PhaseOf(Final(run), u) == Kernel && t in Final(run).has && u in Final(run).has
    ensures var was, next := Final(run), Final(run + [Exit(u)] + [Exit(t)]);
      && IsRun(run + [Exit(u)] + [Exit(t)])
      && next.has == was.has[u := was.has[u].(regs := was.cell.value)] && next.owed == was.owed
  {
    Append(run, Exit(u));
    Append(run + [Exit(u)], Exit(t));
  }

  /** From every state with a task in a call, any other that enters one before
      the first reads its frame makes it resume as the frame below the other's
      stack pointer says, with nobody else touching the cell. */
  lemma CallMisleads(run: seq<Step>, t: nat, view: View, u: nat, c: Context, rsp: nat)
    requires IsRun(run) && PhaseOf(Final(run), t) == Kernel && t != 0 && PhaseOf(Final(run), u) == User && t != u
    requires t in Final(run).own && t in Final(run).has
    ensures var steps := run + [Call(u, c, rsp)] + [Park(t, view)] + [Exit(t)];
      && IsRun(steps) && t in Final(steps).has && t in Final(steps).owed
      && Final(steps).has[t] == view(rsp) && Final(steps).owed[t] == view(Final(run).own[t])
      && Final(steps).phase == Final(run).phase[u := Kernel][t := User]
  {
    var r1 := run + [Call(u, c, rsp)];
    var r2 := r1 + [Park(t, view)];
    Append(run, Call(u, c, rsp));
    Append(r1, Park(t, view));
    Append(r2, Exit(t));
  }

  /** A run on two CPUs in which a context is stolen: task 2 resumes in task 1's
      registers, task 1 in those of its own call. */
  lemma RestoreStolen(c1: Context, c2: Context, view: View, p: nat, q: nat) returns (run: seq<Step>)
    ensures IsRun(run) && FramesOwn(run) && Final(run).has.Keys == {1, 2} && Final(run).owed.Keys == {1, 2}
    ensures Final(run).has[1].regs == c1.regs && Final(run).owed[1] == view(p)
    ensures Final(run).has[2].regs == view(p).regs && Final(run).owed[2] == c2
  {
    run := [];
    Append(run, Call(2, c2, q));
    run := run + [Call(2, c2, q)];
    Append(run, Call(1, c1, p));
    run := run + [Call(1, c1, p)];
    Append(run, Park(1, view));
    run := run + [Park(1, view)];
    ExitSteals(run, 1, 2);
    run := run + [Exit(2)] + [Exit(1)];
    OwnFrame(run);
  }

  lemma OwnFrame(run: seq<Step>)
    requires |run| == 5 && run[0].Call? && run[1].Call? && run[2].Park? && run[2].t == run[1].t && run[3].Exit?
    requires run[4].Exit?
    ensures FramesOwn(run)
  {
    forall j: nat | Latest(run, j, 2) ensures j == 1 {}
    forall e: nat | LatestOf(run, run[2].t, e, 2) ensures e == 1 {}
  }

  lemma OneReturn(run: seq<Step>)
    requires |run| == 4 && run[0].Call? && run[1].Call? && run[2].Park? && run[3] == Exit(run[2].t)
    ensures Unmixed(run)
  {}

  /** A run on two CPUs in which a frame is misread: task 1 resumes as the frame
      below task 2's stack pointer says, though the returns do not mix. */
  lemma FrameMisread(c1: Context, c2: Context, mem: Memory, p: nat, q: nat) returns (run: seq<Step>)
    ensures IsRun(run) && Unmixed(run) && Complete(run) && 1 in Final(run).has && 1 in Final(run).owed
    ensures Holds(mem, FrameBelow(q), Final(run).has[1]) && Holds(mem, FrameBelow(p), Final(run).owed[1])
  {
    var view: View := (rsp: nat) => FrameAt(mem, rsp);
    run := [];
    Append(run, Call(1, c1, p));
    run := run + [Call(1, c1, p)];
    CallMisleads(run, 1, view, 2, c2, q);
    run := run + [Call(2, c2, q)] + [Park(1, view)] + [Exit(1)];
    OneReturn(run);
  }
}
