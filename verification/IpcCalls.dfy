/**
 Synchronous calls over reply slots.  A call takes a slot, posts a request that
 carries the slot's number as its token, and waits until the slot is answered.
 Slots are reused.  Calls are told apart here by their position in the order
 they started, a number the kernel does not keep.
 */
module IpcCalls {
  import opened Options

  const SLOTS: nat := 64

  type Bytes = seq<nat>

  datatype Slot = Slot(call: nat, answer: Option<Bytes>)

  datatype Stage =
    | Unposted           // the caller has a slot, its request is not queued yet
    | Queued             // the request waits in a port
    | Owed               // a service has received it and knows its token
    | Answered(b: Bytes) // the service has replied
    | Gone               // the request was never posted or was lost

  /** A call: who made it, its token, how far its request got, what it
      returned, and whether it has yet to return. */
  datatype Call = Call(task: nat, token: nat, stage: Stage, result: Option<Bytes>, open: bool)

  datatype Calls = Calls(slots: map<nat, Slot>, calls: seq<Call>)

  datatype Action =
    | Start(task: nat, t: nat)    // a task's call is given slot t
    | GiveUp(t: nat)              // the request could not be posted: the slot is freed
    | Post(t: nat)                // the request of the caller in slot t is queued
    | Drop(k: nat)                // a queued request is lost: port closed, or a bad buffer
    | Receive(k: nat)             // a service takes the request
    | Answer(k: nat, b: Bytes)    // a service answers a request it owes
    | Repeat(t: nat, b: Bytes)    // a reply to a token that is answered or not in use
    | Finish(t: nat)              // the caller sees its answer and frees the slot
    | Abandon(t: nat)             // task 0 cannot block: it frees the slot unanswered

  /** A reply fills a slot that is in use and unanswered, and no other. */
  function Reply(slots: map<nat, Slot>, t: nat, b: Bytes): map<nat, Slot> {
    if t in slots && slots[t].answer.None? then slots[t := slots[t].(answer := Some(b))] else slots
  }

  /** Slot `t` is held by a call at stage `g`. */
  predicate HeldAt(s: Calls, t: nat, g: Stage) {
    t in s.slots && s.slots[t].call < |s.calls| && s.calls[s.slots[t].call].stage == g
  }

  predicate At(s: Calls, k: nat, g: Stage) {
    k < |s.calls| && s.calls[k].stage == g
  }

  predicate Enabled(s: Calls, a: Action) {
    match a
    case Start(_, t) => 0 < t < SLOTS && t !in s.slots
    case GiveUp(t) => HeldAt(s, t, Unposted)
    case Post(t) => HeldAt(s, t, Unposted)
    case Drop(k) => At(s, k, Queued)
    case Receive(k) => At(s, k, Queued)
    case Answer(k, b) => At(s, k, Owed)
    case Repeat(t, b) => t !in s.slots || s.slots[t].answer.Some?
    case Finish(t) => t in s.slots && s.slots[t].answer.Some? && s.slots[t].call < |s.calls|
    case Abandon(t) =>
      && t in s.slots && s.slots[t].answer.None? && s.slots[t].call < |s.calls| && !HeldAt(s, t, Unposted)
      && s.calls[s.slots[t].call].task == 0
  }

  function Move(calls: seq<Call>, k: nat, g: Stage): seq<Call>
    requires k < |calls|
  {
    calls[k := calls[k].(stage := g)]
  }

  function Apply(s: Calls, a: Action): Calls
    requires Enabled(s, a)
  {
    match a
    case Start(task, t) => Calls(s.slots[t := Slot(|s.calls|, None)], s.calls + [Call(task, t, Unposted, None, true)])
    case GiveUp(t) =>
      var k := s.slots[t].call;
      Calls(s.slots - {t}, s.calls[k := s.calls[k].(stage := Gone, open := false)])
    case Post(t) => s.(calls := Move(s.calls, s.slots[t].call, Queued))
    case Drop(k) => s.(calls := Move(s.calls, k, Gone))
    case Receive(k) => s.(calls := Move(s.calls, k, Owed))
    case Answer(k, b) => Calls(Reply(s.slots, s.calls[k].token, b), Move(s.calls, k, Answered(b)))
    case Repeat(t, b) => s.(slots := Reply(s.slots, t, b))
    case Finish(t) =>
      var k := s.slots[t].call;
      Calls(s.slots - {t}, s.calls[k := s.calls[k].(result := s.slots[t].answer, open := false)])
    case Abandon(t) =>
      var k := s.slots[t].call;
      Calls(s.slots - {t}, s.calls[k := s.calls[k].(open := false)])
  }

  // ------------------------------------------------------------ invariant

  /** What every run keeps, abandoned calls or not: token 0 is never given out,
      and the slots in use are those of the calls that have not returned. */
  ghost predicate Shape(s: Calls) {
    && (forall t :: t in s.slots ==> SlotOk(s, t, s.slots[t]))
    && (forall k: nat :: k < |s.calls| ==> 0 < s.calls[k].token < SLOTS && (s.calls[k].open ==> HoldsSlot(s, k)))
  }

  predicate HoldsSlot(s: Calls, k: nat)
    requires k < |s.calls|
  {
    s.calls[k].token in s.slots && s.slots[s.calls[k].token].call == k
  }

  predicate SlotOk(s: Calls, t: nat, slot: Slot) {
    && slot.call < |s.calls| && s.calls[slot.call].token == t
    && s.calls[slot.call].result.None? && s.calls[slot.call].open
  }

  /** A request still around carries the token of its own caller's slot, and
      that slot is unanswered. */
  ghost predicate NoStale(s: Calls) {
    forall k: nat :: k < |s.calls| && (s.calls[k].stage == Queued || s.calls[k].stage == Owed) ==> Waits(s, k)
  }

  predicate Waits(s: Calls, k: nat)
    requires k < |s.calls|
  {
    s.calls[k].token in s.slots && s.slots[s.calls[k].token] == Slot(k, None)
  }

  /** Every answered slot and every completed call has the answer a service gave
      to that call's own request. */
  ghost predicate OwnAnswers(s: Calls) {
    && (forall t :: t in s.slots && s.slots[t].answer.Some? ==> HeldAt(s, t, Answered(s.slots[t].answer.value)))
    && (forall k :: 0 <= k < |s.calls| && s.calls[k].result.Some? ==>
      s.calls[k].stage == Answered(s.calls[k].result.value))
  }

  lemma ShapeKept(s: Calls, a: Action)
    requires Shape(s) && Enabled(s, a)
    ensures Shape(Apply(s, a))
  {
    var n := Apply(s, a);
    forall t | t in n.slots ensures SlotOk(n, t, n.slots[t]) {
      assert t in s.slots ==> SlotOk(s, t, s.slots[t]);
    }
    forall k: nat | k < |n.calls| ensures 0 < n.calls[k].token < SLOTS && (n.calls[k].open ==> HoldsSlot(n, k)) {
      assert k < |s.calls| && s.calls[k].open ==> HoldsSlot(s, k);
    }
  }

  lemma NoStaleKept(s: Calls, a: Action)
    requires Shape(s) && NoStale(s) && OwnAnswers(s) && Enabled(s, a) && !a.Abandon?
    ensures NoStale(Apply(s, a))
  {
    var n := Apply(s, a);
    forall k: nat | k < |n.calls| && (n.calls[k].stage == Queued || n.calls[k].stage == Owed) ensures Waits(n, k) {
      assert k < |s.calls| && (s.calls[k].stage == Queued || s.calls[k].stage == Owed) ==> Waits(s, k);
    }
  }

  lemma OwnAnswersKept(s: Calls, a: Action)
    requires Shape(s) && NoStale(s) && OwnAnswers(s) && Enabled(s, a)
    ensures OwnAnswers(Apply(s, a))
  {
    var n := Apply(s, a);
    if a.Answer? {
      assert Waits(s, a.k);
    }
    forall t | t in n.slots && n.slots[t].answer.Some? ensures HeldAt(n, t, Answered(n.slots[t].answer.value)) {
      assert t in s.slots ==> SlotOk(s, t, s.slots[t]);
    }
  }

  /** The request of the caller in slot `t` is in a port or with a service. */
  predicate Outstanding(s: Calls, t: nat) {
    HeldAt(s, t, Queued) || HeldAt(s, t, Owed)
  }

  /** Abandoning a wait leaves no stale token behind exactly when the caller's
      request is no longer around. */
  lemma AbandonStaleIff(s: Calls, t: nat)
    requires Shape(s) && NoStale(s) && Enabled(s, Abandon(t))
    ensures NoStale(Apply(s, Abandon(t))) <==> !Outstanding(s, t)
  {
    var n := Apply(s, Abandon(t));
    var k := s.slots[t].call;
    assert SlotOk(s, t, s.slots[t]);
    assert !Waits(n, k);
    forall j: nat | j < |s.calls| && j != k && (s.calls[j].stage == Queued || s.calls[j].stage == Owed)
      ensures Waits(n, j)
    {
      assert Waits(s, j);
    }
  }

  // ---------------------------------------------------------------- runs

  datatype Run = Begin | Step(prev: Run, a: Action, s: Calls)

  function End(run: Run): Calls {
    match run
    case Begin => Calls(map[], [])
    case Step(_, _, s) => s
  }

  ghost predicate IsRun(run: Run) {
    run.Step? ==> IsRun(run.prev) && Enabled(End(run.prev), run.a) && run.s == Apply(End(run.prev), run.a)
  }

  /** Task 0, the boot task, makes no call. */
  ghost predicate NoBootCall(run: Run) {
    run.Step? ==> NoBootCall(run.prev) && !(run.a.Start? && run.a.task == 0)
  }

  /** A wait is only ever abandoned by a caller whose request is gone. */
  ghost predicate Patient(run: Run) {
    run.Step? ==> Patient(run.prev) && (run.a.Abandon? ==> !Outstanding(End(run.prev), run.a.t))
  }

  /** Over every run: token 0 is never given out, and the slots in use are
      exactly those of the calls that have not returned, so that every way out of
      a call gives its slot back. */
  lemma {:induction false} SlotsAreGivenBack(run: Run)
    requires IsRun(run)
    ensures Shape(End(run)) && 0 !in End(run).slots
    ensures forall t :: t in End(run).slots <==>
      exists k: nat :: k < |End(run).calls| && End(run).calls[k].open && End(run).calls[k].token == t
  {
    if run.Step? {
      SlotsAreGivenBack(run.prev);
      ShapeKept(End(run.prev), run.a);
    }
    var s := End(run);
    forall t | t in s.slots ensures exists k: nat :: k < |s.calls| && s.calls[k].open && s.calls[k].token == t {
      assert SlotOk(s, t, s.slots[t]);
    }
    forall k: nat | k < |s.calls| && s.calls[k].open ensures s.calls[k].token in s.slots {
      assert HoldsSlot(s, k);
    }
  }

  /** However slots are reused, every completed call returned the answer to its
      own request, as long as no wait is abandoned with its request around. */
  lemma {:induction false} PatientCallsGetOwnAnswers(run: Run)
    requires IsRun(run) && Patient(run)
    ensures NoStale(End(run)) && OwnAnswers(End(run))
  {
    if run.Step? {
      var s := End(run.prev);
      PatientCallsGetOwnAnswers(run.prev);
      SlotsAreGivenBack(run.prev);
      OwnAnswersKept(s, run.a);
      if run.a.Abandon? {
        AbandonStaleIff(s, run.a.t);
      } else {
        NoStaleKept(s, run.a);
      }
    }
  }

  /** With no call by task 0, no caller is task 0 and nobody abandons a wait. */
  lemma {:induction false} NobodyAbandons(run: Run)
    requires IsRun(run) && NoBootCall(run)
    ensures Patient(run) && forall k :: 0 <= k < |End(run).calls| ==> End(run).calls[k].task != 0
  {
    if run.Step? {
      NobodyAbandons(run.prev);
    }
  }

  /** In every run in which task 0 makes no call, every completed call returned
      the answer to its own request, however slots were reused. */
  lemma CallsGetOwnAnswers(run: Run)
    requires IsRun(run) && NoBootCall(run)
    ensures OwnAnswers(End(run))
  {
    NobodyAbandons(run);
    PatientCallsGetOwnAnswers(run);
  }

  /** An answered request's caller, while it has not returned, finds the answer in
      its slot. */
  ghost predicate Arrived(s: Calls) {
    forall k: nat :: k < |s.calls| && s.calls[k].open && s.calls[k].stage.Answered? ==> HasAnswer(s, k)
  }

  predicate HasAnswer(s: Calls, k: nat)
    requires k < |s.calls| && s.calls[k].stage.Answered?
  {
    s.calls[k].token in s.slots && s.slots[s.calls[k].token] == Slot(k, Some(s.calls[k].stage.b))
  }

  lemma ArrivedKept(s: Calls, a: Action)
    requires Shape(s) && NoStale(s) && Arrived(s) && Enabled(s, a)
    ensures Arrived(Apply(s, a))
  {
    var n := Apply(s, a);
    forall k: nat | k < |n.calls| && n.calls[k].open && n.calls[k].stage.Answered? ensures HasAnswer(n, k) {
      assert HoldsSlot(s, k);
      if a.Answer? && a.k == k { assert Waits(s, k); }
      assert s.calls[k].stage.Answered? ==> HasAnswer(s, k);
    }
  }

  lemma {:induction false} AllArrive(run: Run)
    requires IsRun(run) && Patient(run)
    ensures Arrived(End(run))
  {
    if run.Step? {
      AllArrive(run.prev);
      SlotsAreGivenBack(run.prev);
      PatientCallsGetOwnAnswers(run.prev);
      ArrivedKept(End(run.prev), run.a);
    }
  }

  /** No answer is lost: in every run without calls of task 0, a call whose request
      was answered and that has not returned can return, with that answer. */
  lemma AnswersArrive(run: Run, k: nat)
    requires IsRun(run) && NoBootCall(run) && k < |End(run).calls|
    requires End(run).calls[k].open && End(run).calls[k].stage.Answered?
    ensures var s, t := End(run), End(run).calls[k].token;
      Enabled(s, Finish(t)) && Apply(s, Finish(t)).calls[k].result == Some(s.calls[k].stage.b)
  {
    NobodyAbandons(run);
    AllArrive(run);
    assert HasAnswer(End(run), k);
  }

  /** A run goes on without the caller in slot `t` taking its answer, or giving
      the slot up because it cannot post. */
  ghost predicate GoesOn(run: Run, later: Run, t: nat) {
    later == run || (later.Step? && later.a !in {Finish(t), GiveUp(t)} && GoesOn(run, later.prev, t))
  }

  /** The first answer stands, in every run, those of task 0 included: whatever is
      replied to a slot afterwards, by whomever, its caller gets what it was
      answered first. */
  lemma {:induction false} FirstAnswerStands(run: Run, later: Run, t: nat)
    requires IsRun(later) && GoesOn(run, later, t)
    requires IsRun(run) && t in End(run).slots && End(run).slots[t].answer.Some?
    ensures t in End(later).slots && End(later).slots[t] == End(run).slots[t]
    decreases later
  {
    if later != run {
      FirstAnswerStands(run, later.prev, t);
    }
  }

  // ---------------------------------------- what an abandoned wait leads to

  function Do(run: Run, a: Action): Run
    requires Enabled(End(run), a)
  {
    Step(run, a, Apply(End(run), a))
  }

  /** The call in slot `t` is task 0's, which can abandon its wait. */
  predicate BootCalls(s: Calls, t: nat) {
    t in s.slots && s.slots[t].answer.None? && s.slots[t].call < |s.calls| && s.calls[s.slots[t].call].task == 0
  }

  /** Task 0 gives up while a service owes it an answer, and the call of another
      task is given the slot and posts. */
  lemma SlotIsReused(run: Run, t: nat, task: nat) returns (next: Run)
    requires IsRun(run) && HeldAt(End(run), t, Owed) && BootCalls(End(run), t)
    ensures IsRun(next)
    ensures End(next).slots == End(run).slots[t := Slot(|End(run).calls|, None)]
    ensures var k := End(run).slots[t].call;
      End(next).calls == End(run).calls[k := End(run).calls[k].(open := false)] + [Call(task, t, Queued, None, true)]
  {
    SlotsAreGivenBack(run);
    assert SlotOk(End(run), t, End(run).slots[t]);
    var r1 := Do(run, Abandon(t));
    var r2 := Do(r1, Start(task, t));
    assert End(r2).slots == End(run).slots[t := Slot(|End(run).calls|, None)];
    next := Do(r2, Post(t));
  }

  /** From every state in which task 0 waits with its request around, some run
      makes the next caller in its slot, of whatever task, return the answer to
      the abandoned request, its own request still queued. */
  lemma AbandonedCallMisleads(run: Run, t: nat, task: nat, b: Bytes) returns (next: Run)
    requires IsRun(run) && Outstanding(End(run), t) && BootCalls(End(run), t)
    ensures IsRun(next) && |End(next).calls| == |End(run).calls| + 1
    ensures End(next).calls[|End(run).calls|] == Call(task, t, Queued, Some(b), false)
    ensures !OwnAnswers(End(next))
  {
    var k, n := End(run).slots[t].call, |End(run).calls|;
    SlotsAreGivenBack(run);
    assert SlotOk(End(run), t, End(run).slots[t]);
    var r0 := if HeldAt(End(run), t, Queued) then Do(run, Receive(k)) else run;
    var r := SlotIsReused(r0, t, task);
    var r1 := Do(r, Answer(k, b));
    assert End(r1).slots[t] == Slot(n, Some(b)) && End(r1).calls[n] == Call(task, t, Queued, None, true);
    next := Do(r1, Finish(t));
    assert End(next).calls[n].result == Some(b);
  }
}
