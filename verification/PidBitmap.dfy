/**
 Process ids from one atomic word.  Each call loads the word and retries a
 compare-and-swap; threads interleave between those steps.  A success is a new
 holder of the pid; only holders free.
 */
module PidBitmap {
  import opened Options

  const MAX_TASKS: nat := 64

  /** The bits set in the word. */
  type Word = set<nat>

  datatype Call = From(min: nat) | Specific(slot: nat)

  /** A thread is idle, or holds the word it last saw. */
  datatype Thread = Idle | Trying(call: Call, seen: Word)

  datatype State = State(
    word: Word,
    threads: map<nat, Thread>,
    holders: map<nat, nat>,   // live holders: ticket to pid
    next: nat)                // number of the next ticket

  datatype Action =
    | Load(th: nat, call: Call)
    | Swap(th: nat)           // the compare-and-swap of the thread's call
    | GiveUp(th: nat)         // the word it saw has no slot for it
    | Free(ticket: nat)

  /** The lowest clear bit from `i` up, or 64: `min + trailing_ones`. */
  function LowestClear(w: Word, i: nat): (k: nat)
    requires i <= MAX_TASKS
    ensures i <= k <= MAX_TASKS && (k < MAX_TASKS ==> k !in w) && forall j :: i <= j < k ==> j in w
    decreases MAX_TASKS - i
  {
    if i == MAX_TASKS || i !in w then i else LowestClear(w, i + 1)
  }

  /** The slot a call wants, given the word it saw. */
  function Choice(c: Call, seen: Word): (k: Option<nat>)
    ensures k.Some? ==> k.value < MAX_TASKS && k.value !in seen
  {
    match c
    case From(min) => if min >= MAX_TASKS || LowestClear(seen, min) == MAX_TASKS then None
      else Some(LowestClear(seen, min))
    case Specific(slot) => if slot >= MAX_TASKS || slot in seen then None else Some(slot)
  }

  predicate Busy(s: State, th: nat) {
    th in s.threads && s.threads[th].Trying?
  }

  predicate Enabled(s: State, a: Action) {
    match a
    case Load(th, c) => !Busy(s, th)
    case Swap(th) => Busy(s, th) && Choice(s.threads[th].call, s.threads[th].seen).Some?
    case GiveUp(th) => Busy(s, th) && Choice(s.threads[th].call, s.threads[th].seen).None?
    case Free(t) => t in s.holders
  }

  function Apply(s: State, a: Action): State
    requires Enabled(s, a)
  {
    match a
    case Load(th, c) => s.(threads := s.threads[th := Trying(c, s.word)])
    case Swap(th) =>
      var t := s.threads[th];
      var k := Choice(t.call, t.seen).value;
      if s.word == t.seen
      then State(s.word + {k}, s.threads[th := Idle], s.holders[s.next := k], s.next + 1)
      else s.(threads := s.threads[th := Trying(t.call, s.word)])
    case GiveUp(th) => s.(threads := s.threads[th := Idle])
    case Free(t) => s.(word := s.word - {s.holders[t]}, holders := s.holders - {t})
  }

  /** A swap that succeeds in this state. */
  predicate Wins(s: State, a: Action) {
    a.Swap? && Enabled(s, a) && s.word == s.threads[a.th].seen
  }

  // ---------------------------------------------------------------- safety

  /** The word is bit 0 and the pids held, each by one holder. */
  ghost predicate Safe(s: State) {
    && 0 in s.word
    && (forall t :: t in s.holders ==> t < s.next && 0 < s.holders[t] < MAX_TASKS && s.holders[t] in s.word)
    && (forall t, u :: t in s.holders && u in s.holders && t != u ==> s.holders[t] != s.holders[u])
    && (forall k :: k in s.word && k != 0 ==> Held(s, k))
  }

  ghost predicate Held(s: State, k: nat) {
    exists t :: t in s.holders && s.holders[t] == k
  }

  function Init(): State {
    State({0}, map[], map[], 0)
  }

  /** A pid nobody holds can be given to a new holder. */
  lemma GrantSafe(s: State, n: State, k: nat)
    requires Safe(s) && 0 < k < MAX_TASKS && k !in s.word
    requires n.word == s.word + {k} && n.holders == s.holders[s.next := k] && n.next == s.next + 1
    ensures Safe(n)
  {
    forall j | j in n.word && j != 0 ensures Held(n, j) {
      if j == k {
        assert n.holders[s.next] == k;
      } else {
        var u :| u in s.holders && s.holders[u] == j;
        assert n.holders[u] == j;
      }
    }
  }

  lemma SwapSafe(s: State, th: nat)
    requires Safe(s) && Wins(s, Swap(th))
    ensures Safe(Apply(s, Swap(th)))
  {
    var t := s.threads[th];
    GrantSafe(s, Apply(s, Swap(th)), Choice(t.call, t.seen).value);
  }

  lemma FreeSafe(s: State, t: nat)
    requires Safe(s) && t in s.holders
    ensures Safe(Apply(s, Free(t)))
  {
    var n := Apply(s, Free(t));
    forall j | j in n.word && j != 0 ensures Held(n, j) {
      var u :| u in s.holders && s.holders[u] == j;
      assert u in n.holders && n.holders[u] == j;
    }
  }

  lemma StepSafe(s: State, a: Action)
    requires Safe(s) && Enabled(s, a)
    ensures Safe(Apply(s, a))
  {
    if Wins(s, a) {
      SwapSafe(s, a.th);
    } else if a.Free? {
      FreeSafe(s, a.ticket);
    } else {
      var n := Apply(s, a);
      assert n.word == s.word && n.holders == s.holders;
      forall k | k in n.word && k != 0 ensures Held(n, k) {
        var u :| u in s.holders && s.holders[u] == k;
        assert n.holders[u] == k;
      }
    }
  }

  // ------------------------------------------------------------------ runs

  datatype Run = Begin | Step(prev: Run, a: Action, s: State)

  function End(run: Run): State {
    match run
    case Begin => Init()
    case Step(_, _, s) => s
  }

  ghost predicate IsRun(run: Run) {
    run.Step? ==> IsRun(run.prev) && Enabled(End(run.prev), run.a) && run.s == Apply(End(run.prev), run.a)
  }

  /** Steps that changed the word since thread `th` last read it. */
  function Changes(run: Run, th: nat): nat {
    match run
    case Begin => 0
    case Step(prev, a, s) =>
      if (a.Load? || a.Swap?) && a.th == th then 0
      else Changes(prev, th) + if s.word != End(prev).word then 1 else 0
  }

  lemma {:induction false} SeenUnlessChanged(run: Run, th: nat)
    requires IsRun(run) && Busy(End(run), th) && Changes(run, th) == 0
    ensures End(run).threads[th].seen == End(run).word
  {
    if run.Step? && !((run.a.Load? || run.a.Swap?) && run.a.th == th) {
      SeenUnlessChanged(run.prev, th);
    }
  }

  /** Over every interleaving: pid 0 is never issued and no two live holders
      share a pid. */
  lemma {:induction false} PidsAreUnique(run: Run)
    requires IsRun(run)
    ensures Safe(End(run))
  {
    if run.Step? {
      PidsAreUnique(run.prev);
      StepSafe(End(run.prev), run.a);
    }
  }

  /** A swap fails only if some other step changed the word meanwhile. */
  lemma SwapFailsOnlyIfChanged(run: Run, th: nat)
    requires IsRun(run) && Enabled(End(run), Swap(th)) && !Wins(End(run), Swap(th))
    ensures Changes(run, th) > 0
  {
    if Changes(run, th) == 0 {
      SeenUnlessChanged(run, th);
    }
  }

  /** Slot `k` is what call `c` may take while the pids of `s` are held. */
  ghost predicate LeastFree(s: State, c: Call, k: nat) {
    && 0 < k < MAX_TASKS && !Held(s, k)
    && match c
       case From(min) => min <= k && forall j: nat :: min <= j < k && j > 0 ==> Held(s, j)
       case Specific(slot) => k == slot
  }

  lemma ChoiceIsLeast(s: State, c: Call)
    requires Safe(s) && Choice(c, s.word).Some?
    ensures LeastFree(s, c, Choice(c, s.word).value)
  {}

  /** A success is the least slot at or above the minimum, or the slot asked for,
      that no live holder has at the instant of the swap; it is held after it. */
  lemma SwapTakesLeastFree(run: Run, th: nat) returns (k: nat)
    requires IsRun(run) && Wins(End(run), Swap(th))
    ensures LeastFree(End(run), End(run).threads[th].call, k)
    ensures Apply(End(run), Swap(th)).holders == End(run).holders[End(run).next := k]
  {
    PidsAreUnique(run);
    ChoiceIsLeast(End(run), End(run).threads[th].call);
    k := Choice(End(run).threads[th].call, End(run).word).value;
  }

  /** A refusal was right at the instant the word was read: no step that changed
      the word since means it is still right. */
  lemma RefusalWasRight(run: Run, th: nat)
    requires IsRun(run) && Enabled(End(run), GiveUp(th)) && Changes(run, th) == 0
    ensures var s := End(run);
      match s.threads[th].call
      case From(min) => forall j :: min <= j < MAX_TASKS && j > 0 ==> Held(s, j)
      case Specific(slot) => slot == 0 || slot >= MAX_TASKS || Held(s, slot)
  {
    PidsAreUnique(run);
    SeenUnlessChanged(run, th);
  }
}
