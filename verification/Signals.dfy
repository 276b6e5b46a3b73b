/**
 Signal delivery at system-call exit and return from handlers.  A delivery
 writes the interrupted context into a frame on the user stack and redirects the
 exit path to the handler; rt_sigreturn reads the frame back.  Handlers are
 proved to nest like a stack (POSIX.1-2017 XSH section 2.4).
 */
module Signals {
  import opened Options
  import opened Bits

  const WORD: nat := 0x1_0000_0000_0000_0000
  const SIGNALS: nat := 32
  const SIG_DFL: nat := 0
  const SIG_IGN: nat := 1
  const FRAME_SIZE: nat := 320

  /** Handler, restorer, flags and mask of one signal. */
  datatype Disposition = Disposition(handler: nat, restorer: nat, flags: nat, mask: nat)

  /** User memory, by the addresses of the 64-bit words in it. */
  type Memory = map<nat, nat>

  function Get(mem: Memory, a: nat): nat {
    if a in mem then mem[a] else 0
  }

  /** The words of the kernel stack that hold the interrupted user context:
      0 arg6, 1 rsp - 24, 2 r9, 3 r8, 4 rsi, 5 rdi, 6 rdx, 7 flags, 8 rip,
      9 r15, 10 r14, 11 r13, 12 r12, 13 rbp, 14 rbx. */
  type KStack = k: seq<nat> | |k| == 15 witness [0, 0, 0, 0, 0, 0, 0, 0, 0, 0, 0, 0, 0, 0, 0]

  /** What an interrupted program is owed: its 14 register slots, rax, mask. */
  datatype Context = Context(regs: seq<nat>, rax: nat, mask: nat)

  // -------------------------------------------------------------- frames

  function WriteHead(mem: Memory, f: nat, k: KStack, mask: nat, restorer: nat, r10: nat): Memory {
    mem[f := restorer][f + 304 := mask][f + 48 := k[3]][f + 56 := k[2]][f + 64 := r10][f + 72 := k[7]][f + 80 := k[12]]
  }

  function WriteMiddle(mem: Memory, f: nat, k: KStack): Memory {
    mem[f + 88 := k[11]][f + 96 := k[10]][f + 104 := k[9]][f + 112 := k[5]][f + 120 := k[4]]
      [f + 128 := k[13]][f + 136 := k[14]]
  }

  /** The word at offset 192 with its three low 16-bit fields, the selectors cs,
      gs and fs, written and its top field kept. */
  function Selectors(w: nat): nat {
    w / 0x1_0000_0000_0000 * 0x1_0000_0000_0000 + 0x33
  }

  function WriteTail(mem: Memory, f: nat, k: KStack, rax: nat): Memory {
    mem[f + 144 := k[6]][f + 152 := rax][f + 160 := k[8]][f + 168 := k[1] + 24][f + 176 := k[8]][f + 184 := k[7]]
      [f + 192 := Selectors(Get(mem, f + 192))]
  }

  /** The frame a delivery writes at `f`. */
  function WriteFrame(mem: Memory, f: nat, k: KStack, rax: nat, mask: nat, restorer: nat, r10: nat): Memory {
    WriteTail(WriteMiddle(WriteHead(mem, f, k, mask, restorer, r10), f, k), f, k, rax)
  }

  /** General register `n` of the frame at `f`, in the order of the x86-64 ABI's
      sigcontext: r8, r9, r10, r11, r12, r13, r14, r15, rdi, rsi, rbp, rbx, rdx,
      rax, rcx, rsp, rip, flags. */
  function Saved(mem: Memory, f: nat, n: nat): nat {
    Get(mem, f + 48 + 8 * n)
  }

  /** What rt_sigreturn reads, in the order it parks it. */
  function ReadFrame(mem: Memory, f: nat): seq<nat> {
    [Get(mem, f + 112), Get(mem, f + 120), Get(mem, f + 144), Get(mem, f + 48), Get(mem, f + 56),
     Get(mem, f + 176), Get(mem, f + 184), Get(mem, f + 168), Get(mem, f + 104), Get(mem, f + 96),
     Get(mem, f + 88), Get(mem, f + 80), Get(mem, f + 128), Get(mem, f + 136)]
  }

  /** The 14 exit slots with a parked context written over them. */
  function Slots(ctx: seq<nat>): (r: seq<nat>)
    requires |ctx| == 14
    ensures |r| == 14
  {
    [(ctx[7] + WORD - 24) % WORD, ctx[4], ctx[3], ctx[1], ctx[0], ctx[2], ctx[6], ctx[5],
     ctx[8], ctx[9], ctx[10], ctx[11], ctx[12], ctx[13]]
  }

  /** The context a ucontext at `f` stands for, each register in its ABI place. */
  function SavedContext(mem: Memory, f: nat): Context {
    Context([(Saved(mem, f, 15) + WORD - 24) % WORD, Saved(mem, f, 1), Saved(mem, f, 0), Saved(mem, f, 9),
             Saved(mem, f, 8), Saved(mem, f, 12), Saved(mem, f, 17), Saved(mem, f, 16), Saved(mem, f, 7),
             Saved(mem, f, 6), Saved(mem, f, 5), Saved(mem, f, 4), Saved(mem, f, 10), Saved(mem, f, 11)],
            Saved(mem, f, 13), Get(mem, f + 304))
  }

  ghost predicate Holds(mem: Memory, f: nat, c: Context) {
    c == SavedContext(mem, f)
  }

  /** rt_sigreturn reads what the frame holds. */
  lemma ReadsWhatIsHeld(mem: Memory, f: nat)
    ensures SavedContext(mem, f) == Context(Slots(ReadFrame(mem, f)), Get(mem, f + 152), Get(mem, f + 304))
  {}

  /** The interrupted context in the order rt_sigreturn parks it. */
  function Parked(k: KStack): seq<nat> {
    [k[5], k[4], k[6], k[3], k[2], k[8], k[7], k[1] + 24, k[9], k[10], k[11], k[12], k[13], k[14]]
  }

  lemma MiddleInside(mem: Memory, f: nat, k: KStack, a: nat)
    requires a < f + 88 || f + 136 < a
    ensures Get(WriteMiddle(mem, f, k), a) == Get(mem, a)
  {}

  lemma TailInside(mem: Memory, f: nat, k: KStack, rax: nat, a: nat)
    requires a < f + 144 || f + 192 < a
    ensures Get(WriteTail(mem, f, k, rax), a) == Get(mem, a)
  {}

  lemma HeadReads(mem: Memory, f: nat, k: KStack, rax: nat, mask: nat, restorer: nat, r10: nat)
    ensures var m := WriteFrame(mem, f, k, rax, mask, restorer, r10);
      && Get(m, f) == restorer && Get(m, f + 304) == mask && Get(m, f + 48) == k[3] && Get(m, f + 56) == k[2]
        && Get(m, f + 64) == r10 && Get(m, f + 72) == k[7] && Get(m, f + 80) == k[12]
  {
    var h := WriteHead(mem, f, k, mask, restorer, r10);
    var m := WriteMiddle(h, f, k);
    assert Get(h, f) == restorer && Get(h, f + 304) == mask && Get(h, f + 48) == k[3] && Get(h, f + 56) == k[2]
      && Get(h, f + 64) == r10 && Get(h, f + 72) == k[7] && Get(h, f + 80) == k[12];
    forall a: nat | a < f + 88 || f + 192 < a ensures Get(WriteTail(m, f, k, rax), a) == Get(h, a) {
      MiddleInside(h, f, k, a);
      TailInside(m, f, k, rax, a);
    }
  }

  lemma MiddleReads(mem: Memory, f: nat, k: KStack, rax: nat)
    ensures var m := WriteTail(WriteMiddle(mem, f, k), f, k, rax);
      && Get(m, f + 88) == k[11] && Get(m, f + 96) == k[10] && Get(m, f + 104) == k[9] && Get(m, f + 112) == k[5]
      && Get(m, f + 120) == k[4] && Get(m, f + 128) == k[13] && Get(m, f + 136) == k[14]
  {
    var m := WriteMiddle(mem, f, k);
    assert Get(m, f + 88) == k[11] && Get(m, f + 96) == k[10] && Get(m, f + 104) == k[9] && Get(m, f + 112) == k[5];
    assert Get(m, f + 120) == k[4] && Get(m, f + 128) == k[13] && Get(m, f + 136) == k[14];
    forall a: nat | a < f + 144 ensures Get(WriteTail(m, f, k, rax), a) == Get(m, a) {
      TailInside(m, f, k, rax, a);
    }
  }

  lemma TailReads(mem: Memory, f: nat, k: KStack, rax: nat)
    ensures var m := WriteTail(mem, f, k, rax);
      && Get(m, f + 144) == k[6] && Get(m, f + 152) == rax && Get(m, f + 160) == k[8] && Get(m, f + 168) == k[1] + 24
      && Get(m, f + 176) == k[8] && Get(m, f + 184) == k[7]
  {}

  lemma FrameReads(mem: Memory, f: nat, k: KStack, rax: nat, mask: nat, restorer: nat, r10: nat)
    ensures var m := WriteFrame(mem, f, k, rax, mask, restorer, r10);
      && ReadFrame(m, f) == Parked(k) && Get(m, f + 152) == rax && Get(m, f + 304) == mask && Get(m, f) == restorer
      && Saved(m, f, 2) == r10 && Saved(m, f, 3) == k[7] && Saved(m, f, 14) == k[8]
  {
    var h := WriteHead(mem, f, k, mask, restorer, r10);
    HeadReads(mem, f, k, rax, mask, restorer, r10);
    MiddleReads(h, f, k, rax);
    TailReads(WriteMiddle(h, f, k), f, k, rax);
  }

  lemma ParkedSlots(k: KStack)
    requires k[1] + 24 < WORD
    ensures Slots(Parked(k)) == k[1..]
  {}

  /** Saving a context and restoring it is the identity on all 14 slots; r10 is
      saved too, and r11 and rcx as the syscall instruction left them. */
  lemma FrameRoundTrip(mem: Memory, f: nat, k: KStack, rax: nat, mask: nat, restorer: nat, r10: nat)
    requires k[1] + 24 < WORD
    ensures Holds(WriteFrame(mem, f, k, rax, mask, restorer, r10), f, Context(k[1..], rax, mask))
    ensures Get(WriteFrame(mem, f, k, rax, mask, restorer, r10), f) == restorer
    ensures var m := WriteFrame(mem, f, k, rax, mask, restorer, r10);
      Saved(m, f, 2) == r10 && Saved(m, f, 3) == k[7] && Saved(m, f, 14) == k[8]
  {
    FrameReads(mem, f, k, rax, mask, restorer, r10);
    ParkedSlots(k);
    ReadsWhatIsHeld(WriteFrame(mem, f, k, rax, mask, restorer, r10), f);
  }

  /** Two memories that agree on a frame's 320 bytes hold the same context. */
  lemma HoldsFrame(m1: Memory, m2: Memory, f: nat, c: Context)
    requires Holds(m1, f, c) && Agree(m1, m2, f)
    ensures Holds(m2, f, c)
  {}

  ghost predicate Agree(m1: Memory, m2: Memory, f: nat) {
    forall a: nat :: f <= a < f + FRAME_SIZE ==> Get(m1, a) == Get(m2, a)
  }

  /** Nothing but the 320 bytes of the frame at `f` differs. */
  ghost predicate Outside(m1: Memory, m2: Memory, f: nat) {
    forall a: nat :: a < f || f + FRAME_SIZE <= a ==> Get(m1, a) == Get(m2, a)
  }

  lemma WritesInside(mem: Memory, f: nat, k: KStack, rax: nat, mask: nat, restorer: nat, r10: nat)
    ensures Outside(mem, WriteFrame(mem, f, k, rax, mask, restorer, r10), f)
  {}

  // -------------------------------------------------------------- nesting

  /** A handler that has been entered and has not returned. */
  datatype Frame = Frame(addr: nat, sig: nat, owed: Context)

  /** Frames of active handlers, outermost first: aligned, each wholly below the
      one before, and each still holding what its program is owed. */
  ghost predicate Nested(active: seq<Frame>, mem: Memory) {
    && (forall i :: 0 <= i < |active| ==>
          0 < active[i].sig < SIGNALS && active[i].addr % 16 == 0 && Holds(mem, active[i].addr, active[i].owed))
    && (forall i, j :: 0 <= i < j < |active| ==> active[j].addr + FRAME_SIZE <= active[i].addr)
  }

  /** Every active signal is blocked, now and in the mask each inner handler
      will restore; so no two active handlers are of the same signal. */
  ghost predicate Masked(active: seq<Frame>, blocked: nat) {
    && (forall i :: 0 <= i < |active| ==> Bit(blocked, active[i].sig))
    && (forall i, j :: 0 <= i < j < |active| ==>
      Bit(active[j].owed.mask, active[i].sig) && active[i].sig != active[j].sig)
  }

  lemma EnterNested(active: seq<Frame>, mem: Memory, m: Memory, frame: Frame)
    requires Nested(active, mem) && frame.addr % 16 == 0 && 0 < frame.sig < SIGNALS && Holds(m, frame.addr, frame.owed)
    requires active != [] ==> frame.addr + FRAME_SIZE <= active[|active| - 1].addr
    requires Outside(mem, m, frame.addr)
    ensures Nested(active + [frame], m)
  {
    forall i | 0 <= i < |active|
      ensures frame.addr + FRAME_SIZE <= active[i].addr && Holds(m, active[i].addr, active[i].owed)
    {
      HoldsFrame(mem, m, active[i].addr, active[i].owed);
    }
  }

  lemma EnterMasked(active: seq<Frame>, blocked: nat, frame: Frame, more: nat)
    requires Masked(active, blocked) && !Bit(blocked, frame.sig) && frame.owed.mask == blocked
    ensures Masked(active + [frame], Or(blocked, Or(One(frame.sig), more)))
  {
    var b := Or(blocked, Or(One(frame.sig), more));
    forall s: nat ensures Bit(b, s) <==> Bit(blocked, s) || s == frame.sig || Bit(more, s) {
      OrBit(blocked, Or(One(frame.sig), more), s);
      OrBit(One(frame.sig), more, s);
      OneBit(frame.sig, s);
    }
  }

  /** `(rsp - 320) & !0xF`. */
  function FrameAddress(rsp: nat): (f: nat)
    requires rsp >= FRAME_SIZE
    ensures f % 16 == 0 && f + FRAME_SIZE <= rsp < f + FRAME_SIZE + 16
  {
    (rsp - FRAME_SIZE) / 16 * 16
  }

  /** Where rt_sigreturn looks for its frame: SYSCALL_USER_RSP - 8. */
  function FrameBelow(word: nat): nat {
    (word + WORD - 8) % WORD
  }

  lemma JustBelow(word: nat, f: nat)
    requires word < WORD
    ensures word == f + 8 ==> FrameBelow(word) == f
  {}

  /** The exit path that enters a handler: stack at its frame, signal number and
      context pointer as arguments, the other slots as they were. */
  function Redirected(k: KStack, sig: nat, f: nat, handler: nat): (r: KStack)
    requires f >= 24
    ensures r[1] + 24 == f && r[4] == f + 8 && r[5] == sig && r[8] == handler
    ensures forall i :: 0 <= i < 15 && i != 1 && i != 4 && i != 5 && i != 8 ==> r[i] == k[i]
  {
    k[5 := sig][4 := f + 8][8 := handler][1 := f - 24]
  }

  lemma LeaveMasked(active: seq<Frame>, blocked: nat)
    requires Masked(active, blocked) && active != []
    ensures Masked(active[..|active| - 1], active[|active| - 1].owed.mask)
  {}

  /** The stack of handlers, with the masks in order while `quiet`. */
  ghost predicate StackOk(active: seq<Frame>, mem: Memory, blocked: nat, quiet: bool) {
    Nested(active, mem) && (quiet ==> Masked(active, blocked))
  }

  lemma EnterOk(active: seq<Frame>, mem: Memory, m: Memory, frame: Frame, blocked: nat, more: nat, quiet: bool)
    requires StackOk(active, mem, blocked, quiet) && !Bit(blocked, frame.sig) && frame.owed.mask == blocked
    requires frame.addr % 16 == 0 && 0 < frame.sig < SIGNALS && Holds(m, frame.addr, frame.owed)
    requires active != [] ==> frame.addr + FRAME_SIZE <= active[|active| - 1].addr
    requires Outside(mem, m, frame.addr)
    ensures StackOk(active + [frame], m, Or(blocked, Or(One(frame.sig), more)), quiet)
  {
    EnterNested(active, mem, m, frame);
    if quiet { EnterMasked(active, blocked, frame, more); }
  }

  lemma LeaveOk(active: seq<Frame>, mem: Memory, blocked: nat, quiet: bool)
    requires StackOk(active, mem, blocked, quiet) && active != []
    ensures var top, rest := active[|active| - 1], active[..|active| - 1];
      Holds(mem, top.addr, top.owed) && StackOk(rest, mem, top.owed.mask, quiet || rest == [])
  {
    if quiet { LeaveMasked(active, blocked); }
  }

  /** A return that reads the frame at `f`, its own or another. */
  lemma ReturnOk(active: seq<Frame>, mem: Memory, blocked: nat, quiet: bool, f: nat)
    returns (rest: seq<Frame>, now: bool)
    requires StackOk(active, mem, blocked, quiet) && active != []
    ensures rest == active[..|active| - 1] && StackOk(rest, mem, Get(mem, f + 304), now)
    ensures f == active[|active| - 1].addr ==>
      SavedContext(mem, f) == active[|active| - 1].owed && now == (quiet || rest == [])
  {
    LeaveOk(active, mem, blocked, quiet);
    rest := active[..|active| - 1];
    now := (f == active[|active| - 1].addr && quiet) || rest == [];
  }

  /** At most 31 handlers are active at once. */
  lemma DepthBound(active: seq<Frame>, mem: Memory, blocked: nat)
    requires Nested(active, mem) && Masked(active, blocked)
    ensures |active| < SIGNALS
  {
    var sigs := seq(|active|, i requires 0 <= i < |active| => active[i].sig);
    FewDistinct(sigs, SIGNALS);
  }

  /** Distinct numbers strictly between 0 and `n` are fewer than `n`. */
  lemma {:induction false} FewDistinct(s: seq<nat>, n: nat)
    requires n > 0 && forall i :: 0 <= i < |s| ==> 0 < s[i] < n
    requires forall i, j :: 0 <= i < j < |s| ==> s[i] != s[j]
    ensures |s| < n
  {
    if s != [] {
      if n - 1 in s {
        var k :| 0 <= k < |s| && s[k] == n - 1;
        var r := s[..k] + s[k + 1..];
        assert forall i :: 0 <= i < |r| ==> r[i] == s[if i < k then i else i + 1];
        FewDistinct(r, n - 1);
      } else {
        forall i | 0 <= i < |s| ensures 0 < s[i] < n - 1 { assert s[i] in s; }
        FewDistinct(s, n - 1);
      }
    }
  }

  // ------------------------------------------------------------ decisions

  datatype Verdict = Skip | Kill | Enter

  predicate Fatal(sig: nat) {
    2 <= sig <= 8 || sig == 11 || 13 <= sig <= 15
  }

  /** What the exit path does about one signal. */
  function Judge(pending: nat, blocked: nat, d: Disposition, sig: nat): Verdict {
    if !Bit(pending, sig) || Bit(blocked, sig) || d.handler == SIG_IGN then Skip
    else if d.handler == SIG_DFL then (if Fatal(sig) then Kill else Skip)
    else if d.restorer == 0 || !Bit(d.flags, 26) then Skip else Enter
  }

  const SA_RESTORER: nat := 26     // as a bit number

  /** The signal comes and has a handler that can return: a function, and a
      restorer that was declared with SA_RESTORER. */
  predicate Catches(pending: nat, blocked: nat, d: Disposition, sig: nat) {
    && Bit(pending, sig) && !Bit(blocked, sig)
    && d.handler != SIG_DFL && d.handler != SIG_IGN
    && d.restorer != 0 && Bit(d.flags, SA_RESTORER)
  }

  /** The signal comes, has no handler and ends the task. */
  predicate Dies(pending: nat, blocked: nat, d: Disposition, sig: nat) {
    && Bit(pending, sig) && !Bit(blocked, sig)
    && d.handler == SIG_DFL && sig in {2, 3, 4, 5, 6, 7, 8, 11, 13, 14, 15}
  }

  /** Nothing is to be done about the signals below `n`. */
  ghost predicate Idle(pending: nat, blocked: nat, ds: seq<Disposition>, n: nat)
    requires n <= |ds|
  {
    forall s :: 0 < s < n ==> !Catches(pending, blocked, ds[s], s) && !Dies(pending, blocked, ds[s], s)
  }

  /** `sig` is the lowest signal there is something to do about, or 32. */
  ghost predicate IsFirst(pending: nat, blocked: nat, ds: seq<Disposition>, sig: nat)
    requires |ds| == SIGNALS
  {
    && 0 < sig <= SIGNALS && Idle(pending, blocked, ds, sig)
    && (sig < SIGNALS ==> Catches(pending, blocked, ds[sig], sig) || Dies(pending, blocked, ds[sig], sig))
  }

  lemma JudgedBy(pending: nat, blocked: nat, d: Disposition, sig: nat)
    ensures Judge(pending, blocked, d, sig) == Enter <==> Catches(pending, blocked, d, sig)
    ensures Judge(pending, blocked, d, sig) == Kill <==> Dies(pending, blocked, d, sig)
  {}

  datatype Outcome = Untouched | Resumed | Entered(sig: nat) | Killed(status: nat)

  class Task {
    var mem: Memory
    var kstack: KStack
    var pending: nat
    var blocked: nat
    var dispositions: seq<Disposition>
    var parked: Option<seq<nat>>
    ghost var active: seq<Frame>
    ghost var quiet: bool   // no handler now active has changed the mask

    ghost predicate Valid()
      reads this
    {
      && |dispositions| == SIGNALS
      && (parked.Some? ==> |parked.value| == 14)
      && StackOk(active, mem, blocked, quiet)
    }

    constructor (ds: seq<Disposition>)
      requires |ds| == SIGNALS
      ensures Valid() && active == [] && quiet
    {
      mem, kstack, pending, blocked, dispositions, parked := map[], seq(15, _ => 0), 0, 0, ds, None;
      active, quiet := [], true;
    }

    /** The lowest signal there is something to do about. */
    method FirstSignal() returns (sig: nat)
      requires Valid()
      ensures IsFirst(pending, blocked, dispositions, sig)
    {
      sig := 1;
      while sig < SIGNALS && Judge(pending, blocked, dispositions[sig], sig) == Skip
        invariant 0 < sig <= SIGNALS && Idle(pending, blocked, dispositions, sig)
      {
        JudgedBy(pending, blocked, dispositions[sig], sig);
        sig := sig + 1;
      }
      if sig < SIGNALS { JudgedBy(pending, blocked, dispositions[sig], sig); }
    }

    /** The interrupted program is below the frame of the handler it is in. */
    ghost predicate StackGrowsDown()
      reads this
    {
      && FRAME_SIZE + 16 <= kstack[1] && kstack[1] + 24 < WORD
      && (active != [] ==> kstack[1] + 24 <= active[|active| - 1].addr)
    }

    /** Write a frame that owes the program its present context, and nothing
        above it. */
    method PushFrame(f: nat, rax: nat, r10: nat, restorer: nat)
      requires kstack[1] + 24 < WORD
      modifies this`mem
      ensures Holds(mem, f, Context(kstack[1..], rax, blocked)) && Get(mem, f) == restorer
      ensures Outside(old(mem), mem, f)
    {
      FrameRoundTrip(mem, f, kstack, rax, blocked, restorer, r10);
      WritesInside(mem, f, kstack, rax, blocked, restorer, r10);
      mem := WriteFrame(mem, f, kstack, rax, blocked, restorer, r10);
    }

    /** A new frame for signal `sig`, whose handler runs with it and its mask
        blocked. */
    method PushContext(f: nat, sig: nat, rax: nat, r10: nat)
      requires Valid() && 0 < sig < SIGNALS && !Bit(blocked, sig) && kstack[1] + 24 < WORD
      requires f % 16 == 0 && (active != [] ==> f + FRAME_SIZE <= active[|active| - 1].addr)
      modifies this`mem, this`blocked, this`active
      ensures Valid() && Get(mem, f) == dispositions[sig].restorer && Outside(old(mem), mem, f)
      ensures active == old(active) + [Frame(f, sig, Context(kstack[1..], rax, old(blocked)))]
      ensures blocked == Or(old(blocked), Or(One(sig), dispositions[sig].mask))
    {
      var d := dispositions[sig];
      ghost var frame, was := Frame(f, sig, Context(kstack[1..], rax, blocked)), mem;
      PushFrame(f, rax, r10, d.restorer);
      EnterOk(active, was, mem, frame, blocked, d.mask, quiet);
      blocked, active := Or(blocked, Or(One(sig), d.mask)), active + [frame];
    }

    /** Enter the handler of signal `sig` over a new frame. */
    method EnterHandler(sig: nat, rax: nat, r10: nat)
      requires Valid() && StackGrowsDown() && 0 < sig < SIGNALS && !Bit(blocked, sig)
      modifies this`mem, this`kstack, this`blocked, this`pending, this`active
      ensures Valid()
      ensures var f := FrameAddress(old(kstack)[1] + 24);
        && active == old(active) + [Frame(f, sig, Context(old(kstack)[1..], rax, old(blocked)))]
        && kstack == Redirected(old(kstack), sig, f, dispositions[sig].handler)
        && Get(mem, f) == dispositions[sig].restorer && Outside(old(mem), mem, f)
      ensures pending == Clear(old(pending), sig) && blocked == Or(old(blocked), Or(One(sig), dispositions[sig].mask))
    {
      var f := FrameAddress(kstack[1] + 24);
      PushContext(f, sig, rax, r10);
      pending := Clear(pending, sig);
      kstack := Redirected(kstack, sig, f, dispositions[sig].handler);
    }

    /** check_deliver_signal with nothing parked: at the exit of a system call
        that returned `rax`, enter the handler of the lowest deliverable signal
        over a frame that owes the program its present context. */
    method Deliver(rax: nat, r10: nat) returns (r: Outcome)
      requires Valid() && StackGrowsDown() && parked.None?
      modifies this`mem, this`kstack, this`blocked, this`pending, this`active
      ensures Valid() && !r.Resumed?
      ensures r.Untouched? <==> Idle(old(pending), old(blocked), dispositions, SIGNALS)
      ensures r.Untouched? ==>
        mem == old(mem) && kstack == old(kstack) && pending == old(pending) && blocked == old(blocked)
          && active == old(active)
      ensures r.Killed? ==>
        && 128 < r.status < 128 + SIGNALS && Idle(old(pending), old(blocked), dispositions, r.status - 128)
        && Dies(old(pending), old(blocked), dispositions[r.status - 128], r.status - 128)
        && mem == old(mem) && kstack == old(kstack) && blocked == old(blocked) && active == old(active)
        && pending == Clear(old(pending), r.status - 128)
      ensures r.Entered? ==>
        && 0 < r.sig < SIGNALS && Idle(old(pending), old(blocked), dispositions, r.sig)
        && Catches(old(pending), old(blocked), dispositions[r.sig], r.sig)
        && var f := FrameAddress(old(kstack)[1] + 24);
        && active == old(active) + [Frame(f, r.sig, Context(old(kstack)[1..], rax, old(blocked)))]
        && kstack == Redirected(old(kstack), r.sig, f, dispositions[r.sig].handler)
        && Get(mem, f) == dispositions[r.sig].restorer && Outside(old(mem), mem, f)
        && pending == Clear(old(pending), r.sig)
          && blocked == Or(old(blocked), Or(One(r.sig), dispositions[r.sig].mask))
    {
      var sig := FirstSignal();
      if sig == SIGNALS { return Untouched; }
      var d := dispositions[sig];
      if d.handler == SIG_DFL {
        pending := Clear(pending, sig);
        return Killed(128 + sig);
      }
      EnterHandler(sig, rax, r10);
      r := Entered(sig);
    }

    /** rt_sigreturn: read the frame below `word`, the stack pointer of the last
        system call entered on any CPU, and park it.  When that is the task's own
        pointer, just above the word the innermost handler returned through, the
        frame is that handler's and owes the program its context. */
    method SigReturn(word: nat) returns (rax: nat)
      requires Valid() && active != [] && word < WORD
      modifies this`parked, this`blocked, this`active, this`quiet
      ensures Valid() && active == old(active)[..|old(active)| - 1]
      ensures parked.Some? && Holds(mem, FrameBelow(word), Context(Slots(parked.value), rax, blocked))
      ensures var top := old(active)[|old(active)| - 1];
        word == top.addr + 8 ==>
          Context(Slots(parked.value), rax, blocked) == top.owed && quiet == (old(quiet) || active == [])
    {
      var f := FrameBelow(word);
      JustBelow(word, active[|active| - 1].addr);
      ghost var rest, now := ReturnOk(active, mem, blocked, quiet, f);
      var ctx, mask := ReadFrame(mem, f), Get(mem, f + 304);
      rax := Get(mem, f + 152);
      ReadsWhatIsHeld(mem, f);
      assert SavedContext(mem, f) == Context(Slots(ctx), rax, mask);
      parked, blocked := Some(ctx), mask;
      active, quiet := rest, now;
    }

    /** check_deliver_signal with a context parked: the exit path resumes it. */
    method Resume() returns (r: Outcome)
      requires Valid() && parked.Some?
      modifies this`kstack, this`parked
      ensures Valid() && r == Resumed && parked.None? && kstack == [old(kstack)[0]] + Slots(old(parked).value)
    {
      kstack := [kstack[0]] + Slots(parked.value);
      parked := None;
      r := Resumed;
    }

    /** The whole return of the innermost handler: the interrupted program gets
        back its 14 slots, its rax and its mask. */
    method Return(word: nat) returns (rax: nat)
      requires Valid() && parked.None? && active != [] && word == active[|active| - 1].addr + 8 < WORD
      modifies this`kstack, this`parked, this`blocked, this`active, this`quiet
      ensures Valid() && parked.None? && active == old(active)[..|old(active)| - 1]
      ensures Context(kstack[1..], rax, blocked) == old(active)[|old(active)| - 1].owed
    {
      rax := SigReturn(word);
      var r := Resume();
    }

    /** User code runs and makes a system call: it may change any register and
        any memory but the frames of active handlers. */
    method UserRuns(m: Memory, k: KStack)
      requires Valid() && forall i :: 0 <= i < |active| ==> Agree(mem, m, active[i].addr)
      modifies this`mem, this`kstack
      ensures Valid() && mem == m && kstack == k
    {
      forall i | 0 <= i < |active| ensures Holds(m, active[i].addr, active[i].owed) {
        HoldsFrame(mem, m, active[i].addr, active[i].owed);
      }
      mem, kstack := m, k;
    }

    /** A signal is raised. */
    method Raise(sig: nat)
      requires Valid() && 0 < sig < SIGNALS
      modifies this`pending
      ensures Valid() && forall s: nat :: Bit(pending, s) <==> old(Bit(pending, s)) || s == sig
    {
      forall s: nat ensures Bit(Or(pending, One(sig)), s) <==> Bit(pending, s) || s == sig {
        OrBit(pending, One(sig), s);
        OneBit(sig, s);
      }
      pending := Or(pending, One(sig));
    }

    /** rt_sigprocmask, `m` being the mask it leaves.  Within a handler this ends
        `quiet`: signals of active handlers may come again. */
    method SetMask(m: nat)
      requires Valid()
      modifies this`blocked, this`quiet
      ensures Valid() && blocked == m && quiet == (active == [])
    {
      blocked, quiet := m, active == [];
    }
  }
}
