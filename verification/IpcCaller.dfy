/**
 ipc_call from end to end.  A call is a sequence of locked sections; between two
 of them any other tasks may run any sections of theirs.  Whatever they do, the
 caller's reply slot stays its own, every way out of the call gives the slot and
 its page back, and the answer is one that was given to its token meanwhile.  The
 call posts its request once, or not at all where it says so.
 */
module IpcCaller {
  import opened Options
  import opened IpcPorts

  /** A section another task runs. */
  datatype Event =
    | Creates(name: seq<Byte>)
    | Posts(id: nat, m: Msg, grant: Option<nat>, readable: bool)
    | Takes(id: nat)              // a receiver unlinks a page
    | Finishes(x: nat)            // and frees it when it has read it
    | Closes(id: nat)
    | Allocs(grant: Option<nat>)
    | Frees(u: nat)               // another call returns
    | Replies(u: nat, b: Buffer)

  /** One round of a waiting loop: what others do first, the allocator's answer,
      and whether blocking succeeds. */
  datatype Turn = Turn(others: seq<Event>, grant: Option<nat>, woke: bool)

  datatype Outcome =
    | Oversized | NoSlot | NoSuchPort | OutOfMemory | BadBuffer | Unblockable
    | Answer(len: nat, data: seq<Byte>)
    | Waiting                     // still in a loop when the turns end

  /** The allocator never grants a page in use. */
  function Granted(grant: Option<nat>, pages: map<nat, Msg>): Option<nat> {
    if grant.Some? && grant.value != 0 && grant.value !in pages then grant else None
  }

  /** The pages receivers have in hand. */
  ghost predicate InHand(holder: map<nat, Holder>, out: set<nat>) {
    forall x :: x in out ==> x in holder && holder[x] == InFlight
  }

  /** The first `n` bytes of a cleared page into which `data` was written. */
  function Shown(data: seq<Byte>, n: nat): seq<Byte> {
    (data + seq(n, _ => 0))[..n]
  }

  /** What slot `t` and its page say of the answer, if any. */
  ghost predicate Slot(replies: seq<ReplySlot>, pages: map<nat, Msg>, t: nat, page: nat, answer: Option<Buffer>) {
    && t < |replies| && page in pages
    && match answer
       case None => replies[t] == ReplySlot(true, page, 0, false) && pages[page] == BLANK
       case Some(b) => replies[t] == ReplySlot(true, page, Cut(b), true) && pages[page] == Filled(BLANK, b)
  }

  /** An answered slot stays as it is; another is answered by an event. */
  ghost predicate Follows(answer: Option<Buffer>, next: Option<Buffer>, t: nat, events: seq<Event>) {
    next == answer || (answer.None? && next.Some? && Replies(t, next.value) in events)
  }

  // ------------------------------------------------------ what was posted

  /** A message that entered the mailbox of port `id`, of the call or of another task. */
  datatype Sent = Sent(id: nat, m: Msg, own: bool)

  /** The messages of `log` for port `k`, in order. */
  function Of(log: seq<Sent>, k: nat): seq<Msg> {
    if log == [] then [] else
      var n := |log| - 1;
      Of(log[..n], k) + if log[n].id == k then [log[n].m] else []
  }

  /** What the call itself posted. */
  function Own(log: seq<Sent>): seq<Sent> {
    if log == [] then [] else
      var n := |log| - 1;
      Own(log[..n]) + if log[n].own then [log[n]] else []
  }

  function Base(p: map<nat, seq<Msg>>, k: nat): seq<Msg> {
    if k in p then p[k] else []
  }

  /** Since `p0` exactly the messages of `log` were posted. */
  ghost predicate Logged(p0: map<nat, seq<Msg>>, p: map<nat, seq<Msg>>, log: seq<Sent>) {
    && p0.Keys <= p.Keys
    && (forall k :: k in p ==> p[k] == Base(p0, k) + Of(log, k))
    && forall x :: x in log ==> x.id in p
  }

  ghost predicate PostedBy(x: Sent, events: seq<Event>) {
    exists e :: e in events && e.Posts? && e.id == x.id && e.m == x.m
  }

  /** What the call did not post itself was posted by one of the events. */
  ghost predicate ByOthers(log: seq<Sent>, events: seq<Event>) {
    forall x :: x in log && !x.own ==> PostedBy(x, events)
  }

  lemma LoggedPost(p0: map<nat, seq<Msg>>, p: map<nat, seq<Msg>>, log: seq<Sent>, x: Sent)
    requires Logged(p0, p, log) && x.id in p
    ensures Logged(p0, p[x.id := p[x.id] + [x.m]], log + [x])
    ensures Own(log + [x]) == Own(log) + if x.own then [x] else []
  {
    var more, q := log + [x], p[x.id := p[x.id] + [x.m]];
    assert more[..|log|] == log;
    forall k | k in q ensures q[k] == Base(p0, k) + Of(more, k) {
      assert k in p && p[k] == Base(p0, k) + Of(log, k);
    }
  }

  lemma LoggedOpen(p0: map<nat, seq<Msg>>, p: map<nat, seq<Msg>>, log: seq<Sent>, k: nat)
    requires Logged(p0, p, log) && k !in p
    ensures Logged(p0, p[k := []], log)
  {
    NoneFor(log, k);
  }

  lemma {:induction false} NoneFor(log: seq<Sent>, k: nat)
    requires forall x :: x in log ==> x.id != k
    ensures Of(log, k) == []
  {
    if log != [] {
      var n := |log| - 1;
      assert log[n] in log;
      forall x | x in log[..n] ensures x.id != k { assert x in log; }
      NoneFor(log[..n], k);
    }
  }

  lemma {:induction false} OfHas(log: seq<Sent>, j: nat)
    requires j < |log|
    ensures log[j].m in Of(log, log[j].id)
  {
    var n := |log| - 1;
    if j < n {
      assert log[..n][j] == log[j];
      OfHas(log[..n], j);
    }
  }

  lemma {:induction false} OwnIn(log: seq<Sent>, x: Sent)
    requires x in Own(log)
    ensures x in log
  {
    var n := |log| - 1;
    if x in Own(log[..n]) { OwnIn(log[..n], x); }
  }

  /** Message `m` is in the mailbox of `id`, behind all that was there. */
  ghost predicate Behind(p0: map<nat, seq<Msg>>, p: map<nat, seq<Msg>>, id: nat, m: Msg) {
    && id in p && Base(p0, id) <= p[id]
    && m in p[id][|Base(p0, id)|..]
  }

  lemma OwnIsBehind(p0: map<nat, seq<Msg>>, p: map<nat, seq<Msg>>, log: seq<Sent>, x: Sent)
    requires Logged(p0, p, log) && Own(log) == [x]
    ensures Behind(p0, p, x.id, x.m)
  {
    assert x in Own(log);
    OwnIn(log, x);
    var j :| 0 <= j < |log| && log[j] == x;
    OfHas(log, j);
    assert p[x.id][|Base(p0, x.id)|..] == Of(log, x.id);
  }

  ghost predicate Among(some: seq<Event>, all: seq<Event>) {
    forall e :: e in some ==> e in all
  }

  lemma MoreEvents(log: seq<Sent>, log': seq<Sent>, some: seq<Event>, all: seq<Event>)
    requires ByOthers(log, all) && (forall x :: x in log' && x !in log ==> PostedBy(x, some))
    requires Among(some, all)
    ensures ByOthers(log', all)
  {
    forall x | x in log' && !x.own ensures PostedBy(x, all) {
      if x !in log {
        var e :| e in some && e.Posts? && e.id == x.id && e.m == x.m;
        assert e in all;
      }
    }
  }

  // ---------------------------------------------------- what others can do

  /** The page of slot `t` is a reply page: not in a queue, not in flight, not in
      another slot. */
  lemma ReplyPageApart(ipc: Ipc, t: nat)
    requires ipc.Valid() && t < |ipc.replies| && ipc.replies[t].used
    ensures var g := ipc.replies[t].page; g in ipc.pages && g in ipc.holder && ipc.holder[g] == InReply(t)
    ensures forall i :: 0 <= i < |ipc.ports| && ipc.ports[i].used ==>
      PortShape(ipc.ports[i]) && ipc.replies[t].page !in Queue(ipc.ports[i])
    ensures forall u :: 0 <= u < |ipc.replies| && ipc.replies[u].used && u != t ==>
      ipc.replies[u].page != ipc.replies[t].page
  {}

  method DoCreate(ipc: Ipc, name: seq<Byte>, ghost p0: map<nat, seq<Msg>>, ghost log: seq<Sent>)
    requires ipc.Valid() && Logged(p0, ipc.posted, log)
    modifies ipc`ports, ipc`nextId, ipc`posted, ipc`received
    ensures ipc.Valid() && Logged(p0, ipc.posted, log)
  {
    var id := ipc.Create(name);
    if id.Some? { LoggedOpen(p0, old(ipc.posted), log, id.value); }
  }

  method DoPost(ipc: Ipc, id: nat, m: Msg, grant: Option<nat>, readable: bool, t: nat,
                ghost g: nat, ghost a: Option<Buffer>, ghost out: set<nat>) returns (s: Status)
    requires ipc.Valid() && Slot(ipc.replies, ipc.pages, t, g, a) && InHand(ipc.holder, out)
    modifies ipc`ports, ipc`pages, ipc`holder, ipc`posted
    ensures ipc.Valid() && Slot(ipc.replies, ipc.pages, t, g, a) && InHand(ipc.holder, out)
    ensures s == TooBig <==> |m.data| > MSG_MAX
    ensures s != Posted ==> ipc.posted == old(ipc.posted) && ipc.ports == old(ipc.ports) && ipc.pages == old(ipc.pages)
    ensures s == Posted ==>
      id in old(ipc.posted) && ipc.posted == old(ipc.posted)[id := old(ipc.posted)[id] + [m]]
    ensures Answers(s, ipc.ports, ipc.pages, id, m, grant, readable)
  {
    var x := Granted(grant, ipc.pages);
    assert x.Some? ==> x.value !in ipc.holder && x.value != g;
    ghost var pages, holder := ipc.pages, ipc.holder;
    s := ipc.Post(id, m, x, readable);
    if s == Posted {
      ghost var k :| 0 <= k < MAX_PORTS && ipc.holder == holder[x.value := InQueue(k)];
      SlotAfterPost(ipc.replies, pages, holder, t, g, a, out, x.value, m, InQueue(k));
    }
  }

  lemma SlotAfterPost(replies: seq<ReplySlot>, pages: map<nat, Msg>, holder: map<nat, Holder>, t: nat, g: nat,
                      a: Option<Buffer>, out: set<nat>, x: nat, m: Msg, h: Holder)
    requires Slot(replies, pages, t, g, a) && InHand(holder, out) && x !in holder && x != g
    ensures Slot(replies, pages[x := m], t, g, a) && InHand(holder[x := h], out)
  {}

  /** Another task's Post, which is logged. */
  method DoPosts(ipc: Ipc, e: Event, t: nat, ghost g: nat, ghost a: Option<Buffer>, ghost out: set<nat>,
                 ghost p0: map<nat, seq<Msg>>, ghost log: seq<Sent>) returns (ghost log': seq<Sent>)
    requires ipc.Valid() && Slot(ipc.replies, ipc.pages, t, g, a) && InHand(ipc.holder, out) && e.Posts?
    requires Logged(p0, ipc.posted, log)
    modifies ipc`ports, ipc`pages, ipc`holder, ipc`posted
    ensures ipc.Valid() && Slot(ipc.replies, ipc.pages, t, g, a) && InHand(ipc.holder, out)
    ensures Logged(p0, ipc.posted, log') && Own(log') == Own(log)
    ensures forall x :: x in log' && x !in log ==> PostedBy(x, [e])
  {
    log' := log;
    ghost var was := ipc.posted;
    var s := DoPost(ipc, e.id, e.m, e.grant, e.readable, t, g, a, out);
    if s == Posted { log' := LogPost(p0, was, log, e); }
  }

  lemma LogPost(p0: map<nat, seq<Msg>>, p: map<nat, seq<Msg>>, log: seq<Sent>, e: Event) returns (log': seq<Sent>)
    requires Logged(p0, p, log) && e.Posts? && e.id in p
    ensures Logged(p0, p[e.id := p[e.id] + [e.m]], log') && Own(log') == Own(log)
    ensures forall x :: x in log' && x !in log ==> PostedBy(x, [e])
  {
    var x := Sent(e.id, e.m, false);
    LoggedPost(p0, p, log, x);
    log' := log + [x];
    assert e in [e];
  }

  method DoTake(ipc: Ipc, id: nat, t: nat, out: set<nat>, ghost g: nat, ghost a: Option<Buffer>)
    returns (out': set<nat>)
    requires ipc.Valid() && Slot(ipc.replies, ipc.pages, t, g, a) && InHand(ipc.holder, out)
    modifies ipc`ports, ipc`holder, ipc`received
    ensures ipc.Valid() && Slot(ipc.replies, ipc.pages, t, g, a) && InHand(ipc.holder, out')
  {
    var got := ipc.Take(id);
    out' := if got.Page? then out + {got.page} else out;
  }

  method DoFinish(ipc: Ipc, x: nat, t: nat, out: set<nat>, ghost g: nat, ghost a: Option<Buffer>)
    returns (out': set<nat>)
    requires ipc.Valid() && Slot(ipc.replies, ipc.pages, t, g, a) && InHand(ipc.holder, out)
    modifies ipc`pages, ipc`holder
    ensures ipc.Valid() && Slot(ipc.replies, ipc.pages, t, g, a) && InHand(ipc.holder, out')
  {
    ReplyPageApart(ipc, t);
    if x in out { ipc.Finish(x); }
    out' := out - {x};
  }

  method DoClose(ipc: Ipc, id: nat, t: nat, ghost g: nat, ghost a: Option<Buffer>, ghost out: set<nat>)
    requires ipc.Valid() && Slot(ipc.replies, ipc.pages, t, g, a) && InHand(ipc.holder, out)
    modifies ipc`ports, ipc`pages, ipc`holder
    ensures ipc.Valid() && Slot(ipc.replies, ipc.pages, t, g, a) && InHand(ipc.holder, out)
  {
    ReplyPageApart(ipc, t);
    QueuesHoldTheirs(ipc, out);
    var _ := ipc.Close(id);
  }

  lemma QueuesHoldTheirs(ipc: Ipc, out: set<nat>)
    requires ipc.Valid() && InHand(ipc.holder, out)
    ensures forall i :: 0 <= i < |ipc.ports| && ipc.ports[i].used ==>
      PortShape(ipc.ports[i]) && Elems(Queue(ipc.ports[i])) !! out
  {
    forall i | 0 <= i < |ipc.ports| && ipc.ports[i].used
      ensures PortShape(ipc.ports[i]) && Elems(Queue(ipc.ports[i])) !! out
    {
      forall x | x in out ensures x !in Queue(ipc.ports[i]) { assert x in ipc.holder && ipc.holder[x] == InFlight; }
    }
  }

  method DoAlloc(ipc: Ipc, grant: Option<nat>, t: nat, ghost g: nat, ghost a: Option<Buffer>, ghost out: set<nat>)
    requires ipc.Valid() && Slot(ipc.replies, ipc.pages, t, g, a) && InHand(ipc.holder, out)
    modifies ipc`replies, ipc`pages, ipc`holder
    ensures ipc.Valid() && Slot(ipc.replies, ipc.pages, t, g, a) && InHand(ipc.holder, out)
  {
    var _ := ipc.ReplyAlloc(Granted(grant, ipc.pages));
  }

  method DoFree(ipc: Ipc, u: nat, t: nat, ghost g: nat, ghost a: Option<Buffer>, ghost out: set<nat>)
    requires ipc.Valid() && Slot(ipc.replies, ipc.pages, t, g, a) && InHand(ipc.holder, out) && u != t
    modifies ipc`replies, ipc`pages, ipc`holder
    ensures ipc.Valid() && Slot(ipc.replies, ipc.pages, t, g, a) && InHand(ipc.holder, out)
  {
    ReplyPageApart(ipc, t);
    if u < MAX_REPLIES && ipc.replies[u].used { ReplyPageApart(ipc, u); }
    ipc.ReplyFree(u);
  }

  method DoReply(ipc: Ipc, u: nat, b: Buffer, t: nat, ghost g: nat, ghost a: Option<Buffer>, ghost out: set<nat>)
    returns (ghost a': Option<Buffer>)
    requires ipc.Valid() && Slot(ipc.replies, ipc.pages, t, g, a) && InHand(ipc.holder, out)
    modifies ipc`replies, ipc`pages
    ensures ipc.Valid() && Slot(ipc.replies, ipc.pages, t, g, a') && InHand(ipc.holder, out)
    ensures a' == if u == t && a.None? then Some(b) else a
  {
    ReplyPageApart(ipc, t);
    if u < MAX_REPLIES && ipc.replies[u].used { ReplyPageApart(ipc, u); }
    var _ := ipc.Reply(u, b);
    a' := if u == t && a.None? then Some(b) else a;
  }

  /** One section of another task.  A task frees only pages it took, and a call
      frees only its own slot. */
  method Do(ipc: Ipc, e: Event, t: nat, out: set<nat>, ghost g: nat, ghost a: Option<Buffer>,
            ghost p0: map<nat, seq<Msg>>, ghost log: seq<Sent>)
    returns (out': set<nat>, ghost a': Option<Buffer>, ghost log': seq<Sent>)
    requires ipc.Valid() && Slot(ipc.replies, ipc.pages, t, g, a) && InHand(ipc.holder, out)
    requires Logged(p0, ipc.posted, log)
    modifies ipc
    ensures ipc.Valid() && Slot(ipc.replies, ipc.pages, t, g, a') && InHand(ipc.holder, out')
    ensures Follows(a, a', t, [e])
    ensures Logged(p0, ipc.posted, log') && Own(log') == Own(log)
    ensures forall x :: x in log' && x !in log ==> PostedBy(x, [e])
  {
    out', a', log' := out, a, log;
    match e {
      case Creates(name) => DoCreate(ipc, name, p0, log);
      case Posts(_, _, _, _) => log' := DoPosts(ipc, e, t, g, a, out, p0, log);
      case Takes(id) => out' := DoTake(ipc, id, t, out, g, a);
      case Finishes(x) => out' := DoFinish(ipc, x, t, out, g, a);
      case Closes(id) => DoClose(ipc, id, t, g, a, out);
      case Allocs(grant) => DoAlloc(ipc, grant, t, g, a, out);
      case Frees(u) => if u != t { DoFree(ipc, u, t, g, a, out); }
      case Replies(u, b) => a' := DoReply(ipc, u, b, t, g, a, out);
    }
  }

  /** Others run any sections while the call holds slot `t`. */
  method Others(ipc: Ipc, events: seq<Event>, t: nat, out: set<nat>, ghost g: nat, ghost a: Option<Buffer>,
                ghost p0: map<nat, seq<Msg>>, ghost log: seq<Sent>)
    returns (out': set<nat>, ghost a': Option<Buffer>, ghost log': seq<Sent>)
    requires ipc.Valid() && Slot(ipc.replies, ipc.pages, t, g, a) && InHand(ipc.holder, out)
    requires Logged(p0, ipc.posted, log)
    modifies ipc
    ensures ipc.Valid() && Slot(ipc.replies, ipc.pages, t, g, a') && InHand(ipc.holder, out')
    ensures Follows(a, a', t, events)
    ensures Logged(p0, ipc.posted, log') && Own(log') == Own(log)
    ensures forall x :: x in log' && x !in log ==> PostedBy(x, events)
  {
    out', a', log' := out, a, log;
    for k := 0 to |events|
      invariant ipc.Valid() && Slot(ipc.replies, ipc.pages, t, g, a') && InHand(ipc.holder, out')
      invariant Follows(a, a', t, events)
      invariant Logged(p0, ipc.posted, log') && Own(log') == Own(log)
      invariant forall x :: x in log' && x !in log ==> PostedBy(x, events)
    {
      ghost var l := log';
      out', a', log' := Do(ipc, events[k], t, out', g, a', p0, l);
      forall x | x in log' && x !in log ensures PostedBy(x, events) {
        if x !in l { assert events[k] in events; }
      }
    }
  }

  // -------------------------------------------------------------- the call

  /** Every event of the turns. */
  function Events(script: seq<Turn>): seq<Event> {
    if script == [] then [] else Events(script[..|script| - 1]) + script[|script| - 1].others
  }

  lemma {:induction false} InEvents(script: seq<Turn>, i: nat, e: Event)
    requires i < |script| && e in script[i].others
    ensures e in Events(script)
  {
    var n := |script| - 1;
    if i < n {
      assert script[..n][i] == script[i];
      InEvents(script[..n], i, e);
    }
  }

  /** After the events of a turn the slot still holds an answer from the script. */
  lemma FollowsOn(script: seq<Turn>, i: nat, t: nat, a: Option<Buffer>, b: Option<Buffer>)
    requires i < |script| && Follows(None, a, t, Events(script)) && Follows(a, b, t, script[i].others)
    ensures Follows(None, b, t, Events(script))
  {
    if a != b { InEvents(script, i, Replies(t, b.value)); }
  }

  /** What is so while a call holds slot `t` with page `g`. */
  ghost predicate Holding(ipc: Ipc, script: seq<Turn>, t: nat, out: set<nat>, g: nat, a: Option<Buffer>,
                          p0: map<nat, seq<Msg>>, log: seq<Sent>)
    reads ipc
  {
    && ipc.Valid() && Slot(ipc.replies, ipc.pages, t, g, a) && InHand(ipc.holder, out)
    && Follows(None, a, t, Events(script))
    && Logged(p0, ipc.posted, log) && ByOthers(log, Events(script))
  }

  /** One turn of others, within the script. */
  method TakeTurn(ipc: Ipc, script: seq<Turn>, i: nat, t: nat, out: set<nat>, ghost g: nat, ghost a: Option<Buffer>,
                  ghost p0: map<nat, seq<Msg>>, ghost log: seq<Sent>)
    returns (out': set<nat>, ghost a': Option<Buffer>, ghost log': seq<Sent>)
    requires i < |script| && Holding(ipc, script, t, out, g, a, p0, log)
    modifies ipc
    ensures Holding(ipc, script, t, out', g, a', p0, log') && Own(log') == Own(log)
  {
    out', a', log' := Others(ipc, script[i].others, t, out, g, a, p0, log);
    FollowsOn(script, i, t, a, a');
    forall e | e in script[i].others ensures e in Events(script) { InEvents(script, i, e); }
    MoreEvents(log, log', script[i].others, Events(script));
  }

  /** Why a request was not posted, or why the call gave up, as seen at the end. */
  ghost predicate Reason(r: Outcome, ports: seq<Port>, pages: map<nat, Msg>, id: nat, m: Msg, readable: bool,
                         script: seq<Turn>)
  {
    match r
    case NoSuchPort => forall k :: 0 <= k < |ports| ==> !(ports[k].used && ports[k].id == id)
    case OutOfMemory => HasRoom(ports, id) && exists i :: 0 <= i < |script| && Granted(script[i].grant, pages).None?
    case BadBuffer => HasRoom(ports, id) && m.data != [] && !readable
    case Unblockable => exists i :: 0 <= i < |script| && !script[i].woke
    case _ => true
  }

  /** What an outcome says of the request `m`: an answered call posted it once; one
      refused never did; a call that gave up or still waits did it at most once. */
  ghost predicate Settled(r: Outcome, log: seq<Sent>, ports: seq<Port>, pages: map<nat, Msg>, id: nat, m: Msg,
                          readable: bool, script: seq<Turn>)
  {
    && (Own(log) == [] || Own(log) == [Sent(id, m, true)])
    && (r.Answer? ==> Own(log) != [])
    && (r in {NoSuchPort, OutOfMemory, BadBuffer} ==> Own(log) == [])
    && Reason(r, ports, pages, id, m, readable, script)
    && (r == Waiting && script != [] && Own(log) == [] ==> IsFull(ports, id))
  }

  /** One round of the posting loop: others, then an attempt to post. */
  method PostTurn(ipc: Ipc, id: nat, m: Msg, readable: bool, script: seq<Turn>, i: nat, t: nat, out: set<nat>,
                  ghost g: nat, ghost a: Option<Buffer>, ghost p0: map<nat, seq<Msg>>, ghost log: seq<Sent>)
    returns (s: Status, out': set<nat>, ghost a': Option<Buffer>, ghost log': seq<Sent>)
    requires i < |script| && Holding(ipc, script, t, out, g, a, p0, log) && Own(log) == [] && |m.data| <= MSG_MAX
    modifies ipc
    ensures Holding(ipc, script, t, out', g, a', p0, log') && s != TooBig
    ensures Own(log') == if s == Posted then [Sent(id, m, true)] else []
    ensures s == Full ==> IsFull(ipc.ports, id)
    ensures s == NoPort ==> Reason(NoSuchPort, ipc.ports, ipc.pages, id, m, readable, script)
    ensures s == NoMemory ==> Reason(OutOfMemory, ipc.ports, ipc.pages, id, m, readable, script)
    ensures s == Fault ==> Reason(BadBuffer, ipc.ports, ipc.pages, id, m, readable, script)
  {
    out', a', log' := TakeTurn(ipc, script, i, t, out, g, a, p0, log);
    s, log' := PostOwn(ipc, id, m, script[i].grant, readable, Events(script), t, out', g, a', p0, log');
  }

  /** The call's own attempt to post, which is logged. */
  method PostOwn(ipc: Ipc, id: nat, m: Msg, grant: Option<nat>, readable: bool, ghost events: seq<Event>, t: nat,
                 ghost out: set<nat>, ghost g: nat, ghost a: Option<Buffer>, ghost p0: map<nat, seq<Msg>>,
                 ghost log: seq<Sent>)
    returns (s: Status, ghost log': seq<Sent>)
    requires ipc.Valid() && Slot(ipc.replies, ipc.pages, t, g, a) && InHand(ipc.holder, out)
    requires Logged(p0, ipc.posted, log) && ByOthers(log, events) && Own(log) == [] && |m.data| <= MSG_MAX
    modifies ipc`ports, ipc`pages, ipc`holder, ipc`posted
    ensures ipc.Valid() && Slot(ipc.replies, ipc.pages, t, g, a) && InHand(ipc.holder, out) && s != TooBig
    ensures Logged(p0, ipc.posted, log') && ByOthers(log', events)
    ensures Own(log') == if s == Posted then [Sent(id, m, true)] else []
    ensures Answers(s, ipc.ports, ipc.pages, id, m, grant, readable)
  {
    log' := log;
    ghost var was := ipc.posted;
    s := DoPost(ipc, id, m, grant, readable, t, g, a, out);
    if s == Posted {
      LoggedPost(p0, was, log, Sent(id, m, true));
      MoreOwn(log, Sent(id, m, true), events);
      log' := log + [Sent(id, m, true)];
    }
  }

  /** What a status says of the ports and pages as they are. */
  ghost predicate Answers(s: Status, ports: seq<Port>, pages: map<nat, Msg>, id: nat, m: Msg, grant: Option<nat>,
                          readable: bool)
  {
    match s
    case NoPort => forall k :: 0 <= k < |ports| ==> !(ports[k].used && ports[k].id == id)
    case NoMemory => Granted(grant, pages).None? && HasRoom(ports, id)
    case Fault => m.data != [] && !readable && HasRoom(ports, id)
    case Full => IsFull(ports, id)
    case _ => true
  }

  /** The posting loop: `i` turns are used up; with Full the turns ran out. */
  method PostRequest(ipc: Ipc, id: nat, m: Msg, readable: bool, script: seq<Turn>, t: nat, out: set<nat>, ghost g: nat,
                     ghost p0: map<nat, seq<Msg>>)
    returns (r: Option<Outcome>, i: nat, out': set<nat>, ghost a: Option<Buffer>, ghost log: seq<Sent>)
    requires Holding(ipc, script, t, out, g, None, p0, []) && |m.data| <= MSG_MAX
    modifies ipc
    ensures i <= |script| && Holding(ipc, script, t, out', g, a, p0, log)
    ensures r.None? ==> Own(log) == [Sent(id, m, true)]
    ensures r.Some? ==>
      && r.value in {NoSuchPort, OutOfMemory, BadBuffer, Unblockable, Waiting} && Own(log) == []
      && Reason(r.value, ipc.ports, ipc.pages, id, m, readable, script)
      && (r.value.Waiting? ==> i == |script| && (script != [] ==> IsFull(ipc.ports, id)))
  {
    i, out', a, log := 0, out, None, [];
    while i < |script|
      invariant i <= |script| && Holding(ipc, script, t, out', g, a, p0, log) && Own(log) == []
      invariant i > 0 ==> IsFull(ipc.ports, id)
    {
      var s;
      s, out', a, log := PostTurn(ipc, id, m, readable, script, i, t, out', g, a, p0, log);
      i := i + 1;
      match s {
        case Posted => return None, i, out', a, log;
        case NoPort => return Some(NoSuchPort), i, out', a, log;
        case NoMemory => return Some(OutOfMemory), i, out', a, log;
        case Fault => return Some(BadBuffer), i, out', a, log;
        case Full => if !script[i - 1].woke { return Some(Unblockable), i, out', a, log; }
      }
    }
    r := Some(Waiting);
  }

  lemma MoreOwn(log: seq<Sent>, x: Sent, events: seq<Event>)
    requires ByOthers(log, events) && x.own
    ensures ByOthers(log + [x], events)
  {}

  /** The waiting loop: the slot is looked at before each block.  It is always
      still in use, so that the loop has no way out for a slot that is gone. */
  method AwaitReply(ipc: Ipc, script: seq<Turn>, from: nat, t: nat, out: set<nat>, ghost g: nat,
                    ghost a0: Option<Buffer>, ghost p0: map<nat, seq<Msg>>, ghost log0: seq<Sent>)
    returns (r: Option<Outcome>, out': set<nat>, ghost a: Option<Buffer>, ghost log: seq<Sent>)
    requires from <= |script| && Holding(ipc, script, t, out, g, a0, p0, log0)
    modifies ipc
    ensures Holding(ipc, script, t, out', g, a, p0, log) && Own(log) == Own(log0)
    ensures r.None? ==> a.Some?
    ensures r.Some? ==> r.value in {Unblockable, Waiting}
    ensures r == Some(Unblockable) ==> exists i :: 0 <= i < |script| && !script[i].woke
    ensures r == Some(Waiting) && from < |script| ==> a.None?
  {
    var i := from;
    out', a, log := out, a0, log0;
    while i < |script|
      invariant from <= i <= |script| && Holding(ipc, script, t, out', g, a, p0, log) && Own(log) == Own(log0)
      invariant i > from ==> a.None?
    {
      out', a, log := TakeTurn(ipc, script, i, t, out', g, a, p0, log);
      if ipc.replies[t].done { return None, out', a, log; }
      if !script[i].woke { return Some(Unblockable), out', a, log; }
      i := i + 1;
    }
    r := Some(Waiting);
  }

  /** ipc_call.  `first` is the page for the reply slot, `last` what others do
      between the answer being seen and being copied out; a null result buffer is
      one of length 0.  `log` is what was posted meanwhile. */
  method Call(ipc: Ipc, id: nat, src: nat, data: seq<Byte>, readable: bool, outLen: nat, first: Option<nat>,
              script: seq<Turn>, last: seq<Event>, out: set<nat>)
    returns (r: Outcome, t: nat, out': set<nat>, ghost log: seq<Sent>)
    requires ipc.Valid() && InHand(ipc.holder, out)
    modifies ipc
    ensures ipc.Valid() && InHand(ipc.holder, out')
    ensures r == Oversized <==> |data| > MSG_MAX
    ensures r == NoSlot <==>
      |data| <= MSG_MAX && (Granted(first, old(ipc.pages)).None?
        || forall k :: 0 < k < MAX_REPLIES ==> old(ipc.replies)[k].used)
    ensures r in {Oversized, NoSlot} ==>
      ipc.replies == old(ipc.replies) && ipc.pages == old(ipc.pages) && ipc.holder == old(ipc.holder)
        && ipc.ports == old(ipc.ports)
    ensures r !in {Oversized, NoSlot} ==> first.Some? && 0 < t < MAX_REPLIES && !old(ipc.replies)[t].used
    ensures r !in {Oversized, NoSlot, Waiting} ==>
      !ipc.replies[t].used && first.value !in ipc.pages && first.value !in ipc.holder
    ensures r == Waiting ==> ipc.replies[t].used && ipc.replies[t].page == first.value
    ensures r.Answer? ==> exists b :: Replies(t, b) in Events(script) && r.len == Cut(b) && r.data == Told(b, outLen)
    ensures Logged(old(ipc.posted), ipc.posted, log) && ByOthers(log, Events(script) + last)
    ensures r.Answer? ==> Behind(old(ipc.posted), ipc.posted, id, Msg(src, t, 0, data))
    ensures r in {Oversized, NoSlot} ==> log == []
    ensures r !in {Oversized, NoSlot} ==>
      Settled(r, log, ipc.ports, ipc.pages[first.value := BLANK], id, Msg(src, t, 0, data), readable, script)
  {
    t, out', log := 0, out, [];
    if |data| > MSG_MAX { return Oversized, t, out', log; }
    var token := ipc.ReplyAlloc(Granted(first, ipc.pages));
    if token.None? { return NoSlot, t, out', log; }
    t := token.value;
    r, out', log := Run(ipc, id, Msg(src, t, 0, data), readable, outLen, t, script, last, out, first.value);
  }

  /** What the caller is told by an answer: the bytes that fit its buffer. */
  function Told(b: Buffer, outLen: nat): seq<Byte> {
    Shown(Filled(BLANK, b).data, if Cut(b) < outLen then Cut(b) else outLen)
  }

  /** A caller with room gets exactly the bytes of the answer that fit a page;
      from a null buffer it gets zeros. */
  lemma ToldBytes(b: Buffer, outLen: nat)
    ensures b.Bytes? ==> Told(b, outLen) == b.data[..Min(|b.data|, Min(outLen, MSG_MAX))]
    ensures b.Null? ==> Told(b, outLen) == seq(Min(Min(b.len, MSG_MAX), outLen), _ => 0)
    ensures Cut(b) == Min(match b case Null(len) => len case Bytes(data) => |data|, MSG_MAX)
  {}

  function Min(a: nat, b: nat): nat {
    if a < b then a else b
  }

  /** A call that ended gave its slot and page back; one in a loop still has them. */
  ghost predicate Left(ipc: Ipc, r: Outcome, t: nat, g: nat, out: set<nat>)
    reads ipc
  {
    && ipc.Valid() && InHand(ipc.holder, out) && t < |ipc.replies|
    && if r == Waiting then ipc.replies[t].used && ipc.replies[t].page == g
       else !ipc.replies[t].used && g !in ipc.pages && g !in ipc.holder
  }

  /** The call once it holds slot `t`. */
  method Run(ipc: Ipc, id: nat, m: Msg, readable: bool, outLen: nat, t: nat, script: seq<Turn>, last: seq<Event>,
             out: set<nat>, ghost g: nat)
    returns (r: Outcome, out': set<nat>, ghost log: seq<Sent>)
    requires ipc.Valid() && Slot(ipc.replies, ipc.pages, t, g, None) && InHand(ipc.holder, out) && |m.data| <= MSG_MAX
    modifies ipc
    ensures Left(ipc, r, t, g, out') && !r.Oversized? && !r.NoSlot?
    ensures r.Answer? ==> exists b :: Replies(t, b) in Events(script) && r.len == Cut(b) && r.data == Told(b, outLen)
    ensures Logged(old(ipc.posted), ipc.posted, log) && ByOthers(log, Events(script) + last)
    ensures r.Answer? ==> Behind(old(ipc.posted), ipc.posted, id, m)
    ensures Settled(r, log, ipc.ports, ipc.pages[g := BLANK], id, m, readable, script)
  {
    var s;
    ghost var a;
    s, out', a, log := Exchange(ipc, id, m, readable, script, last, t, out, g);
    if s.None? {
      r := CopyOut(ipc, outLen, t, out', g, a.value);
    } else {
      r := s.value;
      GiveUp(ipc, r, id, m, readable, script, t, out', g, a, log);
    }
  }

  /** The way out without an answer; a call still in a loop keeps its slot. */
  method GiveUp(ipc: Ipc, r: Outcome, id: nat, m: Msg, readable: bool, ghost script: seq<Turn>, t: nat,
                ghost out: set<nat>, ghost g: nat, ghost a: Option<Buffer>, ghost log: seq<Sent>)
    requires ipc.Valid() && Slot(ipc.replies, ipc.pages, t, g, a) && InHand(ipc.holder, out)
    requires Settled(r, log, ipc.ports, ipc.pages, id, m, readable, script)
    modifies ipc`replies, ipc`pages, ipc`holder
    ensures Left(ipc, r, t, g, out)
    ensures Settled(r, log, ipc.ports, ipc.pages[g := BLANK], id, m, readable, script)
  {
    SettledAfter(r, log, ipc.ports, ipc.pages, g, id, m, readable, script);
    if r != Waiting { Leave(ipc, t, out, g, a); }
  }

  /** Both loops, and what others do after the answer was seen: None when the
      answer is there. */
  method Exchange(ipc: Ipc, id: nat, m: Msg, readable: bool, script: seq<Turn>, last: seq<Event>, t: nat, out: set<nat>,
                  ghost g: nat)
    returns (s: Option<Outcome>, out': set<nat>, ghost a: Option<Buffer>, ghost log: seq<Sent>)
    requires ipc.Valid() && Slot(ipc.replies, ipc.pages, t, g, None) && InHand(ipc.holder, out) && |m.data| <= MSG_MAX
    modifies ipc
    ensures ipc.Valid() && Slot(ipc.replies, ipc.pages, t, g, a) && InHand(ipc.holder, out')
    ensures Logged(old(ipc.posted), ipc.posted, log) && ByOthers(log, Events(script) + last)
    ensures s.None? ==> a.Some? && Replies(t, a.value) in Events(script)
    ensures s.None? ==> Own(log) == [Sent(id, m, true)] && Behind(old(ipc.posted), ipc.posted, id, m)
    ensures s.Some? ==>
      && s.value in {NoSuchPort, OutOfMemory, BadBuffer, Unblockable, Waiting}
      && Settled(s.value, log, ipc.ports, ipc.pages, id, m, readable, script)
  {
    ghost var p0 := ipc.posted;
    s, out', a, log := Loops(ipc, id, m, readable, script, t, out, g);
    MoreScript(log, script, last);
    if s.None? {
      out', log := LastTurn(ipc, t, Events(script) + last, last, out', g, a.value, p0, log, Sent(id, m, true));
    }
  }

  method Loops(ipc: Ipc, id: nat, m: Msg, readable: bool, script: seq<Turn>, t: nat, out: set<nat>, ghost g: nat)
    returns (s: Option<Outcome>, out': set<nat>, ghost a: Option<Buffer>, ghost log: seq<Sent>)
    requires ipc.Valid() && Slot(ipc.replies, ipc.pages, t, g, None) && InHand(ipc.holder, out) && |m.data| <= MSG_MAX
    modifies ipc
    ensures Holding(ipc, script, t, out', g, a, old(ipc.posted), log)
    ensures s.None? ==> a.Some? && Own(log) == [Sent(id, m, true)]
    ensures s.Some? ==>
      && s.value in {NoSuchPort, OutOfMemory, BadBuffer, Unblockable, Waiting}
      && Settled(s.value, log, ipc.ports, ipc.pages, id, m, readable, script)
  {
    ghost var p0 := ipc.posted;
    LogStart(p0, script);
    var i;
    s, i, out', a, log := PostRequest(ipc, id, m, readable, script, t, out, g, p0);
    if s.None? {
      s, out', a, log := AwaitReply(ipc, script, i, t, out', g, a, p0, log);
    }
  }

  lemma LogStart(p: map<nat, seq<Msg>>, script: seq<Turn>)
    ensures Logged(p, p, []) && ByOthers([], Events(script))
  {}

  lemma MoreScript(log: seq<Sent>, script: seq<Turn>, last: seq<Event>)
    requires ByOthers(log, Events(script))
    ensures ByOthers(log, Events(script) + last) && Among(last, Events(script) + last)
  {
    forall x | x in log && !x.own ensures PostedBy(x, Events(script) + last) {
      var e :| e in Events(script) && e.Posts? && e.id == x.id && e.m == x.m;
      assert e in Events(script) + last;
    }
  }

  /** The reply page counts as in use also once it is given back. */
  lemma SettledAfter(r: Outcome, log: seq<Sent>, ports: seq<Port>, pages: map<nat, Msg>, g: nat, id: nat, m: Msg,
                     readable: bool, script: seq<Turn>)
    requires g in pages && Settled(r, log, ports, pages, id, m, readable, script)
    ensures Settled(r, log, ports, pages[g := BLANK], id, m, readable, script)
    ensures Settled(r, log, ports, (pages - {g})[g := BLANK], id, m, readable, script)
  {
    if r == OutOfMemory {
      var i :| 0 <= i < |script| && Granted(script[i].grant, pages).None?;
      assert Granted(script[i].grant, pages[g := BLANK]).None?;
      assert Granted(script[i].grant, (pages - {g})[g := BLANK]).None?;
    }
  }

  /** What others do after the answer was seen, up to the copy. */
  method LastTurn(ipc: Ipc, t: nat, ghost all: seq<Event>, last: seq<Event>, out: set<nat>, ghost g: nat,
                  ghost b: Buffer, ghost p0: map<nat, seq<Msg>>, ghost log0: seq<Sent>, ghost x: Sent)
    returns (out': set<nat>, ghost log: seq<Sent>)
    requires ipc.Valid() && Slot(ipc.replies, ipc.pages, t, g, Some(b)) && InHand(ipc.holder, out)
    requires Logged(p0, ipc.posted, log0) && ByOthers(log0, all) && Own(log0) == [x] && Among(last, all)
    modifies ipc
    ensures ipc.Valid() && Slot(ipc.replies, ipc.pages, t, g, Some(b)) && InHand(ipc.holder, out')
    ensures Logged(p0, ipc.posted, log) && ByOthers(log, all) && Own(log) == [x]
    ensures Behind(p0, ipc.posted, x.id, x.m)
  {
    ghost var a;
    out', a, log := Others(ipc, last, t, out, g, Some(b), p0, log0);
    MoreEvents(log0, log, last, all);
    OwnIsBehind(p0, ipc.posted, log, x);
  }

  /** The answer is copied out of the slot's page, outside the lock, and the slot
      is freed. */
  method CopyOut(ipc: Ipc, outLen: nat, t: nat, ghost out: set<nat>, ghost g: nat, ghost b: Buffer)
    returns (r: Outcome)
    requires ipc.Valid() && Slot(ipc.replies, ipc.pages, t, g, Some(b)) && InHand(ipc.holder, out)
    modifies ipc`replies, ipc`pages, ipc`holder
    ensures Left(ipc, r, t, g, out)
    ensures r == Answer(Cut(b), Told(b, outLen))
  {
    var len := ipc.replies[t].len;
    r := Answer(len, Shown(ipc.pages[ipc.replies[t].page].data, if len < outLen then len else outLen));
    Leave(ipc, t, out, g, Some(b));
  }

  /** reply_free on the call's own slot. */
  method Leave(ipc: Ipc, t: nat, ghost out: set<nat>, ghost g: nat, ghost a: Option<Buffer>)
    requires ipc.Valid() && Slot(ipc.replies, ipc.pages, t, g, a) && InHand(ipc.holder, out)
    modifies ipc`replies, ipc`pages, ipc`holder
    ensures ipc.Valid() && InHand(ipc.holder, out) && t < |ipc.replies| && !ipc.replies[t].used
    ensures ipc.pages == old(ipc.pages) - {g}
    ensures g !in ipc.holder
  {
    ReplyPageApart(ipc, t);
    ipc.ReplyFree(t);
  }
}
