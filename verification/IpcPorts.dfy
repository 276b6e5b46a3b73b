/**
 Ports, mailboxes and reply slots.  Each method is one section the kernel runs
 under its IPC lock; calls that block are sequences of such sections, so every
 interleaving of calls is a sequence of these methods.
 */
module IpcPorts {
  import opened Options

  const MAX_PORTS: nat := 32
  const PORT_SLOTS: nat := 64
  const MAX_REPLIES: nat := 64
  const NAME_LEN: nat := 16
  const MSG_MAX: nat := 4064

  type Byte = b: int | 0 <= b < 256

  /** The contents of a message page: header and payload. */
  datatype Msg = Msg(src: nat, token: nat, kind: nat, data: seq<Byte>)

  const BLANK: Msg := Msg(0, 0, 0, [])

  datatype Port = Port(used: bool, id: nat, name: seq<Byte>, slots: seq<nat>, head: nat, count: nat)

  datatype ReplySlot = ReplySlot(used: bool, page: nat, len: nat, done: bool)

  predicate PortShape(p: Port) {
    |p.slots| == PORT_SLOTS && p.head < PORT_SLOTS && p.count <= PORT_SLOTS && |p.name| == NAME_LEN
  }

  /** The queued pages of a port, oldest first. */
  function Queue(p: Port): seq<nat>
    requires PortShape(p)
  {
    seq(p.count, k requires 0 <= k < p.count => p.slots[(p.head + k) % PORT_SLOTS])
  }

  function Push(p: Port, page: nat): Port
    requires PortShape(p)
  {
    p.(slots := p.slots[(p.head + p.count) % PORT_SLOTS := page], count := p.count + 1)
  }

  lemma PushQueue(p: Port, page: nat)
    requires PortShape(p) && p.count < PORT_SLOTS
    ensures PortShape(Push(p, page)) && Queue(Push(p, page)) == Queue(p) + [page]
  {
    var q := Push(p, page);
    forall k | 0 <= k < q.count ensures Queue(q)[k] == (Queue(p) + [page])[k] {}
  }

  function Pop(p: Port): Port
    requires PortShape(p) && p.count > 0
  {
    p.(head := (p.head + 1) % PORT_SLOTS, count := p.count - 1)
  }

  lemma RingShift(h: nat, k: nat)
    requires h < PORT_SLOTS && k < PORT_SLOTS
    ensures ((h + 1) % PORT_SLOTS + k) % PORT_SLOTS == (h + (k + 1)) % PORT_SLOTS
  {
    if h + 1 < PORT_SLOTS {
      assert (h + 1) % PORT_SLOTS == h + 1;
    }
  }

  lemma PopQueue(p: Port)
    requires PortShape(p) && p.count > 0
    ensures PortShape(Pop(p)) && Queue(p) == [p.slots[p.head]] + Queue(Pop(p))
  {
    var a, b := Queue(p), [p.slots[p.head]] + Queue(Pop(p));
    forall k | 0 <= k < p.count ensures a[k] == b[k] {
      if k > 0 { RingShift(p.head, k - 1); }
    }
  }

  /** A live port `id` can take another message. */
  predicate HasRoom(ports: seq<Port>, id: nat) {
    exists k :: 0 <= k < |ports| && ports[k].used && ports[k].id == id && ports[k].count < PORT_SLOTS
  }

  predicate IsFull(ports: seq<Port>, id: nat) {
    exists k :: 0 <= k < |ports| && ports[k].used && ports[k].id == id && ports[k].count == PORT_SLOTS
  }

  /** The same ports are live, with the same ids and names. */
  ghost predicate SameNames(ports: seq<Port>, ports2: seq<Port>) {
    && |ports2| == |ports|
    && forall k :: 0 <= k < |ports| ==>
         ports2[k].used == ports[k].used && ports2[k].id == ports[k].id && ports2[k].name == ports[k].name
  }

  // ------------------------------------------------------- page ownership

  datatype Holder = InQueue(port: nat) | InReply(token: nat) | InFlight

  ghost predicate Distinct(s: seq<nat>) {
    forall i, j :: 0 <= i < j < |s| ==> s[i] != s[j]
  }

  /** Page `x` is where its holder says it is. */
  predicate HeldThere(ports: seq<Port>, replies: seq<ReplySlot>, h: Holder, x: nat) {
    match h
    case InQueue(i) => i < |ports| && PortShape(ports[i]) && ports[i].used && x in Queue(ports[i])
    case InReply(t) => t < |replies| && replies[t].used && replies[t].page == x
    case InFlight => true
  }

  /** Every queued page and every reply page is allocated and known to its one
      holder, and every allocated page is held. */
  ghost predicate Pages(ports: seq<Port>, replies: seq<ReplySlot>, pages: map<nat, Msg>, holder: map<nat, Holder>) {
    && (forall i :: 0 <= i < |ports| ==> PortShape(ports[i]))
    && (forall i :: 0 <= i < |ports| && ports[i].used ==> Distinct(Queue(ports[i])))
    && (forall i, x :: 0 <= i < |ports| && ports[i].used && x in Queue(ports[i]) ==>
      x in holder && holder[x] == InQueue(i))
    && (forall t :: 0 <= t < |replies| && replies[t].used ==>
          replies[t].page in holder && holder[replies[t].page] == InReply(t))
    && pages.Keys == holder.Keys
    && (forall x :: x in holder ==> x != 0 && HeldThere(ports, replies, holder[x], x))
  }

  function Contents(p: Port, pages: map<nat, Msg>): seq<Msg>
    requires PortShape(p) && forall x :: x in Queue(p) ==> x in pages
  {
    seq(|Queue(p)|, k requires 0 <= k < |Queue(p)| => assert Queue(p)[k] in Queue(p); pages[Queue(p)[k]])
  }

  lemma PostPages(ports: seq<Port>, replies: seq<ReplySlot>, pages: map<nat, Msg>, holder: map<nat, Holder>, i: nat,
                  x: nat, m: Msg)
    requires Pages(ports, replies, pages, holder) && i < |ports| && ports[i].used && ports[i].count < PORT_SLOTS
    requires x in holder && holder[x] == InFlight
    ensures Pages(ports[i := Push(ports[i], x)], replies, pages[x := m], holder[x := InQueue(i)])
  {
    InFlightApart(ports, replies, pages, holder, i, x);
    PushMembers(ports[i], x);
    var ps, h := ports[i := Push(ports[i], x)], holder[x := InQueue(i)];
    forall k, y | 0 <= k < |ps| && ps[k].used && y in Queue(ps[k]) ensures y in h && h[y] == InQueue(k) {
      assert y != x ==> y in Queue(ports[k]);
      if k != i { InFlightApart(ports, replies, pages, holder, k, x); }
    }
    forall y | y in h ensures y != 0 && HeldThere(ps, replies, h[y], y) {
      assert HeldThere(ports, replies, holder[y], y);
      if y != x { ThereAfterPush(ports, replies, i, x, holder[y], y); }
    }
  }

  /** A page in flight is in no queue. */
  lemma InFlightApart(ports: seq<Port>, replies: seq<ReplySlot>, pages: map<nat, Msg>, holder: map<nat, Holder>,
                      i: nat, x: nat)
    requires Pages(ports, replies, pages, holder) && i < |ports| && ports[i].used && x in holder
    requires holder[x] == InFlight
    ensures x !in Queue(ports[i])
  {}

  lemma ThereAfterPush(ports: seq<Port>, replies: seq<ReplySlot>, i: nat, x: nat, h: Holder, y: nat)
    requires i < |ports| && PortShape(ports[i]) && ports[i].count < PORT_SLOTS && Distinct(Queue(ports[i]))
    requires x !in Queue(ports[i])
    requires HeldThere(ports, replies, h, y)
    ensures HeldThere(ports[i := Push(ports[i], x)], replies, h, y)
  {
    PushMembers(ports[i], x);
  }

  lemma PushMembers(p: Port, x: nat)
    requires PortShape(p) && p.count < PORT_SLOTS && Distinct(Queue(p)) && x !in Queue(p)
    ensures PortShape(Push(p, x)) && Distinct(Queue(Push(p, x)))
    ensures forall y :: y in Queue(Push(p, x)) <==> y in Queue(p) || y == x
  {
    PushQueue(p, x);
    var q, q2 := Queue(p), Queue(Push(p, x));
    assert q2[|q|] == x;
    forall y | y in q ensures y in q2 {
      var k :| 0 <= k < |q| && q[k] == y;
      assert q2[k] == y;
    }
  }

  lemma PopMembers(p: Port)
    requires PortShape(p) && p.count > 0 && Distinct(Queue(p))
    ensures p.slots[p.head] in Queue(p) && Distinct(Queue(Pop(p)))
    ensures forall y :: y in Queue(Pop(p)) <==> y in Queue(p) && y != p.slots[p.head]
  {
    PopQueue(p);
    var x := p.slots[p.head];
    var q, q2 := Queue(p), Queue(Pop(p));
    assert q[0] == x;
    forall y | y in q && y != x ensures y in q2 {
      var k :| 0 <= k < |q| && q[k] == y;
      assert q2[k - 1] == y;
    }
    forall y | y in q2 ensures y in q && y != x {
      var k :| 0 <= k < |q2| && q2[k] == y;
      assert q[k + 1] == y;
    }
    forall k, j | 0 <= k < j < |q2| ensures q2[k] != q2[j] { assert q[k + 1] == q2[k] && q[j + 1] == q2[j]; }
  }

  lemma StillThere(ports: seq<Port>, replies: seq<ReplySlot>, i: nat, h: Holder, y: nat)
    requires i < |ports| && PortShape(ports[i]) && ports[i].count > 0 && Distinct(Queue(ports[i]))
    requires HeldThere(ports, replies, h, y) && y != ports[i].slots[ports[i].head]
    ensures HeldThere(ports[i := Pop(ports[i])], replies, h, y)
  {
    PopMembers(ports[i]);
  }

  lemma TakePages(ports: seq<Port>, replies: seq<ReplySlot>, pages: map<nat, Msg>, holder: map<nat, Holder>, i: nat)
    requires Pages(ports, replies, pages, holder) && i < |ports| && ports[i].used && ports[i].count > 0
    ensures var x := ports[i].slots[ports[i].head];
      x in pages && Pages(ports[i := Pop(ports[i])], replies, pages, holder[x := InFlight])
  {
    PopMembers(ports[i]);
    var x := ports[i].slots[ports[i].head];
    var ps, h := ports[i := Pop(ports[i])], holder[x := InFlight];
    assert x in holder && holder[x] == InQueue(i);
    TakenHeld(ports, replies, pages, holder, i);
    forall k, y | 0 <= k < |ps| && ps[k].used && y in Queue(ps[k]) ensures y in h && h[y] == InQueue(k) {
      KnownQueued(ports, replies, pages, holder, i, k, y);
    }
  }

  /** After the oldest page of port `i` left, every page is where its holder says. */
  lemma TakenHeld(ports: seq<Port>, replies: seq<ReplySlot>, pages: map<nat, Msg>, holder: map<nat, Holder>, i: nat)
    requires Pages(ports, replies, pages, holder) && i < |ports| && ports[i].used && ports[i].count > 0
    ensures var x := ports[i].slots[ports[i].head];
      forall y :: y in holder[x := InFlight] ==>
        y in holder && y != 0 && HeldThere(ports[i := Pop(ports[i])], replies, holder[x := InFlight][y], y)
  {
    PopMembers(ports[i]);
    var x := ports[i].slots[ports[i].head];
    var ps, h := ports[i := Pop(ports[i])], holder[x := InFlight];
    assert x in holder && holder[x] == InQueue(i);
    forall y | y in h ensures y in holder && y != 0 && HeldThere(ps, replies, h[y], y) {
      assert HeldThere(ports, replies, holder[y], y);
      if y != x { StillThere(ports, replies, i, holder[y], y); }
    }
  }

  /** A page still queued after the oldest of port `i` left has its holder. */
  lemma KnownQueued(ports: seq<Port>, replies: seq<ReplySlot>, pages: map<nat, Msg>, holder: map<nat, Holder>, i: nat,
                    k: nat, y: nat)
    requires Pages(ports, replies, pages, holder) && i < |ports| && ports[i].used && ports[i].count > 0
    requires k < |ports| && ports[k].used && y in Queue(if k == i then Pop(ports[i]) else ports[k])
    ensures y in holder && holder[y] == InQueue(k) && y != ports[i].slots[ports[i].head]
  {
    PopMembers(ports[i]);
    assert y in Queue(ports[k]) && y in holder && holder[y] == InQueue(k);
  }

  lemma PutAndDrop<T>(m: map<nat, T>, x: nat, v: T)
    requires x !in m
    ensures m[x := v] - {x} == m
  {}

  lemma PutTwice<T>(m: map<nat, T>, x: nat, v: T, w: T)
    ensures m[x := v][x := w] == m[x := w]
  {}

  lemma GrabPages(ports: seq<Port>, replies: seq<ReplySlot>, pages: map<nat, Msg>, holder: map<nat, Holder>, x: nat)
    requires Pages(ports, replies, pages, holder) && x !in pages && x != 0
    ensures Pages(ports, replies, pages[x := BLANK], holder[x := InFlight])
  {}

  lemma DropPages(ports: seq<Port>, replies: seq<ReplySlot>, pages: map<nat, Msg>, holder: map<nat, Holder>, x: nat)
    requires Pages(ports, replies, pages, holder) && x in holder && holder[x] == InFlight
    ensures Pages(ports, replies, pages - {x}, holder - {x})
  {}

  lemma OpenPages(ports: seq<Port>, replies: seq<ReplySlot>, pages: map<nat, Msg>, holder: map<nat, Holder>, i: nat,
                  p: Port)
    requires Pages(ports, replies, pages, holder) && i < |ports| && !ports[i].used && PortShape(p) && p.count == 0
    ensures Pages(ports[i := p], replies, pages, holder)
  {}

  lemma ReplyOpenPages(ports: seq<Port>, replies: seq<ReplySlot>, pages: map<nat, Msg>, holder: map<nat, Holder>,
                       t: nat, x: nat)
    requires Pages(ports, replies, pages, holder) && t < |replies| && !replies[t].used && x in holder
    requires holder[x] == InFlight
    ensures Pages(ports, replies[t := ReplySlot(true, x, 0, false)], pages, holder[x := InReply(t)])
  {}

  lemma ReplyClosePages(ports: seq<Port>, replies: seq<ReplySlot>, pages: map<nat, Msg>, holder: map<nat, Holder>,
                        t: nat)
    requires Pages(ports, replies, pages, holder) && t < |replies| && replies[t].used
    ensures var x := replies[t].page;
      x != 0 && x in pages
        && Pages(ports, replies[t := replies[t].(used := false, page := 0)], pages - {x}, holder - {x})
  {}

  lemma ReplyFillPages(ports: seq<Port>, replies: seq<ReplySlot>, pages: map<nat, Msg>, holder: map<nat, Holder>,
                       t: nat, m: Msg, n: nat)
    requires Pages(ports, replies, pages, holder) && t < |replies| && replies[t].used
    ensures Pages(ports, replies[t := replies[t].(len := n, done := true)], pages[replies[t].page := m], holder)
  {}

  // ------------------------------------------------------------ histories

  ghost predicate Accounted(p: Port, pages: map<nat, Msg>, posted: map<nat, seq<Msg>>, received: map<nat, seq<Msg>>)
    requires posted.Keys == received.Keys
  {
    && p.id in posted && PortShape(p) && (forall x :: x in Queue(p) ==> x in pages)
    && posted[p.id] == received[p.id] + Contents(p, pages)
  }

  /** Message histories per port id: what was posted is what was received plus
      what is queued; ids below `next` have been issued, each to one port. */
  ghost predicate History(ports: seq<Port>, pages: map<nat, Msg>, next: nat, posted: map<nat, seq<Msg>>,
                          received: map<nat, seq<Msg>>) {
    && next >= 1
    && (forall id :: id in posted <==> 1 <= id < next)
    && posted.Keys == received.Keys
    && (forall id :: id in posted ==> received[id] <= posted[id])
    && (forall i :: 0 <= i < |ports| && ports[i].used ==> Accounted(ports[i], pages, posted, received))
    && (forall i, j :: 0 <= i < |ports| && 0 <= j < |ports| && i != j && ports[i].used && ports[j].used ==>
      ports[i].id != ports[j].id)
  }

  lemma ContentsSame(p: Port, pages: map<nat, Msg>, pages2: map<nat, Msg>)
    requires PortShape(p) && (forall x :: x in Queue(p) ==> x in pages && x in pages2 && pages[x] == pages2[x])
    ensures Contents(p, pages) == Contents(p, pages2)
  {}

  /** Changing pages outside the queues changes no history. */
  lemma HistoryFrame(ports: seq<Port>, replies: seq<ReplySlot>, pages: map<nat, Msg>, holder: map<nat, Holder>,
                     pages2: map<nat, Msg>,
                     next: nat, posted: map<nat, seq<Msg>>, received: map<nat, seq<Msg>>)
    requires Pages(ports, replies, pages, holder) && History(ports, pages, next, posted, received)
    requires forall x :: x in pages && holder[x].InQueue? ==> x in pages2 && pages2[x] == pages[x]
    ensures History(ports, pages2, next, posted, received)
  {
    forall i | 0 <= i < |ports| && ports[i].used
      ensures (forall x :: x in Queue(ports[i]) ==> x in pages2)
      ensures Contents(ports[i], pages2) == Contents(ports[i], pages)
    {
      ContentsSame(ports[i], pages, pages2);
    }
  }

  lemma PostHistory(ports: seq<Port>, replies: seq<ReplySlot>, pages: map<nat, Msg>, holder: map<nat, Holder>, i: nat,
                    x: nat, m: Msg,
                    next: nat, posted: map<nat, seq<Msg>>, received: map<nat, seq<Msg>>)
    requires Pages(ports, replies, pages, holder) && History(ports, pages, next, posted, received)
    requires i < |ports| && ports[i].used && ports[i].count < PORT_SLOTS && x in holder && holder[x] == InFlight
    ensures var id := ports[i].id;
      History(ports[i := Push(ports[i], x)], pages[x := m], next, posted[id := posted[id] + [m]], received)
  {
    var id := ports[i].id;
    var p, p2 := ports[i], Push(ports[i], x);
    var pages2 := pages[x := m];
    PushQueue(p, x);
    HistoryFrame(ports, replies, pages, holder, pages2, next, posted, received);
    assert forall y :: y in Queue(p2) ==> y in pages2;
    assert Contents(p2, pages2) == Contents(p, pages2) + [m] by {
      forall k | 0 <= k < |Queue(p2)|
        ensures Contents(p2, pages2)[k] == (Contents(p, pages2) + [m])[k]
      {
        assert Queue(p2)[k] in Queue(p2);
      }
    }
    assert posted[id] + [m] == received[id] + Contents(p2, pages2);
  }

  lemma TakeHistory(ports: seq<Port>, pages: map<nat, Msg>, i: nat,
                    next: nat, posted: map<nat, seq<Msg>>, received: map<nat, seq<Msg>>)
    requires History(ports, pages, next, posted, received) && i < |ports| && ports[i].used && ports[i].count > 0
    ensures var id := ports[i].id; var x := ports[i].slots[ports[i].head];
      && x in pages && |received[id]| < |posted[id]| && posted[id][|received[id]|] == pages[x]
      && History(ports[i := Pop(ports[i])], pages, next, posted, received[id := received[id] + [pages[x]]])
  {
    var id := ports[i].id;
    var p, p2 := ports[i], Pop(ports[i]);
    var x := p.slots[p.head];
    PopQueue(p);
    assert Queue(p)[0] == x && x in Queue(p);
    forall y | y in Queue(p2) ensures y in pages {
      var k :| 0 <= k < |Queue(p2)| && Queue(p2)[k] == y;
      assert Queue(p)[k + 1] == y;
    }
    assert Contents(p, pages) == [pages[x]] + Contents(p2, pages) by {
      forall k | 0 <= k < |Queue(p)|
        ensures Contents(p, pages)[k] == ([pages[x]] + Contents(p2, pages))[k]
      {
        assert Queue(p)[k] in Queue(p);
      }
    }
    assert posted[id] == (received[id] + [pages[x]]) + Contents(p2, pages);
  }

  ghost predicate IpcOk(ports: seq<Port>, replies: seq<ReplySlot>, pages: map<nat, Msg>, holder: map<nat, Holder>,
                        next: nat, posted: map<nat, seq<Msg>>, received: map<nat, seq<Msg>>)
  {
    && |ports| == MAX_PORTS && |replies| == MAX_REPLIES
    && !replies[0].used
    && Pages(ports, replies, pages, holder)
    && History(ports, pages, next, posted, received)
  }

  lemma PostAll(ports: seq<Port>, replies: seq<ReplySlot>, pages: map<nat, Msg>, holder: map<nat, Holder>, i: nat,
                x: nat, m: Msg,
                next: nat, posted: map<nat, seq<Msg>>, received: map<nat, seq<Msg>>)
    returns (h: map<nat, Holder>, all: map<nat, seq<Msg>>)
    requires IpcOk(ports, replies, pages, holder, next, posted, received)
    requires i < |ports| && ports[i].used && ports[i].count < PORT_SLOTS && x in holder && holder[x] == InFlight
    ensures PortShape(ports[i]) && ports[i].id in posted
    ensures h == holder[x := InQueue(i)] && all == posted[ports[i].id := posted[ports[i].id] + [m]]
    ensures IpcOk(ports[i := Push(ports[i], x)], replies, pages[x := m], h, next, all, received)
  {
    assert Accounted(ports[i], pages, posted, received);
    h, all := holder[x := InQueue(i)], posted[ports[i].id := posted[ports[i].id] + [m]];
    PostPages(ports, replies, pages, holder, i, x, m);
    PostHistory(ports, replies, pages, holder, i, x, m, next, posted, received);
  }

  lemma TakeAll(ports: seq<Port>, replies: seq<ReplySlot>, pages: map<nat, Msg>, holder: map<nat, Holder>, i: nat,
                next: nat, posted: map<nat, seq<Msg>>, received: map<nat, seq<Msg>>)
    returns (h: map<nat, Holder>, got: map<nat, seq<Msg>>)
    requires IpcOk(ports, replies, pages, holder, next, posted, received) && i < |ports| && ports[i].used
    requires ports[i].count > 0
    ensures PortShape(ports[i]) && ports[i].slots[ports[i].head] in pages && ports[i].slots[ports[i].head] in holder
    ensures var id := ports[i].id; var x := ports[i].slots[ports[i].head];
      && id in posted && id in received && |received[id]| < |posted[id]| && posted[id][|received[id]|] == pages[x]
      && h == holder[x := InFlight] && got == received[id := received[id] + [pages[x]]]
    ensures IpcOk(ports[i := Pop(ports[i])], replies, pages, h, next, posted, got)
    ensures SameNames(ports, ports[i := Pop(ports[i])])
  {
    assert Accounted(ports[i], pages, posted, received);
    TakePages(ports, replies, pages, holder, i);
    TakeHistory(ports, pages, i, next, posted, received);
    var id, x := ports[i].id, ports[i].slots[ports[i].head];
    h, got := holder[x := InFlight], received[id := received[id] + [pages[x]]];
  }

  // ---------------------------------------------------------- the sections

  /** A buffer handed to ipc_reply: null, or bytes. */
  datatype Buffer = Null(len: nat) | Bytes(data: seq<Byte>)

  /** The length recorded for an answer: what fits a page. */
  function Cut(b: Buffer): nat {
    var n := match b case Null(len) => len case Bytes(data) => |data|;
    if n < MSG_MAX then n else MSG_MAX
  }

  function Filled(m: Msg, b: Buffer): Msg {
    if b.Bytes? then m.(data := b.data[..Cut(b)]) else m
  }

  datatype Status = NoPort | NoMemory | Fault | Full | Posted | TooBig
  datatype Got = Gone | Empty | Page(page: nat)

  predicate NameMatches(stored: seq<Byte>, name: seq<Byte>)
    requires |stored| == NAME_LEN
  {
    |name| <= NAME_LEN && stored[..|name|] == name && (|name| == NAME_LEN || stored[|name|] == 0)
  }

  function EmptyPort(): Port {
    Port(false, 0, seq(NAME_LEN, _ => 0), seq(PORT_SLOTS, _ => 0), 0, 0)
  }

  class Ipc {
    var ports: seq<Port>
    var replies: seq<ReplySlot>
    var pages: map<nat, Msg>       // pages in use by IPC, with their contents
    var nextId: nat
    ghost var holder: map<nat, Holder>
    ghost var posted: map<nat, seq<Msg>>
    ghost var received: map<nat, seq<Msg>>

    ghost predicate Valid()
      reads this
    {
      IpcOk(ports, replies, pages, holder, nextId, posted, received)
    }

    constructor ()
      ensures Valid() && pages == map[] && nextId == 1
      ensures posted == map[] && received == map[]
    {
      ports := seq(MAX_PORTS, _ => EmptyPort());
      replies := seq(MAX_REPLIES, _ => ReplySlot(false, 0, 0, false));
      pages, holder, nextId := map[], map[], 1;
      posted, received := map[], map[];
    }

    /** port_idx_by_id_locked. */
    method FindPort(id: nat) returns (i: Option<nat>)
      requires Valid()
      ensures i.Some? ==> i.value < |ports| && ports[i.value].used && ports[i.value].id == id
      ensures i.None? ==> forall k :: 0 <= k < |ports| ==> !(ports[k].used && ports[k].id == id)
    {
      var k := 0;
      while k < MAX_PORTS
        invariant 0 <= k <= MAX_PORTS && forall j :: 0 <= j < k ==> !(ports[j].used && ports[j].id == id)
      {
        if ports[k].used && ports[k].id == id { return Some(k); }
        k := k + 1;
      }
      i := None;
    }

    /** port_idx_by_name_locked: is the name taken? */
    method NameTaken(name: seq<Byte>) returns (taken: bool)
      requires Valid()
      ensures taken <==> exists k :: 0 <= k < |ports| && ports[k].used && NameMatches(ports[k].name, name)
    {
      var k := 0;
      while k < MAX_PORTS
        invariant 0 <= k <= MAX_PORTS
        invariant forall j :: 0 <= j < k ==> !(ports[j].used && NameMatches(ports[j].name, name))
      {
        if ports[k].used && NameMatches(ports[k].name, name) { return true; }
        k := k + 1;
      }
      taken := false;
    }

    /** The first unused port slot. */
    method FreeSlot() returns (k: nat)
      requires Valid()
      ensures k <= MAX_PORTS && (k < MAX_PORTS ==> !ports[k].used) && forall j :: 0 <= j < k ==> ports[j].used
    {
      k := 0;
      while k < MAX_PORTS && ports[k].used
        invariant 0 <= k <= MAX_PORTS && forall j :: 0 <= j < k ==> ports[j].used
      {
        k := k + 1;
      }
    }

    /** ipc_create: a fresh id, or None for a bad or taken name or a full table. */
    method Create(name: seq<Byte>) returns (id: Option<nat>)
      requires Valid()
      modifies this`ports, this`nextId, this`posted, this`received
      ensures Valid()
      ensures id.None? <==>
        || |name| == 0 || |name| > NAME_LEN
        || (exists k :: 0 <= k < MAX_PORTS && old(ports)[k].used && NameMatches(old(ports)[k].name, name))
        || (forall k :: 0 <= k < MAX_PORTS ==> old(ports)[k].used)
      ensures id.None? ==>
        ports == old(ports) && nextId == old(nextId) && posted == old(posted) && received == old(received)
      ensures id.Some? ==>
        && id.value == old(nextId) && id.value !in old(posted) && nextId == old(nextId) + 1
        && posted == old(posted)[id.value := []] && received == old(received)[id.value := []]
        && 0 < |name| <= NAME_LEN
        && exists k :: 0 <= k < |ports| && !old(ports)[k].used && ports == old(ports)[k := NewPort(id.value, name)]
    {
      if |name| == 0 || |name| > NAME_LEN { return None; }
      var taken := NameTaken(name);
      if taken { return None; }
      var k := FreeSlot();
      if k == MAX_PORTS { return None; }
      OpenPages(ports, replies, pages, holder, k, NewPort(nextId, name));
      OpenHistory(ports, pages, k, nextId, name, posted, received);
      ports := ports[k := NewPort(nextId, name)];
      posted, received := posted[nextId := []], received[nextId := []];
      id := Some(nextId);
      nextId := nextId + 1;
    }

    // ---------------------------------------------------------- mailboxes

    /** alloc_page: the page the allocator granted is cleared, and belongs to the
        section that asked for it until it is queued, made a reply page or freed. */
    method Grab(x: nat)
      requires Valid() && x !in pages && x != 0
      modifies this`pages, this`holder
      ensures Valid() && pages == old(pages)[x := BLANK] && holder == old(holder)[x := InFlight]
    {
      GrabPages(ports, replies, pages, holder, x);
      HistoryFrame(ports, replies, pages, holder, pages[x := BLANK], nextId, posted, received);
      pages, holder := pages[x := BLANK], holder[x := InFlight];
    }

    method Enqueue(i: nat, x: nat, m: Msg)
      requires Valid() && i < MAX_PORTS && ports[i].used && ports[i].count < PORT_SLOTS && x in holder
      requires holder[x] == InFlight
      modifies this`ports, this`pages, this`holder, this`posted
      ensures Valid() && pages == old(pages)[x := m] && holder == old(holder)[x := InQueue(i)]
      ensures old(ports)[i].id in old(posted) && SameNames(old(ports), ports)
      ensures var id := old(ports)[i].id; posted == old(posted)[id := old(posted)[id] + [m]]
    {
      ghost var h, all := PostAll(ports, replies, pages, holder, i, x, m, nextId, posted, received);
      ports, pages := ports[i := Push(ports[i], x)], pages[x := m];
      holder, posted := h, all;
    }

    method Dequeue(i: nat) returns (x: nat)
      requires Valid() && i < MAX_PORTS && ports[i].used && ports[i].count > 0
      modifies this`ports, this`holder, this`received
      ensures Valid() && x in pages && x in holder && holder == old(holder)[x := InFlight]
      ensures SameNames(old(ports), ports)
      ensures var id := old(ports)[i].id;
        && id in posted && id in old(received)
        && |old(received)[id]| < |posted[id]| && pages[x] == posted[id][|old(received)[id]|]
        && received == old(received)[id := old(received)[id] + [pages[x]]]
    {
      x := ports[i].slots[ports[i].head];
      ghost var h, got := TakeAll(ports, replies, pages, holder, i, nextId, posted, received);
      ghost var was := ports;
      ports, holder, received := ports[i := Pop(ports[i])], h, got;
      assert IpcOk(ports, replies, pages, holder, nextId, posted, received) && SameNames(was, ports);
    }

    /** Take the granted page and copy the message into it; the page is queued, or
        freed when the sender's buffer cannot be read. */
    method CopyIn(i: nat, x: nat, m: Msg, readable: bool) returns (ok: bool)
      requires Valid() && i < MAX_PORTS && ports[i].used && ports[i].count < PORT_SLOTS && x !in pages && x != 0
      modifies this`ports, this`pages, this`holder, this`posted
      ensures Valid() && ok == (m.data == [] || readable) && SameNames(old(ports), ports)
      ensures !ok ==> ports == old(ports) && pages == old(pages) && holder == old(holder) && posted == old(posted)
      ensures old(ports)[i].id in old(posted)
      ensures ok ==> pages == old(pages)[x := m] && holder == old(holder)[x := InQueue(i)]
      ensures ok ==> posted == old(posted)[old(ports)[i].id := old(posted)[old(ports)[i].id] + [m]]
    {
      Grab(x);
      ok := |m.data| == 0 || readable;
      PutTwice(old(holder), x, InFlight, InQueue(i));
      PutTwice(old(pages), x, BLANK, m);
      PutAndDrop(old(pages), x, BLANK);
      PutAndDrop(old(holder), x, InFlight);
      if ok {
        Enqueue(i, x, m);
      } else {
        Finish(x);
      }
    }

    /** The locked section of ipc_send and of ipc_call's posting loop: copy the
        message into a fresh page and queue it.  `grant` is the allocator's
        answer and `readable` that of the user-range check. */
    method Post(id: nat, m: Msg, grant: Option<nat>, readable: bool) returns (r: Status)
      requires Valid() && (grant.Some? ==> grant.value !in pages && grant.value != 0)
      modifies this`ports, this`pages, this`holder, this`posted
      ensures Valid()
      ensures r == Posted <==>
        |m.data| <= MSG_MAX && grant.Some? && (m.data == [] || readable) && HasRoom(old(ports), id)
      ensures r == TooBig <==> |m.data| > MSG_MAX
      ensures r == NoMemory <==> |m.data| <= MSG_MAX && grant.None? && HasRoom(old(ports), id)
      ensures r == Fault <==>
        |m.data| <= MSG_MAX && grant.Some? && m.data != [] && !readable && HasRoom(old(ports), id)
      ensures SameNames(old(ports), ports)
      ensures r == NoPort <==>
        |m.data| <= MSG_MAX && forall k :: 0 <= k < MAX_PORTS ==> !(old(ports)[k].used && old(ports)[k].id == id)
      ensures r == Full <==> |m.data| <= MSG_MAX && IsFull(old(ports), id)
      ensures r != Posted ==>
        ports == old(ports) && pages == old(pages) && holder == old(holder) && posted == old(posted)
      ensures r == Posted ==>
        && id in old(posted) && posted == old(posted)[id := old(posted)[id] + [m]]
        && grant.Some? && pages == old(pages)[grant.value := m]
        && exists k :: 0 <= k < MAX_PORTS && holder == old(holder)[grant.value := InQueue(k)]
    {
      if |m.data| > MSG_MAX { return TooBig; }
      var i := FindPort(id);
      if i.None? { return NoPort; }
      var p := ports[i.value];
      if p.count == PORT_SLOTS { return Full; }
      if grant.None? { return NoMemory; }
      var ok := CopyIn(i.value, grant.value, m, readable);
      r := if ok then Posted else Fault;
    }

    /** The locked section of ipc_recv and ipc_peek: the oldest message's page
        passes to the receiver. */
    method Take(id: nat) returns (r: Got)
      requires Valid()
      modifies this`ports, this`holder, this`received
      ensures Valid()
      ensures r.Gone? <==> forall k :: 0 <= k < |old(ports)| ==> !(old(ports)[k].used && old(ports)[k].id == id)
      ensures r.Empty? <==>
        exists k :: 0 <= k < |old(ports)| && old(ports)[k].used && old(ports)[k].id == id && old(ports)[k].count == 0
      ensures !r.Page? ==> ports == old(ports) && holder == old(holder) && received == old(received)
      ensures SameNames(old(ports), ports)
      ensures r.Page? ==>
        && r.page in pages && r.page in holder && holder == old(holder)[r.page := InFlight]
        && id in posted && |old(received)[id]| < |posted[id]| && pages[r.page] == posted[id][|old(received)[id]|]
        && received == old(received)[id := old(received)[id] + [pages[r.page]]]
    {
      var i := FindPort(id);
      if i.None? { return Gone; }
      var p := ports[i.value];
      if p.count == 0 { return Empty; }
      var x := Dequeue(i.value);
      r := Page(x);
    }

    /** free_page: a section is done with a page of its own.  A receiver frees the
        page it took on success and on a bad buffer alike. */
    method Finish(x: nat)
      requires Valid() && x in holder && holder[x] == InFlight
      modifies this`pages, this`holder
      ensures Valid() && pages == old(pages) - {x} && holder == old(holder) - {x}
    {
      DropPages(ports, replies, pages, holder, x);
      HistoryFrame(ports, replies, pages, holder, pages - {x}, nextId, posted, received);
      pages := pages - {x};
      holder := holder - {x};
    }

    /** ipc_close: every queued page is freed and the port is forgotten; its
        unreceived messages are gone but no history is rewritten. */
    method Close(id: nat) returns (ok: bool)
      requires Valid()
      modifies this`ports, this`pages, this`holder
      ensures Valid()
      ensures ok <==> exists k :: 0 <= k < |old(ports)| && old(ports)[k].used && old(ports)[k].id == id
      ensures !ok ==> ports == old(ports) && pages == old(pages) && holder == old(holder)
      ensures ok ==>
        && (forall k :: 0 <= k < |ports| ==> !(ports[k].used && ports[k].id == id))
        && (exists k ::
          0 <= k < |old(ports)| && old(ports)[k].used && old(ports)[k].id == id
          && ports == old(ports)[k := EmptyPort()]
          && pages == old(pages) - Elems(Queue(old(ports)[k]))
          && holder == old(holder) - Elems(Queue(old(ports)[k])))
    {
      var i := FindPort(id);
      if i.None? { return false; }
      var q := Queue(ports[i.value]);
      ClosePages(ports, replies, pages, holder, i.value);
      CloseHistory(ports, replies, pages, holder, i.value, nextId, posted, received);
      pages := FreeQueued(ports[i.value], pages);
      holder := holder - Elems(q);
      ports := ports[i.value := EmptyPort()];
      ok := true;
    }

    // -------------------------------------------------------- reply slots

    /** reply_alloc_locked: the lowest free slot from 1 up; the page is given
        back when there is none. */
    method ReplyAlloc(grant: Option<nat>) returns (t: Option<nat>)
      requires Valid() && (grant.Some? ==> grant.value !in pages && grant.value != 0)
      modifies this`replies, this`pages, this`holder
      ensures Valid()
      ensures t.None? <==> grant.None? || forall k :: 0 < k < MAX_REPLIES ==> old(replies)[k].used
      ensures t.None? ==> replies == old(replies) && pages == old(pages) && holder == old(holder)
      ensures t.Some? ==>
        && 0 < t.value < MAX_REPLIES && !old(replies)[t.value].used && grant.Some?
        && (forall k :: 0 < k < t.value ==> old(replies)[k].used)
        && replies == old(replies)[t.value := ReplySlot(true, grant.value, 0, false)]
        && pages == old(pages)[grant.value := BLANK] && holder == old(holder)[grant.value := InReply(t.value)]
    {
      if grant.None? { return None; }
      var x := grant.value;
      Grab(x);
      PutAndDrop(old(pages), x, BLANK);
      PutAndDrop(old(holder), x, InFlight);
      var k := FreeReply();
      PutTwice(old(holder), x, InFlight, InReply(k));
      if k == MAX_REPLIES {
        Finish(x);
        return None;
      }
      OpenReply(k, x);
      t := Some(k);
    }

    method FreeReply() returns (k: nat)
      requires Valid()
      ensures 1 <= k <= MAX_REPLIES && (k < MAX_REPLIES ==> !replies[k].used)
      ensures forall j :: 1 <= j < k ==> replies[j].used
    {
      k := 1;
      while k < MAX_REPLIES && replies[k].used
        invariant 1 <= k <= MAX_REPLIES && forall j :: 1 <= j < k ==> replies[j].used
      {
        k := k + 1;
      }
    }

    method OpenReply(k: nat, x: nat)
      requires Valid() && 0 < k < MAX_REPLIES && !replies[k].used && x in holder && holder[x] == InFlight
      modifies this`replies, this`holder
      ensures Valid() && replies == old(replies)[k := ReplySlot(true, x, 0, false)]
      ensures holder == old(holder)[x := InReply(k)]
    {
      ReplyOpenPages(ports, replies, pages, holder, k, x);
      replies := replies[k := ReplySlot(true, x, 0, false)];
      holder := holder[x := InReply(k)];
    }

    /** reply_free_locked: a slot in use gives its page back; anything else is
        ignored. */
    method ReplyFree(t: nat)
      requires Valid()
      modifies this`replies, this`pages, this`holder
      ensures Valid()
      ensures if t < MAX_REPLIES && old(replies)[t].used then
          && old(replies)[t].page in old(pages)
          && pages == old(pages) - {old(replies)[t].page} && holder == old(holder) - {old(replies)[t].page}
          && replies == old(replies)[t := old(replies)[t].(used := false, page := 0)]
        else replies == old(replies) && pages == old(pages) && holder == old(holder)
    {
      if t < MAX_REPLIES && replies[t].used {
        var x := replies[t].page;
        ReplyClosePages(ports, replies, pages, holder, t);
        HistoryFrame(ports, replies, pages, holder, pages - {x}, nextId, posted, received);
        pages := pages - {x};
        holder := holder - {x};
        replies := replies[t := replies[t].(used := false, page := 0)];
      }
    }

    /** ipc_reply: fill an unanswered slot; a token that is not held is refused
        and a second answer changes nothing.  From a null buffer the length is
        taken over and nothing is copied. */
    method Reply(t: nat, b: Buffer) returns (ok: bool)
      requires Valid()
      modifies this`replies, this`pages
      ensures Valid() && ok == (t < MAX_REPLIES && old(replies)[t].used)
      ensures if ok && !old(replies)[t].done then
          && replies == old(replies)[t := old(replies)[t].(len := Cut(b), done := true)]
          && old(replies)[t].page in old(pages)
          && pages == old(pages)[old(replies)[t].page := Filled(old(pages)[old(replies)[t].page], b)]
        else replies == old(replies) && pages == old(pages)
    {
      if t >= MAX_REPLIES || !replies[t].used { return false; }
      if replies[t].done { return true; }
      var x := replies[t].page;
      var m := Filled(pages[x], b);
      ReplyFillPages(ports, replies, pages, holder, t, m, Cut(b));
      HistoryFrame(ports, replies, pages, holder, pages[x := m], nextId, posted, received);
      pages := pages[x := m];
      replies := replies[t := replies[t].(len := Cut(b), done := true)];
      ok := true;
    }
  }

  function NewPort(id: nat, name: seq<Byte>): (p: Port)
    requires |name| <= NAME_LEN
    ensures PortShape(p) && Queue(p) == [] && NameMatches(p.name, name)
  {
    var stored := name + seq(NAME_LEN - |name|, _ => 0);
    assert stored[..|name|] == name;
    EmptyPort().(used := true, id := id, name := stored)
  }

  lemma OpenHistory(ports: seq<Port>, pages: map<nat, Msg>, k: nat, next: nat, name: seq<Byte>,
                    posted: map<nat, seq<Msg>>, received: map<nat, seq<Msg>>)
    requires History(ports, pages, next, posted, received) && k < |ports| && |name| <= NAME_LEN
    ensures History(ports[k := NewPort(next, name)], pages, next + 1, posted[next := []], received[next := []])
  {
    var p := NewPort(next, name);
    assert Contents(p, pages) == [];
  }

  // --------------------------------------------------------------- closing

  function Elems(s: seq<nat>): set<nat> {
    set x | x in s
  }

  /** The loop of ipc_close over the queue: free every page in it. */
  method FreeQueued(p: Port, pages: map<nat, Msg>) returns (left: map<nat, Msg>)
    requires PortShape(p) && forall x :: x in Queue(p) ==> x != 0 && x in pages
    ensures left == pages - Elems(Queue(p))
  {
    left := pages;
    var j := 0;
    while j < p.count
      invariant 0 <= j <= p.count && left == pages - Elems(Queue(p)[..j])
    {
      var x := p.slots[(p.head + j) % PORT_SLOTS];
      assert x == Queue(p)[j] && Queue(p)[..j + 1] == Queue(p)[..j] + [x] && Queue(p)[j] in Queue(p);
      left := left - {x};
      j := j + 1;
    }
    assert Queue(p)[..j] == Queue(p);
  }

  lemma ClosePages(ports: seq<Port>, replies: seq<ReplySlot>, pages: map<nat, Msg>, holder: map<nat, Holder>, i: nat)
    requires Pages(ports, replies, pages, holder) && i < |ports| && ports[i].used
    ensures var q := Elems(Queue(ports[i])); Pages(ports[i := EmptyPort()], replies, pages - q, holder - q)
  {
    var q := Elems(Queue(ports[i]));
    var ps := ports[i := EmptyPort()];
    forall x | x in holder - q ensures x in holder && HeldThere(ps, replies, (holder - q)[x], x) {
      assert HeldThere(ports, replies, holder[x], x);
    }
    forall k, x | 0 <= k < |ps| && ps[k].used && x in Queue(ps[k])
      ensures x in holder - q && (holder - q)[x] == InQueue(k)
    {
      QueuesApart(ports, replies, pages, holder, i, k, x);
    }
    forall r | 0 <= r < |replies| && replies[r].used ensures replies[r].page !in q {
      ReplyApart(ports, replies, pages, holder, i, r);
    }
  }

  /** No page is in two queues. */
  lemma QueuesApart(ports: seq<Port>, replies: seq<ReplySlot>, pages: map<nat, Msg>, holder: map<nat, Holder>, i: nat,
                    k: nat, x: nat)
    requires Pages(ports, replies, pages, holder) && i < |ports| && ports[i].used && k < |ports| && ports[k].used
    requires i != k
    requires x in Queue(ports[k])
    ensures x !in Queue(ports[i]) && x in holder && holder[x] == InQueue(k)
  {
    assert x in holder && holder[x] == InQueue(k);
  }

  /** No reply page is in a queue. */
  lemma ReplyApart(ports: seq<Port>, replies: seq<ReplySlot>, pages: map<nat, Msg>, holder: map<nat, Holder>, i: nat,
                   r: nat)
    requires Pages(ports, replies, pages, holder) && i < |ports| && ports[i].used && r < |replies| && replies[r].used
    ensures replies[r].page !in Queue(ports[i])
  {}

  lemma CloseHistory(ports: seq<Port>, replies: seq<ReplySlot>, pages: map<nat, Msg>, holder: map<nat, Holder>, i: nat,
                     next: nat, posted: map<nat, seq<Msg>>, received: map<nat, seq<Msg>>)
    requires Pages(ports, replies, pages, holder) && History(ports, pages, next, posted, received) && i < |ports|
    requires ports[i].used
    ensures History(ports[i := EmptyPort()], pages - Elems(Queue(ports[i])), next, posted, received)
  {
    var left := pages - Elems(Queue(ports[i]));
    forall k | 0 <= k < |ports| && ports[k].used && k != i ensures Accounted(ports[k], left, posted, received) {
      assert Accounted(ports[k], pages, posted, received);
      ContentsSame(ports[k], pages, left);
    }
  }
}
