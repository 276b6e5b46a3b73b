/** The buddy allocator: free lists, the used and freed bitmaps, page types, the
    table-page counts and the quarantine ring. */
module BuddyAllocator {
  import opened Options
  import opened BuddyBlocks
  import opened BuddyLists
  import opened BuddyOwners
  import opened BuddySteps

  const IDENTITY_LIMIT: nat := 0x4000_0000
  const TRACKED_PAGES: nat := 0x20_0000
  const U64: nat := 0x1_0000_0000_0000_0000
  const U16_MAX: nat := 65535

  datatype PageType = FREE | PTE | DATA

  /** The pages in the ring, oldest first. */
  function Ring(slots: seq<nat>, head: nat, count: nat): seq<nat>
    requires |slots| == QUARANTINE_CAP && count <= QUARANTINE_CAP
  {
    seq(count, k requires 0 <= k < count => slots[(head + QUARANTINE_CAP - count + k) % QUARANTINE_CAP])
  }

  lemma RingPush(slots: seq<nat>, head: nat, count: nat, x: nat)
    requires |slots| == QUARANTINE_CAP && head < QUARANTINE_CAP && count < QUARANTINE_CAP
    ensures Ring(slots[head := x], (head + 1) % QUARANTINE_CAP, count + 1) == Ring(slots, head, count) + [x]
  {}

  lemma RingPop(slots: seq<nat>, head: nat, count: nat)
    requires |slots| == QUARANTINE_CAP && head < QUARANTINE_CAP && 0 < count <= QUARANTINE_CAP
    ensures var i := (head + QUARANTINE_CAP - count) % QUARANTINE_CAP;
      Ring(slots, head, count) == [slots[i]] + Ring(slots[i := 0], head, count - 1)
  {}

  function TypeAt(types: map<nat, PageType>, i: nat): PageType {
    if i in types then types[i] else FREE
  }

  function CountAt(refc: map<nat, nat>, i: nat): nat {
    if i in refc then refc[i] else 0
  }

  /** Page number of an address at or above the base. */
  function PageNo(base: nat, x: nat): nat
    requires base <= x
  {
    (x - base) / PAGE
  }

  function AddrOf(base: nat, i: nat): nat {
    base + i * PAGE
  }

  /** The used bits mark the blocks handed out; their freed bits are clear and
      their types tell table pages from data pages. */
  ghost predicate BitsOk(base: nat, used: set<nat>, freed: set<nat>, types: map<nat, PageType>, out: map<nat, Held>) {
    && (forall i: nat :: i in used <==> AddrOf(base, i) in out)
    && (forall i: nat :: i in used ==>
          && i !in freed
          && TypeAt(types, i) == (if out[AddrOf(base, i)].table then PTE else DATA)
          && (out[AddrOf(base, i)].table ==> out[AddrOf(base, i)].order == 0))
  }

  /** A block comes into hand. */
  lemma BitsGain(base: nat, used: set<nat>, freed: set<nat>, types: map<nat, PageType>, out: map<nat, Held>, i: nat,
                 h: Held)
    requires BitsOk(base, used, freed, types, out) && (h.table ==> h.order == 0)
    ensures BitsOk(base, used + {i}, freed - {i}, types[i := if h.table then PTE else DATA], out[AddrOf(base, i) := h])
  {}

  /** A block leaves the caller's hand: its used bit is cleared and it is typed
      free. */
  lemma BitsDrop(base: nat, used: set<nat>, freed: set<nat>, types: map<nat, PageType>, out: map<nat, Held>, i: nat)
    requires BitsOk(base, used, freed, types, out) && i in used
    ensures BitsOk(base, used - {i}, freed + {i}, types[i := FREE], out - {AddrOf(base, i)})
  {}

  /** What becomes of a page or block that free accepts. */
  datatype Fate = Listed | Ringed | Dropped

  function FateOf(order: nat, table: bool, count: nat, waiting: nat): Fate {
    if order == 0 && table then
      if count > 1 then Dropped else if waiting < QUARANTINE_CAP then Ringed else Listed
    else Listed
  }

  /** A block in hand whose used bit is clear breaks the bookkeeping. */
  lemma BitsBroken(base: nat, used: set<nat>, freed: set<nat>, types: map<nat, PageType>, out: map<nat, Held>, i: nat)
    requires i !in used && AddrOf(base, i) in out
    ensures !BitsOk(base, used, freed, types, out)
  {}

  class Buddies {
    var base: nat
    var pages: nat
    var heads: seq<nat>
    var hdr: map<nat, Header>
    var used: set<nat>
    var freed: set<nat>
    var types: map<nat, PageType>
    var refc: map<nat, nat>
    var slots: seq<nat>
    var qhead: nat
    var qcount: nat
    ghost var lists: seq<seq<nat>>
    ghost var own: Owners

    ghost function End(): nat
      reads this`base, this`pages
    {
      base + pages * PAGE
    }

    /** An allocator for `pages` pages from `base` on, with nothing to give yet. */
    constructor (base: nat, pages: nat)
      requires base > 0 && base % PAGE == 0 && base + pages * PAGE <= IDENTITY_LIMIT
      ensures Valid() && this.base == base && this.pages == pages
      ensures own == Owners({}, map[], [], {})
    {
      this.base, this.pages := base, pages;
      heads, hdr := seq(MAX_ORDER + 1, _ => 0), map[];
      used, freed, types, refc := {}, {}, map[], map[];
      slots, qhead, qcount := seq(QUARANTINE_CAP, _ => 0), 0, 0;
      lists, own := seq(MAX_ORDER + 1, _ => []), Owners({}, map[], [], {});
    }

    /** The free lists hold exactly the free blocks. */
    ghost predicate Core()
      reads this`base, this`pages, this`heads, this`hdr, this`lists, this`own
    {
      && base > 0 && base % PAGE == 0 && End() <= IDENTITY_LIMIT
      && ListsOk(heads, hdr, lists) && ListsHold(lists, own.free)
      && Sound(own, base, End())
    }

    ghost predicate Bits()
      reads this`base, this`used, this`freed, this`types, this`own
    {
      BitsOk(base, used, freed, types, own.out)
    }

    ghost predicate RingShape()
      reads this`slots, this`qhead, this`qcount
    {
      |slots| == QUARANTINE_CAP && qhead < QUARANTINE_CAP && qcount <= QUARANTINE_CAP
    }

    ghost predicate RingOk()
      reads this`slots, this`qhead, this`qcount, this`own
    {
      RingShape() && own.quar == Ring(slots, qhead, qcount)
    }

    ghost predicate Valid()
      reads this
    {
      Core() && Bits() && RingOk()
    }

    /** phys_to_idx and page_index, with the subtraction's wrap-around. */
    function Index(addr: nat): nat
      requires base <= IDENTITY_LIMIT
      reads this
    {
      if addr >= base then (addr - base) / PAGE else (addr + U64 - base) / PAGE
    }

    // -------------------------------------------------------------- lists

    /** is_on_free_list. */
    method IsOnFreeList(addr: nat, o: nat) returns (found: bool)
      requires ListsOk(heads, hdr, lists) && o <= MAX_ORDER
      ensures found == (addr in lists[o])
    {
      ghost var l := lists[o];
      var curr := heads[o];
      ghost var k := 0;
      while curr != 0
        invariant 0 <= k <= |l| && curr == (if k < |l| then l[k] else 0) && addr !in l[..k]
        decreases |l| - k
      {
        if curr == addr {
          return true;
        }
        assert k + 1 < |l| ==> l[k + 1..][0] == l[k + 1];
        curr := HeaderAt(hdr, curr).next;
        k := k + 1;
      }
      assert l[..k] == l;
      found := false;
    }

    /** remove_from_list. */
    method RemoveFromList(o: nat, target: nat)
      requires ListsOk(heads, hdr, lists) && o <= MAX_ORDER && target in lists[o]
      requires ListsHold(lists, own.free)
      modifies this`heads, this`hdr, this`lists
      ensures ListsOk(heads, hdr, lists) && ListsHold(lists, own.free - {Block(target, o)})
    {
      ghost var l := lists[o];
      var prev := 0;
      var curr := heads[o];
      ghost var k := 0;
      while curr != target
        invariant 0 <= k < |l| && curr == l[k] && target !in l[..k]
        invariant prev == if k == 0 then 0 else l[k - 1]
        modifies {}
        decreases |l| - k
      {
        prev := curr;
        curr := HeaderAt(hdr, curr).next;
        TargetAhead(l, k, target);
        k := k + 1;
        assert l[k..][0] == l[k];
      }
      ghost var hs, hd := heads, hdr;
      var next := HeaderAt(hdr, target).next;
      if prev == 0 {
        heads := heads[o := next];
      } else {
        hdr := hdr[prev := HeaderAt(hdr, prev).(next := next)];
      }
      hdr := hdr[target := HeaderAt(hdr, target).(magic := 0)];
      UnlinkOk(hs, hd, lists, o, k, heads, hdr, HeaderAt(hdr, target));
      UnlinkHolds(lists, own.free, o, k);
      lists := lists[o := Without(l, k)];
    }

    method PushBlock(o: nat, a: nat)
      requires ListsOk(heads, hdr, lists) && o <= MAX_ORDER && a != 0 && OnNoList(lists, a)
      requires ListsHold(lists, own.free)
      modifies this`heads, this`hdr, this`lists
      ensures ListsOk(heads, hdr, lists) && ListsHold(lists, own.free + {Block(a, o)})
      ensures heads == old(heads)[o := a] && lists == old(lists)[o := [a] + old(lists)[o]]
      ensures hdr == old(hdr)[a := Header(MAGIC, o, old(heads)[o])]
    {
      PushOk(heads, hdr, lists, o, a);
      PushHolds(lists, own.free, o, a);
      hdr := hdr[a := Header(MAGIC, o, heads[o])];
      heads := heads[o := a];
      lists := lists[o := [a] + lists[o]];
    }

    // ------------------------------------------------------------ freeing

    predicate Managed(a: nat)
      reads this
    {
      a >= base && a + PAGE <= base + pages * PAGE
    }

    /** What free_one may be given: a block in hand, or an address inside a page
        that a caller mistook for one. */
    ghost predicate Returnable(addr: nat, order: nat)
      reads this`own
    {
      if addr in own.out then own.out[addr].order == order else addr % PAGE != 0
    }

    /** One turn of free_one's loop: merge the block in hand with its buddy if
        the buddy is on the list of its order. */
    method MergeOnce(cur: nat, o: nat) returns (merged: bool)
      requires Core() && o < MAX_ORDER && Returnable(cur, o)
      modifies this`heads, this`hdr, this`lists, this`own
      ensures Core()
      ensures merged == (Block(Buddy(cur, o), o) in old(own).free) && (merged ==> cur in old(own).out)
      ensures own == if merged then Join(old(own), cur, o) else old(own)
      ensures !merged ==> heads == old(heads) && hdr == old(hdr) && lists == old(lists)
    {
      var buddy := Buddy(cur, o);
      if cur !in own.out { StrayHasNoBuddy(own, base, End(), cur, o); }
      if !Managed(buddy) {
        UnmanagedNotFree(own, base, End(), Block(buddy, o));
        return false;
      }
      var listed := IsOnFreeList(buddy, o);
      ListedHeader(heads, hdr, lists, o, buddy);
      if HeaderAt(hdr, buddy).magic == MAGIC && HeaderAt(hdr, buddy).order == o && listed {
        JoinSound(own, base, End(), cur, o);
        RemoveFromList(o, buddy);
        own := Join(own, cur, o);
        return true;
      }
      merged := false;
    }

    /** free_one's loop: merge as long as the buddy is free. */
    method MergeUp(addr: nat, order: nat) returns (cur: nat, o: nat)
      requires Core() && order <= MAX_ORDER && Returnable(addr, order)
      modifies this`heads, this`hdr, this`lists, this`own
      ensures Core() && o <= MAX_ORDER && Returnable(cur, o)
      ensures addr in old(own).out ==>
        cur in own.out && Give(own, cur) == Merge(old(own), addr)
        && (o < MAX_ORDER ==> Block(Buddy(cur, o), o) !in own.free)
      ensures addr !in old(own).out ==>
        cur == addr && o == order && own == old(own) && heads == old(heads) && hdr == old(hdr) && lists == old(lists)
    {
      cur, o := addr, order;
      var more := true;
      while o < MAX_ORDER && more
        invariant Core() && o <= MAX_ORDER && Returnable(cur, o)
        invariant addr in old(own).out ==> cur in own.out && Merge(own, cur) == Merge(old(own), addr)
        invariant addr !in old(own).out ==>
          cur == addr && o == order && own == old(own) && heads == old(heads) && hdr == old(hdr) && lists == old(lists)
        invariant !more ==> Block(Buddy(cur, o), o) !in own.free
        decreases MAX_ORDER - o, more
      {
        var buddy := Buddy(cur, o);
        ghost var a := own;
        more := MergeOnce(cur, o);
        if more {
          cur := if cur < buddy then cur else buddy;
          o := o + 1;
        }
      }
    }

    /** free_one: merge the block in hand with free buddies as long as there are
        any, then put it on a list.  An address inside a page is put on the list
        of its order as it is. */
    method FreeOne(addr: nat, order: nat)
      requires Core() && order <= MAX_ORDER && Returnable(addr, order)
      modifies this`heads, this`hdr, this`lists, this`own
      ensures addr in old(own).out ==>
        Core() && own == Merge(old(own), addr) && own.quar == old(own).quar && own.out == old(own).out - {addr}
      ensures addr !in old(own).out ==>
        own == old(own) && StrayListed(old(heads), old(hdr), old(lists), addr, order, Managed(addr))
    {
      if addr in own.out {
        PageAligned(own, base, End(), addr);
        MergeSound(own, base, End(), addr);
      }
      if !Managed(addr) { return; }
      var cur, o := MergeUp(addr, order);
      if cur in own.out {
        HandNotListed(own, base, End(), lists, cur);
        GiveSound(own, base, End(), cur);
      } else {
        StrayNotListed(own, base, End(), lists, cur);
      }
      var twice := IsOnFreeList(cur, o);
      assert !twice;
      PushBlock(o, cur);
      if cur in own.out { own := Give(own, cur); }
    }

    /** The lists after a free of `addr`, which is no block: untouched, or with
        `addr` at the head of the list of its order. */
    ghost predicate StrayListed(hs: seq<nat>, hd: map<nat, Header>, ls: seq<seq<nat>>, addr: nat, order: nat,
                                enters: bool)
      requires order < |hs| && order < |ls|
      reads this`heads, this`hdr, this`lists
    {
      if enters then
        heads == hs[order := addr] && lists == ls[order := [addr] + ls[order]]
          && hdr == hd[addr := Header(MAGIC, order, hs[order])]
      else heads == hs && lists == ls && hdr == hd
    }

    // --------------------------------------------------------- allocation

    /** Take the first block off list `o`. */
    method TakeHead(o: nat) returns (x: nat)
      requires Core() && o <= MAX_ORDER && heads[o] != 0
      modifies this`heads, this`hdr, this`lists, this`own
      ensures Core() && Block(x, o) in old(own).free && own == Take(old(own), Block(x, o)) && x !in old(own).out
    {
      x := heads[o];
      ghost var l := lists[o];
      assert l != [] && x == l[0];
      assert Block(x, o) in own.free;
      TakeSound(own, base, End(), Block(x, o));
      var next := HeaderAt(hdr, x).next;
      ghost var hs, hd := heads, hdr;
      hdr := hdr[x := Header(0, 0, 0)];
      heads := heads[o := next];
      UnlinkOk(hs, hd, lists, o, 0, heads, hdr, Header(0, 0, 0));
      UnlinkHolds(lists, own.free, o, 0);
      lists := lists[o := Without(l, 0)];
      own := Take(own, Block(x, o));
    }

    /** Halve the block in hand and list the upper half. */
    method SplitOnce(x: nat, so: nat)
      requires Core() && so < MAX_ORDER && x in own.out && own.out[x] == Held(so + 1, false)
      modifies this`heads, this`hdr, this`lists, this`own
      ensures Core() && own == Split(old(own), x, so)
    {
      SplitSound(own, base, End(), x, so);
      UpperNotListed(own, base, End(), lists, x, so);
      PushBlock(so, x + Size(so));
      own := Split(own, x, so);
    }

    /** Halve the block in hand from order `o` down to `order`, putting each
        upper half on its list. */
    method SplitDown(x: nat, o: nat, order: nat)
      requires Core() && order <= o <= MAX_ORDER && x in own.out && own.out[x] == Held(o, false)
      modifies this`heads, this`hdr, this`lists, this`own
      ensures Core() && own == SplitTo(old(own), x, order)
    {
      var so := o;
      while so > order
        invariant Core() && order <= so <= o && x in own.out && own.out[x] == Held(so, false)
        invariant SplitTo(own, x, order) == SplitTo(old(own), x, order)
      {
        so := so - 1;
        SplitTurn(own, x, so, order);
        SplitOnce(x, so);
      }
    }

    /** The first non-empty list from `order` up. */
    method FirstList(order: nat) returns (o: nat)
      requires Core()
      ensures order <= o && (o <= MAX_ORDER ==> heads[o] != 0)
      ensures forall b :: b in own.free && order <= b.order ==> o <= b.order <= MAX_ORDER
    {
      o := order;
      while o <= MAX_ORDER && heads[o] == 0
        invariant order <= o && forall k :: order <= k < o && k <= MAX_ORDER ==> lists[k] == []
        decreases MAX_ORDER + 1 - o
      {
        assert lists[o] == [];
        o := o + 1;
      }
      forall b | b in own.free && order <= b.order ensures o <= b.order <= MAX_ORDER {
        assert lists[b.order] != [];
      }
    }

    /** Take a block off list `o` and cut it to size. */
    method Carve(o: nat, order: nat) returns (x: nat)
      requires Core() && order <= o <= MAX_ORDER && heads[o] != 0
      modifies this`heads, this`hdr, this`lists, this`own
      ensures Core() && Block(x, o) in old(own).free && own == Carved(old(own), x, o, order)
      ensures own.out == old(own).out[x := Held(order, false)] && own.quar == old(own).quar
      ensures x >= base && AddrOf(base, PageNo(base, x)) == x
    {
      x := TakeHead(o);
      SplitDown(x, o, order);
      CarvedSound(old(own), base, End(), x, o, order);
      PageAligned(own, base, End(), x);
    }

    /** The bookkeeping of a block just carved. */
    method MarkHeld(x: nat, order: nat, ghost out: map<nat, Held>)
      requires base <= IDENTITY_LIMIT && x >= base && AddrOf(base, PageNo(base, x)) == x
      requires BitsOk(base, used, freed, types, out)
      modifies this`used, this`freed, this`types
      ensures BitsOk(base, used, freed, types, out[x := Held(order, false)])
    {
      var i := Index(x);
      BitsGain(base, used, freed, types, out, i, Held(order, false));
      used := used + {i};
      freed := freed - {i};
      types := types[i := DATA];
    }

    /** alloc_nolock: the first non-empty list from `order` up gives its head. */
    method Alloc(order: nat) returns (r: Option<nat>)
      requires Valid()
      modifies this`heads, this`hdr, this`lists, this`own, this`used, this`freed, this`types
      ensures Valid()
      ensures r.None? ==> own == old(own) && forall b :: b in own.free ==> b.order < order
      ensures r.Some? ==> order <= MAX_ORDER && Next(old(own), HandOut(r.value, order), own, base, End())
      ensures r.Some? ==> own.out == old(own).out[r.value := Held(order, false)]
    {
      var o := FirstList(order);
      if o > MAX_ORDER {
        return None;
      }
      var x := Carve(o, order);
      assert Fitting(old(own), x, o, order);
      MarkHeld(x, order, old(own).out);
      r := Some(x);
    }

    // ---------------------------------------------------------- quarantine

    /** q_push: false when the ring is full. */
    method PushQuarantine(x: nat) returns (ok: bool)
      requires RingOk()
      modifies this`slots, this`qhead, this`qcount
      ensures ok == (|own.quar| < QUARANTINE_CAP)
      ensures RingShape() && Ring(slots, qhead, qcount) == if ok then own.quar + [x] else own.quar
      ensures !ok ==> slots == old(slots) && qhead == old(qhead) && qcount == old(qcount)
    {
      if qcount == QUARANTINE_CAP {
        return false;
      }
      RingPush(slots, qhead, qcount, x);
      slots := slots[qhead := x];
      qhead := (qhead + 1) % QUARANTINE_CAP;
      qcount := qcount + 1;
      ok := true;
    }

    /** q_pop: the page that has waited longest, its count raised. */
    method PopQuarantine() returns (r: Option<nat>)
      requires RingOk() && Core()
      modifies this`slots, this`qcount, this`refc, this`own
      ensures r.None? <==> old(own).quar == []
      ensures r.None? ==> own == old(own) && refc == old(refc)
      ensures r.Some? ==>
        && r.value == old(own).quar[0] && own == Unpark(old(own)) && r.value !in old(own).out
        && r.value >= base && AddrOf(base, PageNo(base, r.value)) == r.value
        && var i := PageNo(base, r.value); refc == old(refc)[i := Raise(CountAt(old(refc), i))]
      ensures RingOk() && Core()
    {
      if qcount == 0 {
        return None;
      }
      var at := (qhead + QUARANTINE_CAP - qcount) % QUARANTINE_CAP;
      var x := slots[at];
      RingPop(slots, qhead, qcount);
      UnparkSound(own, base, End());
      slots := slots[at := 0];
      qcount := qcount - 1;
      own := Unpark(own);
      PageAligned(own, base, End(), x);
      refc := refc[PageNo(base, x) := Raise(CountAt(refc, PageNo(base, x)))];
      r := Some(x);
    }

    /** Page `i` is counted `n` times more, up to the width of a count, and no
        other page's count changes. */
    twostate predicate Counted(i: nat, n: nat)
      reads this
    {
      var was := CountAt(old(refc), i);
      refc == old(refc)[i := if was + n <= U16_MAX then was + n else U16_MAX]
    }

    /** alloc_zeroed_page: a quarantined page first, else one from the lists;
        typed as a table page and counted once more, or twice if it was in
        quarantine. */
    method AllocZeroedPage() returns (r: Option<nat>)
      requires Valid()
      modifies this`heads, this`hdr, this`lists, this`own, this`used, this`freed, this`types, this`refc, this`slots,
        this`qcount
      ensures Valid()
      ensures r.None? ==> own == old(own) && own.quar == [] && own.free == {} && refc == old(refc)
      ensures r.Some? ==> Next(old(own), HandOutZeroed(r.value), own, base, End())
      ensures r.Some? ==> r.value >= base && Counted(PageNo(base, r.value), if old(own).quar == [] then 1 else 2)
    {
      r := PopQuarantine();
      if r.Some? {
        MarkZeroed(r.value, old(own).out);
      } else {
        r := AllocTable();
      }
    }

    /** The bookkeeping of a page taken from quarantine. */
    method MarkZeroed(x: nat, ghost out: map<nat, Held>)
      requires base <= IDENTITY_LIMIT && x >= base && AddrOf(base, PageNo(base, x)) == x
      requires BitsOk(base, used, freed, types, out)
      modifies this`used, this`freed, this`types, this`refc
      ensures BitsOk(base, used, freed, types, out[x := Held(0, true)])
      ensures var i := PageNo(base, x); refc == old(refc)[i := Raise(CountAt(old(refc), i))]
    {
      var i := Index(x);
      BitsGain(base, used, freed, types, out, i, Held(0, true));
      types := types[i := PTE];
      refc := refc[i := Raise(CountAt(refc, i))];
      freed := freed - {i};
      used := used + {i};
    }

    /** With the quarantine empty, a page off the free lists. */
    method AllocTable() returns (r: Option<nat>)
      requires Valid() && own.quar == []
      modifies this`heads, this`hdr, this`lists, this`own, this`used, this`freed, this`types, this`refc
      ensures Valid()
      ensures r.None? ==> own == old(own) && own.free == {} && refc == old(refc)
      ensures r.Some? ==> Next(old(own), HandOutZeroed(r.value), own, base, End())
      ensures r.Some? ==> r.value >= base && Counted(PageNo(base, r.value), 1)
    {
      r := Alloc(0);
      if r.Some? {
        TypeAsTable(r.value);
      }
    }

    /** page_type_set(x, PTE) of a page in hand, and its first count. */
    method TypeAsTable(x: nat)
      requires Valid() && x in own.out && own.out[x].order == 0
      modifies this`types, this`refc, this`own
      ensures Valid() && own == Retype(old(own), x) && x >= base
      ensures var i := PageNo(base, x); refc == old(refc)[i := Raise(CountAt(old(refc), i))]
    {
      PageAligned(own, base, End(), x);
      var i := Index(x);
      RetypeSound(own, base, End(), x);
      BitsGain(base, used, freed, types, own.out, i, own.out[x].(table := true));
      types := types[i := PTE];
      refc := refc[i := Raise(CountAt(refc, i))];
      own := Retype(own, x);
      assert used + {i} == used && freed - {i} == freed;
    }

    // ---------------------------------------------------------------- free

    /** The addresses whose free is accepted. */
    predicate Accepts(addr: nat)
      requires base <= IDENTITY_LIMIT
      reads this
    {
      var i := Index(addr);
      i < TRACKED_PAGES && i !in freed && i in used && TypeAt(types, i) != FREE
    }

    /** A free is accepted exactly when the address lies in the first page of a
        block in hand: an address never handed out, or handed out and freed
        since, is refused, but the offset inside the page is not looked at. */
    lemma AcceptsFirstPages(addr: nat)
      requires Valid() && addr < U64
      ensures Accepts(addr) <==> addr >= base && AddrOf(base, PageNo(base, addr)) in own.out
    {
      var i := Index(addr);
      if i in used {
        PageAligned(own, base, End(), AddrOf(base, i));
      }
    }

    /** Page start of `addr` is the first page of a block in hand. */
    ghost predicate InFirstPage(addr: nat)
      reads this`base, this`own
    {
      addr >= base && AddrOf(base, PageNo(base, addr)) in own.out
    }

    /** What a returned page or block, or the address taken for one, leaves. */
    twostate predicate Returned(addr: nat, order: nat, fate: Fate)
      requires order < |old(heads)| && order < |old(lists)|
      reads this
    {
      if addr in old(own).out then Core() && RingOk() && FreeStep(old(own), own, addr)
        && own.out == old(own).out - {addr}
      else
        && own == old(own) && RingShape()
        && StrayListed(old(heads), old(hdr), old(lists), addr, order, fate.Listed? && Managed(addr))
        && Ring(slots, qhead, qcount) == own.quar + if fate.Ringed? then [addr] else []
    }

    /** Where a block in hand went, by its kind, its count and the room in the
        ring: a table page counted more than once to nobody; any other table page
        to the end of the ring while there is room; everything else to the free
        bytes. */
    twostate predicate Gone(addr: nat)
      requires addr in old(own).out && base <= addr
      reads this
    {
      && own.out == old(own).out - {addr}
      && var h, n := old(own).out[addr], CountAt(old(refc), PageNo(base, addr));
      if h.table && n > 1 then
        own.free == old(own).free && own.quar == old(own).quar && own.lost == old(own).lost + {addr}
      else if h.table && |old(own).quar| < QUARANTINE_CAP then
        own.free == old(own).free && own.quar == old(own).quar + [addr] && own.lost == old(own).lost
      else
        && Gains(old(own).free, own.free, Block(addr, h.order))
        && own.quar == old(own).quar && own.lost == old(own).lost
    }

    /** A table page is counted once less, and no other count changes. */
    twostate predicate CountGiven(i: nat, table: bool)
      reads this
    {
      refc == if table then old(refc)[i := if CountAt(old(refc), i) > 0 then CountAt(old(refc), i) - 1 else 0]
              else old(refc)
    }

    /** The path of a table page: its count is given up, and at zero it goes to
        the quarantine, or to the lists when the ring is full. */
    method ReturnTable(addr: nat)
      requires Core() && RingOk() && Returnable(addr, 0) && base <= addr
      requires addr in own.out ==> own.out[addr] == Held(0, true)
      modifies this`heads, this`hdr, this`lists, this`own, this`slots, this`qhead, this`qcount, this`refc
      ensures Returned(addr, 0, FateOf(0, true, CountAt(old(refc), PageNo(base, addr)), |old(own).quar|))
      ensures CountGiven(Index(addr), true)
      ensures addr in old(own).out && Index(addr) == PageNo(base, addr) ==> Gone(addr)
    {
      var zero := DropCount(Index(addr));
      if zero {
        ParkOrList(addr);
      } else if addr in own.out {
        LoseSound(own, base, End(), addr);
        own := Lose(own, addr);
      }
    }

    /** pte_refc_dec. */
    method DropCount(i: nat) returns (zero: bool)
      modifies this`refc
      ensures zero == (CountAt(old(refc), i) <= 1)
      ensures refc == old(refc)[i := if CountAt(old(refc), i) > 0 then CountAt(old(refc), i) - 1 else 0]
    {
      var n := CountAt(refc, i);
      refc := refc[i := if n > 0 then n - 1 else 0];
      zero := refc[i] == 0;
    }

    /** A table page nobody counts any more. */
    method ParkOrList(addr: nat)
      requires Core() && RingOk() && Returnable(addr, 0)
      requires addr in own.out ==> own.out[addr] == Held(0, true)
      modifies this`heads, this`hdr, this`lists, this`own, this`slots, this`qhead, this`qcount
      ensures Returned(addr, 0, if |old(own).quar| < QUARANTINE_CAP then Ringed else Listed)
      ensures addr in old(own).out ==> own.lost == old(own).lost
      ensures addr in old(own).out && |old(own).quar| < QUARANTINE_CAP ==>
        own.free == old(own).free && own.quar == old(own).quar + [addr]
      ensures addr in old(own).out && |old(own).quar| >= QUARANTINE_CAP ==>
        Gains(old(own).free, own.free, Block(addr, 0)) && own.quar == old(own).quar
    {
      if addr in own.out { MergeSound(own, base, End(), addr); }
      var parked := PushQuarantine(addr);
      if !parked {
        FreeOne(addr, 0);
      } else if addr in own.out {
        NoteParked(addr);
      }
    }

    /** The page that was put in the ring is no longer in hand. */
    ghost method NoteParked(addr: nat)
      requires Core() && RingShape() && Ring(slots, qhead, qcount) == own.quar + [addr]
      requires addr in own.out && own.out[addr] == Held(0, true)
      modifies this`own
      ensures Core() && RingOk() && own == Park(old(own), addr) && own.out == old(own).out - {addr}
    {
      ParkSound(own, base, End(), addr);
      own := Park(own, addr);
    }

    /** Where an accepted page or block goes. */
    method ReturnBlock(addr: nat, order: nat, table: bool)
      requires Core() && RingOk() && order <= MAX_ORDER && Returnable(addr, order) && base <= addr
      requires addr in own.out ==> own.out[addr] == Held(order, table) && (table ==> order == 0)
      modifies this`heads, this`hdr, this`lists, this`own, this`slots, this`qhead, this`qcount, this`refc
      ensures Returned(addr, order, FateOf(order, table, CountAt(old(refc), PageNo(base, addr)), |old(own).quar|))
      ensures CountGiven(Index(addr), order == 0 && table)
      ensures addr in old(own).out && Index(addr) == PageNo(base, addr) ==> Gone(addr)
    {
      if addr in own.out { MergeSound(own, base, End(), addr); }
      if order == 0 && table {
        ReturnTable(addr);
      } else {
        FreeOne(addr, order);
      }
    }

    /** The checks of free: a page freed since it was handed out, or never handed
        out, is refused and at most marked. */
    method Check(addr: nat) returns (ok: bool)
      requires Valid() && addr < U64
      modifies this`freed
      ensures ok <==> InFirstPage(addr)
      ensures ok ==> Index(addr) in used && Index(addr) == PageNo(base, addr) && freed == old(freed) + {Index(addr)}
      ensures ok ==> BitsOk(base, used, old(freed), types, own.out)
      ensures !ok ==> Valid()
    {
      var i := Index(addr);
      AcceptsFirstPages(addr);
      if i < TRACKED_PAGES && i in freed {
        return false;
      }
      ghost var was := freed;
      if i < TRACKED_PAGES {
        freed := freed + {i};
      }
      if !(i < TRACKED_PAGES && i in used) || TypeAt(types, i) == FREE {
        if i < TRACKED_PAGES { BitsMark(base, used, was, types, own.out, i); }
        return false;
      }
      ok := true;
    }

    /** free: a block in hand goes back.  A data block is merged into the free
        lists; a table page whose count runs out goes to the quarantine, or to
        the lists when the ring is full.  Any other address is refused, unless it
        lies in the first page of a block in hand: that page's bookkeeping is
        cleared and the address itself is put on a list or in the ring. */
    method Free(addr: nat, order: nat)
      requires Valid() && addr < U64
      requires addr in own.out ==> own.out[addr].order == order
      requires InFirstPage(addr) ==> order <= MAX_ORDER
      modifies this`heads, this`hdr, this`lists, this`own, this`slots, this`qhead, this`qcount, this`refc, this`used,
        this`freed, this`types
      ensures addr in old(own).out ==> Valid() && Next(old(own), TakeBack(addr), own, base, End())
      ensures addr in old(own).out ==>
        base <= addr && Gone(addr) && CountGiven(PageNo(base, addr), old(own).out[addr].table)
      ensures addr !in old(own).out && !old(InFirstPage(addr)) ==>
        Valid() && own == old(own) && heads == old(heads) && hdr == old(hdr) && lists == old(lists)
      ensures addr !in old(own).out && old(InFirstPage(addr)) ==> !Valid() && StrayFreed(addr, order)
      ensures addr !in old(own).out ==> (lists == old(lists) <==> !old(EntersList(addr, order)))
    {
      if addr in own.out { PageAligned(own, base, End(), addr); }
      var ok := Check(addr);
      if !ok { return; }
      StrayInside(own, base, End(), addr);
      Release(addr, order, old(freed));
    }

    /** The rest of free, for an address in the first page of a block in hand. */
    method Release(addr: nat, order: nat, ghost was: set<nat>)
      requires Core() && RingOk() && order <= MAX_ORDER && Returnable(addr, order) && InFirstPage(addr)
      requires addr in own.out ==> AddrOf(base, PageNo(base, addr)) == addr
      requires Index(addr) in used && Index(addr) == PageNo(base, addr)
      requires BitsOk(base, used, was, types, own.out) && freed == was + {Index(addr)}
      modifies this`heads, this`hdr, this`lists, this`own, this`slots, this`qhead, this`qcount, this`refc, this`used,
        this`types
      ensures addr in old(own).out ==> Valid() && FreeStep(old(own), own, addr)
      ensures addr in old(own).out ==> Gone(addr) && CountGiven(PageNo(base, addr), old(own).out[addr].table)
      ensures addr !in old(own).out ==> !Valid() && StrayFreed(addr, order)
    {
      var i := Index(addr);
      var table := TypeAt(types, i) == PTE;
      BitsDrop(base, used, was, types, own.out, i);
      used := used - {i};
      types := types[i := FREE];
      ReturnBlock(addr, order, table);
      if addr !in old(own).out { BitsBroken(base, used, freed, types, own.out, i); }
    }

    /** After a free of an address inside the first page of a block in hand, the
        block is still in hand, its page is no longer marked used, and the
        address is at the head of a free list exactly if EntersList said so, and
        the youngest of the ring exactly if EntersRing did. */
    twostate predicate StrayFreed(addr: nat, order: nat)
      requires old(InFirstPage(addr)) && order < |old(heads)| && order < |old(lists)|
      reads this
    {
      && own == old(own) && base == old(base) && PageNo(base, addr) !in used && RingShape()
      && StrayListed(old(heads), old(hdr), old(lists), addr, order, old(EntersList(addr, order)))
      && Ring(slots, qhead, qcount) == own.quar + if old(EntersRing(addr, order)) then [addr] else []
    }

    /** The free of `addr` puts it on the list of `order`. */
    ghost predicate EntersList(addr: nat, order: nat)
      reads this
    {
      InFirstPage(addr) && addr + PAGE <= End() && Fate(addr, order).Listed?
    }

    /** The free of `addr` puts it in the quarantine ring. */
    ghost predicate EntersRing(addr: nat, order: nat)
      reads this
    {
      InFirstPage(addr) && Fate(addr, order).Ringed?
    }

    ghost function Fate(addr: nat, order: nat): Fate
      requires InFirstPage(addr)
      reads this
    {
      var i := PageNo(base, addr);
      FateOf(order, own.out[AddrOf(base, i)].table, CountAt(refc, i), |own.quar|)
    }

    /** Freeing eight bytes into an outstanding page lists a misaligned block. */
    method FreeInside(x: nat)
      requires Valid() && x in own.out && own.out[x] == Held(0, false) && x + 8 + PAGE <= End()
      modifies this`heads, this`hdr, this`lists, this`own, this`slots, this`qhead, this`qcount, this`refc, this`used,
        this`freed, this`types
      ensures |heads| > 0 && heads[0] == x + 8 && |lists| > 0 && x + 8 in lists[0] && !Block(x + 8, 0).Ok()
      ensures x in own.out
    {
      PageAligned(own, base, End(), x);
      OffsetInPage(base, x, 8);
      if x + 8 in own.out { PageAligned(own, base, End(), x + 8); }
      Free(x + 8, 0);
      assert lists[0][0] == x + 8;
      assert Size(0) == PAGE;
    }

    // ------------------------------------------------------ adding memory

    /** A table page handed out and freed at once.  Out of the quarantine it was
        counted twice and is lost; off the lists, never counted before, it is put
        in quarantine. */
    method FreeAtOnce() returns (x: Option<nat>)
      requires Valid() && End() <= U64
      modifies this`heads, this`hdr, this`lists, this`own, this`slots, this`qhead, this`qcount, this`refc, this`used,
        this`freed, this`types
      ensures Valid() && (x.Some? <==> old(own).quar != [] || old(own).free != {})
      ensures x.Some? && old(own).quar != [] ==>
        && x.value == old(own).quar[0] && own.quar == old(own).quar[1..]
        && own.free == old(own).free && own.lost == old(own).lost + {x.value}
      ensures x.Some? ==> x.value >= base
      ensures x.Some? && old(own).quar == [] ==>
        if CountAt(old(refc), PageNo(base, x.value)) == 0 then own.quar == [x.value] && own.lost == old(own).lost
        else own.quar == [] && own.lost == old(own).lost + {x.value}
    {
      x := AllocZeroedPage();
      if x.Some? {
        ZeroedSound(old(own), own, base, End(), x.value);
        PageAligned(own, base, End(), x.value);
        InRange(own, base, End(), x.value);
        Free(x.value, 0);
      }
    }

    /** add_region: cut [start, start + size) into aligned blocks, largest first
        fit, and free each. */
    method AddRegion(start: nat, size: nat) returns (ghost blocks: seq<Block>)
      requires Core() && Addable(own, start, size, base, End())
      modifies this`heads, this`hdr, this`lists, this`own
      ensures Core() && IsCut(blocks, start, start + size) && own == AddAll(old(own), blocks)
    {
      blocks := [];
      PartwayStart(own, start, size, base, End());
      var addr := start;
      while addr + PAGE <= start + size
        invariant Core() && base <= start && Partway(old(own), own, blocks, start, addr, start + size)
        decreases start + size - addr
      {
        ghost var b;
        addr, b := AddNext(start, addr, start + size, old(own), blocks);
        blocks := blocks + [b];
      }
      PartwayDone(old(own), own, blocks, start, addr, start + size);
    }

    /** One turn of the loop: the largest block that fits at `addr`. */
    method AddNext(ghost start: nat, addr: nat, end: nat, ghost a: Owners, ghost bs: seq<Block>)
      returns (next: nat, ghost b: Block)
      requires Core() && base <= start && addr + PAGE <= end <= End() && Partway(a, own, bs, start, addr, end)
      modifies this`heads, this`hdr, this`lists, this`own
      ensures Core() && addr < next <= end && Partway(a, own, bs + [b], start, next, end)
    {
      var order := MaxOrderFor(addr, end - addr);
      b := Block(addr, order);
      LargestFits(b, base, End(), end);
      ghost var was := own;
      AddBlock(addr, order, end);
      AddMore(a, bs, b);
      PartwayMore(a, was, own, bs, start, b, end);
      next := addr + Size(order);
    }

    /** Free one block of memory that nobody had. */
    method AddBlock(addr: nat, order: nat, ghost end: nat)
      requires Core() && Fits(Block(addr, order), base, End()) && addr + Size(order) <= end && Nobodys(own, addr, end)
      modifies this`heads, this`hdr, this`lists, this`own
      ensures Core() && own == Merge(Adopt(old(own), Block(addr, order)), addr) && Nobodys(own, addr + Size(order), end)
    {
      AdoptMerged(own, base, End(), Block(addr, order), end);
      NobodysBlock(own, Block(addr, order), end);
      AdoptSound(own, base, End(), Block(addr, order));
      own := Adopt(own, Block(addr, order));
      FreeOne(addr, order);
    }

    /** A block's holder writes to it; the allocator may later read what was
        written as a header. */
    method Scribble(x: nat, off: nat, h: Header)
      requires Valid() && x in own.out && off < Size(own.out[x].order)
      modifies this`hdr
      ensures Valid()
    {
      ScribbleOk(own, base, End(), heads, hdr, lists, x, off, h);
      hdr := hdr[x + off := h];
    }
  }

  lemma TargetAhead(l: seq<nat>, k: nat, x: nat)
    requires k < |l| && x in l && x !in l[..k] && l[k] != x
    ensures k + 1 < |l| && x !in l[..k + 1]
  {}

  lemma UnmanagedNotFree(a: Owners, lo: nat, hi: nat, b: Block)
    requires Sound(a, lo, hi) && !(b.addr >= lo && b.addr + PAGE <= hi)
    ensures b !in a.free
  {
    assert Size(b.order) >= PAGE;
    assert !Has(a, Free(b));
  }

  lemma ListedHeader(heads: seq<nat>, hdr: map<nat, Header>, lists: seq<seq<nat>>, o: nat, x: nat)
    requires ListsOk(heads, hdr, lists) && o <= MAX_ORDER
    ensures x in lists[o] ==> HeaderAt(hdr, x).magic == MAGIC && HeaderAt(hdr, x).order == o
  {}

  lemma ShiftPage(x: nat, s: nat)
    requires s % PAGE == 0
    ensures (x + s) % PAGE == x % PAGE
  {}

  /** A buddy lies at the same place of its page. */
  lemma BuddyOffset(x: nat, k: nat)
    ensures Buddy(x, k) % PAGE == x % PAGE
  {
    SizeAligned(k, 0);
    assert Size(0) == PAGE;
    var y := Buddy(x, k);
    if y == x + Size(k) { ShiftPage(x, Size(k)); } else { ShiftPage(y, Size(k)); }
  }

  /** An address inside a page is no block's, and neither is its buddy. */
  lemma StrayHasNoBuddy(a: Owners, lo: nat, hi: nat, x: nat, k: nat)
    requires Sound(a, lo, hi) && x % PAGE != 0
    ensures Block(Buddy(x, k), k) !in a.free
  {
    BuddyOffset(x, k);
    var b := Block(Buddy(x, k), k);
    if b in a.free {
      FreeAligned(a, lo, hi, b);
      assert false;
    }
  }

  lemma FreeAligned(a: Owners, lo: nat, hi: nat, b: Block)
    requires Sound(a, lo, hi) && b in a.free
    ensures b.addr % PAGE == 0
  {
    assert Has(a, Free(b));
    AlignedTo(b.addr, b.order, 0);
    assert Size(0) == PAGE;
  }

  lemma LargestFits(b: Block, lo: nat, hi: nat, end: nat)
    requires Largest(b, end) && lo <= b.addr && end <= hi
    ensures Fits(b, lo, hi)
  {}

  lemma StrayNotListed(a: Owners, lo: nat, hi: nat, lists: seq<seq<nat>>, x: nat)
    requires Sound(a, lo, hi) && ListsHold(lists, a.free) && x % PAGE != 0
    ensures OnNoList(lists, x) && x != 0
  {
    forall o | 0 <= o < |lists| ensures x !in lists[o] {
      if x in lists[o] {
        FreeAligned(a, lo, hi, Block(x, o));
        assert false;
      }
    }
  }

  /** An address that is no block's, in the first page of a block in hand, lies
      inside that page. */
  lemma StrayInside(a: Owners, lo: nat, hi: nat, x: nat)
    requires Sound(a, lo, hi) && lo % PAGE == 0 && x >= lo && AddrOf(lo, PageNo(lo, x)) in a.out
    ensures x in a.out ==> AddrOf(lo, PageNo(lo, x)) == x
    ensures x !in a.out ==> x % PAGE != 0
  {
    if x in a.out { PageAligned(a, lo, hi, x); }
    if x % PAGE == 0 { PageRound(lo, x); }
  }

  lemma OffsetInPage(base: nat, x: nat, d: nat)
    requires base <= x && base % PAGE == 0 && x % PAGE == 0 && 0 < d < PAGE
    ensures PageNo(base, x + d) == PageNo(base, x) && (x + d) % PAGE != 0
  {}

  /** A block in hand is on no free list. */
  lemma HandNotListed(a: Owners, lo: nat, hi: nat, lists: seq<seq<nat>>, x: nat)
    requires Sound(a, lo, hi) && ListsHold(lists, a.free) && x in a.out && lo > 0
    ensures OnNoList(lists, x) && x != 0
  {
    var h := Out(Block(x, a.out[x].order));
    assert Has(a, h);
    forall o | 0 <= o < |lists| ensures x !in lists[o] {
      assert Size(o) >= PAGE && Size(h.b.order) >= PAGE;
      assert !Has(a, Free(Block(x, o)));
    }
  }

  lemma UpperNotListed(a: Owners, lo: nat, hi: nat, lists: seq<seq<nat>>, x: nat, k: nat)
    requires Sound(a, lo, hi) && ListsHold(lists, a.free) && x in a.out && a.out[x].order == k + 1
    ensures OnNoList(lists, x + Size(k))
  {
    assert Has(a, Out(Block(x, k + 1)));
    forall o | 0 <= o < |lists| ensures x + Size(k) !in lists[o] {
      assert Size(o) >= PAGE;
      assert !Has(a, Free(Block(x + Size(k), o)));
    }
  }

  lemma PageRound(base: nat, x: nat)
    requires x >= base && base % PAGE == 0 && x % PAGE == 0
    ensures AddrOf(base, PageNo(base, x)) == x
  {}

  lemma InRange(a: Owners, lo: nat, hi: nat, x: nat)
    requires Sound(a, lo, hi) && x in a.out
    ensures x < hi
  {
    assert Has(a, Out(Block(x, a.out[x].order)));
  }

  lemma PageAligned(a: Owners, lo: nat, hi: nat, x: nat)
    requires Sound(a, lo, hi) && x in a.out && lo % PAGE == 0
    ensures x >= lo && AddrOf(lo, PageNo(lo, x)) == x && x + PAGE <= hi
  {
    var o := a.out[x].order;
    assert Has(a, Out(Block(x, o)));
    AlignedTo(x, o, 0);
    assert Size(0) == PAGE;
    PageRound(lo, x);
  }

  function Raise(n: nat): nat {
    if n < U16_MAX then n + 1 else U16_MAX
  }

  /** A refused free leaves at most a freed bit behind. */
  lemma BitsMark(base: nat, used: set<nat>, freed: set<nat>, types: map<nat, PageType>, out: map<nat, Held>, i: nat)
    requires BitsOk(base, used, freed, types, out) && i !in used
    ensures BitsOk(base, used, freed + {i}, types, out)
  {}

  /** max_order_for: the largest order that fits the address and the size. */
  method MaxOrderFor(addr: nat, size: nat) returns (o: nat)
    requires addr % PAGE == 0 && size >= PAGE
    ensures Largest(Block(addr, o), addr + size)
  {
    o := MAX_ORDER;
    ghost var end := addr + size;
    while o > 0
      invariant o <= MAX_ORDER
      invariant forall k: nat :: o < k <= MAX_ORDER ==> !EndsBy(addr, k, end)
    {
      if addr % Size(o) == 0 && Size(o) <= size {
        return;
      }
      o := o - 1;
    }
    assert Size(0) == PAGE;
  }

  lemma ScribbleOk(a: Owners, lo: nat, hi: nat, heads: seq<nat>, hdr: map<nat, Header>, lists: seq<seq<nat>>, x: nat,
                   off: nat, h: Header)
    requires Sound(a, lo, hi) && ListsOk(heads, hdr, lists) && ListsHold(lists, a.free)
    requires x in a.out && off < Size(a.out[x].order)
    ensures ListsOk(heads, hdr[x + off := h], lists)
  {
    assert Has(a, Out(Block(x, a.out[x].order)));
    forall o, k | 0 <= o <= MAX_ORDER && 0 <= k < |lists[o]| ensures lists[o][k] != x + off {
      var b := Block(lists[o][k], o);
      assert lists[o][k] in lists[o];
      assert Has(a, Free(b)) && Size(o) >= PAGE;
    }
  }
}
