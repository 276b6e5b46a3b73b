/** Who owns which bytes of managed memory, and the moves that pass a block from
    one owner to another. */
module BuddyOwners {
  import opened BuddyBlocks

  /** A block handed out: its order, and whether it is typed as a table page. */
  datatype Held = Held(order: nat, table: bool)

  datatype Owners = Owners(
    free: set<Block>,        // blocks on the free lists
    out: map<nat, Held>,     // blocks handed out, by address
    quar: seq<nat>,          // pages in the quarantine ring, oldest first
    lost: set<nat>)          // table pages freed with counts left over

  datatype Piece = Free(b: Block) | Out(b: Block) | Quar(b: Block) | Lost(b: Block)

  predicate Has(a: Owners, p: Piece) {
    match p
    case Free(b) => b in a.free
    case Out(b) => b.addr in a.out && a.out[b.addr].order == b.order
    case Quar(b) => b.order == 0 && b.addr in a.quar
    case Lost(b) => b.order == 0 && b.addr in a.lost
  }

  ghost predicate Fits(b: Block, lo: nat, hi: nat) {
    b.Ok() && lo <= b.addr && b.addr + Size(b.order) <= hi
  }

  ghost predicate Distinct(s: seq<nat>) {
    forall i, j :: 0 <= i < j < |s| ==> s[i] != s[j]
  }

  /** Every owned block is aligned and in range, no two owned blocks overlap,
      and the free blocks are fully coalesced. */
  ghost predicate Sound(a: Owners, lo: nat, hi: nat) {
    && Distinct(a.quar)
    && (forall p :: Has(a, p) ==> Fits(p.b, lo, hi))
    && (forall p, q :: Has(a, p) && Has(a, q) && p != q ==> Apart(p.b, q.b))
    && Coalesced(a.free)
  }

  lemma OutPiece(a: Owners, x: nat)
    requires x in a.out
    ensures Has(a, Out(Block(x, a.out[x].order)))
  {}

  lemma SoundFree(a: Owners, lo: nat, hi: nat)
    requires Sound(a, lo, hi)
    ensures Tiling(a.free) && AllOk(a.free)
  {
    forall b | b in a.free ensures b.Ok() { assert Has(a, Free(b)); }
    forall b, c | b in a.free && c in a.free && b != c ensures Apart(b, c) {
      assert Has(a, Free(b)) && Has(a, Free(c));
    }
  }

  /** Byte `x` is free, or belongs to block `b`. */
  ghost predicate Gains(f: set<Block>, g: set<Block>, b: Block) {
    forall x :: Covers(g, x) <==> Covers(f, x) || b.Holds(x)
  }

  // ---------------------------------------------------------------- moves

  /** A free block is taken off its list whole. */
  function Take(a: Owners, b: Block): Owners {
    a.(free := a.free - {b}, out := a.out[b.addr := Held(b.order, false)])
  }

  lemma TakeSound(a: Owners, lo: nat, hi: nat, b: Block)
    requires Sound(a, lo, hi) && b in a.free
    ensures Sound(Take(a, b), lo, hi) && b.addr !in a.out && Gains(Take(a, b).free, a.free, b)
  {
    var a2 := Take(a, b);
    assert Has(a, Free(b));
    if b.addr in a.out {
      OutPiece(a, b.addr);
      assert false;
    }
    forall p | Has(a2, p) ensures p == Out(b) || (Has(a, p) && p != Free(b)) {}
    AddGains(a2.free, b);
    assert a.free == a2.free + {b};
  }

  /** The upper half of a block in hand goes back to the free lists. */
  function Split(a: Owners, x: nat, k: nat): Owners
    requires x in a.out
  {
    a.(free := a.free + {Block(x + Size(k), k)}, out := a.out[x := Held(k, a.out[x].table)])
  }

  lemma SplitPieces(a: Owners, lo: nat, hi: nat, x: nat, k: nat)
    requires Sound(a, lo, hi) && x in a.out && a.out[x].order == k + 1
    ensures forall p :: Has(Split(a, x, k), p) ==> Fits(p.b, lo, hi)
    ensures forall p, q :: Has(Split(a, x, k), p) && Has(Split(a, x, k), q) && p != q ==> Apart(p.b, q.b)
  {
    var whole := Block(x, k + 1);
    assert Has(a, Out(whole));
    BuddyHalves(x, k);
    forall p | Has(Split(a, x, k), p)
      ensures p == Free(Block(x + Size(k), k)) || p == Out(Block(x, k)) || (Has(a, p) && p != Out(whole))
    {}
  }

  lemma SplitCoalesced(a: Owners, lo: nat, hi: nat, x: nat, k: nat)
    requires Sound(a, lo, hi) && x in a.out && a.out[x].order == k + 1
    ensures Coalesced(Split(a, x, k).free)
  {
    var upper := Block(x + Size(k), k);
    assert Has(a, Out(Block(x, k + 1)));
    BuddyHalves(x, k);
    assert !Has(a, Free(Block(x, k)));
    assert !Has(a, Free(upper));
    forall b | b in a.free && b.order == k ensures Buddy(b.addr, k) != upper.addr {
      assert Has(a, Free(b));
      BuddyMerge(b.addr, k);
    }
  }

  lemma SplitSound(a: Owners, lo: nat, hi: nat, x: nat, k: nat)
    requires Sound(a, lo, hi) && x in a.out && a.out[x].order == k + 1
    ensures Sound(Split(a, x, k), lo, hi)
    ensures Gains(a.free, Split(a, x, k).free, Block(x + Size(k), k)) && Block(x + Size(k), k) !in a.free
  {
    SplitPieces(a, lo, hi, x, k);
    SplitCoalesced(a, lo, hi, x, k);
    AddGains(a.free, Block(x + Size(k), k));
    assert Has(a, Out(Block(x, k + 1)));
    assert !Has(a, Free(Block(x + Size(k), k)));
  }

  lemma AddGains(f: set<Block>, b: Block)
    ensures Gains(f, f + {b}, b)
  {}

  /** A block in hand is merged with its free buddy. */
  function Join(a: Owners, x: nat, k: nat): Owners
    requires x in a.out
  {
    var y := Buddy(x, k);
    var lo := if x < y then x else y;
    a.(free := a.free - {Block(y, k)}, out := (a.out - {x})[lo := Held(k + 1, a.out[x].table)])
  }

  /** The pieces after a join: the merged block and all but its halves. */
  lemma JoinPieces(a: Owners, x: nat, k: nat, p: Piece)
    requires x in a.out && a.out[x].order == k && Has(Join(a, x, k), p)
    ensures var y := Buddy(x, k); var z := if x < y then x else y;
      p == Out(Block(z, k + 1)) || (Has(a, p) && p != Out(Block(x, k)) && p != Free(Block(y, k)))
  {}

  lemma JoinKeeps(a: Owners, lo: nat, hi: nat, x: nat, k: nat)
    requires Sound(a, lo, hi) && x in a.out && a.out[x].order == k && k < MAX_ORDER && Block(Buddy(x, k), k) in a.free
    ensures Sound(Join(a, x, k), lo, hi)
  {
    var y := Buddy(x, k);
    var z := if x < y then x else y;
    var j := Join(a, x, k);
    assert Has(a, Out(Block(x, k))) && Has(a, Free(Block(y, k)));
    BuddyMerge(x, k);
    BuddyHalves(z, k);
    forall p | Has(j, p)
      ensures p == Out(Block(z, k + 1)) || (Has(a, p) && p != Out(Block(x, k)) && p != Free(Block(y, k)))
    {
      JoinPieces(a, x, k, p);
    }
  }

  lemma JoinSound(a: Owners, lo: nat, hi: nat, x: nat, k: nat)
    requires Sound(a, lo, hi) && x in a.out && a.out[x].order == k && k < MAX_ORDER && Block(Buddy(x, k), k) in a.free
    ensures Sound(Join(a, x, k), lo, hi)
    ensures Gains(Join(a, x, k).free, a.free, Block(Buddy(x, k), k))
    ensures var y := Buddy(x, k); var z := if x < y then x else y;
      && Size(k + 1) == 2 * Size(k) && (y == x + Size(k) || x == y + Size(k))
      && (z == x || z !in a.out) && Join(a, x, k).out - {z} == a.out - {x}
  {
    var y := Buddy(x, k);
    var z := if x < y then x else y;
    JoinKeeps(a, lo, hi, x, k);
    assert Has(a, Out(Block(x, k))) && Has(a, Free(Block(y, k)));
    if z != x && z in a.out {
      OutPiece(a, z);
      assert false;
    }
    AddGains(Join(a, x, k).free, Block(y, k));
    assert a.free == Join(a, x, k).free + {Block(y, k)};
  }

  /** A block in hand whose buddy is not free goes on a free list. */
  function Give(a: Owners, x: nat): Owners
    requires x in a.out
  {
    a.(free := a.free + {Block(x, a.out[x].order)}, out := a.out - {x})
  }

  lemma GiveSound(a: Owners, lo: nat, hi: nat, x: nat)
    requires Sound(a, lo, hi) && x in a.out
    requires var k := a.out[x].order; k < MAX_ORDER ==> Block(Buddy(x, k), k) !in a.free
    ensures Sound(Give(a, x), lo, hi)
    ensures Gains(a.free, Give(a, x).free, Block(x, a.out[x].order)) && Block(x, a.out[x].order) !in a.free
  {
    var k := a.out[x].order;
    var b := Block(x, k);
    var a2 := Give(a, x);
    assert Has(a, Out(b));
    assert !Has(a, Free(b));
    forall p | Has(a2, p) ensures p == Free(b) || (Has(a, p) && p != Out(b)) {}
    BuddyMerge(x, k);
    forall c | c in a2.free && c.order < MAX_ORDER ensures Block(Buddy(c.addr, c.order), c.order) !in a2.free {
      if c != b {
        assert Has(a, Free(c));
        BuddyMerge(c.addr, c.order);
      }
    }
    AddGains(a.free, b);
  }

  /** A page in hand enters the quarantine ring, leaves it, or is lost. */
  function Park(a: Owners, x: nat): Owners {
    a.(out := a.out - {x}, quar := a.quar + [x])
  }

  lemma ParkSound(a: Owners, lo: nat, hi: nat, x: nat)
    requires Sound(a, lo, hi) && x in a.out && a.out[x].order == 0
    ensures Sound(Park(a, x), lo, hi)
  {
    var a2 := Park(a, x);
    assert Has(a, Out(Block(x, 0)));
    assert !Has(a, Quar(Block(x, 0)));
    forall p | Has(a2, p) ensures p == Quar(Block(x, 0)) || (Has(a, p) && p != Out(Block(x, 0))) {}
  }

  function Unpark(a: Owners): Owners
    requires a.quar != []
  {
    a.(out := a.out[a.quar[0] := Held(0, true)], quar := a.quar[1..])
  }

  lemma UnparkSound(a: Owners, lo: nat, hi: nat)
    requires Sound(a, lo, hi) && a.quar != []
    ensures Sound(Unpark(a), lo, hi) && a.quar[0] !in a.out
  {
    var x := a.quar[0];
    var a2 := Unpark(a);
    assert Has(a, Quar(Block(x, 0)));
    if x in a.out {
      OutPiece(a, x);
      assert false;
    }
    assert x !in a2.quar;
    forall p | Has(a2, p) ensures p == Out(Block(x, 0)) || (Has(a, p) && p != Quar(Block(x, 0))) {
      if p.Quar? { assert p.b.addr in a.quar; }
    }
  }

  function Lose(a: Owners, x: nat): Owners {
    a.(out := a.out - {x}, lost := a.lost + {x})
  }

  lemma LoseSound(a: Owners, lo: nat, hi: nat, x: nat)
    requires Sound(a, lo, hi) && x in a.out && a.out[x].order == 0
    ensures Sound(Lose(a, x), lo, hi)
  {
    var a2 := Lose(a, x);
    assert Has(a, Out(Block(x, 0)));
    forall p | Has(a2, p) ensures p == Lost(Block(x, 0)) || (Has(a, p) && p != Out(Block(x, 0))) {}
  }

  /** Typing a page in hand as a table page changes no ownership. */
  function Retype(a: Owners, x: nat): Owners
    requires x in a.out
  {
    a.(out := a.out[x := a.out[x].(table := true)])
  }

  lemma RetypeSound(a: Owners, lo: nat, hi: nat, x: nat)
    requires Sound(a, lo, hi) && x in a.out
    ensures Sound(Retype(a, x), lo, hi)
  {}

  /** A block nobody owns yet comes into hand. */
  function Adopt(a: Owners, b: Block): Owners {
    a.(out := a.out[b.addr := Held(b.order, false)])
  }

  ghost predicate Unowned(a: Owners, b: Block) {
    forall p :: Has(a, p) ==> Apart(p.b, b)
  }

  lemma AdoptSound(a: Owners, lo: nat, hi: nat, b: Block)
    requires Sound(a, lo, hi) && Fits(b, lo, hi) && Unowned(a, b)
    ensures Sound(Adopt(a, b), lo, hi) && b.addr !in a.out
  {
    var a2 := Adopt(a, b);
    if b.addr in a.out {
      OutPiece(a, b.addr);
      assert false;
    }
    forall p | Has(a2, p) ensures p == Out(b) || Has(a, p) {}
  }
}
