/** Power-of-two blocks of physical memory: alignment, buddies, and why a fully
    coalesced set of free blocks is determined by the bytes it covers. */
module BuddyBlocks {

  const PAGE: nat := 4096
  const MAX_ORDER: nat := 10

  /** block_size. */
  function Size(o: nat): (s: nat)
    ensures s >= PAGE
  {
    if o == 0 then PAGE else 2 * Size(o - 1)
  }

  predicate Aligned(a: nat, o: nat) {
    a % Size(o) == 0
  }

  /** `a ^ block_size(o)`: the address with that one bit flipped. */
  function Buddy(a: nat, o: nat): nat {
    if (a / Size(o)) % 2 == 0 then a + Size(o) else a - Size(o)
  }

  datatype Block = Block(addr: nat, order: nat) {
    predicate Holds(x: nat) {
      addr <= x < addr + Size(order)
    }

    predicate Ok() {
      order <= MAX_ORDER && Aligned(addr, order)
    }
  }

  predicate Apart(b: Block, c: Block) {
    b.addr + Size(b.order) <= c.addr || c.addr + Size(c.order) <= b.addr
  }

  ghost predicate Tiling(f: set<Block>) {
    forall b, c :: b in f && c in f && b != c ==> Apart(b, c)
  }

  ghost predicate AllOk(f: set<Block>) {
    forall b :: b in f ==> b.Ok()
  }

  /** No block below the top order has its buddy free beside it. */
  ghost predicate Coalesced(f: set<Block>) {
    forall b :: b in f && b.order < MAX_ORDER ==> Block(Buddy(b.addr, b.order), b.order) !in f
  }

  ghost predicate Covers(f: set<Block>, x: nat) {
    exists b :: b in f && b.Holds(x)
  }

  // ----------------------------------------------------------- arithmetic

  lemma DivMul(x: nat, s: nat)
    requires s > 0 && x % s == 0
    ensures x == s * (x / s)
  {}

  lemma MulMod(q: nat, s: nat)
    requires s > 0
    ensures (s * q) % s == 0
  {
    if q > 0 {
      MulMod(q - 1, s);
      assert s * q == s * (q - 1) + s;
      ModAdd(s * (q - 1), s);
    }
  }

  lemma ModAdd(x: nat, s: nat)
    requires s > 0
    ensures (x + s) % s == x % s && (x + s) / s == x / s + 1
  {
    var q, m := x / s, x % s;
    assert x + s == s * (q + 1) + m;
    DivUnique(x + s, s, q + 1, m);
  }

  lemma DivUnique(x: nat, s: nat, q: nat, m: nat)
    requires s > 0 && m < s && x == s * q + m
    ensures x / s == q && x % s == m
  {
    var q2, m2 := x / s, x % s;
    assert x == s * q2 + m2;
    assert q2 < q ==> s * (q2 + 1) <= s * q;
    assert q < q2 ==> s * (q + 1) <= s * q2;
  }

  /** Distinct multiples of `s` are at least `s` apart. */
  lemma Gap(x: nat, y: nat, s: nat)
    requires s > 0 && x % s == 0 && y % s == 0 && x < y
    ensures x + s <= y
  {
    DivMul(x, s);
    DivMul(y, s);
    var qx, qy := x / s, y / s;
    assert qx >= qy ==> s * qx >= s * qy;
    assert s * (qx + 1) <= s * qy;
  }

  lemma SumAligned(x: nat, y: nat, s: nat)
    requires s > 0 && x % s == 0 && y % s == 0
    ensures (x + y) % s == 0
  {
    DivMul(x, s);
    DivMul(y, s);
    assert x + y == s * (x / s + y / s);
    MulMod(x / s + y / s, s);
  }

  lemma AlignedDown(a: nat, o: nat)
    requires Aligned(a, o + 1)
    ensures Aligned(a, o)
  {
    var s := Size(o);
    DivMul(a, 2 * s);
    assert a == s * (2 * (a / (2 * s)));
    MulMod(2 * (a / (2 * s)), s);
  }

  lemma AlignedTo(a: nat, j: nat, k: nat)
    requires Aligned(a, j) && k <= j
    ensures Aligned(a, k)
    decreases j
  {
    if k < j {
      AlignedDown(a, j - 1);
      AlignedTo(a, j - 1, k);
    }
  }

  lemma SizeAligned(j: nat, k: nat)
    requires k <= j
    ensures Aligned(Size(j), k)
  {
    MulMod(1, Size(j));
    assert Size(j) % Size(j) == 0;
    AlignedTo(Size(j), j, k);
  }

  lemma SizeGrows(j: nat, k: nat)
    requires k < j
    ensures 2 * Size(k) <= Size(j)
    decreases j
  {}

  /** An aligned block that starts inside a block at least as large lies in it. */
  lemma Nested(a: nat, k: nat, b: Block)
    requires Aligned(a, k) && b.Ok() && k <= b.order && b.Holds(a)
    ensures a + Size(k) <= b.addr + Size(b.order)
  {
    AlignedTo(b.addr, b.order, k);
    SizeAligned(b.order, k);
    SumAligned(b.addr, Size(b.order), Size(k));
    Gap(a, b.addr + Size(b.order), Size(k));
  }

  // -------------------------------------------------------------- buddies

  /** The halves of an aligned block are buddies, and merging a block with its
      buddy gives an aligned block. */
  lemma BuddyHalves(a: nat, o: nat)
    requires Aligned(a, o + 1)
    ensures Aligned(a, o) && Aligned(a + Size(o), o)
    ensures Buddy(a, o) == a + Size(o) && Buddy(a + Size(o), o) == a
  {
    var s := Size(o);
    AlignedDown(a, o);
    DivMul(a, 2 * s);
    var q := a / (2 * s);
    assert a == s * (2 * q) + 0;
    DivUnique(a, s, 2 * q, 0);
    ModAdd(a, s);
  }

  lemma BuddyMerge(a: nat, o: nat)
    requires Aligned(a, o)
    ensures Aligned(Buddy(a, o), o) && Buddy(Buddy(a, o), o) == a && Buddy(a, o) != a
    ensures Aligned(if a < Buddy(a, o) then a else Buddy(a, o), o + 1)
  {
    var s := Size(o);
    DivMul(a, s);
    var q := a / s;
    var lo := if a < Buddy(a, o) then a else Buddy(a, o);
    if q % 2 == 0 {
      assert a == (2 * s) * (q / 2) + 0;
      DivUnique(a, 2 * s, q / 2, 0);
    } else {
      assert a - s == (2 * s) * (q / 2) + 0 by { assert q == 2 * (q / 2) + 1; }
      DivUnique(a - s, 2 * s, q / 2, 0);
    }
    BuddyHalves(lo, o);
  }

  // ------------------------------------------------------- canonical form

  /** In a fully coalesced tiling, an aligned block whose bytes are all free is
      inside one free block. */
  lemma {:induction false} CoveredIsInside(f: set<Block>, a: nat, k: nat) returns (b: Block)
    requires Tiling(f) && AllOk(f) && Coalesced(f)
    requires k <= MAX_ORDER && Aligned(a, k)
    requires forall x :: a <= x < a + Size(k) ==> Covers(f, x)
    ensures b in f && k <= b.order && b.addr <= a && a + Size(k) <= b.addr + Size(b.order)
    decreases k
  {
    if k == 0 {
      assert Covers(f, a);
      b :| b in f && b.Holds(a);
      Nested(a, 0, b);
    } else {
      BuddyHalves(a, k - 1);
      b := CoveredIsInside(f, a, k - 1);
      if b.order >= k {
        Nested(a, k, b);
      } else {
        var c := CoveredIsInside(f, a + Size(k - 1), k - 1);
        if c.order >= k {
          b := c;
          AlignedTo(c.addr, c.order, k);
          BelowAligned(a, c.addr, k);
          Nested(a, k, c);
        } else {
          assert false;
        }
      }
    }
  }

  lemma BelowAligned(a: nat, c: nat, k: nat)
    requires k > 0 && Aligned(a, k) && Aligned(c, k) && c <= a + Size(k - 1)
    ensures c <= a
  {
    if a < c { Gap(a, c, Size(k)); }
  }

  lemma CoalescedWithin(f: set<Block>, g: set<Block>, b: Block)
    requires Tiling(f) && AllOk(f) && Coalesced(f) && Tiling(g) && AllOk(g) && Coalesced(g)
    requires forall x :: Covers(f, x) <==> Covers(g, x)
    requires b in f
    ensures b in g
  {
    forall x | b.Holds(x) ensures Covers(g, x) { assert Covers(f, x); }
    var c := CoveredIsInside(g, b.addr, b.order);
    forall x | c.Holds(x) ensures Covers(f, x) { assert Covers(g, x); }
    var d := CoveredIsInside(f, c.addr, c.order);
    assert d.Holds(b.addr) && b.Holds(b.addr);
    assert !Apart(b, d);
    if b.order < c.order { SizeGrows(c.order, b.order); }
  }

  /** The bytes that are free determine the free blocks at every order. */
  lemma CanonicalForm(f: set<Block>, g: set<Block>)
    requires Tiling(f) && AllOk(f) && Coalesced(f) && Tiling(g) && AllOk(g) && Coalesced(g)
    requires forall x :: Covers(f, x) <==> Covers(g, x)
    ensures f == g
  {
    forall b ensures b in f <==> b in g {
      if b in f { CoalescedWithin(f, g, b); }
      if b in g { CoalescedWithin(g, f, b); }
    }
  }
}
