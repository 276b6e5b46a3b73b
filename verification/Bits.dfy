/** Bit masks held in machine words, as natural numbers. */
module Bits {
  /** Bitwise or. */
  function Or(a: nat, b: nat): nat {
    if a == 0 then b
    else if b == 0 then a
    else 2 * Or(a / 2, b / 2) + (if a % 2 == 1 || b % 2 == 1 then 1 else 0)
  }

  predicate Bit(m: nat, i: nat) {
    if i == 0 then m % 2 == 1 else Bit(m / 2, i - 1)
  }

  /** `1 << i`. */
  function One(i: nat): nat {
    if i == 0 then 1 else 2 * One(i - 1)
  }

  /** `m & !(1 << i)`. */
  function Clear(m: nat, i: nat): nat {
    if i == 0 then m - m % 2 else 2 * Clear(m / 2, i - 1) + m % 2
  }

  lemma OrHalves(a: nat, b: nat)
    requires a > 0 && b > 0
    ensures Or(a, b) / 2 == Or(a / 2, b / 2) && (Or(a, b) % 2 == 1 <==> a % 2 == 1 || b % 2 == 1)
  {}

  lemma {:induction false} OrBit(a: nat, b: nat, i: nat)
    ensures Bit(Or(a, b), i) <==> Bit(a, i) || Bit(b, i)
    decreases i
  {
    if a == 0 || b == 0 {
      ZeroBit(i);
    } else {
      OrHalves(a, b);
      if i > 0 { OrBit(a / 2, b / 2, i - 1); }
    }
  }

  lemma {:induction false} ZeroBit(i: nat)
    ensures !Bit(0, i)
  {
    if i > 0 { ZeroBit(i - 1); }
  }

  lemma {:induction false} OneBit(i: nat, j: nat)
    ensures Bit(One(i), j) <==> i == j
  {
    if i == 0 {
      if j > 0 { ZeroBit(j - 1); }
    } else if j > 0 {
      OneBit(i - 1, j - 1);
      assert One(i) / 2 == One(i - 1);
    }
  }

  lemma {:induction false} ClearBit(m: nat, i: nat, j: nat)
    ensures Bit(Clear(m, i), j) <==> Bit(m, j) && i != j
    decreases i
  {
    if j > 0 {
      if i > 0 {
        ClearBit(m / 2, i - 1, j - 1);
        assert Clear(m, i) / 2 == Clear(m / 2, i - 1);
      } else {
        assert Clear(m, 0) / 2 == m / 2;
      }
    }
  }
}
