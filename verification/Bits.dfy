/** Unsigned machine words as natural numbers, read one binary digit at a time. */
module Bits {
  /** Binary digit `i` of `x`, counted from the least significant one. */
  predicate Bit(x: nat, i: nat) {
    if i == 0 then x % 2 == 1 else Bit(x / 2, i - 1)
  }

  /** Bitwise inclusive or. */
  function Or(a: nat, b: nat): nat
    decreases a + b
  {
    if a == 0 then b
    else if b == 0 then a
    else 2 * Or(a / 2, b / 2) + (if a % 2 == 1 || b % 2 == 1 then 1 else 0)
  }

  /** Left shift without a width limit. */
  function Shl(x: nat, s: nat): nat {
    if s == 0 then x else 2 * Shl(x, s - 1)
  }

  /** Logical right shift. */
  function Shr(x: nat, s: nat): nat {
    if s == 0 then x else Shr(x / 2, s - 1)
  }

  /** The low `w` bits of `x`, as kept by a `w`-bit register. */
  function Low(x: nat, w: nat): nat {
    if w == 0 then 0 else 2 * Low(x / 2, w - 1) + x % 2
  }

  lemma {:induction false} ZeroHasNoBits(i: nat)
    ensures !Bit(0, i)
  {
    if i > 0 { ZeroHasNoBits(i - 1); }
  }

  lemma {:induction false} BitOfOr(a: nat, b: nat, i: nat)
    ensures Bit(Or(a, b), i) == (Bit(a, i) || Bit(b, i))
    decreases i
  {
    ZeroHasNoBits(i);
    if a != 0 && b != 0 && i > 0 {
      assert Or(a, b) / 2 == Or(a / 2, b / 2);
      BitOfOr(a / 2, b / 2, i - 1);
    }
  }

  lemma {:induction false} BitOfShl(x: nat, s: nat, i: nat)
    ensures Bit(Shl(x, s), i) == (i >= s && Bit(x, i - s))
    decreases s
  {
    if s > 0 && i > 0 {
      assert Shl(x, s) / 2 == Shl(x, s - 1);
      BitOfShl(x, s - 1, i - 1);
    }
  }

  lemma {:induction false} BitOfLow(x: nat, w: nat, i: nat)
    ensures Bit(Low(x, w), i) == (i < w && Bit(x, i))
    decreases w
  {
    if w == 0 {
      ZeroHasNoBits(i);
    } else if i > 0 {
      assert Low(x, w) / 2 == Low(x / 2, w - 1);
      BitOfLow(x / 2, w - 1, i - 1);
    }
  }

  lemma BitOfOne(i: nat)
    ensures Bit(1, i) == (i == 0)
  {
    if i > 0 { ZeroHasNoBits(i - 1); }
  }

  lemma {:induction false} BitOfShr(x: nat, s: nat, i: nat)
    ensures Bit(Shr(x, s), i) == Bit(x, i + s)
    decreases s
  {
    if s > 0 { BitOfShr(x / 2, s - 1, i); }
  }

  /** A two-digit word is its two digits. */
  lemma LowTwo(x: nat)
    ensures Low(x, 2) == (if Bit(x, 1) then 2 else 0) + (if Bit(x, 0) then 1 else 0)
  {
    assert Low(x, 2) == 2 * Low(x / 2, 1) + x % 2;
    assert Low(x / 2, 1) == 2 * Low(x / 2 / 2, 0) + x / 2 % 2;
    assert Bit(x, 1) == Bit(x / 2, 0);
  }

  lemma LowOne(x: nat)
    ensures Low(x, 1) == if Bit(x, 0) then 1 else 0
  {
    assert Low(x, 1) == 2 * Low(x / 2, 0) + x % 2;
  }

  function Pow2(w: nat): (p: nat)
    ensures p > 0
  {
    if w == 0 then 1 else 2 * Pow2(w - 1)
  }

  lemma {:induction false} OrBelow(a: nat, b: nat, w: nat)
    requires a < Pow2(w) && b < Pow2(w)
    ensures Or(a, b) < Pow2(w)
    decreases w
  {
    if a != 0 && b != 0 && w > 0 { OrBelow(a / 2, b / 2, w - 1); }
  }

  lemma {:induction false} ShlBelow(x: nat, s: nat, w: nat)
    requires x < Pow2(w)
    ensures Shl(x, s) < Pow2(w + s)
    decreases s
  {
    if s > 0 { ShlBelow(x, s - 1, w); }
  }

  lemma {:induction false} LowBelow(x: nat, w: nat)
    ensures Low(x, w) < Pow2(w)
    decreases w
  {
    if w > 0 { LowBelow(x / 2, w - 1); }
  }

  lemma {:induction false} Pow2Grows(a: nat, b: nat)
    requires a <= b
    ensures Pow2(a) <= Pow2(b)
    decreases b
  {
    if a < b { Pow2Grows(a, b - 1); }
  }

  lemma Pow2Of16()
    ensures Pow2(16) == 0x1_0000
  {
    assert Pow2(4) == 16 by { assert Pow2(2) == 4; }
    assert Pow2(8) == 256 by { assert Pow2(6) == 64; }
    assert Pow2(12) == 4096 by { assert Pow2(10) == 1024; }
    assert Pow2(14) == 16384;
  }
}
