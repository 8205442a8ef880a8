/**
  Unsigned machine words as naturals, read bit by bit.

  `Bit(x, i)` is bit `i` of the word `x`. The bit operators have
  their usual meaning: `SetBit` is `x | (1 << i)`, `ClearBit` is `x & !(1 << i)`,
  `ClearBelow` is `x & !((1 << i) - 1)`, `TrailingZeros` and `HighestBit` are
  `x.trailing_zeros()` and `31 - x.leading_zeros()`.
 */
module Bits {

  const UNUSED := 0xffff_ffff

  function Pow2(n: nat): (r: nat)
    ensures r >= 1
  {
    if n == 0 then 1 else 2 * Pow2(n - 1)
  }

  /** `x << n`. */
  function Shl(x: nat, n: nat): (r: nat)
    ensures r >= x
    decreases n
  {
    if n == 0 then x else 2 * Shl(x, n - 1)
  }

  /** `x >> n`. */
  function Shr(x: nat, n: nat): (r: nat)
    ensures r <= x
    decreases n
  {
    if n == 0 then x else Shr(x / 2, n - 1)
  }

  /** `x & ((1 << n) - 1)`. */
  function LowBits(x: nat, n: nat): nat
    decreases n
  {
    if n == 0 then 0 else 2 * LowBits(x / 2, n - 1) + x % 2
  }

  /** A word is its high part shifted back plus its low bits. */
  lemma {:induction false} ShiftSplit(x: nat, n: nat)
    ensures x == Shl(Shr(x, n), n) + LowBits(x, n)
    ensures LowBits(x, n) < Pow2(n)
    decreases n
  {
    if n > 0 {
      ShiftSplit(x / 2, n - 1);
      assert x == 2 * (x / 2) + x % 2;
    }
  }

  lemma {:induction false} ShlNext(x: nat, n: nat)
    ensures Shl(x + 1, n) == Shl(x, n) + Pow2(n)
    ensures Shl(2 * x, n) == Shl(x, n + 1)
    decreases n
  {
    if n > 0 { ShlNext(x, n - 1); }
  }

  lemma {:induction false} ShlMonotone(x: nat, y: nat, n: nat)
    ensures x < y <==> Shl(x, n) < Shl(y, n)
    decreases n
  {
    if n > 0 { ShlMonotone(x, y, n - 1); }
  }

  predicate NthBit(x: nat, i: nat)
    decreases i
  {
    if i == 0 then x % 2 == 1 else NthBit(x / 2, i - 1)
  }

  predicate Bit(x: nat, i: nat) {
    NthBit(x, i)
  }

  function SetBit(x: nat, i: nat): nat
    decreases i
  {
    if i == 0 then x - x % 2 + 1 else 2 * SetBit(x / 2, i - 1) + x % 2
  }

  function ClearBit(x: nat, i: nat): nat
    decreases i
  {
    if i == 0 then x - x % 2 else 2 * ClearBit(x / 2, i - 1) + x % 2
  }

  function ClearBelow(x: nat, start: nat): nat
    decreases start
  {
    if start == 0 then x else 2 * ClearBelow(x / 2, start - 1)
  }

  lemma {:induction false} SetBitAt(x: nat, i: nat, j: nat)
    ensures Bit(SetBit(x, i), j) <==> j == i || Bit(x, j)
    decreases i
  {
    if i == 0 {
      assert SetBit(x, i) / 2 == x / 2;
    } else {
      assert SetBit(x, i) / 2 == SetBit(x / 2, i - 1) && SetBit(x, i) % 2 == x % 2;
      if j > 0 { SetBitAt(x / 2, i - 1, j - 1); }
    }
  }

  lemma {:induction false} ClearBitAt(x: nat, i: nat, j: nat)
    ensures Bit(ClearBit(x, i), j) <==> j != i && Bit(x, j)
    decreases i
  {
    if i == 0 {
      assert ClearBit(x, i) / 2 == x / 2;
    } else {
      assert ClearBit(x, i) / 2 == ClearBit(x / 2, i - 1) && ClearBit(x, i) % 2 == x % 2;
      if j > 0 { ClearBitAt(x / 2, i - 1, j - 1); }
    }
  }

  lemma {:induction false} ClearBelowAt(x: nat, start: nat, j: nat)
    ensures Bit(ClearBelow(x, start), j) <==> j >= start && Bit(x, j)
    decreases start
  {
    if start > 0 {
      assert ClearBelow(x, start) / 2 == ClearBelow(x / 2, start - 1) && ClearBelow(x, start) % 2 == 0;
      if j > 0 { ClearBelowAt(x / 2, start - 1, j - 1); }
    }
  }

  /** Setting or clearing one bit changes that bit alone, and stays within the word's width. */
  lemma {:induction false} SetBitBits(x: nat, i: nat, w: nat)
    requires x < Pow2(w) && i < w
    ensures SetBit(x, i) < Pow2(w)
    ensures forall j: nat :: Bit(SetBit(x, i), j) <==> j == i || Bit(x, j)
  {
    forall j: nat ensures Bit(SetBit(x, i), j) <==> j == i || Bit(x, j) { SetBitAt(x, i, j); }
    WidthBits(x, w);
    WidthBits(SetBit(x, i), w);
  }

  lemma {:induction false} ClearBitBits(x: nat, i: nat, w: nat)
    requires x < Pow2(w)
    ensures ClearBit(x, i) < Pow2(w)
    ensures forall j: nat :: Bit(ClearBit(x, i), j) <==> j != i && Bit(x, j)
  {
    forall j: nat ensures Bit(ClearBit(x, i), j) <==> j != i && Bit(x, j) { ClearBitAt(x, i, j); }
    WidthBits(x, w);
    WidthBits(ClearBit(x, i), w);
  }

  /** A word is zero exactly when none of its bits is set. */
  lemma ZeroHasNoBits(x: nat)
    ensures x == 0 <==> forall i: nat :: !Bit(x, i)
  {
    WidthBits(x, 0);
  }

  /** A word fits a width exactly when no bit at or above the width is set. */
  lemma {:induction false} WidthBits(x: nat, w: nat)
    ensures x < Pow2(w) <==> forall i: nat :: i >= w ==> !Bit(x, i)
  {
    if x < Pow2(w) {
      forall i: nat | i >= w ensures !Bit(x, i) { HighBitClear(x, w, i); }
    } else {
      var i := SomeBit(x, w);
    }
  }

  lemma {:induction false} SomeBit(x: nat, w: nat) returns (i: nat)
    requires x >= Pow2(w)
    ensures i >= w && Bit(x, i)
  {
    if x == 1 {
      i := 0;
    } else {
      i := SomeBit(x / 2, if w == 0 then 0 else w - 1);
      i := i + 1;
    }
  }

  lemma {:induction false} HighBitClear(x: nat, w: nat, i: nat)
    requires x < Pow2(w) && i >= w
    ensures !Bit(x, i)
    decreases i
  {
    if i > 0 { HighBitClear(x / 2, if w == 0 then 0 else w - 1, i - 1); }
  }

  function TrailingZeros(x: nat): nat
    requires x > 0
  {
    if x % 2 == 1 then 0 else 1 + TrailingZeros(x / 2)
  }

  /** `TrailingZeros` is the lowest set bit. */
  lemma {:induction false} TrailingZerosIsFirst(x: nat)
    requires x > 0
    ensures Bit(x, TrailingZeros(x))
    ensures forall j: nat :: j < TrailingZeros(x) ==> !Bit(x, j)
  {
    if x % 2 == 0 {
      TrailingZerosIsFirst(x / 2);
      forall j: nat | j < TrailingZeros(x) ensures !Bit(x, j) {
        if j > 0 { assert !Bit(x / 2, j - 1); }
      }
    }
  }

  function HighestBit(x: nat): nat
    requires x > 0
  {
    if x == 1 then 0 else 1 + HighestBit(x / 2)
  }

  /** `HighestBit` is the highest set bit, the integer logarithm. */
  lemma {:induction false} HighestBitIsLast(x: nat)
    requires x > 0
    ensures Pow2(HighestBit(x)) <= x < 2 * Pow2(HighestBit(x))
    ensures Bit(x, HighestBit(x))
    ensures forall j: nat :: j > HighestBit(x) ==> !Bit(x, j)
  {
    if x > 1 {
      HighestBitIsLast(x / 2);
    }
    WidthBits(x, HighestBit(x) + 1);
  }

  /** The lowest set bit of `mask` at or after `start`, or `UNUSED` if there is none. */
  function FindLowestSetBitAfter(mask: nat, start: nat): (r: nat)
    requires mask < Pow2(32)
    ensures r == UNUSED <==> forall i: nat :: start <= i ==> !Bit(mask, i)
    ensures r != UNUSED ==> start <= r < 32 && Bit(mask, r) && forall i: nat :: start <= i < r ==> !Bit(mask, i)
  {
    WidthBits(mask, 32);
    if start >= 32 then UNUSED
    else
      var after := ClearBelow(mask, start);
      assert forall i: nat :: Bit(after, i) <==> start <= i && Bit(mask, i) by {
        forall i: nat ensures Bit(after, i) <==> start <= i && Bit(mask, i) { ClearBelowAt(mask, start, i); }
      }
      ZeroHasNoBits(after);
      if after == 0 then UNUSED
      else
        TrailingZerosIsFirst(after);
        TrailingZeros(after)
  }

  lemma {:induction false} Pow2Monotone(a: nat, b: nat)
    requires a <= b
    ensures Pow2(a) <= Pow2(b)
  {
    if a < b { Pow2Monotone(a, b - 1); }
  }
}
