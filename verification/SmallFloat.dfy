/**
  The 8-bit floats (5-bit exponent, 3-bit mantissa) that name the allocator's
  256 size bins. Sizes are naturals; `Word` bounds say where 32-bit
  arithmetic stays exact.
 */
module SmallFloat {
  import opened Bits
  import opened Words

  const MANTISSA_BITS := 3
  const MANTISSA_VALUE := 8
  const MAX_BIN_SIZE := 4_026_531_840
  const NUM_BINS := 256

  function RoundUp(size: nat): nat {
    if size < MANTISSA_VALUE then size
    else
      Normalized(size);
      var start := HighestBit(size) - MANTISSA_BITS;
      var mantissa := Shr(size, start) % MANTISSA_VALUE + if LowBits(size, start) != 0 then 1 else 0;
      (start + 1) * MANTISSA_VALUE + mantissa
  }

  function RoundDown(size: nat): nat {
    if size < MANTISSA_VALUE then size
    else
      Normalized(size);
      var start := HighestBit(size) - MANTISSA_BITS;
      (start + 1) * MANTISSA_VALUE + Shr(size, start) % MANTISSA_VALUE
  }

  function FloatToUint(bin: nat): nat {
    var exponent, mantissa := bin / MANTISSA_VALUE, bin % MANTISSA_VALUE;
    if exponent == 0 then mantissa else Shl(mantissa + MANTISSA_VALUE, exponent - 1)
  }

  lemma {:induction false} FloatAt(exponent: nat, mantissa: nat)
    requires mantissa < MANTISSA_VALUE
    ensures FloatToUint((exponent + 1) * MANTISSA_VALUE + mantissa) == Shl(mantissa + MANTISSA_VALUE, exponent)
  {
    var bin := (exponent + 1) * MANTISSA_VALUE + mantissa;
    assert bin / MANTISSA_VALUE == exponent + 1 && bin % MANTISSA_VALUE == mantissa;
  }

  /** Consecutive bins differ by one unit in the mantissa, also across the carry into the exponent. */
  lemma {:induction false} FloatNext(exponent: nat, mantissa: nat)
    requires mantissa < MANTISSA_VALUE
    ensures FloatToUint((exponent + 1) * MANTISSA_VALUE + mantissa + 1) == Shl(mantissa + MANTISSA_VALUE + 1, exponent)
  {
    if mantissa < 7 {
      FloatAt(exponent, mantissa + 1);
    } else {
      FloatAt(exponent + 1, 0);
      ShlNext(8, exponent);
      assert (exponent + 1) * MANTISSA_VALUE + mantissa + 1 == (exponent + 1 + 1) * MANTISSA_VALUE + 0;
    }
  }

  lemma FloatStep(bin: nat)
    ensures FloatToUint(bin) < FloatToUint(bin + 1)
  {
    var e, m := bin / MANTISSA_VALUE, bin % MANTISSA_VALUE;
    if e > 0 {
      FloatAt(e - 1, m);
      FloatNext(e - 1, m);
      ShlMonotone(m + 8, m + 9, e - 1);
      assert bin == (e - 1 + 1) * MANTISSA_VALUE + m;
    } else if m == 7 {
      FloatAt(0, 0);
    }
  }

  lemma {:induction false} FloatBelow(a: nat, b: nat)
    requires a < b
    ensures FloatToUint(a) < FloatToUint(b)
  {
    FloatStep(b - 1);
    if a < b - 1 { FloatBelow(a, b - 1); }
  }

  /** The bins are strictly ordered by the sizes they name. */
  lemma FloatMonotone(a: nat, b: nat)
    ensures a < b <==> FloatToUint(a) < FloatToUint(b)
  {
    if a < b {
      FloatBelow(a, b);
    } else if b < a {
      FloatBelow(b, a);
    }
  }

  /** The mantissa of a size, with its hidden bit, lies in 8..15. */
  lemma {:induction false} Normalized(size: nat)
    requires size >= MANTISSA_VALUE
    ensures HighestBit(size) >= MANTISSA_BITS
    ensures 8 <= Shr(size, HighestBit(size) - MANTISSA_BITS) < 16
  {
    var h := HighestBit(size);
    HighestBitIsLast(size);
    if h < 3 { Pow2Monotone(h, 2); }
    PowShl(h - 3);
    ShiftSplit(size, h - 3);
    var q := Shr(size, h - 3);
    ShlNext(q, h - 3);
    ShlMonotone(8, q + 1, h - 3);
    ShlMonotone(q, 16, h - 3);
  }

  lemma {:induction false} PowShl(n: nat)
    ensures Shl(8, n) == Pow2(n + 3) && Shl(16, n) == 2 * Pow2(n + 3)
  {
    if n > 0 { PowShl(n - 1); } else { assert Pow2(2) == 4; }
  }

  /** Rounding down brackets the size between two consecutive bins, which lie within an eighth of it. */
  lemma RoundDownBrackets(size: nat)
    ensures FloatToUint(RoundDown(size)) <= size < FloatToUint(RoundDown(size) + 1)
    ensures RoundUp(size) == if FloatToUint(RoundDown(size)) == size then RoundDown(size) else RoundDown(size) + 1
    ensures size >= 8 ==> 8 * (FloatToUint(RoundDown(size) + 1) - FloatToUint(RoundDown(size))) <= size
  {
    if size >= MANTISSA_VALUE {
      var start, q := MantissaForm(size);
      ShlNext(q, start);
      FloatAt(start, q - 8);
      FloatNext(start, q - 8);
    } else if size == 7 {
      FloatAt(0, 0);
    }
  }

  /** Rounding down loses less than an eighth of the size. */
  lemma {:induction false} RoundDownLoss(size: nat)
    ensures size > 0 ==> 8 * (size - FloatToUint(RoundDown(size))) < size
  {
    hide Shl, Shr, HighestBit;
    if size < 8 {
      assert RoundDown(size) == size && FloatToUint(size) == size;
    } else {
      hide RoundDown, FloatToUint;
      RoundDownBrackets(size);
    }
  }

  /** The two roundings of a normalized size, read off its mantissa. */
  lemma MantissaForm(size: nat) returns (start: nat, q: nat)
    requires size >= MANTISSA_VALUE
    ensures 8 <= q < 16
    ensures Shl(q, start) <= size < Shl(q, start) + Pow2(start) && 8 * Pow2(start) <= size
    ensures RoundDown(size) == (start + 1) * MANTISSA_VALUE + (q - 8)
    ensures RoundUp(size) == RoundDown(size) + if Shl(q, start) == size then 0 else 1
  {
    Normalized(size);
    start := HighestBit(size) - MANTISSA_BITS;
    q := Shr(size, start);
    assert q % 8 == q - 8;
    ShiftSplit(size, start);
    HighestBitIsLast(size);
    EightPow(start);
  }

  lemma {:induction false} EightPow(n: nat)
    ensures Pow2(n + 3) == 8 * Pow2(n)
  {
    assert Pow2(n + 1) == 2 * Pow2(n) && Pow2(n + 2) == 4 * Pow2(n);
  }

  /** `RoundDown` is the greatest bin at or below a size. */
  lemma RoundDownGreatest(size: nat, bin: nat)
    ensures bin <= RoundDown(size) <==> FloatToUint(bin) <= size
  {
    RoundDownBrackets(size);
    FloatMonotone(RoundDown(size), bin);
    if bin > RoundDown(size) { FloatMonotone(bin, RoundDown(size) + 1); }
  }

  /** `RoundUp` is the least bin at or above a size. */
  lemma RoundUpLeast(size: nat, bin: nat)
    ensures RoundUp(size) <= bin <==> size <= FloatToUint(bin)
  {
    RoundDownBrackets(size);
    RoundDownGreatest(size, bin);
    var d := RoundDown(size);
    FloatMonotone(d, bin);
    FloatMonotone(bin, d);
    FloatMonotone(bin, d + 1);
  }

  /** Rounding up wastes less than an eighth of the request. */
  lemma RoundUpOverhead(size: nat)
    requires size > 0
    ensures 0 <= 8 * (FloatToUint(RoundUp(size)) - size) < size
  {
    RoundDownBrackets(size);
  }

  lemma MaxBin()
    ensures FloatToUint(239) == MAX_BIN_SIZE
    ensures FloatToUint(240) == WORD == Pow2(32)
  {
    FloatAt(28, 7);
    ShlTable(15);
    FloatAt(29, 0);
    PowShl(29);
    PowTable();
  }

  lemma {:induction false} ShlTable(x: nat)
    ensures Shl(x, 28) == 0x1000_0000 * x
  {
    assert Shl(x, 7) == 0x80 * x;
    assert Shl(x, 14) == 0x4000 * x;
    assert Shl(x, 21) == 0x20_0000 * x;
  }

  lemma PowTable()
    ensures Pow2(32) == WORD
  {
    assert Pow2(8) == 0x100;
    assert Pow2(16) == 0x1_0000;
    assert Pow2(24) == 0x100_0000;
  }

  /**
    Every 32-bit size has a bin below 240, so bin tables of 256 entries are never
    overrun; and a request up to MAX_BIN_SIZE rounds up to a 32-bit size.
   */
  lemma BinsFitWord(size: nat)
    requires size < WORD
    ensures RoundDown(size) < 240 && RoundUp(size) <= 240
    ensures RoundUp(size) < 240 <==> size <= MAX_BIN_SIZE
    ensures size <= MAX_BIN_SIZE ==> FloatToUint(RoundUp(size)) <= MAX_BIN_SIZE
  {
    MaxBin();
    RoundDownGreatest(size, 240);
    RoundUpLeast(size, 240);
    RoundUpLeast(size, 239);
    FloatMonotone(239, RoundUp(size));
  }

  /** 64 is the size of a bin. */
  lemma Bin64()
    ensures FloatToUint(RoundDown(64)) == 64
  {
    hide RoundDown;
    FloatAt(3, 0);
    assert Shl(8, 3) == 64;
    RoundDownGreatest(64, 32);
    RoundDownBrackets(64);
    FloatMonotone(RoundDown(64), 32);
  }
}
