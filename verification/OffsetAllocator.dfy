/**
  The byte-addressed allocators over the core: size scaling for spans the 32-bit
  core cannot address, and the store's per-segment buffer allocator, which frees
  by offset.
 */
module Offsets {
  import opened Bits
  import opened Core
  import opened CoreSteps
  import opened Layout
  import opened Segments
  import opened SmallFloat
  import opened Words

  /** The scaling a span of `size` bytes needs: the least shift that fits the largest bin. */
  ghost predicate Multiplier(size: nat, m: nat) {
    Shr(size, m) <= MAX_BIN_SIZE && forall k :: 0 <= k < m ==> MAX_BIN_SIZE < Shr(size, k)
  }

  method CalculateMultiplier(size: nat) returns (m: nat)
    ensures Multiplier(size, m)
  {
    m := 0;
    while MAX_BIN_SIZE < Shr(size, m)
      invariant forall k :: 0 <= k < m ==> MAX_BIN_SIZE < Shr(size, k)
      decreases Shr(size, m)
    {
      ShrStep(size, m);
      m := m + 1;
    }
  }

  lemma {:induction false} MultiplierFits(size: nat, m: nat)
    requires Multiplier(size, m)
    ensures Shr(size, m) <= MAX_BIN_SIZE < WORD
  {
  }

  lemma {:induction false} ShrZero(x: nat)
    ensures Shr(x, 0) == x
  {
  }

  lemma {:induction false} ShrStep(x: nat, m: nat)
    ensures Shr(x, m + 1) == Shr(x, m) / 2
    decreases m
  {
    if m > 0 { ShrStep(x / 2, m - 1); }
  }

  /** A request in units of `2^m` bytes, rounded up. */
  function Scaled(size: nat, m: nat): nat {
    if m > 0 then Shr(size + Pow2(m) - 1, m) else size
  }

  /** Scaling a request up to units asks for just enough. */
  lemma {:induction false} ScaledLeast(size: nat, m: nat, units: nat)
    ensures Scaled(size, m) <= units <==> size <= Shl(units, m)
  {
    if m > 0 {
      var x := size + Pow2(m) - 1;
      ShiftSplit(x, m);
      var q := Shr(x, m);
      ShlNext(q, m);
      ShlMonotone(units, q, m);
      if q > 0 {
        ShlNext(q - 1, m);
        ShlMonotone(units, q - 1, m);
      }
    }
  }

  /** An allocation handed out, with the core handle that frees it. */
  datatype Allocation = Allocation(offset: nat, size: nat, metadata: nat)

  class OffsetAllocator {
    const core: CoreAllocator
    const base: nat
    const multiplierBits: nat
    const capacity: nat
    var allocatedSize: nat
    var allocatedNum: nat

    ghost function Repr(): set<object> {
      {this} + core.Repr()
    }

    ghost predicate Valid()
      reads Repr()
    {
      && this !in core.Repr()
      && core.Valid()
      && Multiplier(capacity, multiplierBits)
      && core.size == Shr(capacity, multiplierBits)
    }

    constructor (base: nat, size: nat, initCapacity: nat, maxCapacity: nat)
      requires 1 <= initCapacity <= UNUSED && maxCapacity <= UNUSED
      ensures Valid() && fresh(Repr())
      ensures this.base == base && capacity == size && allocatedSize == 0 && allocatedNum == 0
      ensures core.Allocs() == map[] && core.freeOffset == 1 && core.NoneEmpty()
      ensures core.maxCapacity == if maxCapacity < initCapacity then initCapacity else maxCapacity
    {
      hide CoreAllocator.NoneEmpty, CoreAllocator.Valid, CoreAllocator.Allocs, CoreAllocator.Row, Shr, Multiplier;
      var m := CalculateMultiplier(size);
      MultiplierFits(size, m);
      this.base := base;
      multiplierBits := m;
      capacity := size;
      core := new CoreAllocator(Shr(size, m), initCapacity, maxCapacity);
      allocatedSize, allocatedNum := 0, 0;
    }

    ghost function LargestFree(): nat
      requires Valid()
      reads Repr()
    {
      Shl(core.LargestFree(), multiplierBits)
    }

    method Allocate(size: nat) returns (r: Option<Allocation>)
      requires Valid()
      modifies Repr()
      ensures Valid()
      ensures r.Some? <==> size > 0 && old(LargestFree()) >= size
      ensures r.None? ==>
        && core.Allocs() == old(core.Allocs()) && LargestFree() == old(LargestFree())
        && allocatedSize == old(allocatedSize) && allocatedNum == old(allocatedNum)
      ensures r.Some? ==>
        && r.value.size == size && allocatedSize == old(allocatedSize) + size && allocatedNum == old(allocatedNum) + 1
        && r.value.metadata !in old(core.Allocs())
        && exists off ::
          && r.value.offset == base + Shl(off, multiplierBits)
          && core.Allocs() == old(core.Allocs())[r.value.metadata := Region(off, FloatToUint(RoundUp(Scaled(size, multiplierBits))), true)]
      ensures r.Some? && old(core.Allocs()) == map[] ==> r.value.offset == base
      ensures old(core.NoneEmpty()) ==> core.NoneEmpty()
    {
      hide RoundUp, FloatToUint, Shl, Shr, Scaled, Multiplier, CoreAllocator.NoneEmpty, CoreAllocator.Valid;
      hide CoreAllocator.Allocs, CoreAllocator.LargestFree, CoreAllocator.Row;
      if core.Allocs() == map[] { core.AllFreed(); }
      if size == 0 {
        return None;
      }
      var units := Scaled(size, multiplierBits);
      ScaledLeast(size, multiplierBits, core.LargestFree());
      ScaledLeast(size, multiplierBits, 0);
      ShlZero(multiplierBits);
      core.LargestWithin();
      MultiplierFits(capacity, multiplierBits);
      if units > MAX_BIN_SIZE {
        return None;
      }
      var off, metadata := core.Allocate(units);
      if metadata == UNUSED {
        return None;
      }
      allocatedSize := allocatedSize + size;
      allocatedNum := allocatedNum + 1;
      r := Some(Allocation(base + Shl(off, multiplierBits), size, metadata));
    }

    method Free(a: Allocation)
      requires Valid() && a.metadata in core.Allocs()
      modifies Repr()
      ensures Valid() && core.Allocs() == old(core.Allocs()) - {a.metadata}
      ensures allocatedSize == if a.size <= old(allocatedSize) then old(allocatedSize) - a.size else 0
      ensures allocatedNum == if old(allocatedNum) >= 1 then old(allocatedNum) - 1 else 0
      ensures old(core.NoneEmpty() && core.Allocs()[a.metadata].size > 0) ==> core.NoneEmpty()
    {
      hide CoreAllocator.NoneEmpty, CoreAllocator.Valid, CoreAllocator.Allocs;
      core.Free(a.metadata);
      allocatedSize := if a.size <= allocatedSize then allocatedSize - a.size else 0;
      allocatedNum := if allocatedNum >= 1 then allocatedNum - 1 else 0;
    }

    /** Reserve an exact byte range; only when sizes are not scaled. */
    method ReserveExact(offset: nat, size: nat) returns (r: Option<Allocation>)
      requires Valid()
      modifies Repr()
      ensures Valid()
      ensures r.Some? <==>
        && size > 0 && multiplierBits == 0 && base <= offset && offset - base + size <= capacity
        && old(core.freeOffset) + 3 <= core.maxCapacity && Unreserved(old(core.Allocs()), offset - base, offset - base + size)
      ensures r.None? ==> core.Allocs() == old(core.Allocs()) && allocatedSize == old(allocatedSize) && allocatedNum == old(allocatedNum)
      ensures r.Some? ==>
        && r.value.offset == offset && r.value.size == size && allocatedSize == old(allocatedSize) + size && allocatedNum == old(allocatedNum) + 1
        && r.value.metadata !in old(core.Allocs())
        && core.Allocs() == old(core.Allocs())[r.value.metadata := Region(offset - base, size, true)]
      ensures old(core.NoneEmpty()) ==> core.NoneEmpty()
    {
      hide CoreAllocator.NoneEmpty, CoreAllocator.Valid, CoreAllocator.Allocs, CoreAllocator.LargestFree, Unreserved, Shr, Multiplier;
      if size == 0 || offset < base || multiplierBits != 0 {
        return None;
      }
      MultiplierFits(capacity, multiplierBits);
      assert core.size == capacity by { ShrZero(capacity); }
      if offset - base >= WORD || size >= WORD {
        return None;
      }
      var ok, metadata := core.ReserveExact(offset - base, size);
      if !ok {
        return None;
      }
      allocatedSize := allocatedSize + size;
      allocatedNum := allocatedNum + 1;
      r := Some(Allocation(offset, size, metadata));
    }

    method StorageReport() returns (total: nat, largest: nat)
      requires Valid()
      ensures largest == LargestFree()
      ensures total == Shl(if core.freeOffset < core.maxCapacity then FreeBytes(core.Row()) else 0, multiplierBits)
    {
      total, largest := core.StorageReport();
      total, largest := Shl(total, multiplierBits), Shl(largest, multiplierBits);
    }
  }

  lemma {:induction false} ShlZero(m: nat)
    ensures Shl(0, m) == 0
  {
    if m > 0 { ShlZero(m - 1); }
  }
}
