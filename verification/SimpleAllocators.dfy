/**
  The two simpler segment allocators: first fit over an ordered free list, and
  power-of-two bins with a bitmask. Both keep the free list maximally coalesced.
 */
module SimpleAllocators {
  import opened Bits
  import opened FreeLists
  import opened Segments

  // ---- ordered queries ----

  /** The last region starting before `bound`. */
  method Before(free: Ranges, bound: nat) returns (r: Option<nat>)
    ensures r.None? <==> forall o :: o in free ==> o >= bound
    ensures r.Some? ==> r.value in free && r.value < bound && forall o :: o in free && o < bound ==> o <= r.value
  {
    r := None;
    var rest := free.Keys;
    while rest != {}
      invariant rest <= free.Keys
      invariant r.None? ==> forall o :: o in free && o !in rest ==> o >= bound
      invariant r.Some? ==> r.value in free && r.value < bound && forall o :: o in free && o !in rest && o < bound ==> o <= r.value
    {
      var o :| o in rest;
      if o < bound && (r.None? || r.value < o) {
        r := Some(o);
      }
      rest := rest - {o};
    }
  }

  /** The first region starting at `from` or later that is at least `size` long. */
  method FirstFrom(free: Ranges, from: nat, size: nat) returns (r: Option<nat>)
    ensures r.None? <==> forall o :: o in free && o >= from ==> free[o] < size
    ensures r.Some? ==> r.value in free && r.value >= from && free[r.value] >= size
    ensures r.Some? ==> forall o :: o in free && o >= from && free[o] >= size ==> r.value <= o
  {
    r := None;
    var rest := free.Keys;
    while rest != {}
      invariant rest <= free.Keys
      invariant r.None? ==> forall o :: o in free && o !in rest && o >= from ==> free[o] < size
      invariant r.Some? ==> r.value in free && r.value >= from && free[r.value] >= size
      invariant r.Some? ==> forall o :: o in free && o !in rest && o >= from && free[o] >= size ==> r.value <= o
    {
      var o :| o in rest;
      if o >= from && free[o] >= size && (r.None? || o < r.value) {
        r := Some(o);
      }
      rest := rest - {o};
    }
  }

  /** The longest region; 0 if there is none. */
  method Longest(free: Ranges) returns (n: nat)
    ensures (forall o :: o in free ==> free[o] <= n) && (n > 0 ==> exists o :: o in free && free[o] == n)
  {
    n := 0;
    var rest := free.Keys;
    while rest != {}
      invariant rest <= free.Keys
      invariant (forall o :: o in free && o !in rest ==> free[o] <= n) && (n > 0 ==> exists o :: o in free && free[o] == n)
    {
      var o :| o in rest;
      if free[o] > n {
        n := free[o];
      }
      rest := rest - {o};
    }
  }

  /** The ends of the region a given-back range becomes part of. */
  method Neighbours(free: Ranges, lo: nat, hi: nat, ghost live: Ranges, ghost capacity: nat) returns (before: nat, after: nat)
    requires Partition(free, live, capacity) && lo in live && live[lo] == hi - lo && lo < hi
    ensures Fits(free, live, lo, hi, before, after)
  {
    before, after := lo, hi;
    var prev := Before(free, lo);
    if prev.Some? && prev.value + free[prev.value] == lo {
      before := prev.value;
    }
    forall p | p in free && before == lo ensures p + free[p] != lo {
      if p < lo && prev.Some? && p < prev.value { Distance(free, capacity, p, prev.value); }
    }
    var next := FirstFrom(free, hi, 0);
    if next.Some? && next.value == hi {
      after := hi + free[hi];
    }
  }

  /** The region an exact range lies in, if it is free throughout. */
  method Containing(free: Ranges, lo: nat, size: nat, ghost live: Ranges, ghost capacity: nat) returns (r: Option<nat>)
    requires Partition(free, live, capacity) && size > 0
    ensures r.Some? <==> RangeFree(free, lo, size)
    ensures r.Some? ==> r.value in free && r.value <= lo && lo + size <= r.value + free[r.value]
  {
    FreeRange(free, live, capacity, lo, lo + size);
    r := Before(free, lo + 1);
    if r.Some? && r.value + free[r.value] < lo + size {
      forall o | o in free && o <= lo ensures o + free[o] < lo + size {
        if o < r.value { Distance(free, capacity, o, r.value); }
      }
      r := None;
    }
  }

  // ---- first fit ----

  class FirstFitBufferAllocator {
    const segmentName: string
    const capacity: nat
    var free: Ranges
    var used: nat
    /** What is handed out: offset to size. */
    ghost var live: Ranges

    ghost predicate Valid()
      reads this
    {
      Partition(free, live, capacity) && used == Total(live)
    }

    constructor (segmentName: string, capacity: nat)
      ensures Valid() && live == map[] && this.capacity == capacity && this.segmentName == segmentName
    {
      this.segmentName, this.capacity := segmentName, capacity;
      free := if capacity > 0 then map[0 := capacity] else map[];
      used, live := 0, map[];
      new;
      forall b: nat | b < capacity ensures Covers(free, b) { CoverBy(free, 0, b); }
    }

    /** Hand out the first region that fits. */
    method Allocate(size: nat) returns (r: Option<Buffer>)
      requires Valid()
      modifies this
      ensures Valid()
      ensures r.Some? <==> size > 0 && exists o :: o in old(free) && old(free)[o] >= size
      ensures r.None? ==> live == old(live) && free == old(free)
      ensures r.Some? ==> r.value.segment == segmentName && r.value.size == size && RangeFree(old(free), r.value.offset, size)
      ensures r.Some? ==> r.value.offset !in old(live) && live == old(live)[r.value.offset := size]
      ensures r.Some? ==> forall o :: o in old(free) && old(free)[o] >= size ==> r.value.offset <= o
    {
      hide Partition, Total;
      if size == 0 {
        return None;
      }
      var found := FirstFrom(free, 0, size);
      if found.None? {
        return None;
      }
      var o := found.value;
      CutOk(free, live, capacity, o, o, o + size);
      TotalAdd(live, o, size);
      forall b | o <= b < o + size ensures Covers(free, b) { CoverBy(free, o, b); }
      var len := free[o];
      ghost var cut := Cut(free, o, o, o + size);
      free := free - {o};
      if len > size {
        free := free[o + size := len - size];
      }
      assert free == cut;
      live := live[o := size];
      used := used + size;
      r := Some(Buffer(segmentName, o, size));
    }

    /** Give a live range back, merging it with the free regions it touches. */
    method Deallocate(b: Buffer)
      requires Valid() && b.offset in live && live[b.offset] == b.size
      modifies this
      ensures Valid() && live == old(live) - {b.offset}
    {
      hide Partition, Total, Joined;
      LiveNotFree(free, live, capacity, b.offset);
      var end := b.offset + b.size;
      var before, after := Neighbours(free, b.offset, end, live, capacity);
      JoinOk(free, live, capacity, b.offset, end, before, after);
      TotalRemove(live, b.offset);
      free := Joined(free, b.offset, end, before, after);
      live := live - {b.offset};
      used := SaturatingSub(used, b.size);
    }

    method LargestFreeRegion() returns (n: nat)
      requires Valid()
      ensures (forall o :: o in free ==> free[o] <= n) && (n > 0 ==> exists o :: o in free && free[o] == n)
    {
      n := Longest(free);
    }

    /** Reserve an exact range: it succeeds exactly when the whole range is free. */
    method Reserve(offset: nat, size: nat) returns (ok: bool)
      requires Valid()
      modifies this
      ensures Valid()
      ensures ok <==> RangeFree(old(free), offset, size)
      ensures !ok ==> live == old(live) && free == old(free)
      ensures ok ==> offset !in old(live) && live == old(live)[offset := size]
    {
      hide Partition, Total;
      if size == 0 {
        return false;
      }
      var found := Containing(free, offset, size, live, capacity);
      if found.None? {
        return false;
      }
      var o, end := found.value, offset + size;
      CutOk(free, live, capacity, o, offset, end);
      TotalAdd(live, offset, size);
      var len := free[o];
      ghost var cut := Cut(free, o, offset, end);
      free := free - {o};
      if o < offset {
        free := free[o := offset - o];
      }
      if end < o + len {
        free := free[end := o + len - end];
      }
      assert free == cut;
      live := live[offset := size];
      used := used + size;
      ok := true;
    }

    /** Once everything is given back, in whatever order, the segment is one free region again. */
    lemma AllFreed()
      requires Valid() && live == map[]
      ensures free == (if capacity == 0 then map[] else map[0 := capacity]) && used == 0
    {
      AllFree(free, capacity);
    }
  }

  // ---- power-of-two bins ----

  const BINS: nat := 64

  /** The order of choice: lower bin first, then lower offset. */
  ghost predicate Sooner(free: Ranges, o: nat, p: nat)
    requires o in free && p in free
  {
    free[o] > 0 && free[p] > 0 && (HighestBit(free[o]) < HighestBit(free[p]) || (HighestBit(free[o]) == HighestBit(free[p]) && o <= p))
  }

  method Lowest(s: set<nat>) returns (m: nat)
    requires s != {}
    ensures m in s && forall o :: o in s ==> m <= o
  {
    m :| m in s;
    var rest := s - {m};
    while rest != {}
      invariant m in s && rest <= s && forall o :: o in s && o !in rest ==> m <= o
    {
      var o :| o in rest;
      if o < m { m := o; }
      rest := rest - {o};
    }
  }

  /** Each region is in the bin of its size class, and the mask marks the bins in use. */
  ghost predicate BinsOk(free: Ranges, bins: seq<set<nat>>, mask: nat) {
    && |bins| == BINS
    && (forall o :: o in free ==> free[o] > 0 && HighestBit(free[o]) < BINS && o in bins[HighestBit(free[o])])
    && (forall b, o :: 0 <= b < BINS && o in bins[b] ==> o in free && HighestBit(free[o]) == b)
    && (forall b :: 0 <= b < BINS ==> (Bit(mask, b) <==> bins[b] != {}))
    && mask < Pow2(BINS)
  }

  lemma {:induction false} BinsAdded(free: Ranges, bins: seq<set<nat>>, mask: nat, o: nat, size: nat)
    requires BinsOk(free, bins, mask) && o !in free && size > 0 && HighestBit(size) < BINS
    ensures var b := HighestBit(size); BinsOk(free[o := size], bins[b := bins[b] + {o}], SetBit(mask, b))
  {
    hide HighestBit, Bit, SetBit, Pow2;
    SetBitBits(mask, HighestBit(size), BINS);
  }

  lemma {:induction false} BinsRemoved(free: Ranges, bins: seq<set<nat>>, mask: nat, o: nat)
    requires BinsOk(free, bins, mask) && o in free
    ensures var b := HighestBit(free[o]);
      BinsOk(free - {o}, bins[b := bins[b] - {o}], if bins[b] - {o} == {} then ClearBit(mask, b) else mask)
  {
    hide HighestBit, Bit, ClearBit, Pow2;
    ClearBitBits(mask, HighestBit(free[o]), BINS);
  }

  /** Bins order sizes: a region in a higher bin is longer than any size of a lower one. */
  lemma {:induction false} HigherBinLonger(size: nat, len: nat)
    requires size > 0 && len > 0 && HighestBit(size) < HighestBit(len)
    ensures size < len
  {
    hide HighestBit, Bit;
    HighestBitIsLast(size);
    HighestBitIsLast(len);
    Pow2Monotone(HighestBit(size) + 1, HighestBit(len));
    Pow2Next(HighestBit(size));
  }

  lemma {:induction false} Pow2Next(n: nat)
    ensures Pow2(n + 1) == 2 * Pow2(n)
  {
  }

  lemma {:induction false} BelowWord(size: nat)
    requires 0 < size < Pow2(BINS)
    ensures HighestBit(size) < BINS
  {
    hide HighestBit, Bit;
    HighestBitIsLast(size);
    if HighestBit(size) >= BINS { Pow2Monotone(BINS, HighestBit(size)); }
  }

  class BinnedBufferAllocator {
    const segmentName: string
    const capacity: nat
    var used: nat
    var free: Ranges
    /** Regions by size class. */
    var bins: seq<set<nat>>
    /** Which classes have regions. */
    var nonempty: nat
    ghost var live: Ranges

    ghost predicate Valid()
      reads this
    {
      && capacity < Pow2(BINS) && BinsOk(free, bins, nonempty)
      && Partition(free, live, capacity) && used == Total(live)
    }

    constructor (segmentName: string, capacity: nat)
      requires capacity < Pow2(BINS)
      ensures Valid() && live == map[] && this.capacity == capacity && this.segmentName == segmentName
    {
      this.segmentName, this.capacity := segmentName, capacity;
      free, bins, nonempty := map[], seq(BINS, _ => {}), 0;
      used, live := 0, map[];
      new;
      hide BinsOk, Pow2, Total;
      NoBins(bins);
      TotalNone();
      if capacity > 0 {
        AddFree(0, capacity);
      }
      forall b: nat | b < capacity ensures Covers(free, b) { CoverBy(free, 0, b); }
    }

    /** File a region under its size class; an empty one is dropped. */
    method AddFree(offset: nat, size: nat)
      requires BinsOk(free, bins, nonempty) && offset !in free && size < Pow2(BINS)
      modifies this`free, this`bins, this`nonempty
      ensures BinsOk(free, bins, nonempty) && free == if size == 0 then old(free) else old(free)[offset := size]
    {
      hide HighestBit, Pow2, SetBit;
      if size == 0 {
        return;
      }
      BelowWord(size);
      BinsAdded(free, bins, nonempty, offset, size);
      free := free[offset := size];
      var b := HighestBit(size);
      bins := bins[b := bins[b] + {offset}];
      nonempty := SetBit(nonempty, b);
    }

    method RemoveFree(offset: nat)
      requires BinsOk(free, bins, nonempty) && offset in free
      modifies this`free, this`bins, this`nonempty
      ensures BinsOk(free, bins, nonempty) && free == old(free) - {offset}
    {
      hide HighestBit, Pow2, ClearBit;
      BinsRemoved(free, bins, nonempty, offset);
      var b := HighestBit(free[offset]);
      free := free - {offset};
      bins := bins[b := bins[b] - {offset}];
      if bins[b] == {} {
        nonempty := ClearBit(nonempty, b);
      }
    }

    /** Scan the size's own bin, else take from the lowest bin above it: finds a region whenever one is long enough. */
    method Choose(size: nat) returns (chosen: Option<nat>)
      requires BinsOk(free, bins, nonempty) && size > 0
      ensures chosen.Some? <==> exists o :: o in free && free[o] >= size
      ensures chosen.Some? ==> chosen.value in free && free[chosen.value] >= size
      ensures chosen.Some? ==> forall o :: o in free && free[o] >= size ==> Sooner(free, chosen.value, o)
    {
      hide HighestBit, Pow2, Bit, ClearBelow, TrailingZeros;
      var floor := HighestBit(size);
      chosen := None;
      if floor < BINS && Bit(nonempty, floor) {
        var rest := bins[floor];
        while rest != {}
          invariant rest <= bins[floor] && forall o :: o in bins[floor] - rest ==> free[o] < size
        {
          var o := Lowest(rest);
          if free[o] >= size {
            forall p | p in free && free[p] >= size ensures Sooner(free, o, p) {
              if HighestBit(free[p]) < floor { HigherBinLonger(free[p], size); }
            }
            return Some(o);
          }
          rest := rest - {o};
        }
      }
      var higher := ClearBelow(nonempty, floor + 1);
      forall b: nat ensures Bit(higher, b) <==> b > floor && Bit(nonempty, b) { ClearBelowAt(nonempty, floor + 1, b); }
      WidthBits(nonempty, BINS);
      if higher != 0 {
        TrailingZerosIsFirst(higher);
        var b := TrailingZeros(higher);
        var o := Lowest(bins[b]);
        HigherBinLonger(size, free[o]);
        forall p | p in free && free[p] >= size ensures Sooner(free, o, p) {
          var c := HighestBit(free[p]);
          assert Bit(nonempty, c);
          if c < floor { HigherBinLonger(free[p], size); }
        }
        return Some(o);
      }
      ZeroHasNoBits(higher);
      forall o | o in free ensures free[o] < size {
        var b := HighestBit(free[o]);
        assert Bit(nonempty, b);
        if b < floor { HigherBinLonger(free[o], size); }
      }
    }

    method Allocate(size: nat) returns (r: Option<Buffer>)
      requires Valid()
      modifies this
      ensures Valid()
      ensures r.Some? <==> size > 0 && exists o :: o in old(free) && old(free)[o] >= size
      ensures r.None? ==> live == old(live) && free == old(free)
      ensures r.Some? ==> r.value.segment == segmentName && r.value.size == size && RangeFree(old(free), r.value.offset, size)
      ensures r.Some? ==> r.value.offset !in old(live) && live == old(live)[r.value.offset := size]
      ensures r.Some? ==> r.value.offset in old(free) && forall o :: o in old(free) && old(free)[o] >= size ==> Sooner(old(free), r.value.offset, o)
    {
      hide Partition, Total, BinsOk, Pow2;
      if size == 0 {
        return None;
      }
      var chosen := Choose(size);
      if chosen.None? {
        return None;
      }
      var o := chosen.value;
      CutOk(free, live, capacity, o, o, o + size);
      TotalAdd(live, o, size);
      InCapacity(free, live, capacity, o);
      forall b | o <= b < o + size ensures Covers(free, b) { CoverBy(free, o, b); }
      var len := free[o];
      ghost var cut := Cut(free, o, o, o + size);
      InsideClear(free, live, capacity, o, o + size);
      RemoveFree(o);
      AddFree(o + size, len - size);
      assert free == cut;
      live := live[o := size];
      used := used + size;
      r := Some(Buffer(segmentName, o, size));
    }

    method Deallocate(b: Buffer)
      requires Valid() && b.offset in live && live[b.offset] == b.size
      modifies this
      ensures Valid() && live == old(live) - {b.offset}
    {
      hide Partition, Total, BinsOk, Pow2, Joined;
      LiveNotFree(free, live, capacity, b.offset);
      var lo, end := b.offset, b.offset + b.size;
      var before, after := Neighbours(free, lo, end, live, capacity);
      JoinOk(free, live, capacity, lo, end, before, after);
      TotalRemove(live, lo);
      ghost var free0 := free;
      JoinedSteps(free, live, lo, end, before, after);
      if before != lo {
        RemoveFree(before);
      }
      if after != end {
        RemoveFree(end);
      }
      JoinedFits(free0, live, capacity, lo, end, before, after);
      AddFree(before, after - before);
      live := live - {lo};
      used := SaturatingSub(used, b.size);
    }

    method LargestFreeRegion() returns (n: nat)
      requires Valid()
      ensures (forall o :: o in free ==> free[o] <= n) && (n > 0 ==> exists o :: o in free && free[o] == n)
    {
      n := Longest(free);
    }

    method Reserve(offset: nat, size: nat) returns (ok: bool)
      requires Valid()
      modifies this
      ensures Valid()
      ensures ok <==> RangeFree(old(free), offset, size)
      ensures !ok ==> live == old(live) && free == old(free)
      ensures ok ==> offset !in old(live) && live == old(live)[offset := size]
    {
      hide Partition, Total, BinsOk, Pow2;
      if size == 0 {
        return false;
      }
      var found := Containing(free, offset, size, live, capacity);
      if found.None? {
        return false;
      }
      var o, end := found.value, offset + size;
      CutOk(free, live, capacity, o, offset, end);
      TotalAdd(live, offset, size);
      InCapacity(free, live, capacity, o);
      InsideClear(free, live, capacity, o, end);
      var len := free[o];
      ghost var cut := Cut(free, o, offset, end);
      RemoveFree(o);
      AddFree(o, offset - o);
      AddFree(end, o + len - end);
      assert free == cut;
      live := live[offset := size];
      used := used + size;
      ok := true;
    }

    lemma AllFreed()
      requires Valid() && live == map[]
      ensures free == (if capacity == 0 then map[] else map[0 := capacity]) && used == 0
    {
      AllFree(free, capacity);
    }
  }

  lemma NoBins(none: seq<set<nat>>)
    requires |none| == BINS && forall b :: 0 <= b < BINS ==> none[b] == {}
    ensures BinsOk(map[], none, 0)
  {
    ZeroHasNoBits(0);
  }

  lemma InCapacity(free: Ranges, live: Ranges, capacity: nat, o: nat)
    requires Partition(free, live, capacity) && o in free
    ensures o + free[o] <= capacity
  {
  }

  lemma InsideClear(free: Ranges, live: Ranges, capacity: nat, o: nat, hi: nat)
    requires Partition(free, live, capacity) && o in free && o < hi <= o + free[o]
    ensures hi !in free
  {
    ApartHi(free, capacity, o, hi);
  }

  lemma JoinedSteps(free: Ranges, live: Ranges, lo: nat, hi: nat, before: nat, after: nat)
    requires Fits(free, live, lo, hi, before, after) && lo !in free
    ensures var a := if before != lo then free - {before} else free;
      var b := if after != hi then a - {hi} else a;
      before !in b && b[before := after - before] == Joined(free, lo, hi, before, after)
    ensures after != hi ==> hi in (if before != lo then free - {before} else free)
    ensures before <= lo && hi <= after
  {
  }

  lemma JoinedFits(free: Ranges, live: Ranges, capacity: nat, lo: nat, hi: nat, before: nat, after: nat)
    requires Partition(free, live, capacity) && Fits(free, live, lo, hi, before, after)
    ensures before <= lo && after <= capacity
  {
  }

  lemma TotalNone()
    ensures Total(map[]) == 0
  {
  }
}
