/**
  The store's per-segment buffer allocator: the offset allocator with a map from
  offsets to handles, since the store frees by offset. `view` is the segment it
  stands for.
 */
module Buffers {
  import opened Bits
  import opened Core
  import opened CoreSteps
  import opened Layout
  import opened Offsets
  import opened Segments
  import opened SmallFloat

  const INIT_NODES := 256
  const MAX_NODES := 0x40_0000

  /** The handle map names exactly the core's allocations, each at its byte offset. */
  ghost predicate Bridged(live: map<nat, Allocation>, allocs: map<nat, Region>, m: nat) {
    && (forall o :: o in live ==> BridgedAt(o, live[o], allocs, m))
    && (forall h :: h in allocs ==> Shl(allocs[h].offset, m) in live && live[Shl(allocs[h].offset, m)].metadata == h)
  }

  ghost predicate BridgedAt(o: nat, a: Allocation, allocs: map<nat, Region>, m: nat) {
    && a.offset == o && a.metadata in allocs
    && o == Shl(allocs[a.metadata].offset, m)
    && 0 < a.size <= Shl(allocs[a.metadata].size, m)
  }

  /** What is held at each offset. */
  ghost function HoldsOf(live: map<nat, Allocation>, allocs: map<nat, Region>, m: nat): map<nat, Hold>
    requires Bridged(live, allocs, m)
  {
    map o | o in live :: Hold(live[o].size, Shl(allocs[live[o].metadata].size, m))
  }

  lemma {:induction false} ShlAdd(a: nat, b: nat, m: nat)
    ensures Shl(a + b, m) == Shl(a, m) + Shl(b, m)
  {
    if m > 0 { ShlAdd(a, b, m - 1); }
  }

  /** Disjoint regions inside the core's span are disjoint byte ranges inside the segment. */
  lemma {:induction false} ScaledApart(r: Region, s: Region, m: nat, total: nat, capacity: nat)
    requires r.End() <= total && Shl(total, m) <= capacity
    ensures Shl(r.offset, m) + Shl(r.size, m) <= capacity
    ensures r.End() <= s.offset ==> Shl(r.offset, m) + Shl(r.size, m) <= Shl(s.offset, m)
  {
    ShlAdd(r.offset, r.size, m);
    ShlMonotone(total, r.End(), m);
    ShlMonotone(s.offset, r.End(), m);
  }

  /** Regions that never overlap, inside `[0, total)`. */
  ghost predicate RegionsApart(allocs: map<nat, Region>, total: nat) {
    && (forall h :: h in allocs ==> allocs[h].End() <= total)
    && (forall h, k :: h in allocs && k in allocs && h != k ==> allocs[h].End() <= allocs[k].offset || allocs[k].End() <= allocs[h].offset)
  }

  /** Two entries of the handle map hold disjoint ranges inside the segment. */
  lemma {:induction false} HoldsApart(live: map<nat, Allocation>, allocs: map<nat, Region>, m: nat, total: nat, capacity: nat, o: nat, o': nat)
    requires Bridged(live, allocs, m) && RegionsApart(allocs, total) && Shl(total, m) <= capacity
    requires o in live && o' in live
    ensures var h := HoldsOf(live, allocs, m)[o];
      && 0 < h.size <= h.extent && o + h.extent <= capacity
      && (o < o' ==> o + h.extent <= o')
  {
    hide Shl;
    assert BridgedAt(o, live[o], allocs, m) && BridgedAt(o', live[o'], allocs, m);
    var r, r' := allocs[live[o].metadata], allocs[live[o'].metadata];
    ScaledApart(r, r', m, total, capacity);
    ScaledApart(r', r, m, total, capacity);
  }

  lemma {:induction false} HoldsValid(name: string, live: map<nat, Allocation>, allocs: map<nat, Region>, m: nat, total: nat, capacity: nat)
    requires Bridged(live, allocs, m) && RegionsApart(allocs, total) && Shl(total, m) <= capacity
    ensures Segment(name, capacity, HoldsOf(live, allocs, m)).Valid()
  {
    hide Shl, Bridged, RegionsApart, HoldsOf;
    var holds := HoldsOf(live, allocs, m);
    HoldKeys(live, allocs, m);
    forall o, o' | o in holds && o' in holds
      ensures 0 < holds[o].size <= holds[o].extent && o + holds[o].extent <= capacity
      ensures o < o' ==> o + holds[o].extent <= o'
    {
      HoldsApart(live, allocs, m, total, capacity, o, o');
    }
  }

  /** Adding one allocation at a fresh offset. */
  lemma {:induction false} BridgeAdd(live: map<nat, Allocation>, allocs: map<nat, Region>, m: nat, a: Allocation, r: Region)
    requires Bridged(live, allocs, m) && a.metadata !in allocs && a.offset !in live
    requires a.offset == Shl(r.offset, m) && 0 < a.size <= Shl(r.size, m)
    ensures Bridged(live[a.offset := a], allocs[a.metadata := r], m)
    ensures HoldsOf(live[a.offset := a], allocs[a.metadata := r], m) == HoldsOf(live, allocs, m)[a.offset := Hold(a.size, Shl(r.size, m))]
  {
    hide Shl;
    var live', allocs' := live[a.offset := a], allocs[a.metadata := r];
    forall o | o in live' ensures BridgedAt(o, live'[o], allocs', m) {
      if o != a.offset { assert BridgedAt(o, live[o], allocs, m); }
    }
    forall o | o in live ensures live[o].metadata in allocs && live[o].metadata != a.metadata {
      assert BridgedAt(o, live[o], allocs, m);
    }
  }

  /** A new region sits at an offset nothing else holds. */
  lemma {:induction false} FreshOffset(live: map<nat, Allocation>, allocs: map<nat, Region>, m: nat, h: nat, r: Region, total: nat)
    requires Bridged(live, allocs, m) && h !in allocs && r.size > 0 && RegionsApart(allocs[h := r], total)
    ensures Shl(r.offset, m) !in live
  {
    hide Shl;
    var o := Shl(r.offset, m);
    if o in live {
      assert BridgedAt(o, live[o], allocs, m);
      var k := live[o].metadata;
      var s := allocs[k];
      assert allocs[h := r][k] == s && allocs[h := r][h] == r;
      ShlMonotone(r.offset, s.offset, m);
      ShlMonotone(s.offset, r.offset, m);
      ShlZero(m);
      assert false;
    }
  }

  lemma BridgeRemove(live: map<nat, Allocation>, allocs: map<nat, Region>, m: nat, o: nat)
    requires Bridged(live, allocs, m) && o in live
    ensures live[o].metadata in allocs
    ensures Bridged(live - {o}, allocs - {live[o].metadata}, m)
    ensures HoldsOf(live - {o}, allocs - {live[o].metadata}, m) == HoldsOf(live, allocs, m) - {o}
    ensures HoldsOf(live, allocs, m)[o].size == live[o].size
  {
    hide Shl;
    assert BridgedAt(o, live[o], allocs, m);
    var live', allocs' := live - {o}, allocs - {live[o].metadata};
    forall p | p in live' ensures BridgedAt(p, live'[p], allocs', m) {
      assert BridgedAt(p, live[p], allocs, m);
    }
    forall h | h in allocs' ensures Shl(allocs'[h].offset, m) in live' && live'[Shl(allocs'[h].offset, m)].metadata == h {
      assert allocs[h] == allocs'[h];
    }
  }

  /** Without scaling a range overlaps no region exactly when it overlaps nothing held. */
  lemma UnreservedIffFree(name: string, live: map<nat, Allocation>, allocs: map<nat, Region>, capacity: nat, lo: nat, hi: nat)
    requires Bridged(live, allocs, 0)
    ensures Unreserved(allocs, lo, hi) <==> Segment(name, capacity, HoldsOf(live, allocs, 0)).Free(lo, hi)
  {
    var holds := HoldsOf(live, allocs, 0);
    if Unreserved(allocs, lo, hi) {
      forall o | o in holds ensures o + holds[o].extent <= lo || hi <= o {
        assert BridgedAt(o, live[o], allocs, 0);
      }
    }
    if Segment(name, capacity, holds).Free(lo, hi) {
      forall h | h in allocs ensures !Overlaps(allocs[h], lo, hi) {
        assert allocs[h].offset in holds;
      }
    }
  }

  lemma {:induction false} BridgeSize(live: map<nat, Allocation>, allocs: map<nat, Region>, m: nat)
    requires Bridged(live, allocs, m)
    ensures |live| == |allocs|
    decreases |live|
  {
    hide Shl;
    if live == map[] {
      assert allocs == map[];
    } else {
      var o :| o in live;
      assert BridgedAt(o, live[o], allocs, m);
      BridgeRemove(live, allocs, m, o);
      BridgeSize(live - {o}, allocs - {live[o].metadata}, m);
      assert |allocs - {live[o].metadata}| == |allocs| - 1 by {
        assert allocs == (allocs - {live[o].metadata})[live[o].metadata := allocs[live[o].metadata]];
      }
    }
  }

  // ---- what a segment can serve ----

  /** A free range of `u` units of `2^m` bytes, in a bin that serves `size` bytes. */
  ghost predicate RoomAt(s: Segment, size: nat, m: nat, lo: nat, u: nat) {
    && Multiplier(s.capacity, m) && u > 0 && lo + u <= Shr(s.capacity, m)
    && s.Free(Shl(lo, m), Shl(lo + u, m)) && size <= Shl(FloatToUint(RoundDown(u)), m)
    && |s.holds| + |Gaps(s.holds, Shl(Shr(s.capacity, m), m))| < MAX_NODES
  }

  /** The segment can serve a request, by its buffers alone: a free range is large enough, and a node is to spare. */
  ghost predicate HasRoom(s: Segment, size: nat) {
    size > 0 ==> exists m: nat, lo: nat, u: nat :: RoomAt(s, size, m, lo, u)
  }

  /** A segment that holds nothing serves any request up to its capacity, rounded down to a bin. */
  lemma {:induction false} EmptyHasRoom(s: Segment, size: nat)
    requires s.holds == map[] && s.capacity <= MAX_BIN_SIZE && size <= FloatToUint(RoundDown(s.capacity))
    ensures HasRoom(s, size)
  {
    if size > 0 {
      ShrZero(s.capacity);
      ShlNone(s.capacity);
      ShlNone(FloatToUint(RoundDown(s.capacity)));
      RoundDownBrackets(s.capacity);
      GapsBound(s.holds, s.capacity);
      hide FloatToUint, RoundDown, Gaps;
      assert RoomAt(s, size, 0, 0, s.capacity);
    }
  }

  lemma MultiplierUnique(size: nat, m: nat, k: nat)
    requires Multiplier(size, m) && Multiplier(size, k)
    ensures m == k
  {
    hide Shr;
  }

  /** Units free between the core's allocations are bytes free between the buffers. */
  lemma {:induction false} UnitsFree(s: Segment, live: map<nat, Allocation>, allocs: map<nat, Region>, m: nat, lo: nat, hi: nat)
    requires Bridged(live, allocs, m) && s.holds == HoldsOf(live, allocs, m)
    ensures Unreserved(allocs, lo, hi) <==> s.Free(Shl(lo, m), Shl(hi, m))
  {
    hide Shl;
    if Unreserved(allocs, lo, hi) {
      forall o | o in s.holds ensures o + s.holds[o].extent <= Shl(lo, m) || Shl(hi, m) <= o {
        assert BridgedAt(o, live[o], allocs, m);
        UnitBorders(allocs[live[o].metadata], m, lo, hi);
      }
    }
    if s.Free(Shl(lo, m), Shl(hi, m)) {
      forall h | h in allocs ensures !Overlaps(allocs[h], lo, hi) {
        var o := Shl(allocs[h].offset, m);
        assert o in s.holds && BridgedAt(o, live[o], allocs, m);
        UnitBorders(allocs[h], m, lo, hi);
      }
    }
  }

  lemma {:induction false} UnitBorders(r: Region, m: nat, lo: nat, hi: nat)
    ensures r.End() <= lo <==> Shl(r.offset, m) + Shl(r.size, m) <= Shl(lo, m)
    ensures hi <= r.offset <==> Shl(hi, m) <= Shl(r.offset, m)
  {
    ShlAdd(r.offset, r.size, m);
    ShlMonotone(lo, r.End(), m);
    ShlMonotone(r.offset, hi, m);
  }

  lemma NoneNeeded(s: Segment)
    ensures HasRoom(s, 0)
  {
  }

  /** Room between the buffers is room between the core's allocations. */
  lemma {:induction false} RoomUnits(s: Segment, live: map<nat, Allocation>, allocs: map<nat, Region>, m: nat, size: nat)
    requires Bridged(live, allocs, m) && s.holds == HoldsOf(live, allocs, m) && Multiplier(s.capacity, m) && size > 0
    ensures var total := Shr(s.capacity, m);
      HasRoom(s, size) <==>
        |allocs| + |GapsOf(allocs, total)| < MAX_NODES && exists lo: nat, u: nat :: FreeRange(allocs, total, Scaled(size, m), lo, u)
  {
    hide Bridged, HoldsOf, RoundDown, FloatToUint, Shl, Shr, Multiplier, Gaps, GapsOf, Scaled, FreeRange, RoomAt;
    var total := Shr(s.capacity, m);
    SameGaps(live, allocs, m, total);
    ShiftedSize(GapsOf(allocs, total), m);
    HoldKeys(live, allocs, m);
    BridgeSize(live, allocs, m);
    forall lo: nat, u: nat
      ensures RoomAt(s, size, m, lo, u) <==> |allocs| + |GapsOf(allocs, total)| < MAX_NODES && FreeRange(allocs, total, Scaled(size, m), lo, u)
    {
      RoomThere(s, live, allocs, m, size, lo, u);
    }
    forall k: nat, lo: nat, u: nat | RoomAt(s, size, k, lo, u) ensures k == m {
      RoomScale(s, size, k, lo, u);
      MultiplierUnique(s.capacity, k, m);
    }
  }

  lemma RoomScale(s: Segment, size: nat, m: nat, lo: nat, u: nat)
    requires RoomAt(s, size, m, lo, u)
    ensures Multiplier(s.capacity, m)
  {
  }

  lemma {:induction false} RoomThere(s: Segment, live: map<nat, Allocation>, allocs: map<nat, Region>, m: nat, size: nat, lo: nat, u: nat)
    requires Bridged(live, allocs, m) && s.holds == HoldsOf(live, allocs, m) && Multiplier(s.capacity, m)
    requires |s.holds| == |allocs| && |Gaps(s.holds, Shl(Shr(s.capacity, m), m))| == |GapsOf(allocs, Shr(s.capacity, m))|
    ensures var total := Shr(s.capacity, m);
      RoomAt(s, size, m, lo, u) <==> |allocs| + |GapsOf(allocs, total)| < MAX_NODES && FreeRange(allocs, total, Scaled(size, m), lo, u)
  {
    hide Bridged, HoldsOf, RoundDown, FloatToUint, Shl, Shr, Multiplier, Gaps, GapsOf, Scaled, Unreserved, Segment.Free;
    UnitsFree(s, live, allocs, m, lo, lo + u);
    ScaledLeast(size, m, FloatToUint(RoundDown(u)));
  }

  ghost function Shifted(xs: set<nat>, m: nat): set<nat> {
    set x | x in xs :: Shl(x, m)
  }

  lemma {:induction false} ShiftedSize(xs: set<nat>, m: nat)
    ensures |Shifted(xs, m)| == |xs|
  {
    hide Shl;
    if xs == {} {
      assert Shifted(xs, m) == {};
    } else {
      var x :| x in xs;
      ShiftedSize(xs - {x}, m);
      forall y | y in xs - {x} ensures Shl(y, m) != Shl(x, m) {
        ShlMonotone(x, y, m);
        ShlMonotone(y, x, m);
      }
      assert Shifted(xs, m) == Shifted(xs - {x}, m) + {Shl(x, m)};
    }
  }

  class OffsetBufferAllocator {
    const segmentName: string
    const inner: OffsetAllocator
    var live: map<nat, Allocation>
    /** The segment this allocator stands for. */
    ghost var view: Segment

    ghost function Repr(): set<object> {
      {this} + inner.Repr()
    }

    ghost predicate Valid()
      reads Repr()
    {
      && this !in inner.Repr()
      && inner.Valid() && inner.base == 0 && inner.core.maxCapacity == MAX_NODES
      && Bridged(live, inner.core.Allocs(), inner.multiplierBits)
      && view == Segment(segmentName, inner.capacity, HoldsOf(live, inner.core.Allocs(), inner.multiplierBits))
      && inner.allocatedSize == SizeSum(view.holds)
      && inner.core.NoneEmpty()
    }

    /** Whether byte ranges can be reserved exactly: sizes are not scaled. */
    ghost predicate Unscaled() {
      inner.multiplierBits == 0
    }

    /** Room for the nodes a reservation takes. */
    ghost predicate NodeRoom()
      reads Repr()
    {
      inner.core.freeOffset + 3 <= inner.core.maxCapacity
    }

    ghost function LargestFree(): nat
      requires Valid()
      reads Repr()
    {
      inner.LargestFree()
    }

    constructor (name: string, capacity: nat)
      ensures Valid() && fresh(Repr())
      ensures view == Segment(name, capacity, map[]) && segmentName == name
    {
      hide CoreAllocator.NoneEmpty, CoreAllocator.Valid, CoreAllocator.Allocs, Multiplier, Shr, Shl, Bridged, HoldsOf, SizeSum;
      segmentName := name;
      inner := new OffsetAllocator(0, capacity, INIT_NODES, MAX_NODES);
      live := map[];
      view := Segment(name, capacity, map[]);
      new;
      EmptyBridge(inner.multiplierBits);
    }

    method Capacity() returns (c: nat)
      requires Valid()
      ensures c == view.capacity
    {
      c := inner.capacity;
    }

    method Allocated() returns (n: nat)
      requires Valid()
      ensures n == view.Allocated()
    {
      n := inner.allocatedSize;
    }

    method LargestFreeRegion() returns (n: nat)
      requires Valid()
      ensures n == LargestFree()
    {
      var total;
      total, n := inner.StorageReport();
    }

    method Allocate(size: nat) returns (r: Option<Buffer>)
      requires Valid()
      modifies Repr()
      ensures Valid()
      ensures r.Some? <==> size > 0 && old(LargestFree()) >= size
      ensures r.None? ==> view == old(view) && LargestFree() == old(LargestFree())
      ensures r.Some? ==>
        && r.value.segment == segmentName && r.value.size == size && r.value.offset !in old(view).holds
        && exists extent :: size <= extent && view == old(view).(holds := old(view).holds[r.value.offset := Hold(size, extent)])
      ensures r.Some? && old(view).holds == map[] ==> r.value.offset == 0
    {
      hide CoreAllocator.NoneEmpty, CoreAllocator.Valid, CoreAllocator.Allocs, CoreAllocator.LargestFree, Multiplier;
      hide Shr, Shl, RoundUp, FloatToUint, Scaled, Bridged, HoldsOf, SizeSum;
      ghost var m, allocs0, live0 := inner.multiplierBits, inner.core.Allocs(), live;
      if view.holds == map[] { NothingLive(); }
      var a := inner.Allocate(size);
      if a.None? {
        return None;
      }
      ghost var off :|
        && a.value.offset == Shl(off, m)
        && inner.core.Allocs() == allocs0[a.value.metadata := Region(off, FloatToUint(RoundUp(Scaled(size, m))), true)];
      ghost var r0 := Region(off, FloatToUint(RoundUp(Scaled(size, m))), true);
      CoreApart();
      UnitsHold(size, m);
      FreshOffset(live, allocs0, m, a.value.metadata, r0, inner.core.size);
      BridgeAdd(live, allocs0, m, a.value, r0);
      HoldKeys(live, allocs0, m);
      SizeSumAdd(HoldsOf(live, allocs0, m), a.value.offset, Hold(size, Shl(r0.size, m)));
      live := live[a.value.offset := a.value];
      view := view.(holds := view.holds[a.value.offset := Hold(size, Shl(r0.size, m))]);
      r := Some(Buffer(segmentName, a.value.offset, size));
    }

    method Deallocate(b: Buffer)
      requires Valid()
      modifies Repr()
      ensures Valid()
      ensures view == old(view).(holds := old(view).holds - {b.offset})
    {
      hide CoreAllocator.NoneEmpty, CoreAllocator.Valid, CoreAllocator.Allocs, CoreAllocator.LargestFree, Multiplier;
      hide Shr, Shl, Bridged, HoldsOf, SizeSum;
      ghost var m, allocs0 := inner.multiplierBits, inner.core.Allocs();
      HoldKeys(live, allocs0, m);
      if b.offset in live {
        LivePositive(live, inner.core.Allocs(), inner.multiplierBits, b.offset);
        var a := live[b.offset];
        BridgeRemove(live, allocs0, m, b.offset);
        SizeSumRemove(HoldsOf(live, allocs0, m), b.offset);
        live := live - {b.offset};
        view := view.(holds := view.holds - {b.offset});
        inner.Free(a);
      } else {
        assert HoldsOf(live, allocs0, m) - {b.offset} == HoldsOf(live, allocs0, m);
      }
    }

    /** Reserve an exact range, as recovery does. */
    method Reserve(offset: nat, size: nat) returns (ok: bool)
      requires Valid()
      modifies Repr()
      ensures Valid()
      ensures ok <==> size > 0 && Unscaled() && old(NodeRoom()) && offset + size <= view.capacity && old(view).Free(offset, offset + size)
      ensures !ok ==> view == old(view)
      ensures ok ==> offset !in old(view).holds && view == old(view).(holds := old(view).holds[offset := Hold(size, size)])
    {
      hide CoreAllocator.NoneEmpty, CoreAllocator.Valid, CoreAllocator.Allocs, CoreAllocator.LargestFree, Multiplier;
      hide Shr, Shl, Bridged, HoldsOf, SizeSum, Unreserved, Segment.Free, RegionsApart;
      ghost var m, allocs0 := inner.multiplierBits, inner.core.Allocs();
      if m == 0 { UnreservedIffFree(segmentName, live, allocs0, inner.capacity, offset, offset + size); }
      var a := inner.ReserveExact(offset, size);
      if a.None? {
        return false;
      }
      ghost var r0 := Region(offset, size, true);
      ShlNone(offset);
      ShlNone(size);
      CoreApart();
      FreshOffset(live, allocs0, m, a.value.metadata, r0, inner.core.size);
      BridgeAdd(live, allocs0, m, a.value, r0);
      HoldKeys(live, allocs0, m);
      SizeSumAdd(HoldsOf(live, allocs0, m), offset, Hold(size, size));
      live := live[a.value.offset := a.value];
      view := view.(holds := view.holds[offset := Hold(size, size)]);
      return true;
    }

    lemma CoreApart()
      requires inner.Valid()
      ensures RegionsApart(inner.core.Allocs(), inner.core.size)
      ensures Shl(inner.core.size, inner.multiplierBits) <= inner.capacity
    {
      hide CoreAllocator.NoneEmpty, CoreAllocator.Valid, CoreAllocator.Allocs, Multiplier;
      var allocs := inner.core.Allocs();
      forall h, k | h in allocs && k in allocs
        ensures allocs[h].End() <= inner.core.size
        ensures h != k ==> allocs[h].End() <= allocs[k].offset || allocs[k].End() <= allocs[h].offset
      {
        inner.core.AllocsApart(h, k);
      }
      ShiftSplit(inner.capacity, inner.multiplierBits);
    }

    /** In every state the buffers handed out are in bounds and disjoint. */
    lemma ViewValid()
      requires Valid()
      ensures view.Valid()
    {
      hide CoreAllocator.NoneEmpty, CoreAllocator.Valid, CoreAllocator.Allocs, Multiplier, Shr, Shl, Bridged, HoldsOf;
      CoreApart();
      HoldsValid(segmentName, live, inner.core.Allocs(), inner.multiplierBits, inner.core.size, inner.capacity);
    }

    /** With fewer than two million buffers a reservation never lacks nodes. */
    lemma RoomForReserve()
      requires Valid() && 2 * |view.holds| + 4 <= MAX_NODES
      ensures NodeRoom()
    {
      hide CoreAllocator.NoneEmpty, CoreAllocator.Valid, CoreAllocator.Allocs, Multiplier, Shr, Shl, Bridged, HoldsOf;
      inner.core.NodeBound();
      BridgeSize(live, inner.core.Allocs(), inner.multiplierBits);
      HoldKeys(live, inner.core.Allocs(), inner.multiplierBits);
    }

    /** The nodes in use of an unscaled segment: one for each buffer and one for each gap. */
    lemma NodesInUse()
      requires Valid() && Unscaled() && view.capacity > 0
      ensures inner.core.freeOffset == |view.holds| + |Gaps(view.holds, view.capacity)|
    {
      hide CoreAllocator.NoneEmpty, CoreAllocator.Valid, CoreAllocator.Allocs, Bridged, HoldsOf, Gaps, GapsOf;
      var allocs := inner.core.Allocs();
      ShrZero(inner.capacity);
      inner.core.NodesInUse();
      HoldKeys(live, allocs, 0);
      BridgeSize(live, allocs, 0);
      SameGaps(live, allocs, 0, inner.capacity);
      ShiftedSize(GapsOf(allocs, inner.capacity), 0);
      ShlNone(inner.capacity);
    }

    lemma NothingLive()
      requires Valid() && view.holds == map[]
      ensures inner.core.Allocs() == map[]
    {
      hide CoreAllocator.NoneEmpty, CoreAllocator.Valid, CoreAllocator.Allocs, Multiplier, Shr, Shl, Bridged, HoldsOf;
      HoldKeys(live, inner.core.Allocs(), inner.multiplierBits);
      BridgeSize(live, inner.core.Allocs(), inner.multiplierBits);
    }

    /** An unscaled segment with no buffer reports all its bytes, rounded down to a bin. */
    lemma EmptyLargest()
      requires Valid() && view.holds == map[] && view.capacity <= MAX_BIN_SIZE
      ensures LargestFree() == FloatToUint(RoundDown(view.capacity))
    {
      hide CoreAllocator.NoneEmpty, CoreAllocator.Valid, CoreAllocator.Allocs, Bridged, HoldsOf, RoundDown, FloatToUint;
      NothingLive();
      UnscaledIff();
      ShrZero(inner.capacity);
      inner.core.AllFreed();
      inner.core.NodeBound();
      inner.core.LargestMeaning(0);
      ShlNone(inner.core.LargestFree());
    }

    /** What is reported as the largest free region serves a request exactly when the buffers leave room for it. */
    lemma RoomIff(size: nat)
      requires Valid()
      ensures LargestFree() >= size <==> HasRoom(view, size)
    {
      hide CoreAllocator.Valid, CoreAllocator.Allocs, CoreAllocator.LargestFree, CoreAllocator.NoneEmpty, Bridged, HoldsOf;
      hide Shl, Shr, Multiplier, GapsOf, HasRoom, FreeRange, Scaled;
      if size > 0 {
        var m := inner.multiplierBits;
        ScaledLeast(size, m, inner.core.LargestFree());
        ScaledLeast(size, m, 0);
        ShlZero(m);
        inner.core.ServesIff(Scaled(size, m));
        RoomUnits(view, live, inner.core.Allocs(), m, size);
      } else {
        assert HasRoom(view, size) by { NoneNeeded(view); }
      }
    }

    /** Sizes go unscaled exactly in segments of at most 3.75 GiB. */
    lemma UnscaledIff()
      requires Valid()
      ensures Unscaled() <==> view.capacity <= MAX_BIN_SIZE
    {
      hide CoreAllocator.NoneEmpty, CoreAllocator.Valid, CoreAllocator.Allocs, Bridged, HoldsOf;
      ShrZero(inner.capacity);
    }
  }

  /** The gaps between buffers are those between the core's allocations, in bytes. */
  lemma {:induction false} SameGaps(live: map<nat, Allocation>, allocs: map<nat, Region>, m: nat, total: nat)
    requires Bridged(live, allocs, m)
    ensures Gaps(HoldsOf(live, allocs, m), Shl(total, m)) == Shifted(GapsOf(allocs, total), m)
  {
    var holds := HoldsOf(live, allocs, m);
    hide Shl;
    forall y | y in Gaps(holds, Shl(total, m)) ensures y in Shifted(GapsOf(allocs, total), m) {
      GapBack(live, allocs, m, total, y);
    }
    forall x | x in GapsOf(allocs, total) ensures Shl(x, m) in Gaps(holds, Shl(total, m)) {
      EndOver(live, allocs, m, x);
      StartIff(live, allocs, m, x);
      ShlMonotone(x, total, m);
    }
  }

  lemma {:induction false} GapBack(live: map<nat, Allocation>, allocs: map<nat, Region>, m: nat, total: nat, y: nat)
    requires Bridged(live, allocs, m) && y in Gaps(HoldsOf(live, allocs, m), Shl(total, m))
    ensures y in Shifted(GapsOf(allocs, total), m)
  {
    var holds := HoldsOf(live, allocs, m);
    hide Shl;
    var x := 0;
    ShlZero(m);
    if y in HoldEnds(holds) {
      var o :| o in holds && o + holds[o].extent == y;
      assert BridgedAt(o, live[o], allocs, m);
      var r := allocs[live[o].metadata];
      ShlAdd(r.offset, r.size, m);
      x := r.End();
      assert x in Ends(allocs);
    }
    StartIff(live, allocs, m, x);
    ShlMonotone(x, total, m);
    assert x in GapsOf(allocs, total) && Shl(x, m) == y;
  }

  lemma {:induction false} EndOver(live: map<nat, Allocation>, allocs: map<nat, Region>, m: nat, x: nat)
    requires Bridged(live, allocs, m) && x in {0} + Ends(allocs)
    ensures Shl(x, m) in {0} + HoldEnds(HoldsOf(live, allocs, m))
  {
    hide Shl;
    if x == 0 {
      ShlZero(m);
    } else {
      var h :| h in allocs && allocs[h].End() == x;
      var o := Shl(allocs[h].offset, m);
      assert o in live && BridgedAt(o, live[o], allocs, m);
      ShlAdd(allocs[h].offset, allocs[h].size, m);
      assert HoldsOf(live, allocs, m)[o].extent == Shl(allocs[h].size, m);
    }
  }

  lemma {:induction false} StartIff(live: map<nat, Allocation>, allocs: map<nat, Region>, m: nat, x: nat)
    requires Bridged(live, allocs, m)
    ensures StartsAt(allocs, x) <==> Shl(x, m) in HoldsOf(live, allocs, m)
  {
    hide Shl;
    var o := Shl(x, m);
    if o in live {
      assert BridgedAt(o, live[o], allocs, m);
      var y := allocs[live[o].metadata].offset;
      ShlMonotone(x, y, m);
      ShlMonotone(y, x, m);
    }
  }

  lemma LivePositive(live: map<nat, Allocation>, allocs: map<nat, Region>, m: nat, o: nat)
    requires Bridged(live, allocs, m) && o in live
    ensures live[o].metadata in allocs && allocs[live[o].metadata].size > 0
  {
    hide Shl;
    assert BridgedAt(o, live[o], allocs, m);
    ShlZero(m);
  }

  lemma BridgedPlain(live: map<nat, Allocation>, allocs: map<nat, Region>, o: nat)
    requires Bridged(live, allocs, 0) && o in live
    ensures live[o].metadata in allocs && allocs[live[o].metadata].offset == o
    ensures HoldsOf(live, allocs, 0)[o].extent == allocs[live[o].metadata].size
  {
    hide Shl;
    assert BridgedAt(o, live[o], allocs, 0);
    ShlNone(allocs[live[o].metadata].offset);
    ShlNone(allocs[live[o].metadata].size);
  }

  lemma EmptyBridge(m: nat)
    ensures Bridged(map[], map[], m) && HoldsOf(map[], map[], m) == map[] && SizeSum(map[]) == 0
  {
    hide Shl;
  }

  lemma {:induction false} ShlNone(x: nat)
    ensures Shl(x, 0) == x
  {
  }

  lemma HoldKeys(live: map<nat, Allocation>, allocs: map<nat, Region>, m: nat)
    requires Bridged(live, allocs, m)
    ensures HoldsOf(live, allocs, m).Keys == live.Keys
    ensures |HoldsOf(live, allocs, m)| == |live|
  {
    hide Shl;
    var holds := HoldsOf(live, allocs, m);
    assert holds.Keys == live.Keys;
    assert |holds| == |holds.Keys| && |live| == |live.Keys|;
  }

  /** The units set aside for a request hold it. */
  lemma {:induction false} UnitsHold(size: nat, m: nat)
    requires size > 0
    ensures size <= Shl(FloatToUint(RoundUp(Scaled(size, m))), m)
    ensures FloatToUint(RoundUp(Scaled(size, m))) > 0
  {
    hide Shl, FloatToUint, RoundUp, Scaled;
    var units := Scaled(size, m);
    RoundUpLeast(units, RoundUp(units));
    ScaledLeast(size, m, FloatToUint(RoundUp(units)));
    ShlZero(m);
  }
}
