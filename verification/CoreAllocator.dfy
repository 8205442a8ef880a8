/**
  The core offset allocator: a span of abstract units, its node pool and its
  bins, updated in place. `Row()` is what the pool stands for, `Allocs()` the
  ranges handed out.
 */
module Core {
  import opened Bits
  import opened CoreSteps
  import opened Layout
  import opened Neighbors
  import opened NodePool
  import opened Sequences
  import opened SmallFloat
  import opened Words

  class CoreAllocator {
    const size: nat
    const maxCapacity: nat
    var currentCapacity: nat
    var freeStorage: nat
    var usedBinsTop: nat
    const usedBins: array<nat>
    const binIndices: array<nat>
    var nodes: seq<Node>
    /** The spare stack: `freeNodes[freeOffset]` is handed out next. */
    var freeNodes: seq<nat>
    var freeOffset: nat

    /** The nodes in physical order, the bin lists, and the nodes in use for a region. */
    ghost var chain: seq<nat>
    ghost var lists: seq<seq<nat>>
    ghost var live: set<nat>

    ghost predicate PoolOk()
      reads this, usedBins, binIndices
    {
      && usedBins.Length == 32 && binIndices.Length == NUM_BINS
      && currentCapacity <= maxCapacity <= UNUSED
      && |nodes| == |freeNodes| == currentCapacity
      && SpareOk(freeNodes, freeOffset, live)
      && BinsOk(nodes, binIndices[..], lists, live)
      && MapsOk(usedBinsTop, usedBins[..], lists)
    }

    /** The row of regions the pool stands for. */
    ghost function Row(): seq<Region>
      requires Chained(nodes, chain)
      reads this
    {
      Regions(nodes, chain)
    }

    ghost predicate Valid()
      reads this, usedBins, binIndices
    {
      && PoolOk()
      && size < WORD
      && Chained(nodes, chain)
      && (forall i :: i in live <==> i in chain)
      && Sound(Row(), size, freeStorage)
      && AllBinned(nodes, chain, lists)
    }

    /** No region is empty; so it stays as long as no empty range is handed out. */
    ghost predicate NoneEmpty()
      requires Valid()
      reads this, usedBins, binIndices
    {
      Solid(Row())
    }

    /** The ranges handed out, by handle. */
    ghost function Allocs(): map<nat, Region>
      reads this
    {
      AllocsOf(nodes, live)
    }

    method InsertNodeIntoBin(size: nat, dataOffset: nat) returns (n: nat)
      requires PoolOk() && freeOffset < currentCapacity && size < WORD
      modifies this, usedBins, binIndices
      ensures PoolOk()
      ensures n == old(freeNodes[freeOffset]) && n !in old(live) && live == old(live) + {n}
      ensures chain == old(chain) && currentCapacity == old(currentCapacity)
      ensures freeOffset == old(freeOffset) + 1
      ensures freeStorage == old(freeStorage) + size
      ensures n < |nodes| && SameRegion(nodes[n], Node(dataOffset, size, UNUSED, UNUSED, UNUSED, UNUSED, false))
      ensures |nodes| == |old(nodes)|
      ensures forall j :: 0 <= j < |nodes| && j != n ==> SameRegion(nodes[j], old(nodes)[j])
      ensures RoundDown(size) < NUM_BINS && |old(lists)| == NUM_BINS
      ensures lists == old(lists)[RoundDown(size) := [n] + old(lists)[RoundDown(size)]]
    {
      hide RoundDown, SetBit, Linked, Members, MapsOk, SpareOk, BinsOk;
      ghost var nodes0, heads0, lists0, live0 := nodes, binIndices[..], lists, live;
      ghost var leaves0 := usedBins[..];
      BinsFitWord(size);
      var bin := RoundDown(size);
      var topIndex, leafIndex := bin / 8, bin % 8;
      BinFacts(nodes, heads0, lists, live, usedBinsTop, leaves0, bin);
      MarkBin(usedBinsTop, leaves0, lists, bin, [freeNodes[freeOffset]] + lists[bin]);
      if binIndices[bin] == UNUSED {
        usedBins[topIndex] := SetBit(usedBins[topIndex], leafIndex);
        usedBinsTop := SetBit(usedBinsTop, topIndex);
        assert usedBins[..] == leaves0[topIndex := SetBit(leaves0[topIndex], leafIndex)];
      }
      var top := binIndices[bin];
      PopFacts(freeNodes, freeOffset, live);
      n := freeNodes[freeOffset];
      freeOffset := freeOffset + 1;
      var node := Node(dataOffset, size, UNUSED, top, UNUSED, UNUSED, false);
      nodes := nodes[n := node];
      assert BinMember(node, bin);
      PushFrontOk(nodes0, heads0, lists0, live0, n, node, bin);
      if top != UNUSED {
        nodes := nodes[top := nodes[top].(binPrev := n)];
      }
      assert nodes == LinkFront(nodes0, n, node, heads0[bin]);
      LinkFrontRegions(nodes0, n, node, heads0[bin]);
      binIndices[bin] := n;
      assert binIndices[..] == heads0[bin := n];
      freeStorage := freeStorage + size;
      lists := lists[bin := [n] + lists[bin]];
      live := live + {n};
    }

    /** The list position of a binned node. */
    ghost function SlotOf(i: nat): (k: nat)
      requires i < |nodes| && Binned(lists, i, nodes[i].dataSize)
      reads this
      ensures k < |lists[RoundDown(nodes[i].dataSize)]| && lists[RoundDown(nodes[i].dataSize)][k] == i
    {
      var b := RoundDown(nodes[i].dataSize);
      var k: nat :| k < |lists[b]| && lists[b][k] == i;
      k
    }

    method RemoveNodeFromBin(i: nat)
      requires PoolOk() && i < |nodes| && Binned(lists, i, nodes[i].dataSize)
      requires nodes[i].dataSize <= freeStorage
      modifies this, usedBins, binIndices
      ensures PoolOk()
      ensures i in old(live) && live == old(live) - {i}
      ensures chain == old(chain) && currentCapacity == old(currentCapacity)
      ensures old(freeOffset) > 0 && freeOffset == old(freeOffset) - 1
      ensures freeStorage == old(freeStorage) - old(nodes[i].dataSize)
      ensures |nodes| == |old(nodes)|
      ensures forall j :: 0 <= j < |nodes| ==> SameRegion(nodes[j], old(nodes)[j])
      ensures freeNodes == old(freeNodes)[freeOffset := i]
      ensures var b := RoundDown(old(nodes[i].dataSize));
        && b < NUM_BINS && |old(lists)| == NUM_BINS
        && lists == old(lists)[b := Without(old(lists)[b], old(SlotOf(i)))]
    {
      hide RoundDown, ClearBit, Linked, Members, MapsOk, SpareOk, BinsOk, Without, SameRegion;
      ghost var nodes0, heads0, lists0, leaves0 := nodes, binIndices[..], lists, usedBins[..];
      ghost var bin0 := RoundDown(nodes[i].dataSize);
      PoolSizes(nodes, heads0, lists, live, freeNodes, freeOffset);
      ghost var k := SlotOf(i);
      ghost var list' := Without(lists[bin0], k);
      BinFacts(nodes, heads0, lists, live, usedBinsTop, leaves0, bin0);
      UnlinkFacts(nodes, heads0, lists, live, usedBinsTop, leaves0, bin0, k);
      UnlinkRegions(nodes, i);
      if list' != [] { MarkBin(usedBinsTop, leaves0, lists, bin0, list'); }
      UnmarkBin(usedBinsTop, leaves0, lists, bin0);
      var prev, next := nodes[i].binPrev, nodes[i].binNext;
      if prev != UNUSED {
        nodes := nodes[prev := nodes[prev].(binNext := next)];
        if next != UNUSED {
          nodes := nodes[next := nodes[next].(binPrev := prev)];
        }
      } else {
        var bin := RoundDown(nodes[i].dataSize);
        var topIndex, leafIndex := bin / 8, bin % 8;
        binIndices[bin] := next;
        if next != UNUSED {
          nodes := nodes[next := nodes[next].(binPrev := UNUSED)];
        }
        if binIndices[bin] == UNUSED {
          usedBins[topIndex] := ClearBit(usedBins[topIndex], leafIndex);
          assert usedBins[..] == leaves0[topIndex := ClearBit(leaves0[topIndex], leafIndex)];
          if usedBins[topIndex] == 0 {
            usedBinsTop := ClearBit(usedBinsTop, topIndex);
          }
        }
      }
      assert nodes == Unlink(nodes0, i);
      assert binIndices[..] == heads0[bin0 := HeadOf(list')];
      PushSpare(freeNodes, freeOffset, live, i);
      freeOffset := freeOffset - 1;
      freeNodes := freeNodes[freeOffset := i];
      freeStorage := freeStorage - nodes[i].dataSize;
      lists := lists[bin0 := list'];
      live := live - {i};
    }

    /** Pop the head of a non-empty bin and mark it used with its new size. */
    method TakeHead(bin: nat, newSize: nat) returns (i: nat)
      requires PoolOk() && bin < NUM_BINS && lists[bin] != []
      requires nodes[lists[bin][0]].dataSize <= freeStorage
      modifies this, usedBins, binIndices
      ensures PoolOk()
      ensures i == old(lists[bin][0]) && i in live && live == old(live) && i < |nodes|
      ensures RoundDown(old(nodes)[i].dataSize) == bin && !old(nodes)[i].used
      ensures chain == old(chain) && currentCapacity == old(currentCapacity) && freeNodes == old(freeNodes)
      ensures freeOffset == old(freeOffset)
      ensures freeStorage == old(freeStorage) - old(nodes)[i].dataSize
      ensures |nodes| == |old(nodes)|
      ensures forall j :: 0 <= j < |nodes| && j != i ==> SameRegion(nodes[j], old(nodes)[j])
      ensures nodes[i] == old(nodes)[i].(dataSize := newSize, used := true)
      ensures lists == old(lists)[bin := Without(old(lists)[bin], 0)]
    {
      hide RoundDown, ClearBit, Linked, Members, MapsOk, SpareOk, BinsOk;
      ghost var nodes0, heads0, lists0, leaves0 := nodes, binIndices[..], lists, usedBins[..];
      PoolSizes(nodes, heads0, lists, live, freeNodes, freeOffset);
      ghost var list' := Without(lists[bin], 0);
      BinFacts(nodes, heads0, lists, live, usedBinsTop, leaves0, bin);
      UnlinkFacts(nodes, heads0, lists, live, usedBinsTop, leaves0, bin, 0);
      if list' != [] { MarkBin(usedBinsTop, leaves0, lists, bin, list'); }
      UnmarkBin(usedBinsTop, leaves0, lists, bin);
      i := binIndices[bin];
      UnlinkRegions(nodes, i);
      var next := nodes[i].binNext;
      var topIndex, leafIndex := bin / 8, bin % 8;
      freeStorage := freeStorage - nodes[i].dataSize;
      nodes := nodes[i := nodes[i].(dataSize := newSize, used := true)];
      binIndices[bin] := next;
      if next != UNUSED {
        nodes := nodes[next := nodes[next].(binPrev := UNUSED)];
      }
      if binIndices[bin] == UNUSED {
        usedBins[topIndex] := ClearBit(usedBins[topIndex], leafIndex);
        assert usedBins[..] == leaves0[topIndex := ClearBit(leaves0[topIndex], leafIndex)];
        if usedBins[topIndex] == 0 {
          usedBinsTop := ClearBit(usedBinsTop, topIndex);
        }
      }
      assert nodes == Unlink(nodes0, i)[i := nodes0[i].(dataSize := newSize, used := true)];
      assert binIndices[..] == heads0[bin := HeadOf(list')];
      lists := lists[bin := list'];
      Outside(Unlink(nodes0, i), nodes, binIndices[..], lists, live - {i}, live, i);
    }

    /** Growing the pool changes nothing else. */
    method GrowKeeps()
      requires Valid() && currentCapacity < maxCapacity
      modifies this
      ensures Valid() && Row() == old(Row()) && Allocs() == old(Allocs()) && LargestFree() == old(LargestFree())
      ensures currentCapacity == old(currentCapacity) + 1 && freeOffset == old(freeOffset)
      ensures usedBinsTop == old(usedBinsTop) && lists == old(lists) && live == old(live) && chain == old(chain)
    {
      hide RoundDown, FloatToUint, LargestBin, BinsOk, SpareOk, MapsOk, Sound;
      ghost var nodes0 := nodes;
      Grow();
      assert Regions(nodes, chain) == Regions(nodes0, chain);
    }

    /** Add one spare node to the pool. */
    method Grow()
      requires PoolOk() && currentCapacity < maxCapacity
      modifies this
      ensures PoolOk()
      ensures currentCapacity == old(currentCapacity) + 1
      ensures freeOffset == old(freeOffset) && freeStorage == old(freeStorage) && usedBinsTop == old(usedBinsTop)
      ensures chain == old(chain) && lists == old(lists) && live == old(live)
      ensures nodes == old(nodes) + [EMPTY_NODE]
    {
      hide RoundDown;
      GrowSpare(freeNodes, freeOffset, live);
      freeNodes := freeNodes + [currentCapacity];
      nodes := nodes + [EMPTY_NODE];
      currentCapacity := currentCapacity + 1;
      BinsGrow(old(nodes), binIndices[..], lists, live);
    }

    /** The initial stack of spare nodes: index 0 is popped first. */
    static method FullStack(n: nat) returns (spare: seq<nat>)
      ensures |spare| == n && forall k :: 0 <= k < n ==> spare[k] == k
    {
      spare := seq(n, i => 0);
      for i := 0 to n
        invariant |spare| == n && forall k :: 0 <= k < i ==> spare[k] == k
      {
        spare := spare[i := i];
      }
    }

    constructor (size: nat, initCapacity: nat, maxCapacity: nat)
      requires size < WORD && 1 <= initCapacity <= UNUSED && maxCapacity <= UNUSED
      ensures Valid() && fresh(usedBins) && fresh(binIndices)
      ensures this.size == size && this.maxCapacity == if maxCapacity < initCapacity then initCapacity else maxCapacity
      ensures Row() == [Region(0, size, false)]
      ensures Allocs() == map[]
      ensures freeOffset == 1 && NoneEmpty()
    {
      this.size := size;
      this.maxCapacity := if maxCapacity < initCapacity then initCapacity else maxCapacity;
      currentCapacity := initCapacity;
      freeStorage, usedBinsTop, freeOffset := 0, 0, 0;
      usedBins := new nat[32](i => 0);
      binIndices := new nat[NUM_BINS](i => UNUSED);
      nodes, freeNodes := [], [];
      lists, live, chain := [], {}, [];
      new;
      Reset();
    }

    /** Back to the start state: the whole span as one free node. */
    method Reset()
      requires usedBins.Length == 32 && binIndices.Length == NUM_BINS
      requires size < WORD && 1 <= currentCapacity <= maxCapacity <= UNUSED
      modifies this, usedBins, binIndices
      ensures Valid()
      ensures Row() == [Region(0, size, false)]
      ensures Allocs() == map[]
      ensures freeOffset == 1
    {
      hide RoundDown, BinsOk, SpareOk, MapsOk, Sound, Chained, AllBinned;
      freeStorage, usedBinsTop, freeOffset := 0, 0, 0;
      forall t | 0 <= t < 32 { usedBins[t] := 0; }
      forall b | 0 <= b < NUM_BINS { binIndices[b] := UNUSED; }
      nodes := seq(currentCapacity, i => EMPTY_NODE);
      freeNodes := FullStack(currentCapacity);
      lists := seq(NUM_BINS, i => []);
      live, chain := {}, [];
      EmptyPool(nodes, binIndices[..], lists, freeNodes, usedBins[..]);
      var n := InsertNodeIntoBin(size, 0);
      chain := [n];
      OneNode(nodes, n, lists, size);
    }

    /** What `StorageReport` gives as the largest free region. */
    ghost function LargestFree(): nat
      requires Valid()
      reads this, usedBins, binIndices
    {
      if freeOffset < maxCapacity && usedBinsTop > 0 then FloatToUint(LargestBin(usedBinsTop, usedBins[..])) else 0
    }

    method StorageReport() returns (total: nat, largest: nat)
      requires Valid()
      ensures largest == LargestFree()
      ensures total == if freeOffset < maxCapacity then FreeBytes(Row()) else 0
    {
      total, largest := 0, 0;
      if freeOffset < maxCapacity {
        total := freeStorage;
        if usedBinsTop != 0 {
          largest := FloatToUint(LargestBin(usedBinsTop, usedBins[..]));
        }
      }
    }

    /** Where an allocation sits in the chain. */
    ghost function AllocPosition(i: nat): (p: nat)
      requires Valid() && i in Allocs()
      reads this, usedBins, binIndices
      ensures p < |chain| && chain[p] == i && i < |nodes| && nodes[i].used && i in live
      ensures Allocs()[i].size == nodes[i].dataSize
    {
      var p: nat :| p < |chain| && chain[p] == i;
      p
    }

    /** Where the head of a non-empty bin sits in the chain. */
    ghost function HeadPosition(bin: nat): (p: nat)
      requires Valid() && bin < NUM_BINS && |lists| == NUM_BINS && lists[bin] != []
      reads this, usedBins, binIndices
      ensures p < |chain| && chain[p] == lists[bin][0] && chain[p] < |nodes| && BinMember(nodes[chain[p]], bin)
      ensures FloatToUint(bin) <= nodes[chain[p]].dataSize
    {
      BinFacts(nodes, binIndices[..], lists, live, usedBinsTop, usedBins[..], bin);
      assert lists[bin][0] in lists[bin];
      RoundDownBrackets(nodes[lists[bin][0]].dataSize);
      var p: nat :| p < |chain| && chain[p] == lists[bin][0];
      p
    }

    /** Link node `n` between `i` and its old right neighbour `next`. */
    method LinkAfter(i: nat, n: nat, next: nat, ghost chain': seq<nat>)
      requires PoolOk() && i < |nodes| && n < |nodes| && i != n && next != i && next != n
      requires next < |nodes| || next == UNUSED
      modifies this
      ensures PoolOk() && chain == chain'
      ensures currentCapacity == old(currentCapacity) && freeOffset == old(freeOffset) && freeStorage == old(freeStorage)
      ensures lists == old(lists) && live == old(live) && |nodes| == |old(nodes)|
      ensures nodes[i] == old(nodes)[i].(neighborNext := n)
      ensures nodes[n] == old(nodes)[n].(neighborPrev := i, neighborNext := next)
      ensures forall j :: 0 <= j < |nodes| && j != i && j != n ==> nodes[j] == if j == next then old(nodes)[j].(neighborPrev := n) else old(nodes)[j]
    {
      hide BinsOk, SpareOk, MapsOk;
      ghost var nodes0 := nodes;
      if next != UNUSED {
        nodes := nodes[next := nodes[next].(neighborPrev := n)];
      }
      nodes := nodes[n := nodes[n].(neighborPrev := i, neighborNext := next)];
      nodes := nodes[i := nodes[i].(neighborNext := n)];
      PoolSizes(nodes0, binIndices[..], lists, live, freeNodes, freeOffset);
      ThreadedKeepsBins(nodes0, nodes, binIndices[..], lists, live);
      chain := chain';
    }

    method SetNeighborPrev(i: nat, v: nat)
      requires PoolOk() && (i < |nodes| || i == UNUSED)
      modifies this
      ensures PoolOk() && chain == old(chain) && freeNodes == old(freeNodes)
      ensures currentCapacity == old(currentCapacity) && freeOffset == old(freeOffset) && freeStorage == old(freeStorage)
      ensures lists == old(lists) && live == old(live)
      ensures nodes == if i == UNUSED then old(nodes) else old(nodes)[i := old(nodes)[i].(neighborPrev := v)]
    {
      hide BinsOk, SpareOk, MapsOk;
      if i != UNUSED {
        nodes := nodes[i := nodes[i].(neighborPrev := v)];
        ThreadedKeepsBins(old(nodes), nodes, binIndices[..], lists, live);
      }
    }

    method SetNeighborNext(i: nat, v: nat)
      requires PoolOk() && (i < |nodes| || i == UNUSED)
      modifies this
      ensures PoolOk() && chain == old(chain) && freeNodes == old(freeNodes)
      ensures currentCapacity == old(currentCapacity) && freeOffset == old(freeOffset) && freeStorage == old(freeStorage)
      ensures lists == old(lists) && live == old(live)
      ensures nodes == if i == UNUSED then old(nodes) else old(nodes)[i := old(nodes)[i].(neighborNext := v)]
    {
      hide BinsOk, SpareOk, MapsOk;
      if i != UNUSED {
        nodes := nodes[i := nodes[i].(neighborNext := v)];
        ThreadedKeepsBins(old(nodes), nodes, binIndices[..], lists, live);
      }
    }

    /** Return the node of a used region to the spare stack. */
    method PushNode(i: nat)
      requires PoolOk() && i in live && i < |nodes| && nodes[i].used
      modifies this
      ensures PoolOk() && chain == old(chain) && nodes == old(nodes) && lists == old(lists)
      ensures currentCapacity == old(currentCapacity) && freeStorage == old(freeStorage)
      ensures old(freeOffset) > 0 && freeOffset == old(freeOffset) - 1 && live == old(live) - {i}
      ensures freeOffset < |freeNodes| && freeNodes == old(freeNodes)[freeOffset := i]
    {
      hide BinsOk, SpareOk, MapsOk;
      PoolSizes(nodes, binIndices[..], lists, live, freeNodes, freeOffset);
      PushSpare(freeNodes, freeOffset, live, i);
      UsedUnbinned(nodes, binIndices[..], lists, live, i);
      freeOffset := freeOffset - 1;
      freeNodes := freeNodes[freeOffset := i];
      live := live - {i};
    }

    /** Hand out the front of the first region of a bin; the rest stays free as its neighbour. */
    method Split(bin: nat, newSize: nat) returns (offset: nat, i: nat)
      requires Valid() && freeOffset < currentCapacity
      requires bin < NUM_BINS && |lists| == NUM_BINS && lists[bin] != [] && newSize <= FloatToUint(bin)
      modifies this, usedBins, binIndices
      ensures Valid()
      ensures i < UNUSED && i !in old(Allocs()) && offset == old(nodes[chain[HeadPosition(bin)]].dataOffset)
      ensures Allocs() == old(Allocs())[i := Region(offset, newSize, true)]
      ensures old(NoneEmpty()) && newSize > 0 ==> NoneEmpty()
    {
      hide Solid, RoundDown, FloatToUint, BinsOk, SpareOk, MapsOk, Sound, Chained, AllBinned, GapRelinked, Splice, BinnedKept, AllocsOf, Binned;
      ghost var nodes0, lists0, rs0, chain0 := nodes, lists, Row(), chain;
      ghost var p := HeadPosition(bin);
      PoolSizes(nodes, binIndices[..], lists, live, freeNodes, freeOffset);
      BinFacts(nodes, binIndices[..], lists, live, usedBinsTop, usedBins[..], bin);
      ChainNeighbors(nodes, chain, p);
      CarveFits(rs0, p, newSize, size, freeStorage);
      i := binIndices[bin];
      var total, next := nodes[i].dataSize, nodes[i].neighborNext;
      offset := nodes[i].dataOffset;
      ghost var taken := TakeHead(bin, newSize);
      TakenKeepsBinned(lists0, bin, lists);
      if total > newSize {
        ghost var lists1 := lists;
        var n := InsertNodeIntoBin(total - newSize, offset + newSize);
        LinkAfter(i, n, next, Splice(chain0, p, p + 1, [i, n]));
        PushedKeepsBinned(lists1, total - newSize, n, lists);
        BinnedTrans(lists0, lists1, lists, {i});
        assert SplitNodes(nodes0, nodes, i, n, newSize);
        AllocsSplit(nodes0, nodes, old(live), i, n, newSize);
        AfterSplit(nodes0, nodes, chain0, p, n, newSize, lists0, lists, size, old(freeStorage));
      } else {
        assert TakenNodes(nodes0, nodes, i);
        AllocsTaken(nodes0, nodes, live, i);
        AfterTake(nodes0, nodes, chain0, p, lists0, lists, size, old(freeStorage));
      }
    }

    /** Link a fresh node `i` between `prev` and `next`. */
    method LinkBetween(i: nat, prev: nat, next: nat, ghost chain': seq<nat>)
      requires PoolOk() && i < |nodes| && prev != i && next != i && (prev == UNUSED || prev != next)
      requires (next < |nodes| || next == UNUSED) && (prev < |nodes| || prev == UNUSED)
      requires nodes[i].neighborPrev == nodes[i].neighborNext == UNUSED
      modifies this
      ensures PoolOk() && chain == chain'
      ensures currentCapacity == old(currentCapacity) && freeOffset == old(freeOffset) && freeStorage == old(freeStorage)
      ensures lists == old(lists) && live == old(live) && |nodes| == |old(nodes)|
      ensures nodes[i] == old(nodes)[i].(neighborPrev := prev, neighborNext := next)
      ensures forall j :: 0 <= j < |nodes| && j != i ==>
        nodes[j] == if j == next then old(nodes)[j].(neighborPrev := i) else if j == prev then old(nodes)[j].(neighborNext := i) else old(nodes)[j]
    {
      hide BinsOk, SpareOk, MapsOk;
      ghost var nodes0 := nodes;
      if next != UNUSED {
        nodes := nodes[i := nodes[i].(neighborNext := next)];
        nodes := nodes[next := nodes[next].(neighborPrev := i)];
      }
      if prev != UNUSED {
        nodes := nodes[i := nodes[i].(neighborPrev := prev)];
        nodes := nodes[prev := nodes[prev].(neighborNext := i)];
      }
      PoolSizes(nodes0, binIndices[..], lists, live, freeNodes, freeOffset);
      ThreadedKeepsBins(nodes0, nodes, binIndices[..], lists, live);
      chain := chain';
    }

    /** Take the free neighbours of a used node out of their bins; the extent and outer links of the merged region. */
    method Detach(i: nat, ghost p: nat) returns (offset: nat, bytes: nat, prev: nat, next: nat)
      requires Valid() && p < |chain| && chain[p] == i && i < |nodes| && nodes[i].used
      modifies this, usedBins, binIndices
      ensures PoolOk() && chain == old(chain) && currentCapacity == old(currentCapacity)
      ensures prev == GapPrev(chain, MergeFrom(old(nodes), chain, p), [i], 0)
      ensures next == GapNext(chain, MergeTo(old(nodes), chain, p), [i], 0)
      ensures bytes < WORD && Merged(old(nodes), chain, p, Region(offset, bytes, false))
      ensures |nodes| == |old(nodes)| && nodes[i].used
      ensures forall j :: 0 <= j < |nodes| && j != i ==> SameRegion(nodes[j], old(nodes)[j])
      ensures live == old(live) - Gone(old(nodes), chain, p) && Gone(old(nodes), chain, p) <= old(live) && i in live
      ensures BinnedKept(old(lists), lists, Gone(old(nodes), chain, p))
      ensures freeStorage + bytes == old(freeStorage) + old(nodes)[i].dataSize
    {
      hide RoundDown, BinsOk, SpareOk, MapsOk, Sound, Chained, AllBinned, BinnedKept, AllocsOf, Binned, Merged, Gone;
      hide GapPrev, GapNext, MergeFrom, MergeTo;
      ghost var nodes0, lists0 := nodes, lists;
      PoolSizes(nodes, binIndices[..], lists, live, freeNodes, freeOffset);
      FreeFacts(nodes, chain, p, lists, size, freeStorage);
      DetachForm(nodes, chain, p);
      ghost var prev0, next0 := nodes[i].neighborPrev, nodes[i].neighborNext;
      offset, bytes := AbsorbPrev(i);
      ghost var lists1 := lists;
      BinnedStays(lists0, lists, nodes0, prev0, next0);
      var more := AbsorbNext(i);
      BinnedJoin(lists0, lists1, lists, Taken(nodes0, prev0), Taken(nodes0, next0));
      bytes := bytes + more;
      next, prev := nodes[i].neighborNext, nodes[i].neighborPrev;
    }

    /** Reuse node `i` as the free region `[offset, offset + bytes)` between `prev` and `next`. */
    method Reinsert(i: nat, offset: nat, bytes: nat, prev: nat, next: nat, ghost chain': seq<nat>)
      requires PoolOk() && i in live && i < |nodes| && nodes[i].used && bytes < WORD
      requires prev != i && next != i && (prev == UNUSED || prev != next)
      requires (next < |nodes| || next == UNUSED) && (prev < |nodes| || prev == UNUSED)
      modifies this, usedBins, binIndices
      ensures PoolOk() && chain == chain' && currentCapacity == old(currentCapacity) && live == old(live)
      ensures freeStorage == old(freeStorage) + bytes
      ensures BinnedKept(old(lists), lists, {}) && Binned(lists, i, bytes)
      ensures FreedNodes(old(nodes), nodes, i, prev, next, Region(offset, bytes, false))
    {
      hide RoundDown, BinsOk, SpareOk, MapsOk, BinnedKept, Binned;
      ghost var lists0, nodes0 := lists, nodes;
      PushNode(i);
      var combined := InsertNodeIntoBin(bytes, offset);
      PushedKeepsBinned(lists0, bytes, combined, lists);
      LinkBetween(combined, prev, next, chain');
    }

    /** Free an allocation, merging it with its free physical neighbours. */
    method Free(i: nat)
      requires Valid() && i in Allocs()
      modifies this, usedBins, binIndices
      ensures Valid()
      ensures Allocs() == old(Allocs()) - {i}
      ensures old(NoneEmpty() && Allocs()[i].size > 0) ==> NoneEmpty()
    {
      hide Solid, RoundDown, BinsOk, SpareOk, MapsOk, Sound, Chained, AllBinned, GapRelinked, Splice, BinnedKept;
      hide AllocsOf, Binned, FreedNodes, Merged, Gone, MergeFrom, MergeTo, GapPrev, GapNext;
      ghost var nodes0, lists0, chain0, live0 := nodes, lists, chain, live;
      ghost var p := AllocPosition(i);
      PoolSizes(nodes, binIndices[..], lists, live, freeNodes, freeOffset);
      FreeFacts(nodes, chain, p, lists, size, freeStorage);
      GoneFacts(nodes, chain, p);
      var offset, bytes, prev, next := Detach(i, p);
      ghost var lists1, nodes1 := lists, nodes;
      Reinsert(i, offset, bytes, prev, next, MergedChain(nodes0, chain, p));
      ghost var r := Region(offset, bytes, false);
      BinnedTrans(lists0, lists1, lists, Gone(nodes0, chain0, p));
      FreedIntro(nodes0, nodes1, nodes, i, prev, next, r);
      AfterFree(nodes0, nodes, chain0, p, r, lists0, lists, size, old(freeStorage));
      AllocsFreed(nodes0, nodes, live0, i, prev, next, Gone(nodes0, chain0, p), r);
    }

    /** Take a free left neighbour out of its bin and past it in the chain. */
    method AbsorbPrev(i: nat) returns (offset: nat, size: nat)
      requires PoolOk() && i < |nodes| && Absorbable(nodes, lists, i, nodes[i].neighborPrev, freeStorage)
      modifies this, usedBins, binIndices
      ensures PoolOk() && chain == old(chain) && currentCapacity == old(currentCapacity)
      ensures |nodes| == |old(nodes)|
      ensures forall j :: 0 <= j < |nodes| && j != i ==> SameRegion(nodes[j], old(nodes)[j])
      ensures var prev, n := old(nodes[i].neighborPrev), old(nodes[i]);
        && live == old(live) - Taken(old(nodes), prev) && Taken(old(nodes), prev) <= old(live)
        && BinnedKept(old(lists), lists, Taken(old(nodes), prev))
        && freeStorage == old(freeStorage) - TakenSize(old(nodes), prev)
        && size == n.dataSize + TakenSize(old(nodes), prev)
        && (if Taken(old(nodes), prev) == {} then offset == n.dataOffset && SameRegion(nodes[i], n)
            else offset == old(nodes)[prev].dataOffset && SameRegion(nodes[i], n.(neighborPrev := old(nodes)[prev].neighborPrev)))
    {
      hide RoundDown, BinsOk, SpareOk, MapsOk, BinnedKept;
      ghost var nodes0, lists0 := nodes, lists;
      offset, size := nodes[i].dataOffset, nodes[i].dataSize;
      BinnedSelf(lists);
      var prev := nodes[i].neighborPrev;
      if prev != UNUSED && !nodes[prev].used {
        offset := nodes[prev].dataOffset;
        size := size + nodes[prev].dataSize;
        ghost var slot := SlotOf(prev);
        RemoveNodeFromBin(prev);
        RemovedKeepsBinned(lists0, RoundDown(nodes0[prev].dataSize), slot, lists);
        SetNeighborPrev(i, nodes[prev].neighborPrev);
      }
    }

    method AbsorbNext(i: nat) returns (size: nat)
      requires PoolOk() && i < |nodes| && Absorbable(nodes, lists, i, nodes[i].neighborNext, freeStorage)
      modifies this, usedBins, binIndices
      ensures PoolOk() && chain == old(chain) && currentCapacity == old(currentCapacity)
      ensures |nodes| == |old(nodes)|
      ensures forall j :: 0 <= j < |nodes| && j != i ==> SameRegion(nodes[j], old(nodes)[j])
      ensures var next, n := old(nodes[i].neighborNext), old(nodes[i]);
        && live == old(live) - Taken(old(nodes), next) && Taken(old(nodes), next) <= old(live)
        && BinnedKept(old(lists), lists, Taken(old(nodes), next))
        && freeStorage == old(freeStorage) - TakenSize(old(nodes), next)
        && size == TakenSize(old(nodes), next)
        && (if Taken(old(nodes), next) == {} then SameRegion(nodes[i], n)
            else SameRegion(nodes[i], n.(neighborNext := old(nodes)[next].neighborNext)))
    {
      hide RoundDown, BinsOk, SpareOk, MapsOk, BinnedKept;
      ghost var nodes0, lists0 := nodes, lists;
      size := 0;
      BinnedSelf(lists);
      var next := nodes[i].neighborNext;
      if next != UNUSED && !nodes[next].used {
        size := nodes[next].dataSize;
        ghost var slot := SlotOf(next);
        RemoveNodeFromBin(next);
        RemovedKeepsBinned(lists0, RoundDown(nodes0[next].dataSize), slot, lists);
        SetNeighborNext(i, nodes[next].neighborNext);
      }
    }

    /** Grow the pool until `n` spare nodes are at hand; fails only at the cap. */
    method EnsureCapacity(n: nat) returns (ok: bool)
      requires Valid()
      modifies this
      ensures Valid() && Row() == old(Row()) && Allocs() == old(Allocs()) && LargestFree() == old(LargestFree())
      ensures freeOffset == old(freeOffset) && lists == old(lists)
      ensures ok <==> freeOffset + n <= maxCapacity
      ensures ok ==> currentCapacity - freeOffset >= n
    {
      hide RoundDown, FloatToUint, LargestBin, BinsOk, SpareOk, MapsOk, Sound, Chained, AllBinned, AllocsOf, Regions;
      PoolSizes(nodes, binIndices[..], lists, live, freeNodes, freeOffset);
      while currentCapacity - freeOffset < n
        invariant Valid() && Row() == old(Row()) && Allocs() == old(Allocs()) && LargestFree() == old(LargestFree())
        invariant freeOffset == old(freeOffset) && lists == old(lists)
        decreases maxCapacity - currentCapacity
      {
        if currentCapacity == maxCapacity {
          return false;
        }
        GrowKeeps();
      }
      return true;
    }

    /** The free node covering `[lo, hi)`, found by walking every bin list; `UNUSED` if there is none. */
    method FindCovering(lo: nat, hi: nat) returns (c: nat)
      requires Valid()
      ensures c == UNUSED ==> forall k :: 0 <= k < |chain| ==> !Covers(Row()[k], lo, hi)
      ensures c != UNUSED ==> c < |nodes| && c in live && Covers(RegionOf(nodes[c]), lo, hi) && Binned(lists, c, nodes[c].dataSize)
    {
      hide RoundDown, SpareOk, MapsOk, Sound, Chained, Linked, Members, AllBinned;
      for bin := 0 to NUM_BINS
        invariant forall b :: 0 <= b < bin ==> NoneCovers(nodes, lists[b], lo, hi)
      {
        ListFacts(nodes, binIndices[..], lists, live, bin);
        var i := binIndices[bin];
        ghost var m := 0;
        while i != UNUSED
          invariant m <= |lists[bin]|
          invariant i == if m < |lists[bin]| then lists[bin][m] else UNUSED
          invariant forall k :: 0 <= k < m ==> !Covers(RegionOf(nodes[lists[bin][k]]), lo, hi)
          decreases |lists[bin]| - m
        {
          if nodes[i].dataOffset <= lo && nodes[i].dataOffset + nodes[i].dataSize >= hi {
            assert i in lists[bin];
            return i;
          }
          i := nodes[i].binNext;
          m := m + 1;
        }
      }
      NothingCovers(nodes, chain, binIndices[..], lists, live, lo, hi);
      return UNUSED;
    }

    /** Pop a spare node for a used region; it enters no bin. */
    method PopUsed(offset: nat, size: nat) returns (u: nat)
      requires PoolOk() && freeOffset < currentCapacity
      modifies this
      ensures PoolOk() && chain == old(chain) && lists == old(lists) && freeStorage == old(freeStorage)
      ensures currentCapacity == old(currentCapacity) && freeOffset == old(freeOffset) + 1
      ensures u !in old(live) && live == old(live) + {u} && u < |nodes|
      ensures nodes == old(nodes)[u := Node(offset, size, UNUSED, UNUSED, UNUSED, UNUSED, true)]
    {
      hide BinsOk, SpareOk, MapsOk;
      PopFacts(freeNodes, freeOffset, live);
      u := freeNodes[freeOffset];
      freeOffset := freeOffset + 1;
      nodes := nodes[u := Node(offset, size, UNUSED, UNUSED, UNUSED, UNUSED, true)];
      Outside(old(nodes), nodes, binIndices[..], lists, live, live + {u}, u);
      live := live + {u};
    }

    /** Cut the free node `c` into a free part before, the used range, and a free part after. */
    method Cut(c: nat, offset: nat, size: nat) returns (before: nat, u: nat, after: nat)
      requires PoolOk() && c < |nodes| && Binned(lists, c, nodes[c].dataSize)
      requires nodes[c].dataSize <= freeStorage && nodes[c].dataSize < WORD
      requires Covers(RegionOf(nodes[c]), offset, offset + size)
      requires currentCapacity - freeOffset >= 2
      modifies this, usedBins, binIndices
      ensures PoolOk() && chain == old(chain) && currentCapacity == old(currentCapacity)
      ensures freeStorage == old(freeStorage) - size
      ensures c in old(live) && BinnedKept(old(lists), lists, {c})
      ensures CutNodes(old(nodes), nodes, old(live) - {c}, live, lists, old(nodes)[c], offset, size, before, u, after)
    {
      hide RoundDown, BinsOk, SpareOk, MapsOk, BinnedKept, Binned;
      ghost var nodes0, lists0, bin, slot := nodes, lists, RoundDown(nodes[c].dataSize), SlotOf(c);
      var start, stop := nodes[c].dataOffset, nodes[c].dataOffset + nodes[c].dataSize;
      RemoveNodeFromBin(c);
      RemovedKeepsBinned(lists0, bin, slot, lists);
      ghost var lists1 := lists;
      before, after := UNUSED, UNUSED;
      if offset > start {
        before := InsertNodeIntoBin(offset - start, start);
        PushedKeepsBinned(lists1, offset - start, before, lists);
        BinnedTrans(lists0, lists1, lists, {c});
      }
      u := PopUsed(offset, size);
      if stop > offset + size {
        ghost var lists2 := lists;
        after := InsertNodeIntoBin(stop - (offset + size), offset + size);
        PushedKeepsBinned(lists2, stop - (offset + size), after, lists);
        BinnedTrans(lists0, lists2, lists, {c});
        if offset > start { BinnedStill(lists2, lists, before, offset - start); }
      }
    }

    /** The nodes with those of `mid` threaded in order between `prev` and `next`. */
    static method ThreadNodes(nodes: seq<Node>, mid: seq<nat>, prev: nat, next: nat) returns (ns: seq<Node>)
      requires |nodes| <= UNUSED && mid != [] && Distinct(mid) && (forall k :: 0 <= k < |mid| ==> mid[k] < |nodes|)
      requires prev !in mid && next !in mid && (prev == UNUSED || prev != next)
      requires (prev < |nodes| || prev == UNUSED) && (next < |nodes| || next == UNUSED)
      ensures Rethreaded(nodes, ns, mid, prev, next)
    {
      hide Distinct, Rethreaded, ThreadedAt, ThreadedNode;
      ns := nodes;
      var last := prev;
      ThreadStart(nodes, mid, prev);
      for k := 0 to |mid|
        invariant last == if k == 0 then prev else mid[k - 1]
        invariant Threaded(nodes, ns, mid, k, prev)
      {
        ThreadStep(nodes, ns, mid, k, prev);
        var cur := mid[k];
        ns := ns[cur := ns[cur].(neighborPrev := last)];
        if last != UNUSED {
          ns := ns[last := ns[last].(neighborNext := cur)];
        }
        last := cur;
      }
      ThreadEnd(nodes, ns, mid, prev, next);
      ns := ns[last := ns[last].(neighborNext := next)];
      if next != UNUSED {
        ns := ns[next := ns[next].(neighborPrev := last)];
      }
    }

    /** Thread the nodes of `mid` in order between `prev` and `next`. */
    method Rethread(mid: seq<nat>, prev: nat, next: nat, ghost chain': seq<nat>)
      requires PoolOk() && mid != [] && Distinct(mid) && (forall k :: 0 <= k < |mid| ==> mid[k] < |nodes|)
      requires prev !in mid && next !in mid && (prev == UNUSED || prev != next)
      requires (prev < |nodes| || prev == UNUSED) && (next < |nodes| || next == UNUSED)
      modifies this
      ensures PoolOk() && chain == chain' && lists == old(lists) && live == old(live)
      ensures currentCapacity == old(currentCapacity) && freeOffset == old(freeOffset) && freeStorage == old(freeStorage)
      ensures Rethreaded(old(nodes), nodes, mid, prev, next)
    {
      hide BinsOk, SpareOk, MapsOk, Distinct, RethreadedAt;
      PoolSizes(nodes, binIndices[..], lists, live, freeNodes, freeOffset);
      nodes := ThreadNodes(nodes, mid, prev, next);
      RethreadedLinks(old(nodes), nodes, mid, prev, next);
      ThreadedKeepsBins(old(nodes), nodes, binIndices[..], lists, live);
      chain := chain';
    }

    /** Carve the range out of the free node `c` that covers it. */
    method CarveOut(c: nat, offset: nat, size: nat, ghost p: nat) returns (u: nat)
      requires Valid() && p < |chain| && chain[p] == c && c < |nodes|
      requires Covers(RegionOf(nodes[c]), offset, offset + size)
      requires currentCapacity - freeOffset >= 2
      modifies this, usedBins, binIndices
      ensures Valid()
      ensures u !in old(Allocs()) && Allocs() == old(Allocs())[u := Region(offset, size, true)]
      ensures old(NoneEmpty()) && size > 0 ==> NoneEmpty()
    {
      hide Solid, RoundDown, BinsOk, SpareOk, MapsOk, Sound, Chained, AllBinned, GapRelinked, Splice, BinnedKept;
      hide AllocsOf, Binned, CutNodes, Rethreaded, Distinct, Elements;
      ghost var nodes0, lists0, chain0, live0 := nodes, lists, chain, live;
      PoolSizes(nodes, binIndices[..], lists, live, freeNodes, freeOffset);
      CutFacts(nodes, chain, p, lists, size, this.size, freeStorage);
      var prev, next := nodes[c].neighborPrev, nodes[c].neighborNext;
      var before, after;
      before, u, after := Cut(c, offset, size);
      var mid := MidOf(before, u, after);
      ghost var nodes1 := nodes;
      CutMid(nodes0, nodes, chain, p, live0, live, lists, offset, size, before, u, after);
      Rethread(mid, prev, next, Splice(chain, p, p + 1, mid));
      AfterCut(nodes0, nodes1, nodes, chain0, p, live0, live, lists0, lists, offset, size, before, u, after, this.size, old(freeStorage));
      AllocsCut(nodes0, nodes1, nodes, live0, live, lists, c, offset, size, before, u, after, prev, next);
    }

    /** Reserve exactly `[offset, offset + size)`; fails unless the whole range is free and three nodes are to be had. */
    method ReserveExact(offset: nat, size: nat) returns (ok: bool, metadata: nat)
      requires Valid() && offset < WORD && size < WORD
      modifies this, usedBins, binIndices
      ensures Valid()
      ensures ok <==> size > 0 && old(freeOffset) + 3 <= maxCapacity && offset + size <= this.size && Unreserved(old(Allocs()), offset, offset + size)
      ensures !ok ==> Allocs() == old(Allocs())
      ensures ok ==> metadata !in old(Allocs()) && Allocs() == old(Allocs())[metadata := Region(offset, size, true)]
      ensures old(NoneEmpty()) ==> NoneEmpty()
    {
      hide Solid, RoundDown, BinsOk, SpareOk, MapsOk, Sound, Chained, AllBinned, AllocsOf, Binned, Unreserved, Regions;
      ok, metadata := false, UNUSED;
      if size == 0 || offset + size >= WORD {
        return;
      }
      var room := EnsureCapacity(3);
      if !room {
        return;
      }
      CoveredIff(nodes, chain, live, offset, offset + size, this.size, freeStorage);
      var c := FindCovering(offset, offset + size);
      if c == UNUSED {
        return;
      }
      ghost var p: nat :| p < |chain| && chain[p] == c;
      ok := true;
      metadata := CarveOut(c, offset, size, p);
    }

    /** Allocate `size` units; `UNUSED` as handle when there is no space. */
    method Allocate(size: nat) returns (offset: nat, metadata: nat)
      requires Valid() && size < WORD
      modifies this, usedBins, binIndices
      ensures Valid()
      ensures size > 0 ==> (metadata != UNUSED <==> old(LargestFree()) >= size)
      ensures metadata == UNUSED ==> Allocs() == old(Allocs()) && LargestFree() == old(LargestFree())
      ensures metadata != UNUSED ==>
        && metadata !in old(Allocs())
        && Allocs() == old(Allocs())[metadata := Region(offset, FloatToUint(RoundUp(size)), true)]
        && GoodFit(old(Row()), size, offset)
      ensures old(NoneEmpty()) && size > 0 ==> NoneEmpty()
    {
      hide Solid, RoundDown, RoundUp, FloatToUint, FindBin, LargestBin, BinsOk, SpareOk, MapsOk, Sound, Chained, AllBinned, GoodFit, LeastNonEmpty;
      offset, metadata := UNUSED, UNUSED;
      if freeOffset == maxCapacity {
        return;
      }
      PoolSizes(nodes, binIndices[..], lists, live, freeNodes, freeOffset);
      if freeOffset == currentCapacity {
        GrowKeeps();
      }
      BinsFitWord(size);
      var minBin := RoundUp(size);
      FindFacts(usedBinsTop, usedBins[..], lists, size);
      var bin := FindBin(usedBinsTop, usedBins[..], minBin);
      if bin == UNUSED {
        return;
      }
      FloatMonotone(bin, minBin);
      RoundUpLeast(size, minBin);
      LeastFits(nodes, chain, lists, size, bin, HeadPosition(bin));
      offset, metadata := Split(bin, FloatToUint(minBin));
    }

    /** The objects an allocator is made of. */
    ghost function Repr(): set<object> {
      {this, usedBins, binIndices}
    }

    /** Live ranges lie inside the span and no two overlap. */
    lemma AllocsApart(i: nat, j: nat)
      requires Valid() && i in Allocs() && j in Allocs()
      ensures Allocs()[i].End() <= size
      ensures i != j ==> Allocs()[i].End() <= Allocs()[j].offset || Allocs()[j].End() <= Allocs()[i].offset
    {
      hide PoolOk, Sound, AllBinned, Chained, AllocsOf;
      ChainAllocs(nodes, chain, live, size, freeStorage, i, j);
    }

    /** The pool never holds more than two nodes per live range, and one. */
    lemma NodeBound()
      requires Valid()
      ensures freeOffset == |chain| <= 2 * |Allocs()| + 1
    {
      hide RoundDown, BinsOk, MapsOk, Tiled, AllBinned;
      CountBound(Row());
      ChainSize(chain, live);
      UsedRegions(nodes, chain, live);
    }

    /** The nodes in use: one for each allocation and one for each gap between them. */
    lemma NodesInUse()
      requires Valid() && NoneEmpty() && size > 0
      ensures freeOffset == |Allocs()| + |GapsOf(Allocs(), size)|
    {
      hide RoundDown, BinsOk, MapsOk, AllBinned, GapsOf, FreeStarts, AllocsOf;
      assert Positive(Row()) by { if |Row()| == 1 { TiledNext(Row(), 0, size); } }
      hide Tiled, Positive;
      ChainSize(chain, live);
      UsedRegions(nodes, chain, live);
      RegionCount(Row(), 0, size);
      ChainGaps(nodes, chain, live, size, freeStorage);
    }

    /** Once everything is freed, the span is one free region again. */
    lemma AllFreed()
      requires Valid() && Allocs() == map[]
      ensures Row() == [Region(0, size, false)]
    {
      hide RoundDown, BinsOk, SpareOk, MapsOk, Tiled, AllBinned;
      forall k | 0 <= k < |Row()| ensures !Row()[k].used {
        assert chain[k] in live && chain[k] !in Allocs();
      }
      AllFree(Row(), size);
    }

    /** The report is the bin of some free region, no free region's is larger, and it misses less than an eighth of any. */
    lemma LargestMeaning(k: nat)
      requires Valid() && freeOffset < maxCapacity && k < |Row()| && !Row()[k].used
      ensures FloatToUint(RoundDown(Row()[k].size)) <= LargestFree()
      ensures Row()[k].size > 0 ==> 8 * (Row()[k].size - LargestFree()) < Row()[k].size
      ensures exists m :: 0 <= m < |Row()| && !Row()[m].used && LargestFree() == FloatToUint(RoundDown(Row()[m].size))
    {
      hide BinsOk, SpareOk, MapsOk, Sound, AllBinned, Chained, RoundDown, FloatToUint, LargestBin;
      LargestBinned(nodes, chain, binIndices[..], lists, live, usedBinsTop, usedBins[..], k);
      var m :| 0 <= m < |Row()| && !Row()[m].used && LargestBin(usedBinsTop, usedBins[..]) == RoundDown(Row()[m].size);
      assert LargestFree() == FloatToUint(RoundDown(Row()[m].size));
      RoundDownLoss(Row()[k].size);
    }

    /** The region behind a report: free, and of the bin reported. */
    lemma LargestRegion() returns (k: nat)
      requires Valid() && LargestFree() > 0
      ensures freeOffset < maxCapacity && k < |Row()| && !Row()[k].used && LargestFree() == FloatToUint(RoundDown(Row()[k].size))
    {
      hide RoundDown, FloatToUint, LargestBin;
      LargestBinGreatest(usedBinsTop, usedBins[..], lists);
      var p := HeadPosition(LargestBin(usedBinsTop, usedBins[..]));
      assert !Row()[p].used;
      LargestMeaning(p);
      k :| 0 <= k < |Row()| && !Row()[k].used && LargestFree() == FloatToUint(RoundDown(Row()[k].size));
    }

    /** What can be served is fixed by the allocations: a free range whose bin is large enough, and a spare node. */
    lemma ServesIff(units: nat)
      requires Valid() && NoneEmpty() && units > 0
      ensures LargestFree() >= units <==>
        |Allocs()| + |GapsOf(Allocs(), size)| < maxCapacity && exists lo: nat, u: nat :: FreeRange(Allocs(), size, units, lo, u)
    {
      hide Valid, NoneEmpty, LargestFree, Allocs, Row, RoundDown, FloatToUint, GapsOf, FreeRange;
      if LargestFree() >= units {
        var k := LargestRegion();
        ServedBy(units, k);
      }
      if |Allocs()| + |GapsOf(Allocs(), size)| < maxCapacity && exists lo: nat, u: nat :: FreeRange(Allocs(), size, units, lo, u) {
        var lo: nat, u: nat :| FreeRange(Allocs(), size, units, lo, u);
        RangeServes(units, lo, u);
      }
    }

    lemma ServedBy(units: nat, k: nat)
      requires Valid() && NoneEmpty() && 0 < units <= LargestFree() && freeOffset < maxCapacity
      requires k < |Row()| && !Row()[k].used && LargestFree() == FloatToUint(RoundDown(Row()[k].size))
      ensures |Allocs()| + |GapsOf(Allocs(), size)| < maxCapacity
      ensures FreeRange(Allocs(), size, units, Row()[k].offset, Row()[k].size)
    {
      LargestWithin();
      NodesInUse();
      var r := Row()[k];
      RoundDownBrackets(r.size);
      hide RoundDown, FloatToUint, GapsOf, NoneEmpty, LargestFree;
      CoveredIff(nodes, chain, live, r.offset, r.End(), size, freeStorage);
      assert Covers(Regions(nodes, chain)[k], r.offset, r.End());
    }

    lemma RangeServes(units: nat, lo: nat, u: nat)
      requires Valid() && NoneEmpty() && units > 0 && |Allocs()| + |GapsOf(Allocs(), size)| < maxCapacity
      requires FreeRange(Allocs(), size, units, lo, u)
      ensures LargestFree() >= units
    {
      hide Valid, NoneEmpty, LargestFree, Allocs, Row, RoundDown, FloatToUint, GapsOf, Unreserved, Covers;
      NodesInUse();
      var k, n := RegionAround(lo, lo + u);
      LargestMeaning(k);
      RoundDownBrackets(u);
      RoundDownGreatest(n, RoundDown(u));
      FloatMonotone(RoundDown(n), RoundDown(u));
    }

    /** The free region around a free range. */
    lemma RegionAround(lo: nat, hi: nat) returns (k: nat, n: nat)
      requires Valid() && lo < hi <= size && Unreserved(Allocs(), lo, hi)
      ensures k < |Row()| && !Row()[k].used && hi - lo <= n == Row()[k].size
    {
      hide RoundDown, FloatToUint, BinsOk, SpareOk, MapsOk, AllBinned;
      CoveredIff(nodes, chain, live, lo, hi, size, freeStorage);
      k :| 0 <= k < |chain| && Covers(Regions(nodes, chain)[k], lo, hi);
      n := Row()[k].size;
    }

    /** The largest free region reported fits the span. */
    lemma LargestWithin()
      requires Valid()
      ensures LargestFree() <= size
    {
      hide RoundDown, FloatToUint, LargestBin;
      LargestBinGreatest(usedBinsTop, usedBins[..], lists);
      if freeOffset < maxCapacity && usedBinsTop > 0 {
        var p := HeadPosition(LargestBin(usedBinsTop, usedBins[..]));
        CarveFits(Row(), p, 0, size, freeStorage);
      }
    }
  }
}
