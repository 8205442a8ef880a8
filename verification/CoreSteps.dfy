/**
  What each change to the node pool does to the chain of regions and to the
  bins, as facts about values: splitting a region, merging freed neighbours,
  and cutting an exact range out of a free region.
 */
module CoreSteps {
  import opened Bits
  import opened Layout
  import opened Neighbors
  import opened NodePool
  import opened Sequences
  import opened SmallFloat
  import opened Words

  ghost predicate Binned(lists: seq<seq<nat>>, i: nat, size: nat) {
    RoundDown(size) < |lists| && i in lists[RoundDown(size)]
  }

  /** The used nodes of a pool and their regions. */
  ghost function AllocsOf(nodes: seq<Node>, live: set<nat>): map<nat, Region> {
    map i | i in live && i < |nodes| && nodes[i].used :: RegionOf(nodes[i])
  }

  /** Every free node of the chain is in the bin of its rounded-down size. */
  ghost predicate AllBinned(nodes: seq<Node>, chain: seq<nat>, lists: seq<seq<nat>>) {
    forall k :: 0 <= k < |chain| ==>
      chain[k] < |nodes| && (!nodes[chain[k]].used ==> Binned(lists, chain[k], nodes[chain[k]].dataSize))
  }

  /** A neighbour `nb` of node `i` that is free can be taken out of its bin. */
  ghost predicate Absorbable(nodes: seq<Node>, lists: seq<seq<nat>>, i: nat, nb: nat, free: nat) {
    nb != UNUSED ==>
      && nb < |nodes| && nb != i
      && (!nodes[nb].used ==> Binned(lists, nb, nodes[nb].dataSize) && nodes[nb].dataSize <= free)
  }

  /** The neighbour a merge takes: `nb` if it is a free node. */
  ghost function Taken(nodes: seq<Node>, nb: nat): set<nat>
    requires nb < |nodes| || nb == UNUSED
  {
    if nb == UNUSED || nodes[nb].used then {} else {nb}
  }

  ghost function TakenSize(nodes: seq<Node>, nb: nat): nat
    requires nb < |nodes| || nb == UNUSED
  {
    if nb == UNUSED || nodes[nb].used then 0 else nodes[nb].dataSize
  }

  ghost function Elements(s: seq<nat>): set<nat> {
    set i | i in s
  }

  /** The pool after a region `r` outside `live` was cut around `[offset, offset + size)`. */
  ghost predicate CutNodes(nodes: seq<Node>, nodes': seq<Node>, live: set<nat>, live': set<nat>, lists: seq<seq<nat>>,
                           r: Node, offset: nat, size: nat, before: nat, u: nat, after: nat) {
    && |nodes'| == |nodes|
    && u < |nodes| && u !in live && RegionOf(nodes'[u]) == Region(offset, size, true)
    && live' == live + Elements(MidOf(before, u, after))
    && (before == UNUSED <==> offset <= r.dataOffset)
    && (after == UNUSED <==> r.dataOffset + r.dataSize <= offset + size)
    && (before != UNUSED ==>
      && before < |nodes| && before !in live && before != u
      && RegionOf(nodes'[before]) == Region(r.dataOffset, offset - r.dataOffset, false)
      && Binned(lists, before, offset - r.dataOffset))
    && (after != UNUSED ==>
      && after < |nodes| && after !in live && after != u && after != before
      && RegionOf(nodes'[after]) == Region(offset + size, r.dataOffset + r.dataSize - (offset + size), false)
      && Binned(lists, after, r.dataOffset + r.dataSize - (offset + size)))
    && forall j {:trigger nodes'[j]} :: 0 <= j < |nodes| && j != before && j != u && j != after ==> SameRegion(nodes'[j], nodes[j])
  }

  /** No allocation overlaps `[lo, hi)`. */
  ghost predicate Unreserved(allocs: map<nat, Region>, lo: nat, hi: nat) {
    forall i :: i in allocs ==> !Overlaps(allocs[i], lo, hi)
  }

  /** A range of `u` units that no allocation overlaps, in a bin that serves `units`. */
  ghost predicate FreeRange(allocs: map<nat, Region>, total: nat, units: nat, lo: nat, u: nat) {
    u > 0 && lo + u <= total && Unreserved(allocs, lo, lo + u) && FloatToUint(RoundDown(u)) >= units
  }

  /** Where the free regions between some allocations start. */
  ghost function GapsOf(allocs: map<nat, Region>, total: nat): set<nat> {
    set x | x in {0} + Ends(allocs) && x < total && !StartsAt(allocs, x)
  }

  ghost function Ends(allocs: map<nat, Region>): set<nat> {
    set i | i in allocs :: allocs[i].End()
  }

  ghost predicate StartsAt(allocs: map<nat, Region>, x: nat) {
    exists i :: i in allocs && allocs[i].offset == x
  }

  /** The starts of the free regions of a chain, read off its allocations. */
  lemma {:induction false} ChainGaps(nodes: seq<Node>, chain: seq<nat>, live: set<nat>, total: nat, free: nat)
    requires Chained(nodes, chain) && Sound(Regions(nodes, chain), total, free) && Positive(Regions(nodes, chain))
    requires forall i :: i in live <==> i in chain
    ensures FreeStarts(Regions(nodes, chain)) == GapsOf(AllocsOf(nodes, live), total)
  {
    var rs, allocs := Regions(nodes, chain), AllocsOf(nodes, live);
    ChainInPool(nodes, chain);
    hide Positive, Tiled, FreeBytes, FreeStarts, UsedEnd, UsedStart, StartsAt, Ends, Chained, AllocsOf, Regions, Coalesced;
    forall x ensures x in FreeStarts(rs) <==> x in GapsOf(allocs, total) {
      FreeStartIff(rs, total, x);
      UsedEnds(nodes, chain, live, x);
      UsedStarts(nodes, chain, live, x);
    }
  }

  lemma UsedEnds(nodes: seq<Node>, chain: seq<nat>, live: set<nat>, x: nat)
    requires (forall k :: 0 <= k < |chain| ==> chain[k] < |nodes|) && forall i :: i in live <==> i in chain
    ensures UsedEnd(Regions(nodes, chain), x) <==> x in Ends(AllocsOf(nodes, live))
  {
    var rs, allocs := Regions(nodes, chain), AllocsOf(nodes, live);
    if UsedEnd(rs, x) {
      var k :| 0 <= k < |rs| && rs[k].used && rs[k].End() == x;
      assert chain[k] in allocs && allocs[chain[k]].End() == x;
    }
    if x in Ends(allocs) {
      var i :| i in allocs && allocs[i].End() == x;
      var k :| 0 <= k < |chain| && chain[k] == i;
      assert rs[k].End() == x;
    }
  }

  lemma UsedStarts(nodes: seq<Node>, chain: seq<nat>, live: set<nat>, x: nat)
    requires (forall k :: 0 <= k < |chain| ==> chain[k] < |nodes|) && forall i :: i in live <==> i in chain
    ensures UsedStart(Regions(nodes, chain), x) <==> StartsAt(AllocsOf(nodes, live), x)
  {
    var rs, allocs := Regions(nodes, chain), AllocsOf(nodes, live);
    if UsedStart(rs, x) {
      var k :| 0 <= k < |rs| && rs[k].used && rs[k].offset == x;
      assert chain[k] in allocs && allocs[chain[k]].offset == x;
    }
    if StartsAt(allocs, x) {
      var i :| i in allocs && allocs[i].offset == x;
      var k :| 0 <= k < |chain| && chain[k] == i;
      assert rs[k].offset == x;
    }
  }

  /** A free region cut around the used range `[offset, offset + size)`. */
  function Pieces(r: Region, offset: nat, size: nat): seq<Region>
    requires r.offset <= offset && offset + size <= r.End()
  {
    (if offset > r.offset then [Region(r.offset, offset - r.offset, false)] else []) +
    [Region(offset, size, true)] +
    (if r.End() > offset + size then [Region(offset + size, r.End() - (offset + size), false)] else [])
  }

  /** What node `j` becomes once the first `k` nodes of `mid` are threaded after `prev`. */
  ghost function ThreadedNode(n: Node, mid: seq<nat>, k: nat, prev: nat, j: nat): Node
    requires k <= |mid|
  {
    if j == prev && j !in mid && k > 0 then n.(neighborNext := mid[0]) else n
  }

  /** The first `k` nodes of `mid` are threaded after `prev`, in order. */
  ghost predicate Threaded(nodes: seq<Node>, nodes': seq<Node>, mid: seq<nat>, k: nat, prev: nat) {
    && |nodes'| == |nodes| && k <= |mid| && (forall m :: 0 <= m < |mid| ==> mid[m] < |nodes|)
    && (forall m {:trigger nodes'[mid[m]]} :: 0 <= m < |mid| ==> ThreadedAt(nodes[mid[m]], nodes'[mid[m]], mid, m, k, prev))
    && (forall j {:trigger nodes'[j]} :: 0 <= j < |nodes| && j !in mid ==> nodes'[j] == ThreadedNode(nodes[j], mid, k, prev, j))
  }

  ghost predicate SameButLinks(m: Node, n: Node) {
    m == n.(neighborPrev := m.neighborPrev, neighborNext := m.neighborNext)
  }

  function ThreadOne(nodes: seq<Node>, last: nat, cur: nat): seq<Node>
    requires cur < |nodes| && (last < |nodes| || last == UNUSED)
  {
    var ns := nodes[cur := nodes[cur].(neighborPrev := last)];
    if last != UNUSED then ns[last := ns[last].(neighborNext := cur)] else ns
  }

  /** How node `mid[m]` stands after `k` steps. */
  ghost predicate ThreadedAt(n: Node, n': Node, mid: seq<nat>, m: nat, k: nat, prev: nat)
    requires m < |mid| && k <= |mid|
  {
    && SameButLinks(n', n)
    && (m < k ==> n'.neighborPrev == if m == 0 then prev else mid[m - 1])
    && (m < k - 1 ==> n'.neighborNext == mid[m + 1])
  }

  lemma ThreadStepAt(nodes: seq<Node>, nodes': seq<Node>, mid: seq<nat>, k: nat, prev: nat, m: nat)
    requires k < |mid| && m < |mid| && Distinct(mid) && prev !in mid
    requires |nodes'| == |nodes| <= UNUSED && (prev < |nodes| || prev == UNUSED)
    requires forall m :: 0 <= m < |mid| ==> mid[m] < |nodes|
    requires ThreadedAt(nodes[mid[m]], nodes'[mid[m]], mid, m, k, prev)
    ensures ThreadedAt(nodes[mid[m]], ThreadOne(nodes', if k == 0 then prev else mid[k - 1], mid[k])[mid[m]], mid, m, k + 1, prev)
  {
    var last := if k == 0 then prev else mid[k - 1];
    assert mid[m] == mid[k] <==> m == k;
    assert mid[m] == last <==> k > 0 && m == k - 1;
  }

  lemma ThreadStep(nodes: seq<Node>, nodes': seq<Node>, mid: seq<nat>, k: nat, prev: nat)
    requires Threaded(nodes, nodes', mid, k, prev) && k < |mid| && Distinct(mid) && prev !in mid
    requires |nodes| <= UNUSED && (prev < |nodes| || prev == UNUSED)
    ensures Threaded(nodes, ThreadOne(nodes', if k == 0 then prev else mid[k - 1], mid[k]), mid, k + 1, prev)
  {
    hide ThreadedAt, Distinct;
    var last := if k == 0 then prev else mid[k - 1];
    var ns := ThreadOne(nodes', last, mid[k]);
    forall m | 0 <= m < |mid| ensures ThreadedAt(nodes[mid[m]], ns[mid[m]], mid, m, k + 1, prev) {
      var before := nodes'[mid[m]];
      ThreadStepAt(nodes, nodes', mid, k, prev, m);
    }
    forall j | 0 <= j < |nodes| && j !in mid ensures ns[j] == ThreadedNode(nodes[j], mid, k + 1, prev, j) {
      var before := nodes'[j];
    }
  }

  ghost predicate RethreadedAt(n: Node, n': Node, mid: seq<nat>, m: nat, prev: nat, next: nat)
    requires m < |mid|
  {
    && SameButLinks(n', n)
    && n'.neighborPrev == (if m == 0 then prev else mid[m - 1])
    && n'.neighborNext == (if m + 1 == |mid| then next else mid[m + 1])
  }

  /** `mid` is threaded between `prev` and `next`; nothing else changed. */
  ghost predicate Rethreaded(nodes: seq<Node>, nodes': seq<Node>, mid: seq<nat>, prev: nat, next: nat) {
    && |nodes'| == |nodes| && mid != [] && (forall m :: 0 <= m < |mid| ==> mid[m] < |nodes|)
    && (forall m {:trigger nodes'[mid[m]]} :: 0 <= m < |mid| ==> RethreadedAt(nodes[mid[m]], nodes'[mid[m]], mid, m, prev, next))
    && (forall j {:trigger nodes'[j]} :: 0 <= j < |nodes| && j !in mid ==>
      nodes'[j] == if j == prev then nodes[j].(neighborNext := mid[0]) else if j == next then nodes[j].(neighborPrev := mid[|mid| - 1]) else nodes[j])
  }

  function ThreadLast(nodes: seq<Node>, last: nat, next: nat): (ns: seq<Node>)
    requires last < |nodes| && (next < |nodes| || next == UNUSED)
  {
    var ns := nodes[last := nodes[last].(neighborNext := next)];
    if next == UNUSED then ns else ns[next := ns[next].(neighborPrev := last)]
  }

  lemma ThreadEndAt(nodes: seq<Node>, nodes': seq<Node>, mid: seq<nat>, prev: nat, next: nat, m: nat)
    requires m < |mid| && Distinct(mid) && prev !in mid && next !in mid
    requires |nodes'| == |nodes| <= UNUSED && (next < |nodes| || next == UNUSED)
    requires forall m :: 0 <= m < |mid| ==> mid[m] < |nodes|
    requires ThreadedAt(nodes[mid[m]], nodes'[mid[m]], mid, m, |mid|, prev)
    ensures RethreadedAt(nodes[mid[m]], ThreadLast(nodes', mid[|mid| - 1], next)[mid[m]], mid, m, prev, next)
  {
    assert mid[m] == mid[|mid| - 1] <==> m == |mid| - 1;
  }

  lemma ThreadEnd(nodes: seq<Node>, nodes': seq<Node>, mid: seq<nat>, prev: nat, next: nat)
    requires mid != [] && Threaded(nodes, nodes', mid, |mid|, prev) && Distinct(mid) && prev !in mid && next !in mid
    requires |nodes| <= UNUSED && (next < |nodes| || next == UNUSED) && (prev == UNUSED || prev != next)
    ensures Rethreaded(nodes, ThreadLast(nodes', mid[|mid| - 1], next), mid, prev, next)
  {
    hide ThreadedAt, RethreadedAt, Distinct;
    var ns := ThreadLast(nodes', mid[|mid| - 1], next);
    forall m | 0 <= m < |mid| ensures RethreadedAt(nodes[mid[m]], ns[mid[m]], mid, m, prev, next) {
      var before := nodes'[mid[m]];
      ThreadEndAt(nodes, nodes', mid, prev, next, m);
    }
    forall j | 0 <= j < |nodes| && j !in mid
      ensures ns[j] == if j == prev then nodes[j].(neighborNext := mid[0])
        else if j == next then nodes[j].(neighborPrev := mid[|mid| - 1]) else nodes[j]
    {
      var before := nodes'[j];
    }
  }

  /** The nodes of a cut region: a free one before and after where those exist. */
  function MidOf(before: nat, u: nat, after: nat): seq<nat> {
    (if before == UNUSED then [] else [before]) + [u] + (if after == UNUSED then [] else [after])
  }

  /** A free region from a bin that holds nothing too short. */
  ghost predicate Serves(r: Region, size: nat) {
    !r.used && RoundUp(size) <= RoundDown(r.size)
  }

  /** The front of a region from the lowest bin that serves. */
  ghost predicate GoodFit(rs: seq<Region>, size: nat, offset: nat) {
    exists p :: 0 <= p < |rs| && Serves(rs[p], size) && rs[p].offset == offset && LowestServing(rs, size, p)
  }

  ghost predicate LowestServing(rs: seq<Region>, size: nat, p: nat)
    requires p < |rs|
  {
    forall k :: 0 <= k < |rs| && Serves(rs[k], size) ==> RoundDown(rs[p].size) <= RoundDown(rs[k].size)
  }

  lemma LeastFits(nodes: seq<Node>, chain: seq<nat>, lists: seq<seq<nat>>, size: nat, bin: nat, p: nat)
    requires Chained(nodes, chain) && AllBinned(nodes, chain, lists) && LeastNonEmpty(lists, RoundUp(size), bin) && bin != UNUSED
    requires p < |chain| && chain[p] < |nodes| && BinMember(nodes[chain[p]], bin)
    ensures GoodFit(Regions(nodes, chain), size, nodes[chain[p]].dataOffset)
  {
    hide RoundDown, RoundUp, Chained;
    var rs := Regions(nodes, chain);
    forall k | 0 <= k < |rs| && Serves(rs[k], size) ensures RoundDown(rs[p].size) <= RoundDown(rs[k].size) {
      assert Binned(lists, chain[k], nodes[chain[k]].dataSize);
    }
    assert Serves(rs[p], size) && LowestServing(rs, size, p);
  }

  /** A bin is found for a request exactly when the largest bin is large enough. */
  lemma FindFacts(top: nat, leaves: seq<nat>, lists: seq<seq<nat>>, size: nat)
    requires MapsOk(top, leaves, lists) && size < WORD
    ensures RoundUp(size) <= 240
    ensures |leaves| == 32 && top < Pow2(32)
    ensures forall t :: 0 <= t < 32 ==> leaves[t] < Pow2(8)
    ensures forall t :: 0 <= t < 32 ==> (Bit(top, t) <==> leaves[t] != 0)
    ensures var bin := FindBin(top, leaves, RoundUp(size));
      && LeastNonEmpty(lists, RoundUp(size), bin)
      && (bin != UNUSED ==> bin < NUM_BINS && lists[bin] != [] && RoundUp(size) <= bin)
      && (size > 0 ==> (bin != UNUSED <==> top > 0 && FloatToUint(LargestBin(top, leaves)) >= size))
  {
    hide FindBin, LargestBin, Bit, Pow2, RoundUp, FloatToUint;
    BinsFitWord(size);
    FindBinLeast(top, leaves, lists, RoundUp(size));
    LargestBinGreatest(top, leaves, lists);
    if top > 0 { RoundUpLeast(size, LargestBin(top, leaves)); }
  }

  lemma ChainInPool(nodes: seq<Node>, chain: seq<nat>)
    requires Chained(nodes, chain)
    ensures forall k :: 0 <= k < |chain| ==> chain[k] < |nodes|
  {
  }

  lemma ChainAt(nodes: seq<Node>, chain: seq<nat>, k: nat)
    requires Chained(nodes, chain) && k < |chain|
    ensures chain[k] < |nodes|
    ensures nodes[chain[k]].neighborPrev == PrevIn(chain, k)
    ensures nodes[chain[k]].neighborNext == NextIn(chain, k)
  {
  }

  lemma ChainNeighbors(nodes: seq<Node>, chain: seq<nat>, k: nat)
    requires Chained(nodes, chain) && k < |chain|
    ensures chain[k] < |nodes|
    ensures var n := nodes[chain[k]];
      && (n.neighborPrev != UNUSED ==> n.neighborPrev < |nodes| && n.neighborPrev in chain && n.neighborPrev != chain[k])
      && (n.neighborNext != UNUSED ==> n.neighborNext < |nodes| && n.neighborNext in chain && n.neighborNext != chain[k])
  {
  }

  lemma CarveFits(rs: seq<Region>, p: nat, newSize: nat, hi: nat, free: nat)
    requires Sound(rs, hi, free) && p < |rs| && !rs[p].used && newSize <= rs[p].size
    ensures rs[p].size <= free && rs[p].End() <= hi
    ensures var used, rest := Region(rs[p].offset, newSize, true), Region(rs[p].offset + newSize, rs[p].size - newSize, false);
      && (newSize < rs[p].size ==> Sound(Replace(rs, p, p + 1, [used, rest]), hi, free - newSize))
      && (newSize == rs[p].size ==> Sound(Replace(rs, p, p + 1, [used]), hi, free - newSize))
  {
    var used, rest := Region(rs[p].offset, newSize, true), Region(rs[p].offset + newSize, rs[p].size - newSize, false);
    TiledNext(rs, p, hi);
    Single(used);
    Single(rest);
    if newSize < rs[p].size {
      TiledConcat([used], [rest], rs[p].offset, rest.offset, rest.End());
      FreeBytesConcat([used], [rest]);
      assert [used] + [rest] == [used, rest];
      CarveSound(rs, p, [used, rest], hi, free);
    } else {
      CarveSound(rs, p, [used], hi, free);
    }
  }

  /** Changing neighbour links alone disturbs no bin. */
  lemma ThreadedKeepsBins(nodes: seq<Node>, nodes': seq<Node>, heads: seq<nat>, lists: seq<seq<nat>>, live: set<nat>)
    requires BinsOk(nodes, heads, lists, live) && |nodes'| == |nodes|
    requires forall j :: 0 <= j < |nodes| ==> nodes'[j] == nodes[j].(neighborPrev := nodes'[j].neighborPrev, neighborNext := nodes'[j].neighborNext)
    ensures BinsOk(nodes', heads, lists, live)
  {
    hide RoundDown;
    forall b | 0 <= b < NUM_BINS ensures Linked(nodes', lists[b]) && Members(nodes', lists[b], b, live) {
      assert Linked(nodes, lists[b]) && Members(nodes, lists[b], b, live);
    }
  }

  /** The pool around region `i` once its rest was split off as node `n`. */
  ghost predicate SplitNodes(nodes: seq<Node>, nodes': seq<Node>, i: nat, n: nat, newSize: nat) {
    && |nodes| == |nodes'| && i < |nodes| && n < |nodes| && n != i && newSize <= nodes[i].dataSize
    && SameRegion(nodes'[i], nodes[i].(dataSize := newSize, used := true, neighborNext := n))
    && SameRegion(nodes'[n], Node(nodes[i].dataOffset + newSize, nodes[i].dataSize - newSize, 0, 0, i, nodes[i].neighborNext, false))
    && forall j {:trigger nodes'[j]} :: 0 <= j < |nodes| && j != i && j != n ==>
      SameRegion(nodes'[j], if j == nodes[i].neighborNext then nodes[j].(neighborPrev := n) else nodes[j])
  }

  /** The pool around region `i` once it was handed out whole. */
  ghost predicate TakenNodes(nodes: seq<Node>, nodes': seq<Node>, i: nat) {
    && |nodes| == |nodes'| && i < |nodes|
    && SameRegion(nodes'[i], nodes[i].(used := true))
    && forall j {:trigger nodes'[j]} :: 0 <= j < |nodes| && j != i ==> SameRegion(nodes'[j], nodes[j])
  }

  lemma SplitRelinked(nodes: seq<Node>, nodes': seq<Node>, chain: seq<nat>, p: nat, n: nat, newSize: nat)
    requires Chained(nodes, chain) && p < |chain| && n !in chain && |nodes| <= UNUSED
    requires SplitNodes(nodes, nodes', chain[p], n, newSize)
    ensures GapRelinked(nodes, nodes', chain, p, p + 1, [chain[p], n])
    ensures Apart(chain, p, p + 1, [chain[p], n])
  {
    var mid := [chain[p], n];
    ChainAt(nodes, chain, p);
    forall k | 0 <= k < |chain| && !(p <= k < p + 1)
      ensures Kept(nodes[chain[k]], nodes'[chain[k]], k == p + 1, mid[|mid| - 1], k + 1 == p, mid[0])
    {
      ChainAt(nodes, chain, k);
      assert chain[k] == NextIn(chain, p) <==> k == p + 1;
    }
  }

  lemma TakenRelinked(nodes: seq<Node>, nodes': seq<Node>, chain: seq<nat>, p: nat)
    requires Chained(nodes, chain) && p < |chain| && |nodes| <= UNUSED
    requires TakenNodes(nodes, nodes', chain[p])
    ensures GapRelinked(nodes, nodes', chain, p, p + 1, [chain[p]])
    ensures Apart(chain, p, p + 1, [chain[p]])
  {
    var mid := [chain[p]];
    ChainAt(nodes, chain, p);
    forall k | 0 <= k < |chain| && !(p <= k < p + 1)
      ensures Kept(nodes[chain[k]], nodes'[chain[k]], k == p + 1, mid[|mid| - 1], k + 1 == p, mid[0])
    {
      ChainAt(nodes, chain, k);
    }
  }

  ghost predicate Avoids(chain: seq<nat>, a: nat, b: nat, removed: set<nat>) {
    forall k :: 0 <= k < |chain| && !(a <= k < b) ==> chain[k] !in removed
  }

  lemma AvoidsGap(nodes: seq<Node>, chain: seq<nat>, a: nat, b: nat, removed: set<nat>)
    requires Chained(nodes, chain) && a <= b <= |chain|
    requires forall i :: i in removed ==> i in chain[a..b]
    ensures Avoids(chain, a, b, removed)
  {
  }

  /** The free nodes outside the gap stay binned. */
  lemma SpliceBinned(nodes: seq<Node>, nodes': seq<Node>, chain: seq<nat>, a: nat, b: nat, mid: seq<nat>,
                     lists: seq<seq<nat>>, lists': seq<seq<nat>>, removed: set<nat>)
    requires a <= b <= |chain| && mid != []
    requires AllBinned(nodes, chain, lists) && GapRelinked(nodes, nodes', chain, a, b, mid)
    requires BinnedKept(lists, lists', removed)
    requires Avoids(chain, a, b, removed)
    requires AllBinned(nodes', mid, lists')
    ensures AllBinned(nodes', Splice(chain, a, b, mid), lists')
  {
    hide Binned, Splice, GapPrev, GapNext;
    var s := Splice(chain, a, b, mid);
    forall k | 0 <= k < |s| ensures s[k] < |nodes'| && (!nodes'[s[k]].used ==> Binned(lists', s[k], nodes'[s[k]].dataSize)) {
      SpliceIndex(chain, a, b, mid, k);
      if k < a {
        assert RegionOf(nodes'[chain[k]]) == RegionOf(nodes[chain[k]]);
      } else if k >= a + |mid| {
        var j := k - a - |mid| + b;
        assert RegionOf(nodes'[chain[j]]) == RegionOf(nodes[chain[j]]);
      }
    }
  }

  /** What a relinked gap leaves: a chain, its regions, and every free node binned. */
  lemma AfterGap(nodes: seq<Node>, nodes': seq<Node>, chain: seq<nat>, a: nat, b: nat, mid: seq<nat>,
                 lists: seq<seq<nat>>, lists': seq<seq<nat>>, removed: set<nat>)
    requires Chained(nodes, chain) && a <= b <= |chain| && mid != [] && Distinct(mid)
    requires GapRelinked(nodes, nodes', chain, a, b, mid) && Apart(chain, a, b, mid)
    requires AllBinned(nodes, chain, lists) && BinnedKept(lists, lists', removed)
    requires Avoids(chain, a, b, removed)
    requires AllBinned(nodes', mid, lists')
    ensures var chain' := Splice(chain, a, b, mid);
      && Chained(nodes', chain') && AllBinned(nodes', chain', lists')
      && Regions(nodes', chain') == Replace(Regions(nodes, chain), a, b, Regions(nodes', mid))
      && (a < b && Solid(Regions(nodes, chain)) && Positive(Regions(nodes', mid)) ==> Solid(Regions(nodes', chain')))
      && forall j :: j in chain' <==> j in chain[..a] || j in mid || j in chain[b..]
  {
    assert forall k :: 0 <= k < |mid| ==> mid[k] < |nodes'|;
    hide Binned, Splice, GapRelinked, Apart, AllBinned, BinnedKept, Solid, Positive;
    if a < b && Solid(Regions(nodes, chain)) && Positive(Regions(nodes', mid)) {
      ReplaceSolid(Regions(nodes, chain), a, b, Regions(nodes', mid));
    }
    SpliceChained(nodes, nodes', chain, a, b, mid);
    SpliceBinned(nodes, nodes', chain, a, b, mid, lists, lists', removed);
    SpliceElements(chain, a, b, mid);
  }

  /** Every binned node but the removed ones stays binned. */
  ghost predicate BinnedKept(lists: seq<seq<nat>>, lists': seq<seq<nat>>, removed: set<nat>) {
    forall j, s :: j !in removed && Binned(lists, j, s) ==> Binned(lists', j, s)
  }

  lemma TakenKeepsBinned(lists: seq<seq<nat>>, b: nat, lists': seq<seq<nat>>)
    requires b < |lists| && lists[b] != [] && lists' == lists[b := Without(lists[b], 0)]
    ensures BinnedKept(lists, lists', {lists[b][0]})
  {
    hide RoundDown;
    RemovedKeepsBinned(lists, b, 0, lists');
  }

  lemma RemovedKeepsBinned(lists: seq<seq<nat>>, b: nat, k: nat, lists': seq<seq<nat>>)
    requires b < |lists| && k < |lists[b]| && lists' == lists[b := Without(lists[b], k)]
    ensures BinnedKept(lists, lists', {lists[b][k]})
  {
    hide RoundDown;
    forall j, s | j !in {lists[b][k]} && Binned(lists, j, s) ensures Binned(lists', j, s) {
      if RoundDown(s) == b {
        var m :| 0 <= m < |lists[b]| && lists[b][m] == j;
        WithoutAt(lists[b], k, if m < k then m else m - 1);
      }
    }
  }

  lemma PushedKeepsBinned(lists: seq<seq<nat>>, size: nat, n: nat, lists': seq<seq<nat>>)
    requires RoundDown(size) < |lists| && lists' == lists[RoundDown(size) := [n] + lists[RoundDown(size)]]
    ensures BinnedKept(lists, lists', {}) && Binned(lists', n, size)
  {
    hide RoundDown;
    var b := RoundDown(size);
    assert lists'[b][0] == n;
    forall j, s | Binned(lists, j, s) ensures Binned(lists', j, s) {
      if RoundDown(s) == b {
        var m :| 0 <= m < |lists[b]| && lists[b][m] == j;
        assert lists'[b][m + 1] == j;
      }
    }
  }

  lemma SpliceElements(chain: seq<nat>, a: nat, b: nat, mid: seq<nat>)
    requires a <= b <= |chain|
    ensures forall j :: j in Splice(chain, a, b, mid) <==> j in chain[..a] || j in mid || j in chain[b..]
  {
  }

  lemma SplitPair(nodes: seq<Node>, nodes': seq<Node>, i: nat, n: nat, newSize: nat, lists': seq<seq<nat>>)
    requires SplitNodes(nodes, nodes', i, n, newSize) && Binned(lists', n, nodes'[n].dataSize)
    ensures Distinct([i, n]) && AllBinned(nodes', [i, n], lists')
    ensures var r := RegionOf(nodes[i]);
      Regions(nodes', [i, n]) == [Region(r.offset, newSize, true), Region(r.offset + newSize, r.size - newSize, false)]
  {
    hide Binned;
  }

  lemma TakenOne(nodes: seq<Node>, nodes': seq<Node>, i: nat, lists': seq<seq<nat>>)
    requires TakenNodes(nodes, nodes', i)
    ensures Distinct([i]) && AllBinned(nodes', [i], lists')
    ensures Regions(nodes', [i]) == [RegionOf(nodes[i]).(used := true)]
  {
    hide Binned;
  }

  lemma BinnedTrans(lists: seq<seq<nat>>, lists1: seq<seq<nat>>, lists2: seq<seq<nat>>, removed: set<nat>)
    requires BinnedKept(lists, lists1, removed) && BinnedKept(lists1, lists2, {})
    ensures BinnedKept(lists, lists2, removed)
  {
    hide Binned;
  }

  lemma AllocsSplit(nodes: seq<Node>, nodes': seq<Node>, live: set<nat>, i: nat, n: nat, newSize: nat)
    requires SplitNodes(nodes, nodes', i, n, newSize) && i in live && n !in live && !nodes[i].used
    ensures i !in AllocsOf(nodes, live)
    ensures AllocsOf(nodes', live + {n}) == AllocsOf(nodes, live)[i := Region(nodes[i].dataOffset, newSize, true)]
  {
  }

  lemma AllocsTaken(nodes: seq<Node>, nodes': seq<Node>, live: set<nat>, i: nat)
    requires TakenNodes(nodes, nodes', i) && i in live && !nodes[i].used
    ensures i !in AllocsOf(nodes, live)
    ensures AllocsOf(nodes', live) == AllocsOf(nodes, live)[i := RegionOf(nodes[i]).(used := true)]
  {
  }

  lemma AfterSplit(nodes: seq<Node>, nodes': seq<Node>, chain: seq<nat>, p: nat, n: nat, newSize: nat,
                   lists: seq<seq<nat>>, lists': seq<seq<nat>>, size: nat, free: nat)
    requires Chained(nodes, chain) && p < |chain| && n !in chain && |nodes| <= UNUSED
    requires SplitNodes(nodes, nodes', chain[p], n, newSize) && newSize < nodes[chain[p]].dataSize
    requires !nodes[chain[p]].used && Sound(Regions(nodes, chain), size, free) && AllBinned(nodes, chain, lists)
    requires BinnedKept(lists, lists', {chain[p]}) && Binned(lists', n, nodes'[n].dataSize)
    ensures var chain' := Splice(chain, p, p + 1, [chain[p], n]);
      && Chained(nodes', chain') && AllBinned(nodes', chain', lists')
      && Sound(Regions(nodes', chain'), size, free - newSize)
      && (Solid(Regions(nodes, chain)) && newSize > 0 ==> Solid(Regions(nodes', chain')))
      && forall j :: j in chain' <==> j in chain || j == n
  {
    hide Binned, Splice, GapRelinked, Apart, BinnedKept, Sound, Replace, Chained, AllBinned, SplitNodes, Solid;
    var i := chain[p];
    ChainAt(nodes, chain, p);
    SplitRelinked(nodes, nodes', chain, p, n, newSize);
    SplitPair(nodes, nodes', i, n, newSize, lists');
    assert chain[p..p + 1] == [i];
    AvoidsGap(nodes, chain, p, p + 1, {i});
    AfterGap(nodes, nodes', chain, p, p + 1, [i, n], lists, lists', {i});
    var rs := Regions(nodes, chain);
    CarveFits(rs, p, newSize, size, free);
    assert rs[p] == RegionOf(nodes[i]);
    assert chain == chain[..p] + [i] + chain[p + 1..];
  }

  lemma SpliceSelf(chain: seq<nat>, p: nat)
    requires p < |chain|
    ensures Splice(chain, p, p + 1, [chain[p]]) == chain
  {
  }

  lemma AfterTake(nodes: seq<Node>, nodes': seq<Node>, chain: seq<nat>, p: nat,
                  lists: seq<seq<nat>>, lists': seq<seq<nat>>, size: nat, free: nat)
    requires Chained(nodes, chain) && p < |chain| && |nodes| <= UNUSED
    requires TakenNodes(nodes, nodes', chain[p])
    requires !nodes[chain[p]].used && Sound(Regions(nodes, chain), size, free) && AllBinned(nodes, chain, lists)
    requires BinnedKept(lists, lists', {chain[p]})
    ensures Chained(nodes', chain) && AllBinned(nodes', chain, lists')
    ensures Sound(Regions(nodes', chain), size, free - nodes[chain[p]].dataSize)
    ensures Solid(Regions(nodes, chain)) && nodes[chain[p]].dataSize > 0 ==> Solid(Regions(nodes', chain))
  {
    hide Binned, Splice, GapRelinked, Apart, BinnedKept, Sound, Replace, Chained, AllBinned, TakenNodes, Solid;
    var i := chain[p];
    ChainAt(nodes, chain, p);
    TakenRelinked(nodes, nodes', chain, p);
    TakenOne(nodes, nodes', i, lists');
    assert chain[p..p + 1] == [i];
    AvoidsGap(nodes, chain, p, p + 1, {i});
    AfterGap(nodes, nodes', chain, p, p + 1, [i], lists, lists', {i});
    var rs := Regions(nodes, chain);
    CarveFits(rs, p, rs[p].size, size, free);
    assert rs[p] == RegionOf(nodes[i]);
    SpliceSelf(chain, p);
  }

  /** The chain once `chain[p]` was merged with its free neighbours. */
  ghost function MergedChain(nodes: seq<Node>, chain: seq<nat>, p: nat): seq<nat>
    requires Chained(nodes, chain) && p < |chain|
  {
    Splice(chain, MergeFrom(nodes, chain, p), MergeTo(nodes, chain, p), [chain[p]])
  }

  ghost function MergeFrom(nodes: seq<Node>, chain: seq<nat>, p: nat): (a: nat)
    requires Chained(nodes, chain) && p < |chain|
    ensures a <= p
  {
    if p > 0 && !nodes[chain[p - 1]].used then p - 1 else p
  }

  ghost function MergeTo(nodes: seq<Node>, chain: seq<nat>, p: nat): (b: nat)
    requires Chained(nodes, chain) && p < |chain|
    ensures p < b <= |chain|
  {
    if p + 1 < |chain| && !nodes[chain[p + 1]].used then p + 2 else p + 1
  }

  /** What freeing the used node `chain[p]` needs of its neighbours. */
  lemma FreeFacts(nodes: seq<Node>, chain: seq<nat>, p: nat, lists: seq<seq<nat>>, size: nat, free: nat)
    requires Chained(nodes, chain) && AllBinned(nodes, chain, lists) && Sound(Regions(nodes, chain), size, free)
    requires p < |chain| && nodes[chain[p]].used && |nodes| <= UNUSED
    ensures var i := chain[p];
      var prev, next := nodes[i].neighborPrev, nodes[i].neighborNext;
      && prev == PrevIn(chain, p) && next == NextIn(chain, p)
      && (prev != UNUSED ==> prev < |nodes| && prev in chain && prev != i && prev != next)
      && (next != UNUSED ==> next < |nodes| && next in chain && next != i)
      && Absorbable(nodes, lists, i, prev, free) && Absorbable(nodes, lists, i, next, free)
      && TakenSize(nodes, prev) + TakenSize(nodes, next) <= free
      && TakenSize(nodes, prev) + nodes[i].dataSize + TakenSize(nodes, next) <= size
    ensures var l, r := GapPrev(chain, MergeFrom(nodes, chain, p), [chain[p]], 0), GapNext(chain, MergeTo(nodes, chain, p), [chain[p]], 0);
      && (l != UNUSED ==> l < |nodes| && l != r) && l != chain[p]
      && (r != UNUSED ==> r < |nodes|) && r != chain[p]
  {
    hide Binned, Tiled, FreeBytes, Coalesced, Regions;
    var rs := Regions(nodes, chain);
    var i := chain[p];
    ChainAt(nodes, chain, p);
    ChainNeighbors(nodes, chain, p);
    var a, b := MergeFrom(nodes, chain, p), MergeTo(nodes, chain, p);
    if a < p { ChainAt(nodes, chain, a); }
    if b > p + 1 { ChainAt(nodes, chain, p + 1); }
    MergeSize(rs, p, a, b, size, free);
  }

  /** The merged region read off the neighbours of node `chain[p]`. */
  lemma DetachForm(nodes: seq<Node>, chain: seq<nat>, p: nat)
    requires Chained(nodes, chain) && p < |chain| && |nodes| <= UNUSED
    ensures var n := nodes[chain[p]];
      var prev, next := n.neighborPrev, n.neighborNext;
      && (prev < |nodes| || prev == UNUSED) && (next < |nodes| || next == UNUSED)
      && Gone(nodes, chain, p) == Taken(nodes, prev) + Taken(nodes, next) && chain[p] !in Gone(nodes, chain, p)
      && GapPrev(chain, MergeFrom(nodes, chain, p), [chain[p]], 0) == (if Taken(nodes, prev) == {} then prev else nodes[prev].neighborPrev)
      && GapNext(chain, MergeTo(nodes, chain, p), [chain[p]], 0) == (if Taken(nodes, next) == {} then next else nodes[next].neighborNext)
      && Merged(nodes, chain, p, Region(if Taken(nodes, prev) == {} then n.dataOffset else nodes[prev].dataOffset,
                                        TakenSize(nodes, prev) + n.dataSize + TakenSize(nodes, next), false))
  {
    ChainAt(nodes, chain, p);
    if p > 0 { ChainAt(nodes, chain, p - 1); }
    if p + 1 < |chain| { ChainAt(nodes, chain, p + 1); }
  }

  /** The neighbour on the other side stays in its bin. */
  lemma BinnedStays(lists: seq<seq<nat>>, lists': seq<seq<nat>>, nodes: seq<Node>, prev: nat, next: nat)
    requires (prev < |nodes| || prev == UNUSED) && (next < |nodes| || next == UNUSED) && (next != UNUSED ==> next != prev)
    requires BinnedKept(lists, lists', Taken(nodes, prev))
    requires next != UNUSED && !nodes[next].used ==> Binned(lists, next, nodes[next].dataSize)
    ensures next != UNUSED && !nodes[next].used ==> Binned(lists', next, nodes[next].dataSize)
  {
    hide Binned;
  }

  lemma BinnedJoin(lists: seq<seq<nat>>, lists1: seq<seq<nat>>, lists2: seq<seq<nat>>, r1: set<nat>, r2: set<nat>)
    requires BinnedKept(lists, lists1, r1) && BinnedKept(lists1, lists2, r2)
    ensures BinnedKept(lists, lists2, r1 + r2)
  {
    hide Binned;
  }

  lemma BinnedStill(lists: seq<seq<nat>>, lists': seq<seq<nat>>, i: nat, size: nat)
    requires BinnedKept(lists, lists', {}) && Binned(lists, i, size)
    ensures Binned(lists', i, size)
  {
    hide Binned;
  }

  lemma BinnedSelf(lists: seq<seq<nat>>)
    ensures BinnedKept(lists, lists, {})
  {
    hide Binned;
  }

  /** The pool once node `i` was relinked as the merged free region `r`. */
  ghost predicate FreedNodes(nodes: seq<Node>, nodes': seq<Node>, i: nat, prev: nat, next: nat, r: Region) {
    && |nodes| == |nodes'| && i < |nodes|
    && SameRegion(nodes'[i], Node(r.offset, r.size, 0, 0, prev, next, false))
    && forall j {:trigger nodes'[j]} :: 0 <= j < |nodes| && j != i ==>
      SameRegion(nodes'[j], if j == next then nodes[j].(neighborPrev := i) else if j == prev then nodes[j].(neighborNext := i) else nodes[j])
  }

  lemma FreedIntro(nodes: seq<Node>, nodes1: seq<Node>, nodes': seq<Node>, i: nat, prev: nat, next: nat, r: Region)
    requires |nodes| == |nodes1|
    requires forall j :: 0 <= j < |nodes| && j != i ==> SameRegion(nodes1[j], nodes[j])
    requires FreedNodes(nodes1, nodes', i, prev, next, r)
    ensures FreedNodes(nodes, nodes', i, prev, next, r)
  {
  }

  /** The neighbours freeing `chain[p]` merges away. */
  ghost function Gone(nodes: seq<Node>, chain: seq<nat>, p: nat): set<nat>
    requires Chained(nodes, chain) && p < |chain|
  {
    (if MergeFrom(nodes, chain, p) < p then {chain[p - 1]} else {}) + (if MergeTo(nodes, chain, p) > p + 1 then {chain[p + 1]} else {})
  }

  /** `r` is the extent of `chain[p]` and its free neighbours. */
  ghost predicate Merged(nodes: seq<Node>, chain: seq<nat>, p: nat, r: Region)
    requires Chained(nodes, chain) && p < |chain|
  {
    var a, b := MergeFrom(nodes, chain, p), MergeTo(nodes, chain, p);
    && !r.used && r.offset == nodes[chain[a]].dataOffset
    && r.size == (if a < p then nodes[chain[a]].dataSize else 0) + nodes[chain[p]].dataSize + (if b > p + 1 then nodes[chain[p + 1]].dataSize else 0)
  }

  lemma GoneFacts(nodes: seq<Node>, chain: seq<nat>, p: nat)
    requires Chained(nodes, chain) && p < |chain|
    ensures chain[p] !in Gone(nodes, chain, p)
    ensures forall j :: j in Gone(nodes, chain, p) ==> j in chain && j < |nodes| && !nodes[j].used
  {
  }

  lemma FreedRelinked(nodes: seq<Node>, nodes': seq<Node>, chain: seq<nat>, p: nat, r: Region)
    requires Chained(nodes, chain) && p < |chain| && |nodes| <= UNUSED
    requires var a, b := MergeFrom(nodes, chain, p), MergeTo(nodes, chain, p);
      FreedNodes(nodes, nodes', chain[p], GapPrev(chain, a, [chain[p]], 0), GapNext(chain, b, [chain[p]], 0), r)
    ensures var a, b := MergeFrom(nodes, chain, p), MergeTo(nodes, chain, p);
      GapRelinked(nodes, nodes', chain, a, b, [chain[p]]) && Apart(chain, a, b, [chain[p]])
  {
    var a, b, mid := MergeFrom(nodes, chain, p), MergeTo(nodes, chain, p), [chain[p]];
    var prev, next := GapPrev(chain, a, mid, 0), GapNext(chain, b, mid, 0);
    forall k | 0 <= k < |chain| && !(a <= k < b)
      ensures Kept(nodes[chain[k]], nodes'[chain[k]], k == b, mid[|mid| - 1], k + 1 == a, mid[0])
    {
      assert chain[k] == next <==> k == b;
      assert chain[k] == prev <==> k + 1 == a;
    }
  }

  lemma MergedElements(nodes: seq<Node>, chain: seq<nat>, p: nat)
    requires Chained(nodes, chain) && p < |chain|
    ensures var a, b := MergeFrom(nodes, chain, p), MergeTo(nodes, chain, p);
      forall j :: j in chain[..a] || j in [chain[p]] || j in chain[b..] <==> j in chain && j !in Gone(nodes, chain, p)
  {
    var a, b := MergeFrom(nodes, chain, p), MergeTo(nodes, chain, p);
    forall j | j in chain && j !in Gone(nodes, chain, p)
      ensures j in chain[..a] || j in [chain[p]] || j in chain[b..]
    {
      var k :| 0 <= k < |chain| && chain[k] == j;
      assert k < a ==> chain[..a][k] == j;
      assert k >= b ==> chain[b..][k - b] == j;
    }
  }

  lemma AfterFree(nodes: seq<Node>, nodes': seq<Node>, chain: seq<nat>, p: nat, r: Region,
                  lists: seq<seq<nat>>, lists': seq<seq<nat>>, size: nat, free: nat)
    requires Chained(nodes, chain) && p < |chain| && nodes[chain[p]].used && |nodes| <= UNUSED
    requires AllBinned(nodes, chain, lists) && Sound(Regions(nodes, chain), size, free)
    requires FreedNodes(nodes, nodes', chain[p], GapPrev(chain, MergeFrom(nodes, chain, p), [chain[p]], 0),
      GapNext(chain, MergeTo(nodes, chain, p), [chain[p]], 0), r)
    requires Merged(nodes, chain, p, r)
    requires BinnedKept(lists, lists', Gone(nodes, chain, p)) && Binned(lists', chain[p], r.size)
    ensures var chain' := MergedChain(nodes, chain, p);
      && Chained(nodes', chain') && AllBinned(nodes', chain', lists')
      && Sound(Regions(nodes', chain'), size, free + nodes[chain[p]].dataSize)
      && (Solid(Regions(nodes, chain)) && nodes[chain[p]].dataSize > 0 ==> Solid(Regions(nodes', chain')))
      && forall j :: j in chain' <==> j in chain && j !in Gone(nodes, chain, p)
  {
    hide Solid, Binned, Splice, GapRelinked, Apart, BinnedKept, Sound, Replace, Chained, AllBinned, GapPrev, GapNext, FreedNodes;
    var i := chain[p];
    var a, b := MergeFrom(nodes, chain, p), MergeTo(nodes, chain, p);
    FreedRelinked(nodes, nodes', chain, p, r);
    FreedOne(nodes, nodes', i, GapPrev(chain, a, [i], 0), GapNext(chain, b, [i], 0), r, lists');
    RemovedInGap(nodes, chain, p);
    AvoidsGap(nodes, chain, a, b, Gone(nodes, chain, p));
    AfterGap(nodes, nodes', chain, a, b, [i], lists, lists', Gone(nodes, chain, p));
    var rs := Regions(nodes, chain);
    assert rs[p] == RegionOf(nodes[i]) && rs[a] == RegionOf(nodes[chain[a]]);
    assert p > 0 ==> rs[p - 1] == RegionOf(nodes[chain[p - 1]]);
    assert p + 1 < |chain| ==> rs[p + 1] == RegionOf(nodes[chain[p + 1]]);
    ReleaseSound(rs, p, a, b, r, size, free);
    MergedElements(nodes, chain, p);
  }

  lemma FreedOne(nodes: seq<Node>, nodes': seq<Node>, i: nat, prev: nat, next: nat, r: Region, lists': seq<seq<nat>>)
    requires FreedNodes(nodes, nodes', i, prev, next, r) && !r.used && Binned(lists', i, r.size)
    ensures AllBinned(nodes', [i], lists') && Regions(nodes', [i]) == [r] && Distinct([i])
  {
    hide Binned;
  }

  lemma RemovedInGap(nodes: seq<Node>, chain: seq<nat>, p: nat)
    requires Chained(nodes, chain) && p < |chain|
    ensures var a, b := MergeFrom(nodes, chain, p), MergeTo(nodes, chain, p);
      && (a < p ==> chain[p - 1] in chain[a..b])
      && (b > p + 1 ==> chain[p + 1] in chain[a..b])
  {
    var a, b := MergeFrom(nodes, chain, p), MergeTo(nodes, chain, p);
    assert a < p ==> chain[a..b][0] == chain[p - 1];
    assert b > p + 1 ==> chain[a..b][p + 1 - a] == chain[p + 1];
  }

  lemma AllocsFreed(nodes: seq<Node>, nodes': seq<Node>, live: set<nat>, i: nat, prev: nat, next: nat, removed: set<nat>, r: Region)
    requires i in live && i !in removed && FreedNodes(nodes, nodes', i, prev, next, r)
    requires forall j :: j in removed ==> j in live && j < |nodes| && !nodes[j].used
    ensures AllocsOf(nodes', live - removed) == AllocsOf(nodes, live) - {i}
  {
  }

  /** A used node is in no bin. */
  lemma UsedUnbinned(nodes: seq<Node>, heads: seq<nat>, lists: seq<seq<nat>>, live: set<nat>, i: nat)
    requires BinsOk(nodes, heads, lists, live) && i < |nodes| && nodes[i].used
    ensures BinsOk(nodes, heads, lists, live - {i})
  {
    hide RoundDown;
    forall b | 0 <= b < NUM_BINS ensures Members(nodes, lists[b], b, live - {i}) {
      assert Members(nodes, lists[b], b, live);
    }
  }

  ghost predicate NoneCovers(nodes: seq<Node>, list: seq<nat>, lo: nat, hi: nat) {
    forall k :: 0 <= k < |list| ==> list[k] < |nodes| && !Covers(RegionOf(nodes[list[k]]), lo, hi)
  }

  /** Walking a bin list visits exactly its members. */
  lemma ListFacts(nodes: seq<Node>, heads: seq<nat>, lists: seq<seq<nat>>, live: set<nat>, b: nat)
    requires BinsOk(nodes, heads, lists, live) && b < NUM_BINS
    ensures |heads| == |lists| == NUM_BINS && |nodes| <= UNUSED && heads[b] == HeadOf(lists[b])
    ensures forall k :: 0 <= k < |lists[b]| ==> lists[b][k] < |nodes|
    ensures forall k {:trigger nodes[lists[b][k]].binNext} :: 0 <= k < |lists[b]| ==> nodes[lists[b][k]].binNext == NextIn(lists[b], k)
    ensures forall i :: i in lists[b] ==> i in live && i < |nodes| && !nodes[i].used && Binned(lists, i, nodes[i].dataSize)
  {
    hide RoundDown;
    assert Linked(nodes, lists[b]) && Members(nodes, lists[b], b, live);
    forall i | i in lists[b] ensures i in live && i < |nodes| && !nodes[i].used && Binned(lists, i, nodes[i].dataSize) {
      var k :| 0 <= k < |lists[b]| && lists[b][k] == i;
      assert BinMember(nodes[i], b);
    }
  }

  lemma NothingCovers(nodes: seq<Node>, chain: seq<nat>, heads: seq<nat>, lists: seq<seq<nat>>, live: set<nat>, lo: nat, hi: nat)
    requires Chained(nodes, chain) && AllBinned(nodes, chain, lists) && BinsOk(nodes, heads, lists, live)
    requires forall b :: 0 <= b < NUM_BINS ==> NoneCovers(nodes, lists[b], lo, hi)
    ensures forall k :: 0 <= k < |chain| ==> !Covers(Regions(nodes, chain)[k], lo, hi)
  {
    hide RoundDown;
    forall k | 0 <= k < |chain| ensures !Covers(Regions(nodes, chain)[k], lo, hi) {
      var n := nodes[chain[k]];
      if !n.used {
        var b := RoundDown(n.dataSize);
        var m :| 0 <= m < |lists[b]| && lists[b][m] == chain[k];
        assert NoneCovers(nodes, lists[b], lo, hi);
      }
    }
  }

  lemma RethreadedLinks(nodes: seq<Node>, nodes': seq<Node>, mid: seq<nat>, prev: nat, next: nat)
    requires Rethreaded(nodes, nodes', mid, prev, next)
    ensures forall j :: 0 <= j < |nodes| ==> nodes'[j] == nodes[j].(neighborPrev := nodes'[j].neighborPrev, neighborNext := nodes'[j].neighborNext)
  {
    forall j | 0 <= j < |nodes| ensures SameButLinks(nodes'[j], nodes[j]) {
      if j in mid {
        var m :| 0 <= m < |mid| && mid[m] == j;
        assert RethreadedAt(nodes[mid[m]], nodes'[mid[m]], mid, m, prev, next);
      }
    }
  }

  lemma ThreadStart(nodes: seq<Node>, mid: seq<nat>, prev: nat)
    requires forall k :: 0 <= k < |mid| ==> mid[k] < |nodes|
    ensures Threaded(nodes, nodes, mid, 0, prev)
  {
  }

  /** A range is reserved by nobody exactly when one free node of the chain covers it. */
  lemma CoveredIff(nodes: seq<Node>, chain: seq<nat>, live: set<nat>, lo: nat, hi: nat, size: nat, free: nat)
    requires Chained(nodes, chain) && Sound(Regions(nodes, chain), size, free) && lo < hi
    requires forall i :: i in live <==> i in chain
    ensures (exists k :: 0 <= k < |chain| && Covers(Regions(nodes, chain)[k], lo, hi)) <==> hi <= size && Unreserved(AllocsOf(nodes, live), lo, hi)
  {
    hide Tiled;
    var rs, allocs := Regions(nodes, chain), AllocsOf(nodes, live);
    FreeIffCovered(rs, lo, hi, size);
    if RangeFree(rs, lo, hi) {
      forall i | i in allocs ensures !Overlaps(allocs[i], lo, hi) {
        var k :| 0 <= k < |chain| && chain[k] == i;
        assert rs[k] == allocs[i];
      }
    }
    if Unreserved(allocs, lo, hi) {
      forall k | 0 <= k < |rs| && rs[k].used ensures !Overlaps(rs[k], lo, hi) {
        assert chain[k] in live && allocs[chain[k]] == rs[k];
      }
    }
  }

  lemma CutFacts(nodes: seq<Node>, chain: seq<nat>, p: nat, lists: seq<seq<nat>>, want: nat, size: nat, free: nat)
    requires Chained(nodes, chain) && AllBinned(nodes, chain, lists) && Sound(Regions(nodes, chain), size, free)
    requires p < |chain| && !nodes[chain[p]].used && |nodes| <= UNUSED
    ensures Binned(lists, chain[p], nodes[chain[p]].dataSize)
    ensures nodes[chain[p]].dataSize <= free && nodes[chain[p]].dataSize <= size
    ensures nodes[chain[p]].neighborPrev == PrevIn(chain, p) && nodes[chain[p]].neighborNext == NextIn(chain, p)
    ensures var prev, next := PrevIn(chain, p), NextIn(chain, p);
      && (prev != UNUSED ==> prev < |nodes| && prev != next) && (next != UNUSED ==> next < |nodes|)
  {
    hide Binned, Tiled, FreeBytes;
    ChainNeighbors(nodes, chain, p);
    CarveFits(Regions(nodes, chain), p, 0, size, free);
  }

  /** The pieces of a cut: distinct fresh nodes, in order, the free ones binned. */
  lemma CutMid(nodes: seq<Node>, nodes1: seq<Node>, chain: seq<nat>, p: nat, live: set<nat>, live1: set<nat>, lists1: seq<seq<nat>>,
               offset: nat, size: nat, before: nat, u: nat, after: nat)
    requires Chained(nodes, chain) && p < |chain| && (forall i :: i in live <==> i in chain) && |nodes| <= UNUSED
    requires CutNodes(nodes, nodes1, live - {chain[p]}, live1, lists1, nodes[chain[p]], offset, size, before, u, after)
    requires Covers(RegionOf(nodes[chain[p]]), offset, offset + size)
    ensures var mid := MidOf(before, u, after);
      && mid != [] && Distinct(mid) && AllBinned(nodes1, mid, lists1)
      && (forall k :: 0 <= k < |mid| ==> mid[k] < |nodes|)
      && PrevIn(chain, p) !in mid && NextIn(chain, p) !in mid
      && Regions(nodes1, mid) == Pieces(RegionOf(nodes[chain[p]]), offset, size)
      && Apart(chain, p, p + 1, mid)
      && live1 == live - {chain[p]} + Elements(mid)
  {
    hide Binned;
    var mid := MidOf(before, u, after);
    forall k, m | 0 <= k < |chain| && k != p && 0 <= m < |mid| ensures chain[k] != mid[m] {
      assert chain[k] in chain;
    }
    assert p > 0 ==> chain[p - 1] in chain;
    assert p + 1 < |chain| ==> chain[p + 1] in chain;
  }

  lemma CutKept(nodes: seq<Node>, nodes1: seq<Node>, nodes2: seq<Node>, chain: seq<nat>, p: nat, mid: seq<nat>, k: nat)
    requires Chained(nodes, chain) && p < |chain| && k < |chain| && k != p && |nodes| == |nodes1| <= UNUSED
    requires Rethreaded(nodes1, nodes2, mid, PrevIn(chain, p), NextIn(chain, p)) && chain[k] !in mid
    requires SameRegion(nodes1[chain[k]], nodes[chain[k]])
    ensures Kept(nodes[chain[k]], nodes2[chain[k]], k == p + 1, mid[|mid| - 1], k + 1 == p, mid[0])
  {
    hide RethreadedAt;
    assert chain[k] == NextIn(chain, p) <==> k == p + 1;
    assert chain[k] == PrevIn(chain, p) <==> k + 1 == p;
    var n := nodes2[chain[k]];
  }

  lemma CutRelinked(nodes: seq<Node>, nodes1: seq<Node>, nodes2: seq<Node>, chain: seq<nat>, p: nat, mid: seq<nat>)
    requires Chained(nodes, chain) && p < |chain| && |nodes| == |nodes1| <= UNUSED
    requires Rethreaded(nodes1, nodes2, mid, PrevIn(chain, p), NextIn(chain, p)) && Apart(chain, p, p + 1, mid)
    requires forall j :: 0 <= j < |nodes| && j !in mid ==> SameRegion(nodes1[j], nodes[j])
    ensures GapRelinked(nodes, nodes2, chain, p, p + 1, mid)
  {
    hide Distinct, Kept;
    var prev, next := PrevIn(chain, p), NextIn(chain, p);
    forall m | 0 <= m < |mid|
      ensures nodes2[mid[m]].neighborPrev == GapPrev(chain, p, mid, m) && nodes2[mid[m]].neighborNext == GapNext(chain, p + 1, mid, m)
    {
      assert RethreadedAt(nodes1[mid[m]], nodes2[mid[m]], mid, m, prev, next);
    }
    forall k | 0 <= k < |chain| && !(p <= k < p + 1)
      ensures Kept(nodes[chain[k]], nodes2[chain[k]], k == p + 1, mid[|mid| - 1], k + 1 == p, mid[0])
    {
      CutKept(nodes, nodes1, nodes2, chain, p, mid, k);
    }
  }

  lemma RethreadedKeeps(nodes: seq<Node>, nodes': seq<Node>, mid: seq<nat>, prev: nat, next: nat, lists: seq<seq<nat>>)
    requires Rethreaded(nodes, nodes', mid, prev, next) && AllBinned(nodes, mid, lists)
    ensures AllBinned(nodes', mid, lists) && Regions(nodes', mid) == Regions(nodes, mid)
  {
    hide Binned;
    forall m | 0 <= m < |mid| ensures RegionOf(nodes'[mid[m]]) == RegionOf(nodes[mid[m]]) {
      assert RethreadedAt(nodes[mid[m]], nodes'[mid[m]], mid, m, prev, next);
    }
  }

  lemma PiecesRow(r: Region, offset: nat, size: nat)
    requires !r.used && r.offset <= offset && offset + size <= r.End()
    ensures var ps := Pieces(r, offset, size);
      ps != [] && Tiled(ps, r.offset, r.End()) && Coalesced(ps) && FreeBytes(ps) == r.size - size
  {
    var b := if offset > r.offset then [Region(r.offset, offset - r.offset, false)] else [];
    var u := Region(offset, size, true);
    var a := if r.End() > offset + size then [Region(offset + size, r.End() - (offset + size), false)] else [];
    assert Tiled(b, r.offset, offset) && FreeBytes(b) == offset - r.offset by {
      if b != [] { Single(b[0]); }
    }
    assert Tiled(a, offset + size, r.End()) && FreeBytes(a) == r.End() - (offset + size) by {
      if a != [] { Single(a[0]); }
    }
    Single(u);
    TiledConcat(b, [u], r.offset, offset, offset + size);
    TiledConcat(b + [u], a, r.offset, offset + size, r.End());
    FreeBytesConcat(b, [u]);
    FreeBytesConcat(b + [u], a);
  }

  lemma AfterCut(nodes: seq<Node>, nodes1: seq<Node>, nodes2: seq<Node>, chain: seq<nat>, p: nat, live: set<nat>, live1: set<nat>,
                 lists: seq<seq<nat>>, lists1: seq<seq<nat>>, offset: nat, size: nat, before: nat, u: nat, after: nat, total: nat, free: nat)
    requires Chained(nodes, chain) && p < |chain| && (forall i :: i in live <==> i in chain) && |nodes| <= UNUSED
    requires AllBinned(nodes, chain, lists) && Sound(Regions(nodes, chain), total, free)
    requires CutNodes(nodes, nodes1, live - {chain[p]}, live1, lists1, nodes[chain[p]], offset, size, before, u, after)
    requires Covers(RegionOf(nodes[chain[p]]), offset, offset + size)
    requires Rethreaded(nodes1, nodes2, MidOf(before, u, after), PrevIn(chain, p), NextIn(chain, p))
    requires BinnedKept(lists, lists1, {chain[p]})
    ensures var chain' := Splice(chain, p, p + 1, MidOf(before, u, after));
      && Chained(nodes2, chain') && AllBinned(nodes2, chain', lists1)
      && Sound(Regions(nodes2, chain'), total, free - size)
      && (Solid(Regions(nodes, chain)) && size > 0 ==> Solid(Regions(nodes2, chain')))
      && forall j :: j in live1 <==> j in chain'
  {
    hide Binned, Splice, GapRelinked, Apart, BinnedKept, Sound, Replace, Chained, AllBinned, CutNodes, Rethreaded;
    hide Distinct, Pieces, MidOf, Solid, Positive;
    var c, mid := chain[p], MidOf(before, u, after);
    ChainAt(nodes, chain, p);
    CutMid(nodes, nodes1, chain, p, live, live1, lists1, offset, size, before, u, after);
    CutKeeps(nodes, nodes1, live - {c}, live1, lists1, nodes[c], offset, size, before, u, after);
    CutRelinked(nodes, nodes1, nodes2, chain, p, mid);
    RethreadedKeeps(nodes1, nodes2, mid, PrevIn(chain, p), NextIn(chain, p), lists1);
    assert chain[p..p + 1] == [c];
    AvoidsGap(nodes, chain, p, p + 1, {c});
    AfterGap(nodes, nodes2, chain, p, p + 1, mid, lists, lists1, {c});
    ChainInPool(nodes, chain);
    var rs := Regions(nodes, chain);
    assert rs[p] == RegionOf(nodes[c]);
    PiecesRow(rs[p], offset, size);
    if size > 0 { PiecesPositive(rs[p], offset, size); }
    CarveSound(rs, p, Pieces(rs[p], offset, size), total, free);
    CutElements(nodes, chain, p, mid, live, live1);
  }

  lemma PiecesPositive(r: Region, offset: nat, size: nat)
    requires r.offset <= offset && offset + size <= r.End() && size > 0
    ensures Positive(Pieces(r, offset, size))
  {
  }

  lemma CutKeeps(nodes: seq<Node>, nodes1: seq<Node>, live: set<nat>, live1: set<nat>, lists: seq<seq<nat>>,
                 r: Node, offset: nat, size: nat, before: nat, u: nat, after: nat)
    requires CutNodes(nodes, nodes1, live, live1, lists, r, offset, size, before, u, after) && |nodes| <= UNUSED
    ensures |nodes1| == |nodes|
    ensures forall j :: 0 <= j < |nodes| && j !in MidOf(before, u, after) ==> SameRegion(nodes1[j], nodes[j])
  {
    hide Binned;
    var mid := MidOf(before, u, after);
    assert u in mid && (before != UNUSED ==> before in mid) && (after != UNUSED ==> after in mid) by {
      assert mid[if before == UNUSED then 0 else 1] == u;
      assert before != UNUSED ==> mid[0] == before;
      assert after != UNUSED ==> mid[|mid| - 1] == after;
    }
  }

  lemma CutElements(nodes: seq<Node>, chain: seq<nat>, p: nat, mid: seq<nat>, live: set<nat>, live1: set<nat>)
    requires Chained(nodes, chain) && p < |chain| && (forall i :: i in live <==> i in chain)
    requires live1 == live - {chain[p]} + Elements(mid)
    ensures forall j :: j in live1 <==> j in chain[..p] || j in mid || j in chain[p + 1..]
  {
    assert chain == chain[..p] + [chain[p]] + chain[p + 1..];
    forall j | j in chain && j != chain[p] ensures j in chain[..p] || j in chain[p + 1..] {
    }
  }

  lemma AllocsCut(nodes: seq<Node>, nodes1: seq<Node>, nodes2: seq<Node>, live: set<nat>, live1: set<nat>, lists: seq<seq<nat>>,
                  c: nat, offset: nat, size: nat, before: nat, u: nat, after: nat, prev: nat, next: nat)
    requires c in live && c < |nodes| && !nodes[c].used && |nodes| <= UNUSED
    requires CutNodes(nodes, nodes1, live - {c}, live1, lists, nodes[c], offset, size, before, u, after)
    requires Rethreaded(nodes1, nodes2, MidOf(before, u, after), prev, next)
    ensures u !in AllocsOf(nodes, live)
    ensures AllocsOf(nodes2, live1) == AllocsOf(nodes, live)[u := Region(offset, size, true)]
  {
    hide Binned, CutNodes, Rethreaded;
    AllocsCutOnly(nodes, nodes1, live, live1, lists, c, offset, size, before, u, after);
    RethreadedLinks(nodes1, nodes2, MidOf(before, u, after), prev, next);
    RethreadedSize(nodes1, nodes2, MidOf(before, u, after), prev, next);
  }

  lemma RethreadedSize(nodes: seq<Node>, nodes': seq<Node>, mid: seq<nat>, prev: nat, next: nat)
    requires Rethreaded(nodes, nodes', mid, prev, next)
    ensures |nodes'| == |nodes|
  {
  }

  lemma AllocsCutOnly(nodes: seq<Node>, nodes1: seq<Node>, live: set<nat>, live1: set<nat>, lists: seq<seq<nat>>,
                      c: nat, offset: nat, size: nat, before: nat, u: nat, after: nat)
    requires c in live && c < |nodes| && !nodes[c].used && |nodes| <= UNUSED
    requires CutNodes(nodes, nodes1, live - {c}, live1, lists, nodes[c], offset, size, before, u, after)
    ensures |nodes1| == |nodes|
    ensures u !in AllocsOf(nodes, live)
    ensures AllocsOf(nodes1, live1) == AllocsOf(nodes, live)[u := Region(offset, size, true)]
  {
    hide Binned;
    assert MidOf(before, u, after)[if before == UNUSED then 0 else 1] == u;
  }

  lemma EmptyPool(nodes: seq<Node>, heads: seq<nat>, lists: seq<seq<nat>>, spare: seq<nat>, leaves: seq<nat>)
    requires |nodes| <= UNUSED && |heads| == |lists| == NUM_BINS && |leaves| == 32
    requires forall b :: 0 <= b < NUM_BINS ==> heads[b] == UNUSED && lists[b] == []
    requires forall k :: 0 <= k < |spare| ==> spare[k] == k
    requires forall t :: 0 <= t < 32 ==> leaves[t] == 0
    ensures BinsOk(nodes, heads, lists, {}) && SpareOk(spare, 0, {}) && MapsOk(0, leaves, lists)
  {
    hide RoundDown;
    ZeroHasNoBits(0);
    assert spare[0..] == spare;
    forall i | 0 <= i < |spare| ensures i in spare { assert spare[i] == i; }
  }

  lemma OneNode(nodes: seq<Node>, n: nat, lists: seq<seq<nat>>, size: nat)
    requires n < |nodes| && SameRegion(nodes[n], Node(0, size, UNUSED, UNUSED, UNUSED, UNUSED, false))
    requires RoundDown(size) < |lists| && n in lists[RoundDown(size)]
    ensures Chained(nodes, [n]) && Regions(nodes, [n]) == [Region(0, size, false)]
    ensures Sound(Regions(nodes, [n]), size, size)
    ensures AllBinned(nodes, [n], lists)
  {
    hide RoundDown;
    Single(Region(0, size, false));
  }

  lemma BinFacts(nodes: seq<Node>, heads: seq<nat>, lists: seq<seq<nat>>, live: set<nat>, top: nat, leaves: seq<nat>, b: nat)
    requires BinsOk(nodes, heads, lists, live) && MapsOk(top, leaves, lists) && b < NUM_BINS
    ensures |heads| == |lists| == NUM_BINS && |leaves| == 32 && |nodes| <= UNUSED
    ensures heads[b] == HeadOf(lists[b])
    ensures heads[b] == UNUSED <==> lists[b] == []
    ensures heads[b] == UNUSED || heads[b] < |nodes|
    ensures forall i :: i in lists[b] ==> i in live && i < |nodes| && BinMember(nodes[i], b)
  {
    hide RoundDown;
    assert Linked(nodes, lists[b]) && Members(nodes, lists[b], b, live);
    if lists[b] != [] { assert lists[b][0] < |nodes|; }
  }

  /** Adding a node at the end of the pool disturbs no list. */
  lemma BinsGrow(nodes: seq<Node>, heads: seq<nat>, lists: seq<seq<nat>>, live: set<nat>)
    requires BinsOk(nodes, heads, lists, live) && |nodes| < UNUSED
    ensures BinsOk(nodes + [EMPTY_NODE], heads, lists, live)
  {
    hide RoundDown;
    var nodes' := nodes + [EMPTY_NODE];
    forall b | 0 <= b < NUM_BINS ensures Linked(nodes', lists[b]) && Members(nodes', lists[b], b, live) {
      assert Linked(nodes, lists[b]) && Members(nodes, lists[b], b, live);
    }
  }

  /** A node in no list may change freely. */
  lemma Outside(nodes: seq<Node>, nodes': seq<Node>, heads: seq<nat>, lists: seq<seq<nat>>, live: set<nat>, live': set<nat>, i: nat)
    requires BinsOk(nodes, heads, lists, live) && i !in live && live <= live' && |nodes'| == |nodes|
    requires forall j :: 0 <= j < |nodes| && j != i ==> nodes'[j] == nodes[j]
    ensures BinsOk(nodes', heads, lists, live')
  {
    hide RoundDown;
    forall b | 0 <= b < NUM_BINS ensures Linked(nodes', lists[b]) && Members(nodes', lists[b], b, live') {
      assert Linked(nodes, lists[b]) && Members(nodes, lists[b], b, live);
      BinFrame(nodes, nodes', lists[b], b, live, live');
    }
  }

  lemma UnlinkFacts(nodes: seq<Node>, heads: seq<nat>, lists: seq<seq<nat>>, live: set<nat>, top: nat, leaves: seq<nat>, b: nat, k: nat)
    requires BinsOk(nodes, heads, lists, live) && MapsOk(top, leaves, lists) && b < NUM_BINS && k < |lists[b]|
    ensures var i, list' := lists[b][k], Without(lists[b], k);
      && i < |nodes|
      && nodes[i].binPrev == PrevIn(lists[b], k) && nodes[i].binNext == NextIn(lists[b], k)
      && (nodes[i].binPrev < |nodes| || nodes[i].binPrev == UNUSED)
      && (nodes[i].binNext < |nodes| || nodes[i].binNext == UNUSED)
      && nodes[i].binPrev != i && nodes[i].binNext != i
      && (nodes[i].binPrev == UNUSED <==> k == 0)
      && HeadOf(list') == (if k == 0 then nodes[i].binNext else heads[b])
      && (list' == [] <==> HeadOf(list') == UNUSED)
      && BinsOk(Unlink(nodes, i), heads[b := HeadOf(list')], lists[b := list'], live - {i})
      && Unlink(nodes, i)[i] == nodes[i]
  {
    hide RoundDown;
    UnlinkOk(nodes, heads, lists, live, b, k);
    assert Linked(nodes, lists[b]);
    LinksAt(nodes, lists[b], k);
    var list' := Without(lists[b], k);
    if k > 0 { WithoutAt(lists[b], k, 0); }
    if list' != [] { WithoutAt(lists[b], k, 0); }
  }

  lemma PoolSizes(nodes: seq<Node>, heads: seq<nat>, lists: seq<seq<nat>>, live: set<nat>, spare: seq<nat>, free: nat)
    requires BinsOk(nodes, heads, lists, live) && SpareOk(spare, free, live)
    ensures |heads| == |lists| == NUM_BINS && free <= |spare| && |nodes| <= UNUSED
    ensures forall i :: i in live ==> i < |spare|
  {
  }

  lemma PopFacts(spare: seq<nat>, free: nat, live: set<nat>)
    requires SpareOk(spare, free, live) && free < |spare|
    ensures spare[free] < |spare| && spare[free] !in live
    ensures SpareOk(spare, free + 1, live + {spare[free]})
  {
    PopSpare(spare, free, live);
  }

  lemma {:induction false} ChainSize(chain: seq<nat>, live: set<nat>)
    requires Distinct(chain) && forall i :: i in live <==> i in chain
    ensures |live| == |chain|
  {
    if chain == [] {
      assert live == {};
    } else {
      var last, rest := chain[|chain| - 1], chain[..|chain| - 1];
      assert chain == rest + [last];
      assert last !in rest;
      ChainSize(rest, live - {last});
    }
  }

  /** As many regions are in use as there are allocations. */
  lemma {:induction false} UsedRegions(nodes: seq<Node>, chain: seq<nat>, live: set<nat>)
    requires Distinct(chain) && (forall k :: 0 <= k < |chain| ==> chain[k] < |nodes|)
    requires forall i :: i in live <==> i in chain
    ensures UsedCount(Regions(nodes, chain)) == |AllocsOf(nodes, live)|
  {
    if chain == [] {
      assert AllocsOf(nodes, live) == map[];
    } else {
      var last, rest := chain[|chain| - 1], chain[..|chain| - 1];
      assert chain == rest + [last] && last !in rest;
      UsedRegions(nodes, rest, live - {last});
      var rs, r := Regions(nodes, rest), RegionOf(nodes[last]);
      assert Regions(nodes, chain) == rs + [r];
      hide AllocsOf, Regions;
      FreeBytesConcat(rs, [r]);
      assert UsedCount([r]) == if r.used then 1 else 0;
      AllocsLast(nodes, live, last);
    }
  }

  lemma AllocsLast(nodes: seq<Node>, live: set<nat>, i: nat)
    requires i in live && i < |nodes|
    ensures |AllocsOf(nodes, live)| == |AllocsOf(nodes, live - {i})| + if nodes[i].used then 1 else 0
  {
    var all, some := AllocsOf(nodes, live), AllocsOf(nodes, live - {i});
    if nodes[i].used {
      assert all == some[i := RegionOf(nodes[i])];
    } else {
      assert all == some;
    }
  }

  lemma LargestBinned(nodes: seq<Node>, chain: seq<nat>, heads: seq<nat>, lists: seq<seq<nat>>, live: set<nat>, top: nat, leaves: seq<nat>, k: nat)
    requires Chained(nodes, chain) && AllBinned(nodes, chain, lists) && BinsOk(nodes, heads, lists, live) && MapsOk(top, leaves, lists)
    requires forall i :: i in live <==> i in chain
    requires k < |chain| && !nodes[chain[k]].used
    ensures 0 < top < Pow2(32) && |leaves| == 32 && forall t :: 0 <= t < 32 ==> (Bit(top, t) <==> leaves[t] != 0)
    ensures FloatToUint(RoundDown(nodes[chain[k]].dataSize)) <= FloatToUint(LargestBin(top, leaves))
    ensures exists m :: 0 <= m < |chain| && !Regions(nodes, chain)[m].used && LargestBin(top, leaves) == RoundDown(Regions(nodes, chain)[m].size)
  {
    hide RoundDown, FloatToUint, LargestBin, Bit, Pow2;
    LargestBinGreatest(top, leaves, lists);
    var bin := RoundDown(nodes[chain[k]].dataSize);
    assert lists[bin] != [];
    var best := LargestBin(top, leaves);
    FloatMonotone(best, bin);
    BinFacts(nodes, heads, lists, live, top, leaves, best);
    var i := lists[best][0];
    assert i in lists[best];
    var m :| 0 <= m < |chain| && chain[m] == i;
    assert Regions(nodes, chain)[m] == RegionOf(nodes[i]);
  }

  /** The place of an allocation in the chain. */
  lemma ChainIndex(nodes: seq<Node>, chain: seq<nat>, live: set<nat>, i: nat) returns (p: nat)
    requires (forall k :: 0 <= k < |chain| ==> chain[k] < |nodes|) && i in AllocsOf(nodes, live) && i in chain
    ensures p < |chain| && chain[p] == i && |Regions(nodes, chain)| == |chain| && Regions(nodes, chain)[p] == AllocsOf(nodes, live)[i]
  {
    p :| 0 <= p < |chain| && chain[p] == i;
  }

  lemma ChainAllocs(nodes: seq<Node>, chain: seq<nat>, live: set<nat>, size: nat, free: nat, i: nat, j: nat)
    requires Chained(nodes, chain) && Sound(Regions(nodes, chain), size, free) && forall i :: i in live <==> i in chain
    requires i in AllocsOf(nodes, live) && j in AllocsOf(nodes, live)
    ensures var r, s := AllocsOf(nodes, live)[i], AllocsOf(nodes, live)[j];
      r.End() <= size && (i != j ==> r.End() <= s.offset || s.End() <= r.offset)
  {
    assert i in chain && j in chain && forall k :: 0 <= k < |chain| ==> chain[k] < |nodes|;
    hide Tiled, FreeBytes, Coalesced, Chained, AllocsOf, Regions;
    var rs := Regions(nodes, chain);
    var p := ChainIndex(nodes, chain, live, i);
    var q := ChainIndex(nodes, chain, live, j);
    TiledNext(rs, p, size);
    if p < q { InOrder(rs, p, q, size); }
    if q < p { InOrder(rs, q, p, size); }
  }
}
