/**
  The node pool of the offset allocator as values: the size-bin lists threaded
  through it, the two-level bitmap over the bins, and the stack of spare nodes.
 */
module NodePool {
  import opened Bits
  import opened Sequences
  import opened SmallFloat
  import opened Words

  /** A free or allocated region, linked into a bin list and into the physical order. */
  datatype Node = Node(
    dataOffset: nat,
    dataSize: nat,
    binPrev: nat,
    binNext: nat,
    neighborPrev: nat,
    neighborNext: nat,
    used: bool)

  const EMPTY_NODE := Node(0, 0, UNUSED, UNUSED, UNUSED, UNUSED, false)

  ghost function Without(list: seq<nat>, k: nat): seq<nat>
    requires k < |list|
  {
    list[..k] + list[k + 1..]
  }

  lemma WithoutAt(list: seq<nat>, k: nat, j: nat)
    requires k < |list| && j < |list| - 1
    ensures Without(list, k)[j] == list[if j < k then j else j + 1]
  {
  }

  /** Equal up to the bin links. */
  ghost predicate SameRegion(m: Node, n: Node) {
    m == n.(binPrev := m.binPrev, binNext := m.binNext)
  }

  // ---- one bin list ----

  function PrevIn(list: seq<nat>, k: nat): nat requires k < |list| {
    if k == 0 then UNUSED else list[k - 1]
  }

  function NextIn(list: seq<nat>, k: nat): nat requires k < |list| {
    if k + 1 == |list| then UNUSED else list[k + 1]
  }

  function HeadOf(list: seq<nat>): nat {
    if list == [] then UNUSED else list[0]
  }

  /** `list` is doubly linked in order through the nodes. */
  ghost predicate Linked(nodes: seq<Node>, list: seq<nat>) {
    && Distinct(list)
    && (forall k :: 0 <= k < |list| ==> list[k] < |nodes|)
    && (forall k {:trigger nodes[list[k]].binPrev} :: 0 <= k < |list| ==> nodes[list[k]].binPrev == PrevIn(list, k))
    && (forall k {:trigger nodes[list[k]].binNext} :: 0 <= k < |list| ==> nodes[list[k]].binNext == NextIn(list, k))
  }

  function SetBinNext(nodes: seq<Node>, i: nat, v: nat): (r: seq<Node>)
    requires i < |nodes| || i == UNUSED
    ensures |r| == |nodes|
    ensures forall j :: 0 <= j < |r| ==> r[j] == if j == i && i != UNUSED then nodes[j].(binNext := v) else nodes[j]
  {
    if i == UNUSED then nodes else nodes[i := nodes[i].(binNext := v)]
  }

  function SetBinPrev(nodes: seq<Node>, i: nat, v: nat): (r: seq<Node>)
    requires i < |nodes| || i == UNUSED
    ensures |r| == |nodes|
    ensures forall j :: 0 <= j < |r| ==> r[j] == if j == i && i != UNUSED then nodes[j].(binPrev := v) else nodes[j]
  {
    if i == UNUSED then nodes else nodes[i := nodes[i].(binPrev := v)]
  }

  /** The nodes after node `i` was taken out of its bin list. */
  function Unlink(nodes: seq<Node>, i: nat): (r: seq<Node>)
    requires i < |nodes|
    requires nodes[i].binPrev < |nodes| || nodes[i].binPrev == UNUSED
    requires nodes[i].binNext < |nodes| || nodes[i].binNext == UNUSED
    ensures |r| == |nodes|
  {
    SetBinPrev(SetBinNext(nodes, nodes[i].binPrev, nodes[i].binNext), nodes[i].binNext, nodes[i].binPrev)
  }

  /** The nodes after `n` was written at `i` and put in front of the list headed by `head`. */
  function LinkFront(nodes: seq<Node>, i: nat, n: Node, head: nat): (r: seq<Node>)
    requires i < |nodes| && (head < |nodes| || head == UNUSED)
    ensures |r| == |nodes|
  {
    SetBinPrev(nodes[i := n.(binPrev := UNUSED, binNext := head)], head, i)
  }

  lemma UnlinkAt(nodes: seq<Node>, list: seq<nat>, k: nat, j: nat)
    requires Linked(nodes, list) && |nodes| <= UNUSED
    requires k < |list| && j < |list| - 1
    ensures var list' := Without(list, k);
      var nodes' := SetBinPrev(SetBinNext(nodes, PrevIn(list, k), NextIn(list, k)), NextIn(list, k), PrevIn(list, k));
      && nodes'[list'[j]].binPrev == PrevIn(list', j)
      && nodes'[list'[j]].binNext == NextIn(list', j)
  {
    WithoutAt(list, k, j);
    if j > 0 { WithoutAt(list, k, j - 1); }
    if j + 2 < |list| { WithoutAt(list, k, j + 1); }
  }

  lemma UnlinkLinked(nodes: seq<Node>, list: seq<nat>, k: nat)
    requires Linked(nodes, list) && |nodes| <= UNUSED && k < |list|
    ensures Linked(Unlink(nodes, list[k]), Without(list, k))
    ensures nodes[list[k]].binNext == HeadOf(Without(list, k)) || k > 0
    ensures k > 0 ==> HeadOf(Without(list, k)) == HeadOf(list)
    ensures forall j :: 0 <= j < |nodes| && j !in list ==> Unlink(nodes, list[k])[j] == nodes[j]
  {
    var list' := Without(list, k);
    forall j | 0 <= j < |list'|
      ensures list'[j] < |nodes|
      ensures Unlink(nodes, list[k])[list'[j]].binPrev == PrevIn(list', j)
      ensures Unlink(nodes, list[k])[list'[j]].binNext == NextIn(list', j)
    {
      WithoutAt(list, k, j);
      UnlinkAt(nodes, list, k, j);
    }
    forall a, b | 0 <= a < b < |list'| ensures list'[a] != list'[b] {
      WithoutAt(list, k, a);
      WithoutAt(list, k, b);
    }
  }

  lemma LinkFrontLinked(nodes: seq<Node>, list: seq<nat>, i: nat, n: Node)
    requires Linked(nodes, list) && |nodes| <= UNUSED && i < |nodes| && i !in list
    ensures Linked(LinkFront(nodes, i, n, HeadOf(list)), [i] + list)
    ensures forall j :: 0 <= j < |nodes| && j !in list && j != i ==> LinkFront(nodes, i, n, HeadOf(list))[j] == nodes[j]
  {
    var list', nodes' := [i] + list, LinkFront(nodes, i, n, HeadOf(list));
    forall k | 0 <= k < |list'|
      ensures nodes'[list'[k]].binPrev == PrevIn(list', k) && nodes'[list'[k]].binNext == NextIn(list', k)
    {
      if k > 0 {
        assert list'[k] == list[k - 1];
      }
    }
  }

  // ---- the table of bin lists ----

  ghost predicate BinMember(n: Node, bin: nat) {
    !n.used && n.dataSize < WORD && RoundDown(n.dataSize) == bin
  }

  /** List `bin` holds live free nodes of that bin only. */
  ghost predicate Members(nodes: seq<Node>, list: seq<nat>, bin: nat, live: set<nat>) {
    forall k :: 0 <= k < |list| ==> list[k] in live && list[k] < |nodes| && BinMember(nodes[list[k]], bin)
  }

  ghost predicate BinsOk(nodes: seq<Node>, heads: seq<nat>, lists: seq<seq<nat>>, live: set<nat>) {
    && |heads| == |lists| == NUM_BINS
    && |nodes| <= UNUSED
    && (forall b :: 0 <= b < NUM_BINS ==> heads[b] == HeadOf(lists[b]))
    && (forall b :: 0 <= b < NUM_BINS ==> Linked(nodes, lists[b]))
    && (forall b :: 0 <= b < NUM_BINS ==> Members(nodes, lists[b], b, live))
  }

  /** A list untouched by an update of nodes outside it stays linked. */
  lemma BinFrame(nodes: seq<Node>, nodes': seq<Node>, list: seq<nat>, bin: nat, live: set<nat>, live': set<nat>)
    requires Linked(nodes, list) && Members(nodes, list, bin, live)
    requires |nodes| == |nodes'|
    requires forall i :: i in list ==> nodes'[i] == nodes[i] && i in live'
    ensures Linked(nodes', list) && Members(nodes', list, bin, live')
  {
    hide RoundDown;
  }

  /** Lists of different bins share no node. */
  lemma BinsApart(nodes: seq<Node>, heads: seq<nat>, lists: seq<seq<nat>>, live: set<nat>, b: nat, c: nat, i: nat)
    requires BinsOk(nodes, heads, lists, live)
    requires b < NUM_BINS && c < NUM_BINS && i in lists[b] && i in lists[c]
    ensures b == c
  {
    hide RoundDown;
    assert Members(nodes, lists[b], b, live) && Members(nodes, lists[c], c, live);
  }

  /** Nodes outside list `b` keep every other list as it was. */
  lemma OtherBins(nodes: seq<Node>, nodes': seq<Node>, heads: seq<nat>, lists: seq<seq<nat>>, live: set<nat>, live': set<nat>, b: nat, c: nat)
    requires BinsOk(nodes, heads, lists, live)
    requires b < NUM_BINS && c < NUM_BINS && b != c && |nodes'| == |nodes|
    requires forall j :: 0 <= j < |nodes| && j !in lists[b] && j in live ==> nodes'[j] == nodes[j] && j in live'
    ensures Linked(nodes', lists[c]) && Members(nodes', lists[c], c, live')
  {
    hide RoundDown;
    assert Linked(nodes, lists[c]) && Members(nodes, lists[c], c, live);
    forall j | j in lists[c] ensures nodes'[j] == nodes[j] && j in live' {
      if j in lists[b] { BinsApart(nodes, heads, lists, live, b, c, j); }
    }
    BinFrame(nodes, nodes', lists[c], c, live, live');
  }

  lemma PushFrontMembers(nodes: seq<Node>, list: seq<nat>, b: nat, live: set<nat>, i: nat, n: Node)
    requires Linked(nodes, list) && Members(nodes, list, b, live)
    requires i < |nodes| && i !in live && |nodes| <= UNUSED && BinMember(n, b)
    ensures Members(LinkFront(nodes, i, n, HeadOf(list)), [i] + list, b, live + {i})
  {
    hide RoundDown;
    var nodes', list' := LinkFront(nodes, i, n, HeadOf(list)), [i] + list;
    forall k | 0 <= k < |list'| ensures list'[k] in live + {i} && list'[k] < |nodes'| && BinMember(nodes'[list'[k]], b) {
      if k > 0 { assert list'[k] == list[k - 1]; }
    }
  }

  lemma PushFrontOk(nodes: seq<Node>, heads: seq<nat>, lists: seq<seq<nat>>, live: set<nat>, i: nat, n: Node, b: nat)
    requires BinsOk(nodes, heads, lists, live)
    requires i < |nodes| && i !in live
    requires b < NUM_BINS && BinMember(n, b)
    ensures heads[b] < |nodes| || heads[b] == UNUSED
    ensures BinsOk(LinkFront(nodes, i, n, heads[b]), heads[b := i], lists[b := [i] + lists[b]], live + {i})
  {
    hide RoundDown, LinkFront, Linked, Members;
    assert Linked(nodes, lists[b]) && Members(nodes, lists[b], b, live);
    HeadInPool(nodes, lists[b]);
    var nodes' := LinkFront(nodes, i, n, heads[b]);
    var lists' := lists[b := [i] + lists[b]];
    MembersLive(nodes, lists[b], b, live);
    LinkFrontLinked(nodes, lists[b], i, n);
    PushFrontMembers(nodes, lists[b], b, live, i, n);
    forall c | 0 <= c < NUM_BINS
      ensures Linked(nodes', lists'[c]) && Members(nodes', lists'[c], c, live + {i})
    {
      if c != b { OtherBins(nodes, nodes', heads, lists, live, live + {i}, b, c); }
    }
  }

  lemma HeadInPool(nodes: seq<Node>, list: seq<nat>)
    requires Linked(nodes, list)
    ensures HeadOf(list) < |nodes| || HeadOf(list) == UNUSED
  {
  }

  lemma MembersLive(nodes: seq<Node>, list: seq<nat>, b: nat, live: set<nat>)
    requires Members(nodes, list, b, live)
    ensures forall i :: i in list ==> i in live
  {
    hide RoundDown;
  }

  lemma UnlinkMembers(nodes: seq<Node>, list: seq<nat>, b: nat, live: set<nat>, k: nat)
    requires Linked(nodes, list) && Members(nodes, list, b, live) && k < |list| && |nodes| <= UNUSED
    ensures Members(Unlink(nodes, list[k]), Without(list, k), b, live - {list[k]})
  {
    hide RoundDown;
    var nodes', list' := Unlink(nodes, list[k]), Without(list, k);
    forall j | 0 <= j < |list'|
      ensures list'[j] in live - {list[k]} && list'[j] < |nodes'| && BinMember(nodes'[list'[j]], b)
    {
      WithoutAt(list, k, j);
    }
  }

  lemma LinksAt(nodes: seq<Node>, list: seq<nat>, k: nat)
    requires Linked(nodes, list) && k < |list|
    ensures list[k] < |nodes|
    ensures nodes[list[k]].binPrev == PrevIn(list, k) && nodes[list[k]].binNext == NextIn(list, k)
    ensures nodes[list[k]].binPrev < |nodes| || nodes[list[k]].binPrev == UNUSED
    ensures nodes[list[k]].binNext < |nodes| || nodes[list[k]].binNext == UNUSED
  {
  }

  lemma UnlinkOk(nodes: seq<Node>, heads: seq<nat>, lists: seq<seq<nat>>, live: set<nat>, b: nat, k: nat)
    requires BinsOk(nodes, heads, lists, live)
    requires b < NUM_BINS && k < |lists[b]|
    ensures var i, list' := lists[b][k], Without(lists[b], k);
      && i < |nodes|
      && (nodes[i].binPrev < |nodes| || nodes[i].binPrev == UNUSED)
      && (nodes[i].binNext < |nodes| || nodes[i].binNext == UNUSED)
      && BinsOk(Unlink(nodes, i), heads[b := HeadOf(list')], lists[b := list'], live - {i})
  {
    hide RoundDown, Unlink, Linked, Members;
    assert Linked(nodes, lists[b]) && Members(nodes, lists[b], b, live);
    var i, list' := lists[b][k], Without(lists[b], k);
    LinksAt(nodes, lists[b], k);
    var nodes', lists' := Unlink(nodes, i), lists[b := list'];
    UnlinkLinked(nodes, lists[b], k);
    UnlinkMembers(nodes, lists[b], b, live, k);
    forall c | 0 <= c < NUM_BINS
      ensures Linked(nodes', lists'[c]) && Members(nodes', lists'[c], c, live - {i})
    {
      if c != b { OtherBins(nodes, nodes', heads, lists, live, live - {i}, b, c); }
    }
  }

  /** Unlinking changes bin links only. */
  lemma UnlinkRegions(nodes: seq<Node>, i: nat)
    requires i < |nodes|
    requires nodes[i].binPrev < |nodes| || nodes[i].binPrev == UNUSED
    requires nodes[i].binNext < |nodes| || nodes[i].binNext == UNUSED
    ensures forall j :: 0 <= j < |nodes| ==> SameRegion(Unlink(nodes, i)[j], nodes[j])
  {
  }

  lemma LinkFrontRegions(nodes: seq<Node>, i: nat, n: Node, head: nat)
    requires i < |nodes| && (head < |nodes| || head == UNUSED)
    ensures forall j :: 0 <= j < |nodes| ==> SameRegion(LinkFront(nodes, i, n, head)[j], if j == i then n else nodes[j])
  {
  }

  // ---- the two-level bitmap ----

  /** Both bitmap levels mark exactly the non-empty bins. */
  ghost predicate MapsOk(top: nat, leaves: seq<nat>, lists: seq<seq<nat>>) {
    && |leaves| == 32 && |lists| == NUM_BINS
    && top < Pow2(32)
    && (forall t :: 0 <= t < 32 ==> leaves[t] < Pow2(8))
    && (forall t :: 0 <= t < 32 ==> (Bit(top, t) <==> leaves[t] != 0))
    && (forall t, l :: 0 <= t < 32 && 0 <= l < 8 ==> (Bit(leaves[t], l) <==> lists[8 * t + l] != []))
  }

  lemma MapsAt(top: nat, leaves: seq<nat>, lists: seq<seq<nat>>, b: nat)
    requires MapsOk(top, leaves, lists) && b < NUM_BINS
    ensures Bit(leaves[b / 8], b % 8) <==> lists[b] != []
    ensures lists[b] != [] ==> Bit(top, b / 8)
  {
    assert lists[8 * (b / 8) + b % 8] == lists[b];
    ZeroHasNoBits(leaves[b / 8]);
  }

  lemma {:induction false} MarkBin(top: nat, leaves: seq<nat>, lists: seq<seq<nat>>, b: nat, list: seq<nat>)
    requires MapsOk(top, leaves, lists) && b < NUM_BINS && list != []
    ensures MapsOk(SetBit(top, b / 8), leaves[b / 8 := SetBit(leaves[b / 8], b % 8)], lists[b := list])
    ensures lists[b] != [] ==> MapsOk(top, leaves, lists[b := list])
  {
    hide Bit, Pow2, SetBit;
    var t, l := b / 8, b % 8;
    SetBitBits(top, t, 32);
    SetBitBits(leaves[t], l, 8);
    ZeroHasNoBits(SetBit(leaves[t], l));
    assert Bit(SetBit(leaves[t], l), l);
    var leaves', lists' := leaves[t := SetBit(leaves[t], l)], lists[b := list];
    forall t', l' | 0 <= t' < 32 && 0 <= l' < 8
      ensures Bit(leaves'[t'], l') <==> lists'[8 * t' + l'] != []
      ensures lists[b] != [] ==> (Bit(leaves[t'], l') <==> lists'[8 * t' + l'] != [])
    {
      assert Bit(leaves[t'], l') <==> lists[8 * t' + l'] != [];
      assert 8 * t' + l' == b <==> t' == t && l' == l;
    }
  }

  lemma {:induction false} UnmarkBin(top: nat, leaves: seq<nat>, lists: seq<seq<nat>>, b: nat)
    requires MapsOk(top, leaves, lists) && b < NUM_BINS
    ensures var leaf := ClearBit(leaves[b / 8], b % 8);
      MapsOk(if leaf == 0 then ClearBit(top, b / 8) else top, leaves[b / 8 := leaf], lists[b := []])
  {
    hide Bit, Pow2, ClearBit;
    var t, l := b / 8, b % 8;
    var leaf := ClearBit(leaves[t], l);
    ClearBitBits(leaves[t], l, 8);
    ClearBitBits(top, t, 32);
    ZeroHasNoBits(leaf);
    ZeroHasNoBits(leaves[t]);
    var leaves', lists' := leaves[t := leaf], lists[b := []];
    forall t', l' | 0 <= t' < 32 && 0 <= l' < 8 ensures Bit(leaves'[t'], l') <==> lists'[8 * t' + l'] != [] {
      assert Bit(leaves[t'], l') <==> lists[8 * t' + l'] != [];
      assert 8 * t' + l' == b <==> t' == t && l' == l;
    }
  }

  /** The least non-empty bin at or above `min`, found by two bit scans, or `UNUSED`. */
  function FindBin(top: nat, leaves: seq<nat>, min: nat): nat
    requires |leaves| == 32 && top < Pow2(32) && min <= 240
    requires forall t :: 0 <= t < 32 ==> leaves[t] < Pow2(8)
    requires forall t :: 0 <= t < 32 ==> (Bit(top, t) <==> leaves[t] != 0)
  {
    var minTop, minLeaf := min / 8, min % 8;
    Pow2Monotone(8, 32);
    var leaf := if Bit(top, minTop) then FindLowestSetBitAfter(leaves[minTop], minLeaf) else UNUSED;
    if leaf != UNUSED then 8 * minTop + leaf
    else
      var t := FindLowestSetBitAfter(top, minTop + 1);
      if t == UNUSED then UNUSED else 8 * t + TrailingZeros(leaves[t])
  }

  ghost predicate LeastNonEmpty(lists: seq<seq<nat>>, min: nat, r: nat) {
    && |lists| == NUM_BINS
    && (r == UNUSED ==> forall b :: min <= b < NUM_BINS ==> lists[b] == [])
    && (r != UNUSED ==> min <= r < NUM_BINS && lists[r] != [] && forall b :: min <= b < r ==> lists[b] == [])
  }

  lemma FindBinLeast(top: nat, leaves: seq<nat>, lists: seq<seq<nat>>, min: nat)
    requires MapsOk(top, leaves, lists) && min <= 240
    ensures LeastNonEmpty(lists, min, FindBin(top, leaves, min))
  {
    hide Bit, Pow2, TrailingZeros, FindLowestSetBitAfter;
    var minTop, minLeaf := min / 8, min % 8;
    Pow2Monotone(8, 32);
    var leaf := if Bit(top, minTop) then FindLowestSetBitAfter(leaves[minTop], minLeaf) else UNUSED;
    WidthBits(leaves[minTop], 8);
    var r := FindBin(top, leaves, min);
    if leaf == UNUSED {
      var t := FindLowestSetBitAfter(top, minTop + 1);
      if t != UNUSED {
        TrailingZerosIsFirst(leaves[t]);
        WidthBits(leaves[t], 8);
      }
    }
    if r != UNUSED { MapsAt(top, leaves, lists, r); }
    forall b | min <= b < (if r == UNUSED then NUM_BINS else r) ensures lists[b] == [] {
      MapsAt(top, leaves, lists, b);
    }
  }

  /** The greatest non-empty bin, read off the two highest set bits. */
  function LargestBin(top: nat, leaves: seq<nat>): nat
    requires |leaves| == 32 && 0 < top < Pow2(32)
    requires forall t :: 0 <= t < 32 ==> (Bit(top, t) <==> leaves[t] != 0)
  {
    HighestBitIsLast(top);
    WidthBits(top, 32);
    8 * HighestBit(top) + HighestBit(leaves[HighestBit(top)])
  }

  lemma LargestBinGreatest(top: nat, leaves: seq<nat>, lists: seq<seq<nat>>)
    requires MapsOk(top, leaves, lists)
    ensures top == 0 ==> forall b :: 0 <= b < NUM_BINS ==> lists[b] == []
    ensures top > 0 ==>
      var r := LargestBin(top, leaves);
      r < NUM_BINS && lists[r] != [] && forall b :: r < b < NUM_BINS ==> lists[b] == []
  {
    hide Bit, Pow2, HighestBit;
    ZeroHasNoBits(top);
    WidthBits(top, 32);
    if top > 0 {
      HighestBitIsLast(top);
      var t := HighestBit(top);
      HighestBitIsLast(leaves[t]);
      WidthBits(leaves[t], 8);
      MapsAt(top, leaves, lists, LargestBin(top, leaves));
    }
    forall b | (if top == 0 then -1 else LargestBin(top, leaves)) < b < NUM_BINS ensures lists[b] == [] {
      MapsAt(top, leaves, lists, b);
    }
  }

  // ---- the stack of spare nodes ----

  /** The pool's indices split exactly between the live nodes and the spare stack. */
  ghost predicate SpareOk(spare: seq<nat>, free: nat, live: set<nat>) {
    && free <= |spare|
    && |live| == free
    && (forall i :: i in live ==> i < |spare|)
    && (forall k :: free <= k < |spare| ==> spare[k] < |spare| && spare[k] !in live)
    && (forall j, k :: free <= j < k < |spare| ==> spare[j] != spare[k])
    && (forall i :: 0 <= i < |spare| ==> i in live || i in spare[free..])
  }

  lemma PopSpare(spare: seq<nat>, free: nat, live: set<nat>)
    requires SpareOk(spare, free, live) && free < |spare|
    ensures SpareOk(spare, free + 1, live + {spare[free]})
  {
    var i := spare[free];
    forall j | 0 <= j < |spare| ensures j in live + {i} || j in spare[free + 1..] {
      if j !in live && j != i {
        var k :| free <= k < |spare| && spare[k] == j;
        assert spare[free + 1..][k - free - 1] == j;
      }
    }
  }

  lemma PushSpare(spare: seq<nat>, free: nat, live: set<nat>, i: nat)
    requires SpareOk(spare, free, live) && i in live
    ensures free > 0
    ensures SpareOk(spare[free - 1 := i], free - 1, live - {i})
  {
    assert |live - {i}| == |live| - 1;
    var spare' := spare[free - 1 := i];
    forall j | 0 <= j < |spare| ensures j in live - {i} || j in spare'[free - 1..] {
      if j == i {
        assert spare'[free - 1..][0] == i;
      } else if j !in live {
        var k :| free <= k < |spare| && spare[k] == j;
        assert spare'[free - 1..][k - free + 1] == j;
      }
    }
  }

  lemma GrowSpare(spare: seq<nat>, free: nat, live: set<nat>)
    requires SpareOk(spare, free, live)
    ensures SpareOk(spare + [|spare|], free, live)
  {
    var spare' := spare + [|spare|];
    forall j | 0 <= j < |spare'| ensures j in live || j in spare'[free..] {
      if j == |spare| {
        assert spare'[free..][|spare| - free] == j;
      } else if j !in live {
        var k :| free <= k < |spare| && spare[k] == j;
        assert spare'[free..][k - free] == j;
      }
    }
  }
}
