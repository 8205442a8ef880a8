/**
  The physical-neighbour list threaded through the node pool, and the row of
  regions it spells out.
 */
module Neighbors {
  import opened Bits
  import opened Layout
  import opened NodePool
  import opened Sequences

  function RegionOf(n: Node): Region {
    Region(n.dataOffset, n.dataSize, n.used)
  }

  /** The regions of the nodes in `chain`, in order. */
  ghost function Regions(nodes: seq<Node>, chain: seq<nat>): (rs: seq<Region>)
    requires forall k :: 0 <= k < |chain| ==> chain[k] < |nodes|
    ensures |rs| == |chain|
    ensures forall k :: 0 <= k < |chain| ==> rs[k] == RegionOf(nodes[chain[k]])
  {
    seq(|chain|, k requires 0 <= k < |chain| => RegionOf(nodes[chain[k]]))
  }

  /** `chain` is doubly linked in order through the neighbour links. */
  ghost predicate Chained(nodes: seq<Node>, chain: seq<nat>) {
    && Distinct(chain)
    && (forall k :: 0 <= k < |chain| ==> chain[k] < |nodes|)
    && (forall k {:trigger nodes[chain[k]].neighborPrev} :: 0 <= k < |chain| ==> nodes[chain[k]].neighborPrev == PrevIn(chain, k))
    && (forall k {:trigger nodes[chain[k]].neighborNext} :: 0 <= k < |chain| ==> nodes[chain[k]].neighborNext == NextIn(chain, k))
  }

  ghost function Splice(chain: seq<nat>, a: nat, b: nat, mid: seq<nat>): (s: seq<nat>)
    requires a <= b <= |chain|
    ensures |s| == a + |mid| + |chain| - b
  {
    chain[..a] + mid + chain[b..]
  }

  lemma SpliceIndex(chain: seq<nat>, a: nat, b: nat, mid: seq<nat>, k: nat)
    requires a <= b <= |chain| && k < |Splice(chain, a, b, mid)|
    ensures Splice(chain, a, b, mid)[k] ==
      if k < a then chain[k] else if k < a + |mid| then mid[k - a] else chain[k - a - |mid| + b]
  {
  }

  /** The node before `mid[m]` once `mid` sits between `chain[..a]` and `chain[b..]`. */
  function GapPrev(chain: seq<nat>, a: nat, mid: seq<nat>, m: nat): nat
    requires a <= |chain| && m < |mid|
  {
    if m > 0 then mid[m - 1] else if a == 0 then UNUSED else chain[a - 1]
  }

  function GapNext(chain: seq<nat>, b: nat, mid: seq<nat>, m: nat): nat
    requires b <= |chain| && m < |mid|
  {
    if m + 1 < |mid| then mid[m + 1] else if b == |chain| then UNUSED else chain[b]
  }

  /** `mid` is linked into the gap `chain[a..b]`; the rest is as it was, up to its links into the gap. */
  ghost predicate GapRelinked(nodes: seq<Node>, nodes': seq<Node>, chain: seq<nat>, a: nat, b: nat, mid: seq<nat>)
    requires a <= b <= |chain| && mid != []
  {
    && |nodes'| == |nodes|
    && (forall k :: 0 <= k < |chain| ==> chain[k] < |nodes|)
    && (forall m :: 0 <= m < |mid| ==> mid[m] < |nodes|)
    && (forall m {:trigger nodes'[mid[m]].neighborPrev} :: 0 <= m < |mid| ==> nodes'[mid[m]].neighborPrev == GapPrev(chain, a, mid, m))
    && (forall m {:trigger nodes'[mid[m]].neighborNext} :: 0 <= m < |mid| ==> nodes'[mid[m]].neighborNext == GapNext(chain, b, mid, m))
    && (forall k {:trigger nodes'[chain[k]]} :: 0 <= k < |chain| && !(a <= k < b) ==>
      Kept(nodes[chain[k]], nodes'[chain[k]], k == b, mid[|mid| - 1], k + 1 == a, mid[0]))
  }

  /** `n'` is the region `n`, with only the links that point into a gap changed. */
  ghost predicate Kept(n: Node, n': Node, right: bool, last: nat, left: bool, first: nat) {
    && RegionOf(n') == RegionOf(n)
    && n'.neighborPrev == (if right then last else n.neighborPrev)
    && n'.neighborNext == (if left then first else n.neighborNext)
  }

  lemma SplicePrevAt(nodes: seq<Node>, nodes': seq<Node>, chain: seq<nat>, a: nat, b: nat, mid: seq<nat>, k: nat)
    requires Chained(nodes, chain) && a <= b <= |chain| && mid != []
    requires GapRelinked(nodes, nodes', chain, a, b, mid)
    requires k < |Splice(chain, a, b, mid)|
    ensures var s := Splice(chain, a, b, mid);
      s[k] < |nodes'| && nodes'[s[k]].neighborPrev == PrevIn(s, k)
  {
    hide Splice, Distinct;
    var s := Splice(chain, a, b, mid);
    SpliceIndex(chain, a, b, mid, k);
    if k > 0 { SpliceIndex(chain, a, b, mid, k - 1); }
    if k < a {
      assert nodes'[chain[k]].neighborPrev == nodes[chain[k]].neighborPrev;
    } else if k < a + |mid| {
      assert s[k] == mid[k - a];
    } else {
      var j := k - a - |mid| + b;
      assert s[k] == chain[j] && nodes[chain[j]].neighborPrev == PrevIn(chain, j);
    }
  }

  lemma SpliceNextAt(nodes: seq<Node>, nodes': seq<Node>, chain: seq<nat>, a: nat, b: nat, mid: seq<nat>, k: nat)
    requires Chained(nodes, chain) && a <= b <= |chain| && mid != []
    requires GapRelinked(nodes, nodes', chain, a, b, mid)
    requires k < |Splice(chain, a, b, mid)|
    ensures var s := Splice(chain, a, b, mid);
      s[k] < |nodes'| && nodes'[s[k]].neighborNext == NextIn(s, k)
  {
    hide Splice, Distinct;
    var s := Splice(chain, a, b, mid);
    SpliceIndex(chain, a, b, mid, k);
    if k + 1 < |s| { SpliceIndex(chain, a, b, mid, k + 1); }
    if k < a {
      assert nodes[chain[k]].neighborNext == NextIn(chain, k);
    } else if k < a + |mid| {
      assert s[k] == mid[k - a];
    } else {
      var j := k - a - |mid| + b;
      assert s[k] == chain[j] && nodes[chain[j]].neighborNext == NextIn(chain, j);
    }
  }

  /** `mid` shares no node with what stays of the chain. */
  ghost predicate Apart(chain: seq<nat>, a: nat, b: nat, mid: seq<nat>) {
    forall k, m :: 0 <= k < |chain| && !(a <= k < b) && 0 <= m < |mid| ==> chain[k] != mid[m]
  }

  lemma SpliceDistinct(chain: seq<nat>, a: nat, b: nat, mid: seq<nat>)
    requires a <= b <= |chain| && Distinct(chain) && Distinct(mid)
    requires Apart(chain, a, b, mid)
    ensures Distinct(Splice(chain, a, b, mid))
  {
    var s := Splice(chain, a, b, mid);
    forall i, j | 0 <= i < j < |s| ensures s[i] != s[j] {
      SpliceIndex(chain, a, b, mid, i);
      SpliceIndex(chain, a, b, mid, j);
    }
  }

  /** Replacing a stretch of the chain relinks it, and replaces exactly that stretch of regions. */
  lemma SpliceChained(nodes: seq<Node>, nodes': seq<Node>, chain: seq<nat>, a: nat, b: nat, mid: seq<nat>)
    requires Chained(nodes, chain) && a <= b <= |chain| && mid != [] && Distinct(mid)
    requires GapRelinked(nodes, nodes', chain, a, b, mid)
    requires Apart(chain, a, b, mid)
    ensures Chained(nodes', Splice(chain, a, b, mid))
    ensures Regions(nodes', Splice(chain, a, b, mid)) == Replace(Regions(nodes, chain), a, b, Regions(nodes', mid))
  {
    var s := Splice(chain, a, b, mid);
    SpliceDistinct(chain, a, b, mid);
    forall k | 0 <= k < |s|
      ensures s[k] < |nodes'| && nodes'[s[k]].neighborPrev == PrevIn(s, k) && nodes'[s[k]].neighborNext == NextIn(s, k)
    {
      SplicePrevAt(nodes, nodes', chain, a, b, mid, k);
      SpliceNextAt(nodes, nodes', chain, a, b, mid, k);
    }
    SpliceRegions(nodes, nodes', chain, a, b, mid);
  }

  lemma SpliceRegions(nodes: seq<Node>, nodes': seq<Node>, chain: seq<nat>, a: nat, b: nat, mid: seq<nat>)
    requires a <= b <= |chain| && mid != []
    requires GapRelinked(nodes, nodes', chain, a, b, mid)
    requires forall k :: 0 <= k < |Splice(chain, a, b, mid)| ==> Splice(chain, a, b, mid)[k] < |nodes'|
    ensures Regions(nodes', Splice(chain, a, b, mid)) == Replace(Regions(nodes, chain), a, b, Regions(nodes', mid))
  {
    var s := Splice(chain, a, b, mid);
    var rs, rs' := Regions(nodes', s), Replace(Regions(nodes, chain), a, b, Regions(nodes', mid));
    assert |rs'| == |rs|;
    hide Splice, Replace, GapPrev, GapNext;
    forall k | 0 <= k < |s| ensures rs[k] == rs'[k] {
      SpliceIndex(chain, a, b, mid, k);
      ReplaceIndex(Regions(nodes, chain), a, b, Regions(nodes', mid), k);
    }
  }
}
