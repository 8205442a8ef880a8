/**
  The address space of one allocator as a row of regions, in physical order.
  This is what the node pool, its lists and its bitmaps stand for.
 */
module Layout {

  datatype Region = Region(offset: nat, size: nat, used: bool) {
    function End(): nat { offset + size }
  }

  /** The regions cover `[lo, hi)` without gap or overlap. */
  ghost predicate Tiled(rs: seq<Region>, lo: nat, hi: nat) {
    if rs == [] then lo == hi
    else rs[0].offset == lo && Tiled(rs[1..], lo + rs[0].size, hi)
  }

  /** No two neighbours are both free: every free region is maximal. */
  ghost predicate Coalesced(rs: seq<Region>) {
    forall k :: 0 <= k < |rs| - 1 ==> rs[k].used || rs[k + 1].used
  }

  ghost function FreeBytes(rs: seq<Region>): nat {
    if rs == [] then 0 else (if rs[0].used then 0 else rs[0].size) + FreeBytes(rs[1..])
  }

  ghost function UsedCount(rs: seq<Region>): nat {
    if rs == [] then 0 else (if rs[0].used then 1 else 0) + UsedCount(rs[1..])
  }

  /** Where region `k` starts; the end of the row for `k == |rs|`. */
  ghost function StartOf(rs: seq<Region>, k: nat, hi: nat): nat
    requires k <= |rs|
  {
    if k == |rs| then hi else rs[k].offset
  }

  ghost function Replace(rs: seq<Region>, a: nat, b: nat, mid: seq<Region>): seq<Region>
    requires a <= b <= |rs|
  {
    rs[..a] + mid + rs[b..]
  }

  lemma {:induction false} TiledSplit(rs: seq<Region>, k: nat, lo: nat, hi: nat)
    requires Tiled(rs, lo, hi) && k <= |rs|
    ensures Tiled(rs[..k], lo, StartOf(rs, k, hi)) && Tiled(rs[k..], StartOf(rs, k, hi), hi)
    ensures lo <= StartOf(rs, k, hi) <= hi
  {
    if k == 0 {
      assert rs[..0] == [] && rs[0..] == rs;
      TiledBounds(rs, lo, hi);
    } else {
      TiledSplit(rs[1..], k - 1, lo + rs[0].size, hi);
      assert rs[1..][..k - 1] == rs[..k][1..];
      assert rs[1..][k - 1..] == rs[k..];
    }
  }

  lemma {:induction false} TiledBounds(rs: seq<Region>, lo: nat, hi: nat)
    requires Tiled(rs, lo, hi)
    ensures lo <= hi
  {
    if rs != [] { TiledBounds(rs[1..], lo + rs[0].size, hi); }
  }

  lemma {:induction false} TiledConcat(a: seq<Region>, b: seq<Region>, lo: nat, mid: nat, hi: nat)
    requires Tiled(a, lo, mid) && Tiled(b, mid, hi)
    ensures Tiled(a + b, lo, hi)
  {
    if a == [] {
      assert a + b == b;
    } else {
      TiledConcat(a[1..], b, lo + a[0].size, mid, hi);
      assert (a + b)[1..] == a[1..] + b;
    }
  }

  /** Replacing consecutive regions by others over the same extent keeps the tiling. */
  lemma {:induction false} ReplaceTiled(rs: seq<Region>, a: nat, b: nat, mid: seq<Region>, hi: nat)
    requires a <= b <= |rs| && Tiled(rs, 0, hi)
    requires Tiled(mid, StartOf(rs, a, hi), StartOf(rs, b, hi))
    ensures Tiled(Replace(rs, a, b, mid), 0, hi)
  {
    TiledSplit(rs, a, 0, hi);
    TiledSplit(rs, b, 0, hi);
    TiledConcat(rs[..a], mid, 0, StartOf(rs, a, hi), StartOf(rs, b, hi));
    TiledConcat(rs[..a] + mid, rs[b..], 0, StartOf(rs, b, hi), hi);
  }

  lemma {:induction false} TiledNext(rs: seq<Region>, k: nat, hi: nat)
    requires Tiled(rs, 0, hi) && k < |rs|
    ensures rs[k].End() == StartOf(rs, k + 1, hi) <= hi
  {
    TiledSplit(rs, k, 0, hi);
    TiledSplit(rs, k + 1, 0, hi);
    assert rs[k..][0] == rs[k] && rs[k..][1..] == rs[k + 1..];
    TiledUnique(rs[k + 1..], rs[k].End(), StartOf(rs, k + 1, hi), hi);
  }

  lemma {:induction false} TiledUnique(rs: seq<Region>, lo: nat, lo': nat, hi: nat)
    requires Tiled(rs, lo, hi) && Tiled(rs, lo', hi)
    ensures lo == lo'
  {
  }

  /** An earlier region ends before a later one starts. */
  lemma {:induction false} InOrder(rs: seq<Region>, i: nat, j: nat, hi: nat)
    requires Tiled(rs, 0, hi) && i < j < |rs|
    ensures rs[i].End() <= rs[j].offset
    decreases j
  {
    TiledNext(rs, j - 1, hi);
    if i < j - 1 { InOrder(rs, i, j - 1, hi); }
  }

  /** Every address below the end lies in some region. */
  lemma {:induction false} RegionAt(rs: seq<Region>, lo: nat, hi: nat, x: nat) returns (k: nat)
    requires Tiled(rs, lo, hi) && lo <= x < hi
    ensures k < |rs| && rs[k].offset <= x < rs[k].End()
  {
    if x < rs[0].End() {
      k := 0;
    } else {
      k := RegionAt(rs[1..], lo + rs[0].size, hi, x);
      k := k + 1;
    }
  }

  ghost predicate Covers(r: Region, lo: nat, hi: nat) {
    !r.used && r.offset <= lo && hi <= r.End()
  }

  ghost predicate Overlaps(r: Region, lo: nat, hi: nat) {
    r.offset < hi && lo < r.End()
  }

  ghost predicate RangeFree(rs: seq<Region>, lo: nat, hi: nat) {
    forall k :: 0 <= k < |rs| && rs[k].used ==> !Overlaps(rs[k], lo, hi)
  }

  /** In a coalesced row a range is free exactly when a single free region covers it. */
  lemma {:induction false} FreeIffCovered(rs: seq<Region>, lo: nat, hi: nat, total: nat)
    requires Tiled(rs, 0, total) && Coalesced(rs) && lo < hi
    ensures (exists k :: 0 <= k < |rs| && Covers(rs[k], lo, hi)) <==> hi <= total && RangeFree(rs, lo, hi)
  {
    if exists k :: 0 <= k < |rs| && Covers(rs[k], lo, hi) {
      var k :| 0 <= k < |rs| && Covers(rs[k], lo, hi);
      TiledNext(rs, k, total);
      forall j | 0 <= j < |rs| && rs[j].used ensures !Overlaps(rs[j], lo, hi) {
        if j < k { InOrder(rs, j, k, total); } else { InOrder(rs, k, j, total); }
      }
    }
    if hi <= total && RangeFree(rs, lo, hi) {
      var k := RegionAt(rs, 0, total, lo);
      TiledNext(rs, k, total);
      assert Overlaps(rs[k], lo, hi);
      assert k + 1 < |rs| && rs[k + 1].used ==> !Overlaps(rs[k + 1], lo, hi);
      assert Covers(rs[k], lo, hi);
    }
  }

  /** At most one free region beside each used one, and one more. */
  lemma {:induction false} CountBound(rs: seq<Region>)
    requires Coalesced(rs)
    ensures |rs| <= 2 * UsedCount(rs) + 1
    ensures rs != [] && rs[0].used ==> |rs| <= 2 * UsedCount(rs)
  {
    if rs != [] {
      CountBound(rs[1..]);
    }
  }

  lemma {:induction false} NoneUsed(rs: seq<Region>)
    ensures UsedCount(rs) == 0 <==> forall k :: 0 <= k < |rs| ==> !rs[k].used
  {
    if rs != [] {
      NoneUsed(rs[1..]);
      assert forall k :: 0 < k < |rs| ==> rs[k] == rs[1..][k - 1];
      assert forall k :: 0 <= k < |rs| - 1 ==> rs[1..][k] == rs[k + 1];
    }
  }

  /** With nothing in use a coalesced row is one free region over the whole span. */
  lemma {:induction false} AllFree(rs: seq<Region>, hi: nat)
    requires Tiled(rs, 0, hi) && Coalesced(rs) && rs != []
    requires forall k :: 0 <= k < |rs| ==> !rs[k].used
    ensures rs == [Region(0, hi, false)]
  {
    NoneUsed(rs);
    CountBound(rs);
    assert rs == [rs[0]];
  }

  lemma {:induction false} FreeBytesConcat(a: seq<Region>, b: seq<Region>)
    ensures FreeBytes(a + b) == FreeBytes(a) + FreeBytes(b)
    ensures UsedCount(a + b) == UsedCount(a) + UsedCount(b)
  {
    if a == [] {
      assert a + b == b;
    } else {
      FreeBytesConcat(a[1..], b);
      assert (a + b)[1..] == a[1..] + b;
    }
  }

  lemma {:induction false} ReplaceSums(rs: seq<Region>, a: nat, b: nat, mid: seq<Region>)
    requires a <= b <= |rs|
    ensures FreeBytes(Replace(rs, a, b, mid)) == FreeBytes(rs) - FreeBytes(rs[a..b]) + FreeBytes(mid)
    ensures UsedCount(Replace(rs, a, b, mid)) == UsedCount(rs) - UsedCount(rs[a..b]) + UsedCount(mid)
  {
    FreeBytesConcat(rs[..a] + mid, rs[b..]);
    FreeBytesConcat(rs[..a], mid);
    FreeBytesConcat(rs[..a], rs[a..b]);
    FreeBytesConcat(rs[..a] + rs[a..b], rs[b..]);
    assert rs[..a] + rs[a..b] == rs[..b];
    assert rs[..b] + rs[b..] == rs;
  }

  /** Free space never exceeds the span. */
  lemma {:induction false} FreeWithin(rs: seq<Region>, lo: nat, hi: nat)
    requires Tiled(rs, lo, hi)
    ensures lo + FreeBytes(rs) <= hi
  {
    if rs != [] { FreeWithin(rs[1..], lo + rs[0].size, hi); }
  }

  ghost predicate Positive(rs: seq<Region>) {
    forall k :: 0 <= k < |rs| ==> rs[k].size > 0
  }

  /** No region is empty, unless it is the whole row. */
  ghost predicate Solid(rs: seq<Region>) {
    Positive(rs) || |rs| == 1
  }

  lemma ReplaceSolid(rs: seq<Region>, a: nat, b: nat, mid: seq<Region>)
    requires a < b <= |rs| && Solid(rs) && Positive(mid)
    ensures Solid(Replace(rs, a, b, mid))
  {
    if |rs| > 1 {
      forall k | 0 <= k < |Replace(rs, a, b, mid)| ensures Replace(rs, a, b, mid)[k].size > 0 { ReplaceIndex(rs, a, b, mid, k); }
    } else {
      assert Replace(rs, a, b, mid) == mid;
    }
  }

  // ---- how many regions there are ----

  /** Where the free regions start. */
  ghost function FreeStarts(rs: seq<Region>): set<nat> {
    set k | 0 <= k < |rs| && !rs[k].used :: rs[k].offset
  }

  /** In a row without empty regions each start counts one. */
  lemma {:induction false} RegionCount(rs: seq<Region>, lo: nat, hi: nat)
    requires Tiled(rs, lo, hi) && Positive(rs)
    ensures |rs| == UsedCount(rs) + |FreeStarts(rs)| && forall x :: x in FreeStarts(rs) ==> lo <= x
  {
    if rs == [] {
      assert FreeStarts(rs) == {};
    } else {
      var rest := rs[1..];
      assert forall k :: 0 <= k < |rest| ==> rest[k] == rs[k + 1];
      RegionCount(rest, lo + rs[0].size, hi);
      assert FreeStarts(rs) == FreeStarts(rest) + if rs[0].used then {} else {lo} by {
        forall x | x in FreeStarts(rs) ensures x in FreeStarts(rest) + if rs[0].used then {} else {lo} {
          var k :| 0 <= k < |rs| && !rs[k].used && rs[k].offset == x;
          if k > 0 { assert rest[k - 1].offset == x; }
        }
        forall x | x in FreeStarts(rest) ensures x in FreeStarts(rs) {
          var k :| 0 <= k < |rest| && !rest[k].used && rest[k].offset == x;
          assert rs[k + 1].offset == x;
        }
      }
    }
  }

  ghost predicate UsedStart(rs: seq<Region>, x: nat) {
    exists k :: 0 <= k < |rs| && rs[k].used && rs[k].offset == x
  }

  ghost predicate UsedEnd(rs: seq<Region>, x: nat) {
    exists k :: 0 <= k < |rs| && rs[k].used && rs[k].End() == x
  }

  /** A free region starts exactly where a used one, or nothing, ends and no used one starts. */
  lemma {:induction false} FreeStartIff(rs: seq<Region>, hi: nat, x: nat)
    requires rs != [] && Tiled(rs, 0, hi) && Coalesced(rs) && Positive(rs)
    ensures x in FreeStarts(rs) <==> x < hi && (x == 0 || UsedEnd(rs, x)) && !UsedStart(rs, x)
  {
    hide Tiled;
    if x in FreeStarts(rs) {
      var k :| 0 <= k < |rs| && !rs[k].used && rs[k].offset == x;
      TiledNext(rs, k, hi);
      if k > 0 {
        TiledNext(rs, k - 1, hi);
        assert rs[k - 1].used && rs[k - 1].End() == x;
      } else {
        FirstAt(rs, hi);
      }
      if UsedStart(rs, x) {
        var j :| 0 <= j < |rs| && rs[j].used && rs[j].offset == x;
        InOrder(rs, if j < k then j else k, if j < k then k else j, hi);
      }
    }
    if x < hi && (x == 0 || UsedEnd(rs, x)) && !UsedStart(rs, x) {
      if x == 0 {
        FirstAt(rs, hi);
        assert rs[0].offset == 0;
      } else {
        var k :| 0 <= k < |rs| && rs[k].used && rs[k].End() == x;
        TiledNext(rs, k, hi);
        assert rs[k + 1].offset == x;
      }
    }
  }

  lemma FirstAt(rs: seq<Region>, hi: nat)
    requires rs != [] && Tiled(rs, 0, hi)
    ensures rs[0].offset == 0
  {
  }

  /** What every state of an allocator over `[0, hi)` keeps. */
  ghost predicate Sound(rs: seq<Region>, hi: nat, free: int) {
    rs != [] && Tiled(rs, 0, hi) && Coalesced(rs) && FreeBytes(rs) == free
  }

  /** Splitting up one free region keeps the row sound: its neighbours are in use. */
  lemma {:induction false} CarveSound(rs: seq<Region>, p: nat, mid: seq<Region>, hi: nat, free: nat)
    requires Sound(rs, hi, free) && p < |rs| && !rs[p].used && mid != []
    requires Tiled(mid, rs[p].offset, rs[p].End()) && Coalesced(mid)
    ensures rs[p].size <= free
    ensures Sound(Replace(rs, p, p + 1, mid), hi, free - rs[p].size + FreeBytes(mid))
  {
    TiledNext(rs, p, hi);
    ReplaceTiled(rs, p, p + 1, mid, hi);
    ReplaceSums(rs, p, p + 1, mid);
    assert rs[p..p + 1] == [rs[p]];
    assert FreeBytes(rs[p..p + 1]) == rs[p].size;
    ReplaceSums(rs, p, p + 1, []);
    ReplaceCoalesced(rs, p, p + 1, mid);
  }

  lemma ReplaceCoalesced(rs: seq<Region>, a: nat, b: nat, mid: seq<Region>)
    requires a <= b <= |rs| && Coalesced(rs) && Coalesced(mid) && mid != []
    requires a > 0 ==> rs[a - 1].used || mid[0].used
    requires b < |rs| ==> rs[b].used || mid[|mid| - 1].used
    ensures Coalesced(Replace(rs, a, b, mid))
  {
    var s := Replace(rs, a, b, mid);
    forall k | 0 <= k < |s| - 1 ensures s[k].used || s[k + 1].used {
      ReplaceIndex(rs, a, b, mid, k);
      ReplaceIndex(rs, a, b, mid, k + 1);
      if k >= a + |mid| {
        assert rs[k - a - |mid| + b].used || rs[k - a - |mid| + b + 1].used;
      }
    }
  }

  lemma ReplaceIndex(rs: seq<Region>, a: nat, b: nat, mid: seq<Region>, k: nat)
    requires a <= b <= |rs| && k < |Replace(rs, a, b, mid)|
    ensures Replace(rs, a, b, mid)[k] ==
      if k < a then rs[k] else if k < a + |mid| then mid[k - a] else rs[k - a - |mid| + b]
  {
  }

  lemma Single(r: Region)
    ensures Tiled([r], r.offset, r.End()) && Coalesced([r])
    ensures FreeBytes([r]) == if r.used then 0 else r.size
  {
    assert [r][1..] == [];
  }

  /** Merging a used region with its free neighbours into one free region keeps the row sound. */
  lemma ReleaseSound(rs: seq<Region>, p: nat, a: nat, b: nat, r: Region, hi: nat, free: nat)
    requires Sound(rs, hi, free) && p < |rs| && rs[p].used
    requires a == if p > 0 && !rs[p - 1].used then p - 1 else p
    requires b == if p + 1 < |rs| && !rs[p + 1].used then p + 2 else p + 1
    requires !r.used && r.offset == rs[a].offset
    requires r.size == (if a < p then rs[a].size else 0) + rs[p].size + (if b > p + 1 then rs[p + 1].size else 0)
    ensures Sound(Replace(rs, a, b, [r]), hi, free + rs[p].size)
  {
    hide Tiled, FreeBytes, UsedCount;
    if a < p { TiledNext(rs, a, hi); }
    TiledNext(rs, p, hi);
    if b > p + 1 { TiledNext(rs, p + 1, hi); }
    Single(r);
    assert r.End() == StartOf(rs, b, hi);
    ReplaceTiled(rs, a, b, [r], hi);
    ReplaceSums(rs, a, b, [r]);
    assert a > 0 ==> rs[a - 1].used;
    assert b < |rs| ==> rs[b].used;
    ReplaceCoalesced(rs, a, b, [r]);
    ReleasedSum(rs, p, a, b);
    assert Replace(rs, a, b, [r]) != [];
  }

  lemma MergeSize(rs: seq<Region>, p: nat, a: nat, b: nat, hi: nat, free: nat)
    requires Sound(rs, hi, free) && p < |rs| && rs[p].used
    requires a == if p > 0 && !rs[p - 1].used then p - 1 else p
    requires b == if p + 1 < |rs| && !rs[p + 1].used then p + 2 else p + 1
    ensures var left, right := if a < p then rs[a].size else 0, if b > p + 1 then rs[p + 1].size else 0;
      left + right <= free && left + rs[p].size + right <= hi
  {
    hide Tiled, UsedCount;
    if a < p { TiledNext(rs, a, hi); }
    TiledNext(rs, p, hi);
    if b > p + 1 { TiledNext(rs, p + 1, hi); }
    ReleasedSum(rs, p, a, b);
    ReplaceSums(rs, a, b, []);
  }

  lemma ReleasedSum(rs: seq<Region>, p: nat, a: nat, b: nat)
    requires p < |rs| && rs[p].used
    requires a == if p > 0 && !rs[p - 1].used then p - 1 else p
    requires b == if p + 1 < |rs| && !rs[p + 1].used then p + 2 else p + 1
    ensures FreeBytes(rs[a..b]) == (if a < p then rs[a].size else 0) + (if b > p + 1 then rs[p + 1].size else 0)
  {
    var left, right := if a < p then [rs[a]] else [], if b > p + 1 then [rs[p + 1]] else [];
    assert rs[a..b] == left + [rs[p]] + right;
    FreeBytesConcat(left + [rs[p]], right);
    FreeBytesConcat(left, [rs[p]]);
  }
}
