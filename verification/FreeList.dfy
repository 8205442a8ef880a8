/**
  A segment as free regions and live ranges, both keyed by offset: together they
  tile it, and free regions are coalesced as far as they go.
 */
module FreeLists {

  type Ranges = map<nat, nat>

  ghost predicate Covers(m: Ranges, b: nat) {
    exists o :: o in m && o <= b < o + m[o]
  }

  /** Ranges are nonempty, inside the segment and pairwise apart. */
  ghost predicate Apart(m: Ranges, capacity: nat) {
    && (forall o :: o in m ==> 0 < m[o] && o + m[o] <= capacity)
    && (forall o, p :: o in m && p in m && o < p ==> o + m[o] <= p)
  }

  ghost predicate NoneAdjacent(free: Ranges) {
    forall o, p :: o in free && p in free ==> o + free[o] != p
  }

  /** Every byte is free or live, never both; adjacent free regions are merged. */
  ghost predicate Partition(free: Ranges, live: Ranges, capacity: nat) {
    && Apart(free, capacity) && Apart(live, capacity) && NoneAdjacent(free)
    && NoOverlap(free, live)
    && (forall b: nat :: b < capacity ==> Covers(free, b) || Covers(live, b))
  }

  ghost predicate NoOverlap(free: Ranges, live: Ranges) {
    forall o, p :: o in free && p in live ==> o + free[o] <= p || p + live[p] <= o
  }

  // ---- what coalescing gives ----

  /** The region that holds a free byte. */
  lemma RegionAt(m: Ranges, b: nat) returns (o: nat)
    requires Covers(m, b)
    ensures o in m && o <= b < o + m[o]
  {
    o :| o in m && o <= b < o + m[o];
  }

  /** A range is free throughout exactly when one region holds all of it. */
  lemma FreeRange(free: Ranges, live: Ranges, capacity: nat, lo: nat, hi: nat)
    requires Partition(free, live, capacity) && lo < hi
    ensures (forall b :: lo <= b < hi ==> Covers(free, b)) <==> exists o :: o in free && o <= lo && hi <= o + free[o]
  {
    if forall b :: lo <= b < hi ==> Covers(free, b) {
      assert Covers(free, lo);
      var o := RegionAt(free, lo);
      if o + free[o] < hi {
        assert Covers(free, o + free[o]);
        var p := RegionAt(free, o + free[o]);
      }
    }
    if o :| o in free && o <= lo && hi <= o + free[o] {
      forall b | lo <= b < hi ensures Covers(free, b) { assert o <= b < o + free[o]; }
    }
  }

  /** With nothing live, the whole segment is one free region. */
  lemma AllFree(free: Ranges, capacity: nat)
    requires Partition(free, map[], capacity)
    ensures free == if capacity == 0 then map[] else map[0 := capacity]
  {
    if capacity > 0 {
      assert Covers(free, 0);
      var o := RegionAt(free, 0);
      if free[0] < capacity {
        assert Covers(free, free[0]);
        var p := RegionAt(free, free[0]);
      }
      assert forall p :: p in free ==> p == 0;
    }
  }

  /** A range that may be handed out: free throughout, and not empty. */
  ghost predicate RangeFree(free: Ranges, lo: nat, size: nat) {
    size > 0 && forall b :: lo <= b < lo + size ==> Covers(free, b)
  }

  // ---- taking and giving back ----

  /** The free regions after `[lo, hi)` is cut out of region `o`. */
  function Cut(free: Ranges, o: nat, lo: nat, hi: nat): Ranges
    requires o in free && o <= lo < hi <= o + free[o]
  {
    var rest := free - {o};
    var left := if o < lo then rest[o := lo - o] else rest;
    if hi < o + free[o] then left[hi := o + free[o] - hi] else left
  }

  lemma CutShape(free: Ranges, o: nat, lo: nat, hi: nat)
    requires o in free && o <= lo < hi <= o + free[o]
    ensures forall p :: p in Cut(free, o, lo, hi) <==> (p in free && p != o) || (p == o && o < lo) || (p == hi && hi < o + free[o])
    ensures forall p :: p in free && p != o && p != hi ==> p in Cut(free, o, lo, hi) && Cut(free, o, lo, hi)[p] == free[p]
    ensures o < lo ==> Cut(free, o, lo, hi)[o] == lo - o
    ensures hi < o + free[o] ==> Cut(free, o, lo, hi)[hi] == o + free[o] - hi
  {
  }

  lemma CoverBy(m: Ranges, o: nat, b: nat)
    requires o in m && o <= b < o + m[o]
    ensures Covers(m, b)
  {
  }

  lemma CutFree(free: Ranges, capacity: nat, o: nat, lo: nat, hi: nat)
    requires Apart(free, capacity) && NoneAdjacent(free) && o in free && o <= lo < hi <= o + free[o]
    ensures Apart(Cut(free, o, lo, hi), capacity) && NoneAdjacent(Cut(free, o, lo, hi))
  {
    hide Apart, NoneAdjacent, Cut;
    var c := Cut(free, o, lo, hi);
    forall p | p in c ensures 0 < c[p] && p + c[p] <= capacity { CutBound(free, capacity, o, lo, hi, p); }
    forall p, q | p in c && q in c && p < q ensures p + c[p] < q { CutPair(free, capacity, o, lo, hi, p, q); }
    Spread(c, capacity);
  }

  lemma CutBound(free: Ranges, capacity: nat, o: nat, lo: nat, hi: nat, p: nat)
    requires Apart(free, capacity) && NoneAdjacent(free) && o in free && o <= lo < hi <= o + free[o] && p in Cut(free, o, lo, hi)
    ensures 0 < Cut(free, o, lo, hi)[p] && p + Cut(free, o, lo, hi)[p] <= capacity
  {
    CutShape(free, o, lo, hi);
    ApartHi(free, capacity, o, hi);
    hide Cut, NoneAdjacent;
  }

  lemma CutPair(free: Ranges, capacity: nat, o: nat, lo: nat, hi: nat, p: nat, q: nat)
    requires Apart(free, capacity) && NoneAdjacent(free) && o in free && o <= lo < hi <= o + free[o]
    requires p in Cut(free, o, lo, hi) && q in Cut(free, o, lo, hi) && p < q
    ensures p + Cut(free, o, lo, hi)[p] < q
  {
    CutShape(free, o, lo, hi);
    ApartHi(free, capacity, o, hi);
    hide Cut, Apart, NoneAdjacent;
    var p0: nat, q0: nat := if p == hi then o else p, if q == hi then o else q;
    if p0 < q0 { Distance(free, capacity, p0, q0); }
    if q0 < p0 { Distance(free, capacity, q0, p0); }
  }

  lemma CutLive(free: Ranges, live: Ranges, capacity: nat, o: nat, lo: nat, hi: nat)
    requires Partition(free, live, capacity) && o in free && o <= lo < hi <= o + free[o]
    ensures lo !in live && Apart(live[lo := hi - lo], capacity) && NoOverlap(Cut(free, o, lo, hi), live[lo := hi - lo])
  {
    LiveClear(free, live, capacity, o, lo, hi);
    var c, live' := Cut(free, o, lo, hi), live[lo := hi - lo];
    forall p, q | p in c && q in live' ensures p + c[p] <= q || q + live'[q] <= p { CutApart(free, live, capacity, o, lo, hi, p, q); }
  }

  /** Live ranges keep clear of a free region. */
  lemma LiveClear(free: Ranges, live: Ranges, capacity: nat, o: nat, lo: nat, hi: nat)
    requires Partition(free, live, capacity) && o in free && o <= lo < hi <= o + free[o]
    ensures lo !in live && hi <= capacity && forall q :: q in live ==> q + live[q] <= lo || hi <= q
  {
    hide Covers, NoneAdjacent;
  }

  lemma CutApart(free: Ranges, live: Ranges, capacity: nat, o: nat, lo: nat, hi: nat, p: nat, q: nat)
    requires Partition(free, live, capacity) && o in free && o <= lo < hi <= o + free[o]
    requires p in Cut(free, o, lo, hi) && q in live[lo := hi - lo]
    ensures p + Cut(free, o, lo, hi)[p] <= q || q + live[lo := hi - lo][q] <= p
  {
    CutShape(free, o, lo, hi);
    ApartHi(free, capacity, o, hi);
    var p0: nat := if p == hi then o else p;
    if q != lo { assert p0 + free[p0] <= q || q + live[q] <= p0; }
    hide Cut, Covers, NoOverlap, Apart;
    if p0 < o { Distance(free, capacity, p0, o); }
    if o < p0 { Distance(free, capacity, o, p0); }
  }

  lemma CutCovers(free: Ranges, live: Ranges, o: nat, lo: nat, hi: nat, b: nat)
    requires o in free && o <= lo < hi <= o + free[o] && hi !in free && (Covers(free, b) || Covers(live, b)) && lo !in live
    ensures Covers(Cut(free, o, lo, hi), b) || Covers(live[lo := hi - lo], b)
  {
    var free', live' := Cut(free, o, lo, hi), live[lo := hi - lo];
    CutShape(free, o, lo, hi);
    hide Cut, Covers;
    if lo <= b < hi {
      CoverBy(live', lo, b);
    } else if Covers(live, b) {
      var p := RegionAt(live, b);
      CoverBy(live', p, b);
    } else {
      var p := RegionAt(free, b);
      CoverBy(free', if p != o then p else if b < lo then o else hi, b);
    }
  }

  lemma CutOk(free: Ranges, live: Ranges, capacity: nat, o: nat, lo: nat, hi: nat)
    requires Partition(free, live, capacity) && o in free && o <= lo < hi <= o + free[o]
    ensures lo !in live && Partition(Cut(free, o, lo, hi), live[lo := hi - lo], capacity)
  {
    hide Cut, Covers, Apart, NoneAdjacent, NoOverlap;
    CutFree(free, capacity, o, lo, hi);
    CutLive(free, live, capacity, o, lo, hi);
    ApartHi(free, capacity, o, hi);
    forall b: nat | b < capacity ensures Covers(Cut(free, o, lo, hi), b) || Covers(live[lo := hi - lo], b) {
      CutCovers(free, live, o, lo, hi, b);
    }
  }

  /** No other region starts inside region `o`. */
  lemma ApartHi(free: Ranges, capacity: nat, o: nat, hi: nat)
    requires Apart(free, capacity) && NoneAdjacent(free) && o in free && o < hi <= o + free[o]
    ensures hi !in free
  {
  }

  /** The free regions after `[lo, hi)` joins them: it absorbs the region before and the region after where they touch. */
  function Joined(free: Ranges, lo: nat, hi: nat, before: nat, after: nat): Ranges
    requires lo < hi
    requires before != lo ==> before in free && before < lo && before + free[before] == lo
    requires after != hi ==> hi in free && after == hi + free[hi]
  {
    (free - {before, hi})[before := after - before]
  }

  lemma JoinShape(free: Ranges, lo: nat, hi: nat, before: nat, after: nat)
    requires lo < hi && (before != lo ==> before in free && before < lo && before + free[before] == lo)
    requires (after != hi ==> hi in free && after == hi + free[hi])
    ensures forall p :: p in Joined(free, lo, hi, before, after) <==> p == before || (p in free && p != hi)
    ensures forall p :: p in free && p != before && p != hi ==> Joined(free, lo, hi, before, after)[p] == free[p]
    ensures Joined(free, lo, hi, before, after)[before] == after - before
  {
  }

  /** What is known of the place a live range is given back to. */
  ghost predicate Fits(free: Ranges, live: Ranges, lo: nat, hi: nat, before: nat, after: nat) {
    && lo < hi && lo in live && live[lo] == hi - lo
    && (if before == lo then forall p :: p in free ==> p + free[p] != lo else before in free && before < lo && before + free[before] == lo)
    && (if after == hi then hi !in free else hi in free && after == hi + free[hi])
  }

  lemma JoinFree(free: Ranges, live: Ranges, capacity: nat, lo: nat, hi: nat, before: nat, after: nat)
    requires Partition(free, live, capacity) && Fits(free, live, lo, hi, before, after)
    ensures Apart(Joined(free, lo, hi, before, after), capacity) && NoneAdjacent(Joined(free, lo, hi, before, after))
  {
    hide Joined, Partition;
    var j := Joined(free, lo, hi, before, after);
    forall p | p in j ensures 0 < j[p] && p + j[p] <= capacity { JoinBound(free, live, capacity, lo, hi, before, after, p); }
    forall p, q | p in j && q in j && p < q ensures p + j[p] < q { JoinPair(free, live, capacity, lo, hi, before, after, p, q); }
    Spread(j, capacity);
  }

  lemma Spread(j: Ranges, capacity: nat)
    requires (forall p :: p in j ==> 0 < j[p] && p + j[p] <= capacity) && forall p, q :: p in j && q in j && p < q ==> p + j[p] < q
    ensures Apart(j, capacity) && NoneAdjacent(j)
  {
  }

  lemma JoinBound(free: Ranges, live: Ranges, capacity: nat, lo: nat, hi: nat, before: nat, after: nat, p: nat)
    requires Partition(free, live, capacity) && Fits(free, live, lo, hi, before, after) && p in Joined(free, lo, hi, before, after)
    ensures 0 < Joined(free, lo, hi, before, after)[p] && p + Joined(free, lo, hi, before, after)[p] <= capacity
  {
    JoinShape(free, lo, hi, before, after);
    LiveIn(live, capacity, lo);
    hide Joined, Covers, NoOverlap;
  }

  lemma LiveIn(live: Ranges, capacity: nat, lo: nat)
    requires Apart(live, capacity) && lo in live
    ensures lo + live[lo] <= capacity
  {
  }

  /** Free regions keep a distance. */
  lemma Distance(free: Ranges, capacity: nat, p: nat, q: nat)
    requires Apart(free, capacity) && NoneAdjacent(free) && p in free && q in free && p < q
    ensures p + free[p] < q
  {
  }

  lemma JoinPair(free: Ranges, live: Ranges, capacity: nat, lo: nat, hi: nat, before: nat, after: nat, p: nat, q: nat)
    requires Partition(free, live, capacity) && Fits(free, live, lo, hi, before, after)
    requires p in Joined(free, lo, hi, before, after) && q in Joined(free, lo, hi, before, after) && p < q
    ensures p + Joined(free, lo, hi, before, after)[p] < q
  {
    JoinShape(free, lo, hi, before, after);
    if p != before { assert p + free[p] <= lo || hi <= p; }
    if q != before { assert q + free[q] <= lo || hi <= q; }
    hide Joined, Covers, NoOverlap;
    if p != before && q != before {
      Distance(free, capacity, p, q);
    } else if p == before {
      if after != hi && hi < q { Distance(free, capacity, hi, q); }
      if before != lo { Distance(free, capacity, before, q); }
    } else {
      if before != lo { Distance(free, capacity, p, before); }
    }
  }

  lemma JoinLive(free: Ranges, live: Ranges, capacity: nat, lo: nat, hi: nat, before: nat, after: nat)
    requires Partition(free, live, capacity) && Fits(free, live, lo, hi, before, after)
    ensures Apart(live - {lo}, capacity) && NoOverlap(Joined(free, lo, hi, before, after), live - {lo})
  {
    JoinShape(free, lo, hi, before, after);
    hide Joined, Covers, NoneAdjacent;
  }

  lemma JoinOk(free: Ranges, live: Ranges, capacity: nat, lo: nat, hi: nat, before: nat, after: nat)
    requires Partition(free, live, capacity) && Fits(free, live, lo, hi, before, after)
    ensures Partition(Joined(free, lo, hi, before, after), live - {lo}, capacity)
  {
    hide Joined, Covers, Apart, NoneAdjacent, NoOverlap;
    JoinFree(free, live, capacity, lo, hi, before, after);
    JoinLive(free, live, capacity, lo, hi, before, after);
    LiveNotFree(free, live, capacity, lo);
    forall b: nat | b < capacity ensures Covers(Joined(free, lo, hi, before, after), b) || Covers(live - {lo}, b) {
      JoinCovers(free, live, lo, hi, before, after, b);
    }
  }

  lemma LiveNotFree(free: Ranges, live: Ranges, capacity: nat, lo: nat)
    requires Partition(free, live, capacity) && lo in live
    ensures lo !in free && live[lo] > 0
  {
  }

  lemma JoinCovers(free: Ranges, live: Ranges, lo: nat, hi: nat, before: nat, after: nat, b: nat)
    requires Fits(free, live, lo, hi, before, after) && lo !in free && (Covers(free, b) || Covers(live, b))
    ensures Covers(Joined(free, lo, hi, before, after), b) || Covers(live - {lo}, b)
  {
    JoinShape(free, lo, hi, before, after);
    hide Joined, Covers;
    if before <= b < after {
      CoverBy(Joined(free, lo, hi, before, after), before, b);
    } else if Covers(live, b) {
      var p := RegionAt(live, b);
      CoverBy(live - {lo}, p, b);
    } else {
      var p := RegionAt(free, b);
      CoverBy(Joined(free, lo, hi, before, after), p, b);
    }
  }

  // ---- sums ----

  ghost function Total(m: Ranges): nat {
    if m == map[] then 0
    else
      var o :| o in m;
      m[o] + Total(m - {o})
  }

  lemma {:induction false} TotalRemove(m: Ranges, o: nat)
    requires o in m
    ensures Total(m) == m[o] + Total(m - {o})
    decreases |m|
  {
    var p :| p in m && Total(m) == m[p] + Total(m - {p});
    if p != o {
      TotalRemove(m - {p}, o);
      TotalRemove(m - {o}, p);
      assert m - {p} - {o} == m - {o} - {p};
    }
  }

  lemma {:induction false} TotalAdd(m: Ranges, o: nat, size: nat)
    requires o !in m
    ensures Total(m[o := size]) == Total(m) + size
  {
    TotalRemove(m[o := size], o);
    assert m[o := size] - {o} == m;
  }
}
