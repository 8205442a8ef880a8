/**
  The master's segments: one buffer allocator each, and the strategy that places
  an object's replicas on distinct segments. `Fleet()` is what they stand for.
 */
module Fleets {
  import opened Buffers
  import opened MasterSpec
  import opened Segments
  import opened Sequences
  import opened SmallFloat

  datatype Outcome<+T> = Ok(value: T) | Err(error: ErrorCode)

  datatype Strategy = Random | FreeRatioFirst

  datatype ErrorCode =
    | ObjectNotFound
    | ObjectAlreadyExists
    | ObjectNotReady
    | SegmentNotFound
    | NoAvailableSegment
    | InvalidReplica
    | UnsafeReuse(violation: Violation)

  // ---- the fleet as a row of segments ----

  ghost predicate UniqueNames(views: seq<Segment>) {
    forall i, j :: 0 <= i < j < |views| ==> views[i].name != views[j].name
  }

  /** Segments by name. */
  ghost function FleetOf(views: seq<Segment>): map<string, Segment> {
    if views == [] then map[]
    else
      var n := |views| - 1;
      FleetOf(views[..n])[views[n].name := views[n]]
  }

  /** Names in mount order. */
  ghost function Names(views: seq<Segment>): (names: seq<string>)
    ensures |names| == |views| && forall i :: 0 <= i < |views| ==> names[i] == views[i].name
  {
    seq(|views|, i requires 0 <= i < |views| => views[i].name)
  }

  /** A row of segments by name, as they are in a fleet. */
  ghost function ViewsOf(f: map<string, Segment>, names: seq<string>): (views: seq<Segment>)
    ensures |views| == |names| && forall i :: 0 <= i < |names| ==> views[i] == if names[i] in f then f[names[i]] else Segment(names[i], 0, map[])
  {
    seq(|names|, i requires 0 <= i < |names| => if names[i] in f then f[names[i]] else Segment(names[i], 0, map[]))
  }

  lemma {:induction false} ViewsBack(views: seq<Segment>)
    requires UniqueNames(views)
    ensures ViewsOf(FleetOf(views), Names(views)) == views
  {
    hide UniqueNames, FleetOf;
    forall i | 0 <= i < |views| ensures ViewsOf(FleetOf(views), Names(views))[i] == views[i] {
      FleetAt(views, views[i].name);
    }
  }

  lemma {:induction false} FleetAt(views: seq<Segment>, n: string)
    requires UniqueNames(views)
    ensures n in FleetOf(views) <==> exists i :: 0 <= i < |views| && views[i].name == n
    ensures forall i :: 0 <= i < |views| && views[i].name == n ==> n in FleetOf(views) && FleetOf(views)[n] == views[i]
  {
    if views != [] {
      var m := |views| - 1;
      FleetAt(views[..m], n);
      if n in FleetOf(views[..m]) {
        var i :| 0 <= i < m && views[..m][i].name == n;
        assert views[i].name == n;
      }
    }
  }

  lemma {:induction false} FleetSnoc(views: seq<Segment>, v: Segment)
    requires UniqueNames(views)
    ensures UniqueNames(views + [v]) <==> v.name !in FleetOf(views)
    ensures FleetOf(views + [v]) == FleetOf(views)[v.name := v]
  {
    FleetAt(views, v.name);
    assert (views + [v])[..|views|] == views;
    assert FleetOf(views + [v]) == FleetOf(views)[v.name := v];
    hide FleetOf;
    UniqueSnoc(views, v);
  }

  lemma UniqueSnoc(views: seq<Segment>, v: Segment)
    requires UniqueNames(views)
    ensures UniqueNames(views + [v]) <==> forall i :: 0 <= i < |views| ==> views[i].name != v.name
  {
    var all := views + [v];
    if i :| 0 <= i < |views| && views[i].name == v.name { assert all[i].name == all[|views|].name; }
  }

  lemma {:induction false} FleetUpdate(views: seq<Segment>, i: nat, v: Segment)
    requires UniqueNames(views) && i < |views| && v.name == views[i].name
    ensures UniqueNames(views[i := v])
    ensures FleetOf(views[i := v]) == FleetOf(views)[v.name := v]
  {
    var views' := views[i := v];
    forall n ensures n in FleetOf(views') <==> n in FleetOf(views)[v.name := v]
      ensures n in FleetOf(views') ==> FleetOf(views')[n] == FleetOf(views)[v.name := v][n]
    {
      FleetAt(views, n);
      FleetAt(views', n);
      if exists k :: 0 <= k < |views| && views[k].name == n {
        var k :| 0 <= k < |views| && views[k].name == n;
        assert views'[k].name == n;
      }
    }
  }

  ghost function Drop1(views: seq<Segment>, i: nat): seq<Segment>
    requires i < |views|
  {
    views[..i] + views[i + 1..]
  }

  lemma Drop1At(views: seq<Segment>, i: nat, k: nat)
    requires i < |views| && k < |views| - 1
    ensures Drop1(views, i)[k] == views[if k < i then k else k + 1]
  {
  }

  lemma Drop1Names(views: seq<Segment>, i: nat)
    requires UniqueNames(views) && i < |views|
    ensures UniqueNames(Drop1(views, i))
  {
    var views' := Drop1(views, i);
    forall a, b | 0 <= a < b < |views'| ensures views'[a].name != views'[b].name {
      Drop1At(views, i, a);
      Drop1At(views, i, b);
    }
  }

  lemma {:induction false} FleetRemoveAt(views: seq<Segment>, i: nat, n: string)
    requires UniqueNames(views) && i < |views|
    ensures n in FleetOf(Drop1(views, i)) <==> n in FleetOf(views) && n != views[i].name
    ensures n in FleetOf(Drop1(views, i)) ==> FleetOf(Drop1(views, i))[n] == FleetOf(views)[n]
  {
    hide FleetOf, Drop1;
    var views' := Drop1(views, i);
    Drop1Names(views, i);
    FleetAt(views, n);
    FleetAt(views', n);
    Drop1Size(views, i);
    if n in FleetOf(views') {
      var k :| 0 <= k < |views'| && views'[k].name == n;
      Drop1At(views, i, k);
    }
    if n in FleetOf(views) && n != views[i].name {
      var k :| 0 <= k < |views| && views[k].name == n;
      Drop1At(views, i, if k < i then k else k - 1);
    }
  }

  lemma Drop1Size(views: seq<Segment>, i: nat)
    requires i < |views|
    ensures |Drop1(views, i)| == |views| - 1
  {
  }

  lemma {:induction false} FleetRemove(views: seq<Segment>, i: nat)
    requires UniqueNames(views) && i < |views|
    ensures UniqueNames(Drop1(views, i))
    ensures FleetOf(Drop1(views, i)) == FleetOf(views) - {views[i].name}
  {
    hide FleetOf, Drop1;
    Drop1Names(views, i);
    forall n ensures n in FleetOf(Drop1(views, i)) <==> n in FleetOf(views) && n != views[i].name
      ensures n in FleetOf(Drop1(views, i)) ==> FleetOf(Drop1(views, i))[n] == FleetOf(views)[n]
    {
      FleetRemoveAt(views, i, n);
    }
  }

  lemma {:induction false} FleetSums(views: seq<Segment>)
    requires UniqueNames(views)
    ensures CapacitySum(FleetOf(views)) == SeqCapacity(views)
    ensures AllocatedSum(FleetOf(views)) == SeqAllocated(views)
  {
    hide Segment.Allocated;
    if views != [] {
      var m := |views| - 1;
      FleetSums(views[..m]);
      FleetAt(views[..m], views[m].name);
      CapacitySumAdd(FleetOf(views[..m]), views[m].name, views[m]);
      AllocatedSumAdd(FleetOf(views[..m]), views[m].name, views[m]);
    }
  }

  ghost function SeqCapacity(views: seq<Segment>): nat {
    if views == [] then 0 else SeqCapacity(views[..|views| - 1]) + views[|views| - 1].capacity
  }

  ghost function SeqAllocated(views: seq<Segment>): nat {
    if views == [] then 0 else SeqAllocated(views[..|views| - 1]) + views[|views| - 1].Allocated()
  }

  /** `s` is an arrangement of the elements of `cs`. */
  ghost predicate Arranges(s: seq<nat>, cs: seq<nat>) {
    |s| == |cs| && Distinct(s) && (forall i :: i in s <==> i in cs)
  }

  /** The share of a segment that is free. */
  ghost function Ratio(s: Segment): real {
    var free := s.capacity as int - s.Allocated() as int;
    if s.capacity == 0 then 0.0 else free as real / s.capacity as real
  }

  /** Segment `a` comes before `b`: more of it is free, or as much and it was mounted before. */
  ghost predicate Emptier(views: seq<Segment>, a: nat, b: nat)
    requires a < |views| && b < |views|
  {
    Ratio(views[a]) > Ratio(views[b]) || (Ratio(views[a]) == Ratio(views[b]) && a < b)
  }

  /** In bytes, without division: a smaller part of its capacity is allocated, or the same and it was mounted before. */
  lemma EmptierMeans(views: seq<Segment>, a: nat, b: nat)
    requires a < |views| && b < |views| && views[a].capacity > 0 && views[b].capacity > 0
    ensures var x, y := views[a].Allocated() * views[b].capacity, views[b].Allocated() * views[a].capacity;
      Emptier(views, a, b) <==> x < y || (x == y && a < b)
  {
    var p, q := views[a].Allocated(), views[b].Allocated();
    CrossMultiply(views[a].capacity - p, views[a].capacity, views[b].capacity - q, views[b].capacity);
  }

  lemma CrossMultiply(p: int, c: nat, q: int, d: nat)
    requires c > 0 && d > 0
    ensures p as real / c as real > q as real / d as real <==> p * d > q * c
    ensures p as real / c as real == q as real / d as real <==> p * d == q * c
  {
    var r, s, cr, dr := p as real / c as real, q as real / d as real, c as real, d as real;
    assert r * cr == p as real && s * dr == q as real;
    assert (p * d) as real == r * cr * dr && (q * c) as real == s * dr * cr;
    Scale(r, s, cr * dr);
    assert s * dr * cr == s * (cr * dr) && r * cr * dr == r * (cr * dr);
  }

  lemma Scale(r: real, s: real, f: real)
    requires f > 0.0
    ensures (r > s <==> r * f > s * f) && (r == s <==> r * f == s * f)
  {
  }

  ghost predicate EmptiestFirst(views: seq<Segment>, order: seq<nat>) {
    && (forall k :: 0 <= k < |order| ==> order[k] < |views|)
    && (forall j, k :: 0 <= j < k < |order| ==> Emptier(views, order[j], order[k]))
  }

  ghost predicate Ascends(cs: seq<nat>) {
    forall j, k :: 0 <= j < k < |cs| ==> cs[j] < cs[k]
  }

  /** The preferred segment moved to the front, if it is there; the rest hold their order. */
  ghost predicate PreferredFirst(views: seq<Segment>, base: seq<nat>, preferred: Option<string>, order: seq<nat>) {
    || (order == base && (preferred.None? || forall k :: 0 <= k < |base| ==> !Named(views, base[k], preferred.value)))
    || (preferred.Some? && exists k :: 0 <= k < |base| && Named(views, base[k], preferred.value) && order == ToFront(base, k))
  }

  ghost predicate Named(views: seq<Segment>, i: nat, name: string) {
    i < |views| && views[i].name == name
  }

  /** The order in which a strategy tries its candidates. */
  ghost predicate Tried(strategy: Strategy, views: seq<Segment>, cs: seq<nat>, preferred: Option<string>, order: seq<nat>) {
    exists base :: Sorted(strategy, views, cs, base) && PreferredFirst(views, base, preferred, order)
  }

  /** The candidates in mount order, or emptiest first if the strategy asks for it. */
  ghost predicate Sorted(strategy: Strategy, views: seq<Segment>, cs: seq<nat>, base: seq<nat>) {
    if strategy == Random then base == cs else Arranges(base, cs) && EmptiestFirst(views, base)
  }

  /** Of two candidates the one before the other in the order is the earlier mounted, or the emptier. */
  lemma SortedAt(strategy: Strategy, views: seq<Segment>, cs: seq<nat>, base: seq<nat>, a: nat, b: nat)
    requires Sorted(strategy, views, cs, base) && Ascends(cs)
    ensures Distinct(base) && forall i :: i in base <==> i in cs
    ensures a < b < |base| ==> if strategy == Random then base[a] < base[b]
      else base[a] < |views| && base[b] < |views| && Emptier(views, base[a], base[b])
  {
    hide Emptier;
  }

  /** The segments, by place, that can serve a request and are not excluded. */
  ghost function Serving(views: seq<Segment>, size: nat, excluded: set<string>): set<nat> {
    set i: nat | i < |views| && HasRoom(views[i], size) && views[i].name !in excluded
  }

  /** Buffers on the first segments that a strategy tries, one on each. */
  ghost predicate Chosen(strategy: Strategy, views: seq<Segment>, size: nat, excluded: set<string>, preferred: Option<string>, bs: seq<Buffer>) {
    exists cs, order ::
      && Ascends(cs) && (forall i :: i in cs <==> i in Serving(views, size, excluded))
      && Tried(strategy, views, cs, preferred, order) && |bs| <= |order|
      && forall k :: 0 <= k < |bs| ==> Named(views, order[k], bs[k].segment)
  }

  /** A preferred segment that can serve gets the first buffer. */
  lemma {:induction false} PreferredServed(strategy: Strategy, views: seq<Segment>, size: nat, excluded: set<string>,
      p: string, bs: seq<Buffer>, i: nat)
    requires UniqueNames(views) && Chosen(strategy, views, size, excluded, Some(p), bs) && bs != []
    requires i in Serving(views, size, excluded) && views[i].name == p
    ensures bs[0].segment == p
  {
    hide UniqueNames, HasRoom, Ascends, Sorted, Tried;
    var cs, base, order := ChosenParts(strategy, views, size, excluded, Some(p), bs);
    SortedAt(strategy, views, cs, base, 0, 0);
    assert i in base;
    var k :| 0 <= k < |base| && base[k] == i;
    assert Named(views, base[k], p);
  }

  lemma ChosenParts(strategy: Strategy, views: seq<Segment>, size: nat, excluded: set<string>, preferred: Option<string>, bs: seq<Buffer>)
      returns (cs: seq<nat>, base: seq<nat>, order: seq<nat>)
    requires Chosen(strategy, views, size, excluded, preferred, bs)
    ensures Ascends(cs) && (forall i :: i in cs <==> i in Serving(views, size, excluded)) && Sorted(strategy, views, cs, base)
    ensures PreferredFirst(views, base, preferred, order) && |bs| <= |order| && forall k :: 0 <= k < |bs| ==> Named(views, order[k], bs[k].segment)
  {
    hide Ascends, Serving, Sorted, PreferredFirst, Named;
    cs, order :|
      && Ascends(cs) && (forall i :: i in cs <==> i in Serving(views, size, excluded))
      && Tried(strategy, views, cs, preferred, order) && |bs| <= |order|
      && forall k :: 0 <= k < |bs| ==> Named(views, order[k], bs[k].segment);
    base :| Sorted(strategy, views, cs, base) && PreferredFirst(views, base, preferred, order);
  }

  /** A place a buffer was put on. */
  ghost predicate Used(views: seq<Segment>, bs: seq<Buffer>, i: nat) {
    exists k :: 0 <= k < |bs| && Named(views, i, bs[k].segment)
  }

  /**
    Of two segments that can serve, one used and the other not, the one used comes first:
    the emptier, or by strategy the one mounted before; but for the preferred one.
   */
  lemma {:induction false} UsedFirst(strategy: Strategy, views: seq<Segment>, size: nat, excluded: set<string>, preferred: Option<string>,
      bs: seq<Buffer>, i: nat, j: nat)
    requires UniqueNames(views) && Chosen(strategy, views, size, excluded, preferred, bs)
    requires i in Serving(views, size, excluded) && j in Serving(views, size, excluded)
    requires Used(views, bs, i) && !Used(views, bs, j) && preferred != Some(views[i].name)
    ensures if strategy == Random then i < j else Emptier(views, i, j)
  {
    hide HasRoom, UniqueNames, Ascends, Sorted, Tried, Chosen, PreferredFirst, Emptier, Distinct;
    var cs, base, order := ChosenParts(strategy, views, size, excluded, preferred, bs);
    SortedAt(strategy, views, cs, base, 0, 0);
    assert i in base && j in base;
    var a :| 0 <= a < |base| && base[a] == i;
    var b :| 0 <= b < |base| && base[b] == j;
    var k :| 0 <= k < |bs| && Named(views, i, bs[k].segment);
    assert order[k] == i by { SameName(views, order[k], i); }
    if b < a { EarlierUsed(views, base, preferred, order, bs, a, b, k); }
    SortedAt(strategy, views, cs, base, a, b);
  }

  /** What is before a used segment in the order is used. */
  lemma {:induction false} EarlierUsed(views: seq<Segment>, base: seq<nat>, preferred: Option<string>, order: seq<nat>,
      bs: seq<Buffer>, a: nat, b: nat, k: nat)
    requires PreferredFirst(views, base, preferred, order) && Distinct(base) && b < a < |base| && k < |bs| <= |order| && order[k] == base[a]
    requires preferred.Some? ==> !Named(views, base[a], preferred.value)
    requires forall k :: 0 <= k < |bs| ==> Named(views, order[k], bs[k].segment)
    ensures Used(views, bs, base[b])
  {
    hide Named;
    var q := b;
    if order != base {
      var f :| 0 <= f < |base| && Named(views, base[f], preferred.value) && order == ToFront(base, f);
      FrontArranges(base, base, f);
      FrontAt(base, f, a);
      FrontAt(base, f, b);
      hide ToFront;
      q := if b == f then 0 else if b < f then b + 1 else b;
    }
    assert Named(views, order[q], bs[q].segment);
  }

  lemma FrontAt(s: seq<nat>, k: nat, i: nat)
    requires k < |s| && i < |s|
    ensures |ToFront(s, k)| == |s| && ToFront(s, k)[if i == k then 0 else if i < k then i + 1 else i] == s[i]
  {
  }

  lemma SameName(views: seq<Segment>, i: nat, j: nat)
    requires UniqueNames(views) && i < |views| && j < |views| && views[i].name == views[j].name
    ensures i == j
  {
  }

  lemma InsertSorted(views: seq<Segment>, order: seq<nat>, x: nat, p: nat)
    requires EmptiestFirst(views, order) && p <= |order| && x < |views| && forall j :: 0 <= j < |order| ==> order[j] < x
    requires forall j :: p <= j < |order| ==> Ratio(views[order[j]]) < Ratio(views[x])
    requires p > 0 ==> Ratio(views[order[p - 1]]) >= Ratio(views[x])
    ensures EmptiestFirst(views, InsertAt(order, p, x))
  {
    hide Ratio, InsertAt;
    var order' := InsertAt(order, p, x);
    InsertAtIndex(order, p, x, 0);
    forall i | 0 <= i < |order'| ensures order'[i] < |views| { InsertAtIndex(order, p, x, i); }
    forall i, j | 0 <= i < j < |order'| ensures Emptier(views, order'[i], order'[j]) {
      InsertAtIndex(order, p, x, i);
      InsertAtIndex(order, p, x, j);
      if i < p - 1 && j == p { assert Emptier(views, order[i], order[p - 1]); }
    }
  }

  lemma InsertArranges(order: seq<nat>, cs: seq<nat>, k: nat, p: nat)
    requires k < |cs| && Distinct(cs) && Arranges(order, cs[..k]) && p <= |order|
    ensures Arranges(InsertAt(order, p, cs[k]), cs[..k + 1])
  {
    var order' := InsertAt(order, p, cs[k]);
    assert cs[..k + 1] == cs[..k] + [cs[k]];
    assert cs[k] !in cs[..k];
    assert order == order[..p] + order[p..];
    forall x ensures x in order' <==> x in cs[..k + 1] {
    }
    hide InsertAt;
    InsertAtIndex(order, p, cs[k], 0);
    forall i, j | 0 <= i < j < |order'| ensures order'[i] != order'[j] {
      InsertAtIndex(order, p, cs[k], i);
      InsertAtIndex(order, p, cs[k], j);
    }
  }

  function ToFront(s: seq<nat>, k: nat): seq<nat>
    requires k < |s|
  {
    [s[k]] + s[..k] + s[k + 1..]
  }

  lemma FrontArranges(s: seq<nat>, cs: seq<nat>, k: nat)
    requires Arranges(s, cs) && k < |s|
    ensures Arranges(ToFront(s, k), cs)
  {
    var f := ToFront(s, k);
    assert s == s[..k] + [s[k]] + s[k + 1..];
    forall i, j | 0 <= i < j < |f| ensures f[i] != f[j] {
      assert f[i] == if i == 0 then s[k] else if i <= k then s[i - 1] else s[i];
      assert f[j] == if j <= k then s[j - 1] else s[j];
    }
    forall x ensures x in f <==> x in s {
    }
  }

  lemma {:induction false} HoldNone(f: map<string, Segment>)
    ensures HoldAll(f, [], []) == f
  {
  }

  lemma TakeableSame(f: map<string, Segment>, f0: map<string, Segment>, b: Buffer, extent: nat)
    requires Takeable(f, b, extent) && b.segment in f0 && f[b.segment] == f0[b.segment]
    ensures Takeable(f0, b, extent)
  {
  }

  lemma {:induction false} HoldOneMore(f: map<string, Segment>, bs: seq<Buffer>, es: seq<nat>, b: Buffer, e: nat)
    requires |bs| == |es| && (forall i :: 0 <= i < |bs| ==> bs[i].segment in f) && b.segment in f
    requires b.segment in HoldAll(f, bs, es)
    ensures HoldAll(f, bs + [b], es + [e]) == Hold1(HoldAll(f, bs, es), b, e)
  {
    assert (bs + [b])[..|bs|] == bs && (es + [e])[..|es|] == es;
  }

  lemma TakenApart(views: seq<Segment>, order: seq<nat>, bs: seq<Buffer>)
    requires UniqueNames(views) && Distinct(order) && |bs| <= |order| && forall k :: 0 <= k < |order| ==> order[k] < |views|
    requires forall k :: 0 <= k < |bs| ==> bs[k].segment == views[order[k]].name
    ensures DistinctSegments(bs)
  {
    forall i, j | 0 <= i < j < |bs| ensures bs[i].segment != bs[j].segment {
      assert order[i] != order[j];
      assert views[if order[i] < order[j] then order[i] else order[j]].name != views[if order[i] < order[j] then order[j] else order[i]].name;
    }
  }

  lemma {:induction false} IndexSet(cs: seq<nat>, s: set<nat>)
    requires (forall j, k :: 0 <= j < k < |cs| ==> cs[j] < cs[k]) && forall i :: i in cs <==> i in s
    ensures |s| == |cs|
  {
    if cs == [] {
      assert s == {};
    } else {
      var n := |cs| - 1;
      assert cs == cs[..n] + [cs[n]];
      assert cs[n] !in cs[..n];
      IndexSet(cs[..n], s - {cs[n]});
    }
  }

  class SegmentState {
    const strategy: Strategy
    /** Mounted segments, in mount order. */
    var allocators: seq<OffsetBufferAllocator>
    var nextReplicaId: nat
    /** What each allocator stands for, and the objects they are made of. */
    ghost var views: seq<Segment>
    ghost var parts: set<object>

    ghost predicate Valid()
      reads this, parts
    {
      && this !in parts && |views| == |allocators|
      && (forall i :: 0 <= i < |allocators| ==> AllocatorOk(i))
      && (forall i, j :: 0 <= i < j < |allocators| ==> allocators[i].Repr() !! allocators[j].Repr())
      && UniqueNames(views)
    }

    /** The allocator at `i` is of its own making, whatever names the others have. */
    ghost predicate Own(i: nat)
      reads this, parts
    {
      && this !in parts && i < |allocators| == |views| && AllocatorOk(i)
      && forall j :: 0 <= j < |allocators| && j != i ==> allocators[i].Repr() !! allocators[j].Repr()
    }

    ghost predicate AllocatorOk(i: nat)
      requires i < |allocators| == |views|
      reads this, parts
    {
      var a := allocators[i];
      && a.Repr() <= parts && a in a.Repr() && a.Valid()
      && a.view == views[i] && a.segmentName == views[i].name
    }

    /** The mounted segments by name. */
    ghost function Fleet(): map<string, Segment>
      reads this
    {
      FleetOf(views)
    }

    lemma ViewsAgree()
      requires Valid()
      ensures ViewsOf(Fleet(), Names(views)) == views
    {
      hide FleetOf;
      ViewsBack(views);
    }

    constructor (strategy: Strategy)
      ensures Valid() && fresh(parts) && this.strategy == strategy && Fleet() == map[] && nextReplicaId == 0 && views == []
    {
      this.strategy := strategy;
      allocators, nextReplicaId, views, parts := [], 0, [], {};
    }

    /** The allocator of a segment, if it is mounted. */
    method Find(name: string) returns (i: nat)
      requires Valid()
      ensures i <= |allocators| == |views|
      ensures i < |allocators| ==> views[i].name == name && name in Fleet() && Fleet()[name] == views[i]
      ensures i == |allocators| ==> name !in Fleet()
    {
      hide OffsetBufferAllocator.Valid, OffsetBufferAllocator.Repr, FleetOf;
      FleetAt(views, name);
      i := 0;
      while i < |allocators| && allocators[i].segmentName != name
        invariant i <= |allocators| && forall k :: 0 <= k < i ==> views[k].name != name
      {
        assert AllocatorOk(i);
        i := i + 1;
      }
      if i < |allocators| { assert AllocatorOk(i); }
    }

    method Capacity() returns (total: nat)
      requires Valid()
      ensures total == CapacitySum(Fleet())
    {
      hide OffsetBufferAllocator.Valid, OffsetBufferAllocator.Repr, FleetOf;
      total := 0;
      for i := 0 to |allocators|
        invariant total == SeqCapacity(views[..i])
      {
        assert AllocatorOk(i);
        var c := allocators[i].Capacity();
        assert views[..i + 1][..i] == views[..i];
        total := total + c;
      }
      assert views[..|allocators|] == views;
      FleetSums(views);
    }

    method Allocated() returns (total: nat)
      requires Valid()
      ensures total == AllocatedSum(Fleet())
    {
      hide OffsetBufferAllocator.Valid, OffsetBufferAllocator.Repr, FleetOf, Segment.Allocated;
      total := 0;
      for i := 0 to |allocators|
        invariant total == SeqAllocated(views[..i])
      {
        assert AllocatorOk(i);
        var c := allocators[i].Allocated();
        assert views[..i + 1][..i] == views[..i];
        total := total + c;
      }
      assert views[..|allocators|] == views;
      FleetSums(views);
    }

    /** Give one range back, if its segment is mounted. */
    method FreeOne(b: Buffer)
      requires Valid()
      modifies this`views, parts
      ensures Valid() && allocators == old(allocators) && parts == old(parts)
      ensures Fleet() == FreedIn(old(Fleet()), b) && Names(views) == old(Names(views))
    {
      hide OffsetBufferAllocator.Valid, OffsetBufferAllocator.Repr, FleetOf;
      var i := Find(b.segment);
      if i < |allocators| {
        assert AllocatorOk(i);
        allocators[i].Deallocate(b);
        forall j | 0 <= j < |allocators| && j != i ensures AllocatorOk(j) {
          assert old(AllocatorOk(j));
          assert allocators[if i < j then i else j].Repr() !! allocators[if i < j then j else i].Repr();
        }
        Touched(i);
      }
    }

    /** Give the ranges of an object's replicas back. */
    method FreeReplicas(replicas: ReplicaList)
      requires Valid()
      modifies this`views, parts
      ensures Valid() && allocators == old(allocators) && parts == old(parts)
      ensures Fleet() == Release(old(Fleet()), BuffersOf(replicas)) && Names(views) == old(Names(views))
    {
      hide OffsetBufferAllocator.Valid, OffsetBufferAllocator.Repr, AllocatorOk, FleetOf, Release, BuffersOf;
      ghost var f0 := Fleet();
      var rest := replicas.Keys;
      ReleaseNone(f0);
      EmptyBuffers();
      assert replicas - rest == map[];
      while rest != {}
        invariant Valid() && allocators == old(allocators) && parts == old(parts) && Names(views) == old(Names(views))
        invariant rest <= replicas.Keys
        invariant Fleet() == Release(f0, BuffersOf(replicas - rest))
      {
        var id :| id in rest;
        BuffersStep(replicas, rest, id);
        match replicas[id].data {
          case Memory(buffer) =>
            ReleaseMore(f0, BuffersOf(replicas - rest), buffer);
            FreeOne(buffer);
          case Disk(_, _) =>
        }
        rest := rest - {id};
      }
      assert replicas - rest == replicas;
    }

    /** Mount a segment. The name is not checked, and segments stay apart exactly when it was not mounted. */
    method Mount(name: string, capacity: nat)
      requires Valid()
      modifies this
      ensures Valid() <==> name !in old(Fleet())
      ensures Fleet() == old(Fleet())[name := Segment(name, capacity, map[])] && nextReplicaId == old(nextReplicaId)
      ensures parts >= old(parts) && fresh(parts - old(parts))
      ensures views == old(views) + [Segment(name, capacity, map[])]
      ensures |allocators| == |old(allocators)| + 1 && allocators[..|old(allocators)|] == old(allocators)
      ensures forall i :: 0 <= i < |allocators| ==> Own(i)
    {
      hide OffsetBufferAllocator.Valid, FleetOf, UniqueNames;
      assert forall i :: 0 <= i < |allocators| ==> AllocatorOk(i);
      FleetSnoc(views, Segment(name, capacity, map[]));
      var a := new OffsetBufferAllocator(name, capacity);
      allocators := allocators + [a];
      parts := parts + a.Repr();
      views := views + [Segment(name, capacity, map[])];
      forall i | 0 <= i < |allocators| ensures AllocatorOk(i) {
        if i < |old(allocators)| { assert old(AllocatorOk(i)); }
      }
      forall i, j | 0 <= i < j < |allocators| ensures allocators[i].Repr() !! allocators[j].Repr() {
        assert old(AllocatorOk(i));
      }
    }

    /** Drop a segment's allocator. */
    method Unmount(name: string)
      requires Valid() && name in Fleet()
      modifies this
      ensures Valid() && nextReplicaId == old(nextReplicaId) && parts == old(parts)
      ensures Fleet() == old(Fleet()) - {name}
      ensures exists i :: 0 <= i < |old(views)| && Named(old(views), i, name) && views == Drop1(old(views), i)
    {
      hide OffsetBufferAllocator.Valid, OffsetBufferAllocator.Repr, FleetOf;
      ghost var was, views0 := allocators, views;
      assert forall k :: 0 <= k < |allocators| ==> AllocatorOk(k);
      var i := Find(name);
      assert Named(views, i, name);
      FleetRemove(views, i);
      allocators := allocators[..i] + allocators[i + 1..];
      views := Drop1(views, i);
      forall k | 0 <= k < |allocators| ensures AllocatorOk(k) {
        Drop1At(views0, i, k);
        assert old(AllocatorOk(if k < i then k else k + 1));
      }
    }

    /** Reserve an exact range in a segment, as recovery does. */
    method Reserve(b: Buffer) returns (r: Outcome<()>)
      requires Valid()
      modifies this`views, parts
      ensures Valid() && allocators == old(allocators) && parts == old(parts)
      ensures r.Err? && r.error == SegmentNotFound <==> b.segment !in old(Fleet())
      ensures r.Err? ==> Fleet() == old(Fleet()) && (r.error == SegmentNotFound || r.error == InvalidReplica)
      ensures Names(views) == old(Names(views))
      ensures r.Ok? ==> Fleet() == Hold1(old(Fleet()), b, b.size)
      ensures r.Ok? <==> RangeFree(old(Fleet()), b) && NodesToSpare(old(Fleet())[b.segment])
    {
      hide OffsetBufferAllocator.Valid, OffsetBufferAllocator.Repr, Segment.Free, FleetOf;
      ghost var f0 := Fleet();
      var i := Find(b.segment);
      if i == |allocators| {
        return Err(SegmentNotFound);
      }
      assert AllocatorOk(i);
      ReserveRoom(allocators[i]);
      var ok := allocators[i].Reserve(b.offset, b.size);
      forall j | 0 <= j < |allocators| && j != i ensures AllocatorOk(j) {
        assert old(AllocatorOk(j));
        assert allocators[if i < j then i else j].Repr() !! allocators[if i < j then j else i].Repr();
      }
      Touched(i);
      if !ok {
        assert Fleet() == f0;
        return Err(InvalidReplica);
      }
      return Ok(());
    }

    /** Hand out the next replica id. */
    method NextId() returns (id: nat)
      requires Valid()
      modifies this`nextReplicaId
      ensures Valid() && id == old(nextReplicaId) && nextReplicaId == id + 1
    {
      id := nextReplicaId;
      StartIdsAt(id + 1);
    }

    /** Restart the replica ids, as recovery does. */
    method StartIdsAt(id: nat)
      requires Valid()
      modifies this`nextReplicaId
      ensures Valid() && nextReplicaId == id
    {
      hide OffsetBufferAllocator.Valid, OffsetBufferAllocator.Repr;
      nextReplicaId := id;
      forall i | 0 <= i < |allocators| ensures AllocatorOk(i) {
        assert old(AllocatorOk(i));
      }
    }

    /** The segments that can serve a request and are not excluded, in mount order. */
    method Candidates(size: nat, excluded: set<string>) returns (cs: seq<nat>)
      requires Valid()
      ensures Ascends(cs) && forall i :: i in cs <==> i in Serving(views, size, excluded)
    {
      hide OffsetBufferAllocator.Valid, OffsetBufferAllocator.Repr, OffsetBufferAllocator.LargestFree, HasRoom;
      cs := [];
      for i := 0 to |allocators|
        invariant (forall k :: 0 <= k < |cs| ==> cs[k] < i) && Ascends(cs)
        invariant forall j :: j in cs <==> j < i && j in Serving(views, size, excluded)
      {
        assert AllocatorOk(i);
        var largest := allocators[i].LargestFreeRegion();
        allocators[i].RoomIff(size);
        if largest >= size && allocators[i].segmentName !in excluded {
          cs := cs + [i];
        }
      }
    }

    method FreeRatio(i: nat) returns (r: real)
      requires Valid() && i < |allocators|
      ensures r == Ratio(views[i])
    {
      hide OffsetBufferAllocator.Valid, OffsetBufferAllocator.Repr, Segment.Allocated;
      assert AllocatorOk(i);
      var cap := allocators[i].Capacity();
      var used := allocators[i].Allocated();
      var free := cap as int - used as int;
      r := if cap == 0 then 0.0 else free as real / cap as real;
    }

    /** Emptiest segment first; ties keep their order. */
    method SortByFreeRatio(cs: seq<nat>) returns (order: seq<nat>)
      requires Valid() && Ascends(cs) && forall k :: 0 <= k < |cs| ==> cs[k] < |allocators|
      ensures Arranges(order, cs) && EmptiestFirst(views, order)
    {
      hide OffsetBufferAllocator.Valid, OffsetBufferAllocator.Repr, Ratio, AllocatorOk;
      order := [];
      for k := 0 to |cs|
        invariant Arranges(order, cs[..k]) && EmptiestFirst(views, order)
      {
        var x := cs[k];
        var r := FreeRatio(x);
        var p: nat := |order|;
        assert forall j :: 0 <= j < |order| ==> order[j] < |allocators| == |views|;
        while p > 0
          invariant p <= |order| && forall j :: 0 <= j < |order| ==> order[j] < |allocators| == |views|
          invariant forall j :: p <= j < |order| ==> Ratio(views[order[j]]) < r
        {
          var q := FreeRatio(order[p - 1]);
          if q >= r { break; }
          p := p - 1;
        }
        assert p > 0 ==> Ratio(views[order[p - 1]]) >= r;
        forall j | 0 <= j < |order| ensures order[j] < x { assert order[j] in cs[..k]; }
        InsertSorted(views, order, x, p);
        InsertArranges(order, cs, k, p);
        order := InsertAt(order, p, x);
      }
      assert cs[..|cs|] == cs;
    }

    /** The order a strategy tries its candidates in: by free ratio if it asks for it, the preferred segment first. */
    method Order(cs: seq<nat>, preferred: Option<string>) returns (order: seq<nat>)
      requires Valid() && Ascends(cs) && forall k :: 0 <= k < |cs| ==> cs[k] < |allocators|
      ensures Arranges(order, cs) && Tried(strategy, views, cs, preferred, order)
    {
      hide OffsetBufferAllocator.Valid, OffsetBufferAllocator.Repr, EmptiestFirst;
      order := cs;
      if strategy == FreeRatioFirst {
        order := SortByFreeRatio(cs);
      }
      ghost var base := order;
      if preferred.None? {
        assert PreferredFirst(views, base, preferred, order);
        return;
      }
      var k := 0;
      assert forall j :: 0 <= j < |order| ==> order[j] in cs;
      while k < |order| && allocators[order[k]].segmentName != preferred.value
        invariant forall j :: 0 <= j < |order| ==> order[j] < |allocators| == |views|
        invariant k <= |order| && forall j :: 0 <= j < k ==> views[order[j]].name != preferred.value
      {
        assert AllocatorOk(order[k]);
        k := k + 1;
      }
      if k < |order| {
        assert AllocatorOk(order[k]);
        FrontArranges(order, cs, k);
        order := ToFront(order, k);
        assert Named(views, base[k], preferred.value);
      }
      assert PreferredFirst(views, base, preferred, order);
    }

    /** Allocate one buffer on segment `i`. */
    method PlaceOne(i: nat, size: nat) returns (r: Option<Buffer>, ghost extent: nat)
      requires Valid() && i < |allocators|
      modifies this`views, parts
      ensures Valid() && allocators == old(allocators) && parts == old(parts) && Names(views) == old(Names(views))
      ensures i < |old(views)| && (r.Some? <==> size > 0 && HasRoom(old(views)[i], size))
      ensures r.None? ==> views == old(views)
      ensures r.Some? ==>
        && r.value.segment == old(views)[i].name && r.value.size == size
        && Takeable(old(Fleet()), r.value, extent) && Fleet() == Hold1(old(Fleet()), r.value, extent)
        && (forall j :: 0 <= j < |views| && j != i ==> views[j] == old(views)[j])
    {
      hide OffsetBufferAllocator.Valid, OffsetBufferAllocator.Repr, OffsetBufferAllocator.LargestFree, FleetOf, Segment.Valid, HasRoom;
      ghost var was := views[i];
      assert AllocatorOk(i);
      FleetAt(views, was.name);
      allocators[i].RoomIff(size);
      r := allocators[i].Allocate(size);
      extent := 0;
      forall j | 0 <= j < |allocators| && j != i ensures AllocatorOk(j) {
        assert old(AllocatorOk(j));
        assert allocators[if i < j then i else j].Repr() !! allocators[if i < j then j else i].Repr();
      }
      if r.Some? {
        extent :| size <= extent && allocators[i].view == was.(holds := was.holds[r.value.offset := Hold(size, extent)]);
        allocators[i].ViewValid();
      }
      Touched(i);
    }

    /** One buffer on each of the first `n` candidates: all of them, or none. */
    method Place(order: seq<nat>, size: nat, n: nat) returns (r: Outcome<seq<Buffer>>, ghost extents: seq<nat>)
      requires Valid() && Distinct(order)
      requires forall k :: 0 <= k < |order| ==> order[k] < |views| && HasRoom(views[order[k]], size)
      modifies this`views, parts
      ensures Valid() && allocators == old(allocators) && parts == old(parts) && Names(views) == old(Names(views))
      ensures r.Ok? <==> n <= |order| && (n == 0 || size > 0)
      ensures r.Err? ==> r.error == NoAvailableSegment && views == old(views)
      ensures r.Ok? ==>
        && |r.value| == n && AllTakeable(old(Fleet()), r.value, extents, size) && Fleet() == HoldAll(old(Fleet()), r.value, extents)
        && forall k :: 0 <= k < n ==> Named(old(views), order[k], r.value[k].segment)
    {
      hide OffsetBufferAllocator.Valid, OffsetBufferAllocator.Repr, AllocatorOk, FleetOf, Segment.Valid, HoldAll, Takeable, HasRoom;
      extents := [];
      if |order| < n {
        return Err(NoAvailableSegment), [];
      }
      ghost var f0, views0 := Fleet(), views;
      var out: seq<Buffer> := [];
      HoldNone(f0);
      for k := 0 to n
        invariant Valid() && allocators == old(allocators) && parts == old(parts) && Names(views) == Names(views0)
        invariant |out| == |extents| == k && (k > 0 ==> size > 0)
        invariant forall j :: 0 <= j < k ==> out[j].segment == views0[order[j]].name && out[j].size == size && Takeable(f0, out[j], extents[j])
        invariant forall j :: k <= j < |order| ==> views[order[j]] == views0[order[j]]
        invariant k == 0 ==> views == views0
        invariant (forall j :: 0 <= j < k ==> out[j].segment in f0) && Fleet() == HoldAll(f0, out, extents)
      {
        ghost var f, i := Fleet(), order[k];
        FleetAt(views, views[i].name);
        FleetAt(views0, views[i].name);
        var b, extent := PlaceOne(order[k], size);
        if b.None? {
          return Err(NoAvailableSegment), [];
        }
        TakeableSame(f, f0, b.value, extent);
        HoldOneMore(f0, out, extents, b.value, extent);
        out := out + [b.value];
        extents := extents + [extent];
      }
      TakenApart(views0, order, out);
      r := Ok(out);
    }

    /** Place replicas as the strategy does: distinct segments that fit, the preferred one first, none excluded. */
    method Allocate(size: nat, n: nat, preferred: Option<string>, excluded: set<string>)
        returns (r: Outcome<seq<Buffer>>, ghost extents: seq<nat>)
      requires Valid()
      modifies this`views, parts
      ensures Valid() && allocators == old(allocators) && parts == old(parts) && Names(views) == old(Names(views))
      ensures r.Ok? <==> n <= |Serving(old(views), size, excluded)| && (n == 0 || size > 0)
      ensures r.Err? ==> r.error == NoAvailableSegment && views == old(views)
      ensures r.Ok? ==>
        && |r.value| == n && AllTakeable(old(Fleet()), r.value, extents, size) && Fleet() == HoldAll(old(Fleet()), r.value, extents)
        && Chosen(strategy, old(views), size, excluded, preferred, r.value)
    {
      hide OffsetBufferAllocator.Valid, OffsetBufferAllocator.Repr, AllocatorOk, FleetOf, HoldAll, AllTakeable, HasRoom, Tried;
      var found := Candidates(size, excluded);
      IndexSet(found, Serving(views, size, excluded));
      assert forall k :: 0 <= k < |found| ==> found[k] in Serving(views, size, excluded);
      var order := Order(found, preferred);
      forall k | 0 <= k < |order| ensures order[k] in Serving(views, size, excluded) {
        assert order[k] in found;
      }
      r, extents := Place(order, size, n);
    }

    /** After one allocator was changed, its view is brought up to date. */
    ghost method Touched(i: nat)
      requires |views| == |allocators| && i < |allocators| && this !in parts && UniqueNames(views)
      requires forall j :: 0 <= j < |allocators| && j != i ==> AllocatorOk(j)
      requires forall i, j :: 0 <= i < j < |allocators| ==> allocators[i].Repr() !! allocators[j].Repr()
      requires var a := allocators[i]; a.Repr() <= parts && a in a.Repr() && a.Valid() && a.view.name == a.segmentName == views[i].name
      modifies this`views
      ensures Valid() && views == old(views)[i := allocators[i].view]
      ensures Fleet() == old(Fleet())[views[i].name := allocators[i].view]
    {
      hide OffsetBufferAllocator.Valid, OffsetBufferAllocator.Repr, FleetOf;
      FleetUpdate(views, i, allocators[i].view);
      views := views[i := allocators[i].view];
      forall j | 0 <= j < |allocators| ensures AllocatorOk(j) {
        if j != i { assert old(AllocatorOk(j)); }
      }
    }
  }

  ghost function FreedIn(f: map<string, Segment>, b: Buffer): map<string, Segment> {
    if b.segment in f then f[b.segment := f[b.segment].(holds := f[b.segment].holds - {b.offset})] else f
  }

  /** An exact range can be reserved: in an unscaled segment, inside it, and free. */
  ghost predicate RangeFree(f: map<string, Segment>, b: Buffer) {
    && b.segment in f && f[b.segment].capacity <= MAX_BIN_SIZE
    && b.size > 0 && b.offset !in f[b.segment].holds
    && b.offset + b.size <= f[b.segment].capacity && f[b.segment].Free(b.offset, b.offset + b.size)
  }

  /** The segment's pool has the three nodes a reservation may need: one is in use for each buffer and each gap. */
  ghost predicate NodesToSpare(s: Segment) {
    |s.holds| + |Gaps(s.holds, s.capacity)| + 3 <= MAX_NODES
  }

  lemma ReserveRoom(a: OffsetBufferAllocator)
    requires a.Valid()
    ensures a.Unscaled() <==> a.view.capacity <= MAX_BIN_SIZE
    ensures a.Unscaled() && a.view.capacity > 0 ==> (NodesToSpare(a.view) <==> a.NodeRoom())
  {
    hide OffsetBufferAllocator.Valid, OffsetBufferAllocator.Repr, OffsetBufferAllocator.NodeRoom, OffsetBufferAllocator.Unscaled;
    a.UnscaledIff();
    if a.Unscaled() && a.view.capacity > 0 { NodeCount(a); }
  }

  lemma NodeCount(a: OffsetBufferAllocator)
    requires a.Valid() && a.Unscaled() && a.view.capacity > 0
    ensures NodesToSpare(a.view) <==> a.NodeRoom()
  {
    hide Gaps;
    a.NodesInUse();
  }

  lemma BuffersStep(replicas: ReplicaList, rest: set<nat>, id: nat)
    requires id in rest && rest <= replicas.Keys
    ensures var b := BuffersOf(replicas - rest);
      BuffersOf(replicas - (rest - {id})) == if replicas[id].data.Memory? then b + {replicas[id].data.buffer} else b
  {
    assert replicas - (rest - {id}) == (replicas - rest)[id := replicas[id]];
    BuffersAdd(replicas - rest, id, replicas[id]);
  }

  ghost function CapacitySum(f: map<string, Segment>): nat {
    if f == map[] then 0 else
    var n :| n in f;
    f[n].capacity + CapacitySum(f - {n})
  }

  ghost function AllocatedSum(f: map<string, Segment>): nat {
    if f == map[] then 0 else
    var n :| n in f;
    f[n].Allocated() + AllocatedSum(f - {n})
  }

  lemma {:induction false} CapacitySumRemove(f: map<string, Segment>, n: string)
    requires n in f
    ensures CapacitySum(f) == f[n].capacity + CapacitySum(f - {n})
    decreases |f|
  {
    var m :| m in f && CapacitySum(f) == f[m].capacity + CapacitySum(f - {m});
    if m != n {
      CapacitySumRemove(f - {m}, n);
      CapacitySumRemove(f - {n}, m);
      assert f - {m} - {n} == f - {n} - {m};
    }
  }

  lemma {:induction false} CapacitySumAdd(f: map<string, Segment>, n: string, s: Segment)
    requires n !in f
    ensures CapacitySum(f[n := s]) == CapacitySum(f) + s.capacity
  {
    CapacitySumRemove(f[n := s], n);
    assert f[n := s] - {n} == f;
  }

  lemma {:induction false} AllocatedSumRemove(f: map<string, Segment>, n: string)
    requires n in f
    ensures AllocatedSum(f) == f[n].Allocated() + AllocatedSum(f - {n})
    decreases |f|
  {
    hide Segment.Allocated;
    var m :| m in f && AllocatedSum(f) == f[m].Allocated() + AllocatedSum(f - {m});
    if m != n {
      AllocatedSumRemove(f - {m}, n);
      AllocatedSumRemove(f - {n}, m);
      assert f - {m} - {n} == f - {n} - {m};
    }
  }

  lemma {:induction false} AllocatedSumAdd(f: map<string, Segment>, n: string, s: Segment)
    requires n !in f
    ensures AllocatedSum(f[n := s]) == AllocatedSum(f) + s.Allocated()
  {
    hide Segment.Allocated;
    AllocatedSumRemove(f[n := s], n);
    assert f[n := s] - {n} == f;
  }

  lemma ReleaseNone(f: map<string, Segment>)
    ensures Release(f, {}) == f
  {
    forall n | n in f ensures Release(f, {})[n] == f[n] {
      var gone := set b: Buffer | b in {} && b.segment == n :: b.offset;
      assert gone == {};
      assert f[n].holds - gone == f[n].holds;
    }
  }

  lemma EmptyBuffers()
    ensures BuffersOf(map[]) == {}
  {
  }

  lemma BuffersAdd(rs: ReplicaList, id: nat, r: Replica)
    requires id !in rs
    ensures BuffersOf(rs[id := r]) == BuffersOf(rs) + if r.data.Memory? then {r.data.buffer} else {}
  {
    var all := rs[id := r];
    forall b | b in BuffersOf(rs) ensures b in BuffersOf(all) {
      var i :| i in rs && rs[i].data.Memory? && rs[i].data.buffer == b;
      assert all[i] == rs[i];
    }
    if r.data.Memory? { assert all[id] == r; }
  }

  /** Releasing one more buffer touches its own segment only. */
  lemma ReleaseMore(f: map<string, Segment>, bs: set<Buffer>, b: Buffer)
    ensures Release(f, bs + {b}) == FreedIn(Release(f, bs), b)
  {
    var r, r' := Release(f, bs), Release(f, bs + {b});
    forall n | n in f ensures r'[n] == if n == b.segment then r[n].(holds := r[n].holds - {b.offset}) else r[n] {
      var gone := set c | c in bs && c.segment == n :: c.offset;
      var gone' := set c | c in bs + {b} && c.segment == n :: c.offset;
      assert gone' == if n == b.segment then gone + {b.offset} else gone by {
        if n == b.segment { assert b in bs + {b}; }
      }
      if n == b.segment { assert f[n].holds - gone - {b.offset} == f[n].holds - gone'; }
    }
  }
}
