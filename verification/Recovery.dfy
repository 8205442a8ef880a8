/**
  Snapshots of the master and recovery from them: every segment is mounted again
  and every replica's exact range reserved.
 */
module Recovery {
  import opened Buffers
  import opened Fleets
  import opened Masters
  import opened MasterInv
  import opened MasterSpec
  import opened Parts
  import opened Segments
  import opened SmallFloat

  datatype SegmentSnapshot = SegmentSnapshot(name: string, capacity: nat)

  datatype ObjectSnapshot = ObjectSnapshot(
    key: string,
    replicas: seq<Replica>,
    identity: Identity,
    leaseUntil: nat,
    lastAccess: nat,
    softPinned: bool,
    hardPinned: bool)

  datatype MasterSnapshot = MasterSnapshot(
    strategy: Strategy,
    clock: nat,
    leaseTtl: nat,
    highWatermark: real,
    evictionRatio: real,
    segmentTtl: nat,
    nextReplicaId: nat,
    segments: seq<SegmentSnapshot>,
    objects: seq<ObjectSnapshot>)

  /** Exact ranges are taken in the segments there are. */
  lemma {:induction false} ExactKeys(f: map<string, Segment>, bs: seq<Buffer>)
    requires Fits(f, bs)
    ensures Exact(f, bs).Keys == f.Keys
  {
    hide RangeFree;
    if bs != [] { ExactKeys(f, bs[..|bs| - 1]); }
  }

  /** Reserve the range of every memory replica. */
  method ReserveReplicas(segs: SegmentState, replicas: seq<Replica>) returns (r: Outcome<()>)
    requires segs.Valid() && segs !in segs.parts
    modifies segs`views, segs.parts
    ensures segs.Valid() && segs.allocators == old(segs.allocators) && segs.parts == old(segs.parts) && segs.nextReplicaId == old(segs.nextReplicaId)
    ensures r.Ok? <==> Secure(old(segs.Fleet()), MemoryBuffers(replicas))
    ensures r.Ok? ==> segs.Fleet() == Exact(old(segs.Fleet()), MemoryBuffers(replicas)) && segs.Fleet().Keys == old(segs.Fleet()).Keys
    ensures Names(segs.views) == old(Names(segs.views))
    ensures r.Err? ==> r.error == SegmentNotFound || r.error == InvalidReplica
  {
    hide SegmentState.Valid, FleetOf, Exact, Fits, Secure, MemoryBuffers, Segment.Free, NodesToSpare;
    ghost var f0 := segs.Fleet();
    Start(f0, replicas);
    for i := 0 to |replicas|
      invariant segs.Valid() && segs.allocators == old(segs.allocators) && segs.parts == old(segs.parts)
      invariant segs.nextReplicaId == old(segs.nextReplicaId) && Names(segs.views) == old(Names(segs.views))
      invariant Secure(f0, MemoryBuffers(replicas[..i])) && segs.Fleet() == Exact(f0, MemoryBuffers(replicas[..i]))
    {
      Next(f0, replicas, i);
      match replicas[i].data {
        case Memory(b) =>
          var one := segs.Reserve(b);
          if one.Err? {
            return Err(one.error);
          }
        case Disk(_, _) =>
      }
    }
    assert replicas[..|replicas|] == replicas;
    SecureFits(f0, MemoryBuffers(replicas));
    ExactKeys(f0, MemoryBuffers(replicas));
    r := Ok(());
  }

  // ---- snapshots ----

  /** What a snapshot says of one object. */
  ghost predicate DescribesObject(o: ObjectSnapshot, m: ObjectMeta) {
    && Lists(o.replicas, m.replicas)
    && o.identity == m.identity && o.leaseUntil == m.leaseUntil && o.lastAccess == m.lastAccess
    && o.softPinned == m.softPinned && o.hardPinned == m.hardPinned
  }

  ghost predicate DescribesObjects(os: seq<ObjectSnapshot>, objects: map<string, ObjectMeta>) {
    && (forall i :: 0 <= i < |os| ==> os[i].key in objects && DescribesObject(os[i], objects[os[i].key]))
    && (forall i, j :: 0 <= i < j < |os| ==> os[i].key != os[j].key)
    && (forall k :: k in objects ==> exists i :: 0 <= i < |os| && os[i].key == k)
  }

  ghost predicate DescribesSegments(ss: seq<SegmentSnapshot>, fleet: map<string, Segment>) {
    && (forall i :: 0 <= i < |ss| ==> ss[i].name in fleet && fleet[ss[i].name].capacity == ss[i].capacity)
    && (forall i, j :: 0 <= i < j < |ss| ==> ss[i].name != ss[j].name)
    && (forall n :: n in fleet ==> exists i :: 0 <= i < |ss| && ss[i].name == n)
  }

  /** The snapshot lists exactly the objects and segments of a state, in any order, with its clock and id counter. */
  ghost predicate Describes(snap: MasterSnapshot, s: State) {
    && DescribesObjects(snap.objects, s.objects) && DescribesSegments(snap.segments, s.fleet)
    && snap.clock == s.clock && snap.leaseTtl == s.leaseTtl && snap.nextReplicaId == s.nextId
  }

  method Snapshot(m: MasterService) returns (snap: MasterSnapshot)
    requires m.Valid()
    ensures Describes(snap, m.View())
    ensures snap.highWatermark == m.highWatermark && snap.evictionRatio == m.evictionRatio && snap.segmentTtl == m.segmentTtl
    ensures snap.strategy == m.segs.strategy && NamesIn(snap.segments) == Names(m.segs.views)
  {
    hide Inv, SegmentState.Valid, FleetOf, DescribesObjects, DescribesSegments;
    var segments := SnapshotSegments(m.segs);
    var objects: seq<ObjectSnapshot> := [];
    var rest := m.objects.Keys;
    NoneDescribed(m.objects);
    while rest != {}
      invariant rest <= m.objects.Keys && DescribesObjects(objects, m.objects - rest)
    {
      var k :| k in rest;
      ReplicaIds(m.View(), k);
      var order := ListReplicas(m.objects[k].replicas);
      var o := m.objects[k];
      var one := ObjectSnapshot(k, order, o.identity, o.leaseUntil, o.lastAccess, o.softPinned, o.hardPinned);
      DescribesMore(objects, m.objects, rest, one);
      objects := objects + [one];
      rest := rest - {k};
    }
    assert m.objects - rest == m.objects;
    snap := MasterSnapshot(m.segs.strategy, m.clock, m.leaseTtl, m.highWatermark, m.evictionRatio, m.segmentTtl,
      m.segs.nextReplicaId, segments, objects);
  }

  lemma NoneDescribed(objects: map<string, ObjectMeta>)
    ensures DescribesObjects([], objects - objects.Keys)
  {
  }

  lemma DescribesMore(os: seq<ObjectSnapshot>, objects: map<string, ObjectMeta>, rest: set<string>, one: ObjectSnapshot)
    requires DescribesObjects(os, objects - rest) && one.key in rest && rest <= objects.Keys && DescribesObject(one, objects[one.key])
    ensures DescribesObjects(os + [one], objects - (rest - {one.key}))
  {
    hide DescribesObject;
    var os', m := os + [one], objects - (rest - {one.key});
    forall k | k in m ensures exists i :: 0 <= i < |os'| && os'[i].key == k {
      if k == one.key {
        assert os'[|os|].key == k;
      } else {
        assert k in objects - rest;
        var i :| 0 <= i < |os| && os[i].key == k;
        assert os'[i].key == k;
      }
    }
  }

  method SnapshotSegments(segs: SegmentState) returns (ss: seq<SegmentSnapshot>)
    requires segs.Valid()
    ensures DescribesSegments(ss, segs.Fleet()) && |ss| == |segs.views|
    ensures forall i :: 0 <= i < |ss| ==> ss[i] == SegmentSnapshot(segs.views[i].name, segs.views[i].capacity)
  {
    hide OffsetBufferAllocator.Valid, OffsetBufferAllocator.Repr, FleetOf;
    ss := [];
    for i := 0 to |segs.allocators|
      invariant |ss| == i && forall j :: 0 <= j < i ==> ss[j] == SegmentSnapshot(segs.views[j].name, segs.views[j].capacity)
    {
      assert segs.AllocatorOk(i);
      var capacity := segs.allocators[i].Capacity();
      ss := ss + [SegmentSnapshot(segs.allocators[i].segmentName, capacity)];
    }
    ViewsDescribed(ss, segs.views);
  }

  lemma {:induction false} ViewsDescribed(ss: seq<SegmentSnapshot>, views: seq<Segment>)
    requires UniqueNames(views) && |ss| == |views| && forall i :: 0 <= i < |ss| ==> ss[i] == SegmentSnapshot(views[i].name, views[i].capacity)
    ensures DescribesSegments(ss, FleetOf(views))
  {
    hide FleetOf;
    forall i | 0 <= i < |ss| ensures ss[i].name in FleetOf(views) && FleetOf(views)[ss[i].name].capacity == ss[i].capacity {
      FleetAt(views, views[i].name);
    }
    forall n | n in FleetOf(views) ensures exists i :: 0 <= i < |ss| && ss[i].name == n {
      FleetAt(views, n);
      var i :| 0 <= i < |views| && views[i].name == n;
      assert ss[i].name == n;
    }
  }

  // ---- recovery ----

  function MetaOf(o: ObjectSnapshot): ObjectMeta {
    ObjectMeta(Collected(o.replicas), o.identity, o.leaseUntil, o.lastAccess, o.softPinned, o.hardPinned)
  }

  ghost function RestoredObjects(os: seq<ObjectSnapshot>): map<string, ObjectMeta> {
    if os == [] then map[]
    else
      var n := |os| - 1;
      RestoredObjects(os[..n])[os[n].key := MetaOf(os[n])]
  }

  ghost function RestoredFleet(f: map<string, Segment>, os: seq<ObjectSnapshot>): map<string, Segment> {
    if os == [] then f
    else
      var n := |os| - 1;
      Exact(RestoredFleet(f, os[..n]), MemoryBuffers(os[n].replicas))
  }

  /** Every reservation of a recovery is certain to succeed. */
  ghost predicate SecureAll(f: map<string, Segment>, os: seq<ObjectSnapshot>) {
    os != [] ==>
      var n := |os| - 1;
      SecureAll(f, os[..n]) && Secure(RestoredFleet(f, os[..n]), MemoryBuffers(os[n].replicas))
  }

  /** Every reservation of a recovery finds its range free. */
  ghost predicate FitsAll(f: map<string, Segment>, os: seq<ObjectSnapshot>) {
    os != [] ==>
      var n := |os| - 1;
      FitsAll(f, os[..n]) && Fits(RestoredFleet(f, os[..n]), MemoryBuffers(os[n].replicas))
  }

  ghost function Empty(ss: seq<SegmentSnapshot>): seq<Segment> {
    seq(|ss|, i requires 0 <= i < |ss| => Segment(ss[i].name, ss[i].capacity, map[]))
  }

  /** The segments of a snapshot by name, in order. */
  ghost function NamesIn(ss: seq<SegmentSnapshot>): (names: seq<string>)
    ensures |names| == |ss| && forall i :: 0 <= i < |ss| ==> names[i] == ss[i].name
  {
    seq(|ss|, i requires 0 <= i < |ss| => ss[i].name)
  }

  ghost predicate NamedOnce(ss: seq<SegmentSnapshot>) {
    forall i, j :: 0 <= i < j < |ss| ==> ss[i].name != ss[j].name
  }

  /** Exactly the mounted segments were heard of, just then. */
  ghost predicate HeardOf(m: MasterService, clock: nat)
    reads m, m.segs
  {
    m.heartbeats.Keys == m.segs.Fleet().Keys && forall n :: n in m.heartbeats ==> m.heartbeats[n] == clock
  }

  /** Mount the segments of a snapshot in a fresh master. */
  method Remount(m: MasterService, ss: seq<SegmentSnapshot>)
    requires m.Valid() && m.segs.views == [] && m.objects == map[] && m.heartbeats == map[] && NamedOnce(ss)
    modifies m.Repr()
    ensures m.Valid() && fresh(m.Repr() - old(m.Repr()))
    ensures m.segs.views == Empty(ss) && m.View() == old(m.View()).(fleet := FleetOf(Empty(ss)), log := m.log)
    ensures m.segmentTtl == old(m.segmentTtl) && m.highWatermark == old(m.highWatermark) && m.evictionRatio == old(m.evictionRatio)
    ensures HeardOf(m, m.clock) && Names(m.segs.views) == NamesIn(ss)
  {
    hide Inv, SegmentState.Valid, FleetOf, Empty;
    EmptyPrefix(ss, 0);
    assert m.segs.Fleet() == map[] by { NoFleet(); }
    for i := 0 to |ss|
      invariant m.Valid() && fresh(m.Repr() - old(m.Repr()))
      invariant m.segs.views == Empty(ss[..i]) && m.View() == old(m.View()).(fleet := FleetOf(Empty(ss[..i])), log := m.log)
      invariant m.segmentTtl == old(m.segmentTtl) && m.highWatermark == old(m.highWatermark) && m.evictionRatio == old(m.evictionRatio)
      invariant HeardOf(m, m.clock)
    {
      EmptyPrefix(ss, i);
      m.MountSegment(ss[i].name, ss[i].capacity);
    }
    assert ss[..|ss|] == ss;
    EmptyNames(ss);
  }

  lemma {:induction false} NoFleet()
    ensures FleetOf([]) == map[]
  {
  }

  lemma EmptyNames(ss: seq<SegmentSnapshot>)
    ensures Names(Empty(ss)) == NamesIn(ss)
  {
  }

  lemma EmptyPrefix(ss: seq<SegmentSnapshot>, i: nat)
    requires NamedOnce(ss) && i <= |ss|
    ensures Empty(ss[..0]) == []
    ensures i < |ss| ==> Empty(ss[..i + 1]) == Empty(ss[..i]) + [Segment(ss[i].name, ss[i].capacity, map[])]
    ensures i < |ss| ==> ss[i].name !in FleetOf(Empty(ss[..i]))
  {
    hide FleetOf;
    if i < |ss| {
      assert UniqueNames(Empty(ss[..i]));
      FleetAt(Empty(ss[..i]), ss[i].name);
    }
  }

  /** Rebuild a master from a snapshot: mount the segments, reserve each replica's exact range, enter the objects. */
  method Recover(snap: MasterSnapshot) returns (r: Outcome<MasterService>)
    requires NamedOnce(snap.segments)
    ensures r.Ok? ==> fresh(r.value) && fresh(r.value.Repr()) && r.value.Separate()
    ensures r.Ok? <==> SecureAll(FleetOf(Empty(snap.segments)), snap.objects)
    ensures r.Ok? ==> r.value.View() == Restored(snap)
    ensures r.Ok? ==>
      && r.value.segs.strategy == snap.strategy && r.value.segmentTtl == snap.segmentTtl
      && r.value.highWatermark == snap.highWatermark && r.value.evictionRatio == snap.evictionRatio
      && Names(r.value.segs.views) == NamesIn(snap.segments) && HeardOf(r.value, snap.clock)
    ensures r.Err? ==> r.error == SegmentNotFound || r.error == InvalidReplica
  {
    hide Inv, SegmentState.Valid, FleetOf, Empty, FitsAll, SecureAll, RestoredFleet, RestoredObjects, Collected;
    hide Secure, Exact, MemoryBuffers, NamedOnce, MetaOf;
    var m := new MasterService(snap.strategy);
    m.clock, m.leaseTtl := snap.clock, snap.leaseTtl;
    m.segmentTtl, m.highWatermark, m.evictionRatio := snap.segmentTtl, snap.highWatermark, snap.evictionRatio;
    BlankInv(m.View());
    Remount(m, snap.segments);
    var all := Reenter(m, snap.objects);
    if all.Err? {
      return Err(all.error);
    }
    m.segs.StartIdsAt(snap.nextReplicaId);
    // A recovered master has no op-log attached yet.
    m.log := [];
    r := Ok(m);
  }

  /** Reserve the ranges of all objects of a snapshot and enter them. */
  method Reenter(m: MasterService, os: seq<ObjectSnapshot>) returns (r: Outcome<()>)
    requires m.Separate() && m.objects == map[]
    modifies m`objects, m.segs`views, m.segs.parts
    ensures m.Separate() && m.segs.parts == old(m.segs.parts) && Names(m.segs.views) == old(Names(m.segs.views))
    ensures r.Ok? ==> m.segs.Fleet().Keys == old(m.segs.Fleet()).Keys
    ensures r.Ok? <==> SecureAll(old(m.segs.Fleet()), os)
    ensures r.Ok? ==> m.objects == RestoredObjects(os) && m.segs.Fleet() == RestoredFleet(old(m.segs.Fleet()), os)
    ensures r.Err? ==> r.error == SegmentNotFound || r.error == InvalidReplica
    ensures m.segs.nextReplicaId == old(m.segs.nextReplicaId)
  {
    hide SegmentState.Valid, FleetOf, FitsAll, SecureAll, RestoredFleet, RestoredObjects, Secure, Exact, MemoryBuffers, MetaOf;
    ghost var f0 := m.segs.Fleet();
    NothingRestored(f0, os);
    for i := 0 to |os|
      invariant m.Separate() && m.segs.parts == old(m.segs.parts) && Names(m.segs.views) == old(Names(m.segs.views)) && m.segs.Fleet().Keys == f0.Keys
      invariant m.objects == RestoredObjects(os[..i]) && m.segs.Fleet() == RestoredFleet(f0, os[..i]) && SecureAll(f0, os[..i])
      invariant m.segs.nextReplicaId == old(m.segs.nextReplicaId)
    {
      OneRestored(f0, os, i);
      var one := ReserveReplicas(m.segs, os[i].replicas);
      if one.Err? {
        return Err(one.error);
      }
      m.objects := m.objects[os[i].key := MetaOf(os[i])];
    }
    assert os[..|os|] == os;
    r := Ok(());
  }

  /** The state a recovery arrives at. */
  ghost function Restored(snap: MasterSnapshot): State {
    State(RestoredObjects(snap.objects), RestoredFleet(FleetOf(Empty(snap.segments)), snap.objects), snap.nextReplicaId,
      snap.clock, snap.leaseTtl, [])
  }

  lemma BlankInv(s: State)
    requires s.objects == map[] && s.fleet == map[]
    ensures Inv(s)
  {
  }

  lemma {:induction false} NothingRestored(f: map<string, Segment>, os: seq<ObjectSnapshot>)
    ensures RestoredObjects(os[..0]) == map[] && RestoredFleet(f, os[..0]) == f && FitsAll(f, os[..0]) && SecureAll(f, os[..0])
  {
  }

  lemma {:induction false} OneRestored(f: map<string, Segment>, os: seq<ObjectSnapshot>, i: nat)
    requires i < |os|
    ensures RestoredObjects(os[..i + 1]) == RestoredObjects(os[..i])[os[i].key := MetaOf(os[i])]
    ensures RestoredFleet(f, os[..i + 1]) == Exact(RestoredFleet(f, os[..i]), MemoryBuffers(os[i].replicas))
    ensures FitsAll(f, os[..i + 1]) <==> FitsAll(f, os[..i]) && Fits(RestoredFleet(f, os[..i]), MemoryBuffers(os[i].replicas))
    ensures SecureAll(f, os[..i + 1]) <==> SecureAll(f, os[..i]) && Secure(RestoredFleet(f, os[..i]), MemoryBuffers(os[i].replicas))
    ensures SecureAll(f, os) ==> SecureAll(f, os[..i + 1]) && Secure(RestoredFleet(f, os[..i]), MemoryBuffers(os[i].replicas))
  {
    hide Exact, Secure, Fits, MetaOf;
    assert os[..i + 1][..i] == os[..i];
    if SecureAll(f, os) { SecureAllPrefix(f, os, i + 1); }
  }

  lemma {:induction false} SecureAllPrefix(f: map<string, Segment>, os: seq<ObjectSnapshot>, i: nat)
    requires SecureAll(f, os) && i <= |os|
    ensures SecureAll(f, os[..i])
  {
    hide Secure;
    if i < |os| {
      var n := |os| - 1;
      SecureAllPrefix(f, os[..n], i);
      assert os[..n][..i] == os[..i];
    } else {
      assert os[..i] == os;
    }
  }

  // ---- recovery of a snapshot brings the state back ----

  /** The fleet with every range cut to the size asked for. */
  ghost function Tight(fleet: map<string, Segment>): map<string, Segment> {
    map n | n in fleet :: fleet[n].(holds := TightHolds(fleet[n].holds))
  }

  ghost function TightHolds(holds: map<nat, Hold>): map<nat, Hold> {
    map o | o in holds :: Hold(holds[o].size, holds[o].size)
  }

  /** The replicas of the first `i` objects of a snapshot. */
  ghost function PairsOf(os: seq<ObjectSnapshot>): set<(string, nat)> {
    if os == [] then {} else PairsOf(os[..|os| - 1]) + Pairs(os[|os| - 1].key, os[|os| - 1].replicas)
  }

  /** Whatever the order of the objects, the first ones rebuild exactly their own part of the fleet. */
  lemma {:induction false} RestoredPart(s: State, os: seq<ObjectSnapshot>, i: nat)
    requires Inv(s) && DescribesObjects(os, s.objects) && i <= |os| && Unscaled(s.fleet)
    ensures RestoredFleet(Part(s, {}), os[..i]) == Part(s, PairsOf(os[..i]))
    ensures FitsAll(Part(s, {}), os[..i]) && (Roomy(s.fleet) ==> SecureAll(Part(s, {}), os[..i]))
  {
    hide Inv, Part, Exact, Secure, Fits, MemoryBuffers, Pairs, Roomy, Unscaled, DescribesObjects;
    if i > 0 {
      RestoredPart(s, os, i - 1);
      var o := os[i - 1];
      assert os[..i][..i - 1] == os[..i - 1];
      assert o.replicas[..|o.replicas|] == o.replicas;
      OtherKeys(os, i - 1, s.objects);
      Described(os, s.objects, i - 1);
      UsedUnscaled(s, o.key, o.replicas);
      PartRow(s, PairsOf(os[..i - 1]), o.key, o.replicas, |o.replicas|);
    }
  }

  lemma UsedUnscaled(s: State, k: string, order: seq<Replica>)
    requires Inv(s) && Unscaled(s.fleet) && k in s.objects
    requires forall j :: 0 <= j < |order| ==> order[j].id in s.objects[k].replicas && order[j].data == s.objects[k].replicas[order[j].id].data
    ensures RowUnscaled(s.fleet, order)
  {
    hide Inv;
    forall j | 0 <= j < |order| ensures order[j].data.Memory? ==> BufferHeld(order[j].data.buffer, s.fleet) { ReplicaHeld(s, k, order[j].id); }
  }

  lemma Described(os: seq<ObjectSnapshot>, objects: map<string, ObjectMeta>, i: nat)
    requires DescribesObjects(os, objects) && i < |os|
    ensures var o := os[i];
      && o.key in objects
      && (forall j :: 0 <= j < |o.replicas| ==>
        o.replicas[j].id in objects[o.key].replicas && o.replicas[j].data == objects[o.key].replicas[o.replicas[j].id].data)
      && (forall j, l :: 0 <= j < l < |o.replicas| ==> o.replicas[j].id != o.replicas[l].id)
  {
    assert DescribesObject(os[i], objects[os[i].key]);
  }

  lemma OtherKeys(os: seq<ObjectSnapshot>, i: nat, objects: map<string, ObjectMeta>)
    requires i < |os| && DescribesObjects(os, objects)
    ensures forall id: nat :: (os[i].key, id) !in PairsOf(os[..i])
  {
    forall id: nat ensures (os[i].key, id) !in PairsOf(os[..i]) { PairKeys(os[..i], os[i].key, id); }
  }

  lemma {:induction false} PairKeys(os: seq<ObjectSnapshot>, k: string, id: nat)
    ensures (k, id) in PairsOf(os) <==> exists i :: 0 <= i < |os| && os[i].key == k && (k, id) in Pairs(k, os[i].replicas)
  {
    if os != [] {
      var n := |os| - 1;
      PairKeys(os[..n], k, id);
      if (k, id) in PairsOf(os[..n]) {
        var i :| 0 <= i < n && os[..n][i].key == k && (k, id) in Pairs(k, os[..n][i].replicas);
        assert os[i] == os[..n][i];
      }
      if i :| 0 <= i < |os| && os[i].key == k && (k, id) in Pairs(k, os[i].replicas) && i < n {
        assert os[..n][i] == os[i];
      }
    }
  }

  /** All the objects of a state own all of its fleet. */
  lemma {:induction false} AllOwned(s: State, os: seq<ObjectSnapshot>)
    requires Inv(s) && DescribesObjects(os, s.objects)
    ensures Part(s, PairsOf(os)) == Tight(s.fleet)
  {
    hide Inv, PairsOf, DescribesObjects;
    forall n, o | n in s.fleet && o in s.fleet[n].holds ensures OwnedBy(s.objects, PairsOf(os), n, o) {
      var i, j := OwnerListed(s, os, n, o);
      var k, id := os[i].key, os[i].replicas[j].id;
      assert (k, id) in Pairs(k, os[i].replicas);
      PairKeys(os, k, id);
    }
    forall n | n in s.fleet ensures PartHolds(s, PairsOf(os), n) == TightHolds(s.fleet[n].holds) {
    }
  }

  /** Where a snapshot lists the replica that owns a range. */
  lemma OwnerListed(s: State, os: seq<ObjectSnapshot>, n: string, o: nat) returns (i: nat, j: nat)
    requires Inv(s) && DescribesObjects(os, s.objects) && n in s.fleet && o in s.fleet[n].holds
    ensures i < |os| && j < |os[i].replicas| && Owns(s.objects, os[i].key, os[i].replicas[j].id, n, o)
    ensures os[i].replicas[j].data.Memory? && os[i].replicas[j].data.buffer.segment == n
  {
    var k, id :| Owns(s.objects, k, id, n, o);
    hide Inv;
    i :| 0 <= i < |os| && os[i].key == k;
    assert DescribesObject(os[i], s.objects[k]);
    hide DescribesObjects;
    j :| 0 <= j < |os[i].replicas| && os[i].replicas[j].id == id;
  }

  /** The entered objects are those described. */
  lemma {:induction false} RestoredSame(os: seq<ObjectSnapshot>, objects: map<string, ObjectMeta>)
    requires DescribesObjects(os, objects)
    ensures RestoredObjects(os) == objects
  {
    hide DescribesObjects, MetaOf;
    if os == [] {
      EmptyDescribed(objects);
    } else {
      var n := |os| - 1;
      var k := os[n].key;
      DescribesLess(os, objects);
      LastDescribed(os, objects);
      RestoredSame(os[..n], objects - {k});
      assert (objects - {k})[k := objects[k]] == objects;
    }
  }

  lemma EmptyDescribed(objects: map<string, ObjectMeta>)
    requires DescribesObjects([], objects)
    ensures objects == map[]
  {
  }

  lemma LastDescribed(os: seq<ObjectSnapshot>, objects: map<string, ObjectMeta>)
    requires DescribesObjects(os, objects) && os != []
    ensures var o := os[|os| - 1]; o.key in objects && MetaOf(o) == objects[o.key]
  {
    var o := os[|os| - 1];
    assert DescribesObject(o, objects[o.key]);
    CollectedLists(o.replicas, objects[o.key].replicas);
  }

  lemma DescribesLess(os: seq<ObjectSnapshot>, objects: map<string, ObjectMeta>)
    requires DescribesObjects(os, objects) && os != []
    ensures var n := |os| - 1; DescribesObjects(os[..n], objects - {os[n].key})
  {
    hide DescribesObject;
    var n := |os| - 1;
    forall k | k in objects - {os[n].key} ensures exists i :: 0 <= i < n && os[..n][i].key == k {
      var i :| 0 <= i < |os| && os[i].key == k;
      assert os[..n][i].key == k;
    }
  }

  /** The segments mounted again are those described, with nothing held. */
  lemma MountedSame(ss: seq<SegmentSnapshot>, s: State)
    requires DescribesSegments(ss, s.fleet) && FleetOk(s.fleet)
    ensures NamedOnce(ss) && FleetOf(Empty(ss)) == Part(s, {})
  {
    hide FleetOf, Part;
    NobodyOwns(s);
    var views := Empty(ss);
    assert UniqueNames(views);
    forall n ensures n in FleetOf(views) <==> n in s.fleet
      ensures n in s.fleet ==> n in FleetOf(views) && FleetOf(views)[n] == s.fleet[n].(holds := map[])
    {
      FleetAt(views, n);
      if n in s.fleet {
        var i :| 0 <= i < |ss| && ss[i].name == n;
        assert views[i].name == n;
      }
    }
  }

  // ---- when recovery succeeds ----

  lemma {:induction false} FitsUnscaled(f: map<string, Segment>, bs: seq<Buffer>, b: Buffer)
    requires Fits(f, bs) && b in bs
    ensures b.segment in f && f[b.segment].capacity <= MAX_BIN_SIZE
  {
    hide Segment.Free;
    var n := |bs| - 1;
    ExactShape(f, bs[..n]);
    if b != bs[n] {
      assert b in bs[..n];
      FitsUnscaled(f, bs[..n], b);
    }
  }

  lemma {:induction false} RestoredShape(f: map<string, Segment>, os: seq<ObjectSnapshot>)
    ensures RestoredFleet(f, os).Keys == f.Keys
    ensures forall n :: n in f ==> RestoredFleet(f, os)[n].capacity == f[n].capacity
  {
    hide Exact;
    if os != [] {
      var n := |os| - 1;
      RestoredShape(f, os[..n]);
      ExactShape(RestoredFleet(f, os[..n]), MemoryBuffers(os[n].replicas));
    }
  }

  lemma {:induction false} FitsAllUnscaled(f: map<string, Segment>, os: seq<ObjectSnapshot>, i: nat, b: Buffer)
    requires FitsAll(f, os) && i < |os| && b in MemoryBuffers(os[i].replicas)
    ensures b.segment in f && f[b.segment].capacity <= MAX_BIN_SIZE
  {
    hide Fits, Exact;
    var n := |os| - 1;
    RestoredShape(f, os[..n]);
    if i == n {
      FitsUnscaled(RestoredFleet(f, os[..n]), MemoryBuffers(os[n].replicas), b);
    } else {
      FitsAllUnscaled(f, os[..n], i, b);
    }
  }

  lemma {:induction false} BufferListed(replicas: seq<Replica>, j: nat)
    requires j < |replicas| && replicas[j].data.Memory?
    ensures replicas[j].data.buffer in MemoryBuffers(replicas)
  {
    var n := |replicas| - 1;
    if j < n { BufferListed(replicas[..n], j); }
  }

  /** Recovery can only succeed if no segment in use is scaled. */
  lemma {:induction false} FitsAllOnlyUnscaled(s: State, os: seq<ObjectSnapshot>)
    requires Inv(s) && DescribesObjects(os, s.objects) && FitsAll(Part(s, {}), os)
    ensures Unscaled(s.fleet)
  {
    hide Inv, FitsAll, MemoryBuffers, DescribesObjects;
    forall n | n in s.fleet && s.fleet[n].holds != map[] ensures s.fleet[n].capacity <= MAX_BIN_SIZE {
      var o :| o in s.fleet[n].holds;
      var i, j := OwnerListed(s, os, n, o);
      BufferListed(os[i].replicas, j);
      FitsAllUnscaled(Part(s, {}), os, i, os[i].replicas[j].data.buffer);
    }
  }

  lemma {:induction false} SecureFits(f: map<string, Segment>, bs: seq<Buffer>)
    requires Secure(f, bs)
    ensures Fits(f, bs)
  {
    if bs != [] { SecureFits(f, bs[..|bs| - 1]); }
  }

  lemma {:induction false} SecureAllFits(f: map<string, Segment>, os: seq<ObjectSnapshot>)
    requires SecureAll(f, os)
    ensures FitsAll(f, os)
  {
    hide Exact, Secure, Fits;
    if os != [] {
      var n := |os| - 1;
      SecureAllFits(f, os[..n]);
      SecureFits(RestoredFleet(f, os[..n]), MemoryBuffers(os[n].replicas));
    }
  }

  /**
    Recovering a snapshot of any reachable state: every range finds its place exactly
    when no segment in use exceeds 3.75 GiB, whatever the order of the objects. The
    nodes for it are there if no segment has over two million buffers.
   */
  lemma RecoveryIff(snap: MasterSnapshot, s: State)
    requires Inv(s) && Describes(snap, s)
    ensures NamedOnce(snap.segments)
    ensures FitsAll(FleetOf(Empty(snap.segments)), snap.objects) <==> Unscaled(s.fleet)
    ensures SecureAll(FleetOf(Empty(snap.segments)), snap.objects) ==> Unscaled(s.fleet)
    ensures Roomy(s.fleet) ==> (SecureAll(FleetOf(Empty(snap.segments)), snap.objects) <==> Unscaled(s.fleet))
  {
    hide FitsAll, SecureAll, DescribesObjects, DescribesSegments, Part, FleetOf, Unscaled, Roomy, Inv;
    FleetIsOk(s);
    MountedSame(snap.segments, s);
    var os := snap.objects;
    assert os[..|os|] == os;
    if Unscaled(s.fleet) { RestoredPart(s, os, |os|); }
    if SecureAll(Part(s, {}), os) { SecureAllFits(Part(s, {}), os); }
    if FitsAll(Part(s, {}), os) { FitsAllOnlyUnscaled(s, os); }
  }

  /** And what it arrives at is the state it was taken of, with every range cut to its size. */
  lemma RecoveryRoundTrip(snap: MasterSnapshot, s: State)
    requires Inv(s) && Describes(snap, s) && Unscaled(s.fleet)
    ensures Restored(snap) == s.(fleet := Tight(s.fleet), log := [])
    ensures Inv(Restored(snap)) && AllocatedSum(Restored(snap).fleet) == AllocatedSum(s.fleet)
    ensures forall other :: Describes(other, Restored(snap)) <==> Describes(other, s)
  {
    hide Inv, DescribesObjects, DescribesSegments, RestoredFleet, RestoredObjects, Part, FleetOf, Unscaled, AllocatedSum, Tight;
    FleetIsOk(s);
    MountedSame(snap.segments, s);
    var os := snap.objects;
    assert os[..|os|] == os;
    RestoredPart(s, os, |os|);
    AllOwned(s, os);
    RestoredSame(os, s.objects);
    TightInv(s);
    TightAllocated(s.fleet);
    forall other ensures Describes(other, Restored(snap)) <==> Describes(other, s) {
      TightDescribed(other.segments, s.fleet);
    }
  }

  lemma FleetIsOk(s: State)
    requires Inv(s)
    ensures FleetOk(s.fleet)
  {
  }

  lemma TightDescribed(ss: seq<SegmentSnapshot>, fleet: map<string, Segment>)
    ensures DescribesSegments(ss, Tight(fleet)) <==> DescribesSegments(ss, fleet)
  {
    hide TightHolds;
    assert Tight(fleet).Keys == fleet.Keys;
  }

  lemma TightInv(s: State)
    requires Inv(s)
    ensures Inv(s.(fleet := Tight(s.fleet), log := []))
  {
    hide ReplicasOk, LeaseOk, Exclusive, NoLeak;
    var t := s.(fleet := Tight(s.fleet), log := []);
    forall n | n in t.fleet ensures t.fleet[n].name == n && t.fleet[n].Valid() { assert s.fleet[n].Valid(); }
    forall k, id | k in t.objects && id in t.objects[k].replicas && t.objects[k].replicas[id].data.Memory?
      ensures BufferHeld(t.objects[k].replicas[id].data.buffer, t.fleet)
    {
      assert BufferHeld(s.objects[k].replicas[id].data.buffer, s.fleet);
    }
    hide Tight;
    TightOwned(s);
  }

  lemma TightOwned(s: State)
    requires NoLeak(s.objects, s.fleet)
    ensures NoLeak(s.objects, Tight(s.fleet))
  {
  }

  lemma TightRemove(fleet: map<string, Segment>, n: string)
    requires n in fleet
    ensures n in Tight(fleet) && Tight(fleet) - {n} == Tight(fleet - {n}) && Tight(fleet)[n] == fleet[n].(holds := TightHolds(fleet[n].holds))
  {
    hide TightHolds;
  }

  lemma {:induction false} TightAllocated(fleet: map<string, Segment>)
    ensures AllocatedSum(Tight(fleet)) == AllocatedSum(fleet)
    decreases |fleet|
  {
    if fleet == map[] {
      assert Tight(fleet) == map[];
    } else {
      hide Segment.Allocated, AllocatedSum, Tight, TightHolds;
      var n :| n in fleet;
      TightRemove(fleet, n);
      AllocatedSumRemove(fleet, n);
      AllocatedSumRemove(Tight(fleet), n);
      TightAllocated(fleet - {n});
      TightSum(fleet[n]);
    }
  }

  lemma TightSum(seg: Segment)
    ensures seg.(holds := TightHolds(seg.holds)).Allocated() == seg.Allocated()
  {
    TightSizes(seg.holds);
  }

  lemma {:induction false} TightSizes(holds: map<nat, Hold>)
    ensures SizeSum(TightHolds(holds)) == SizeSum(holds)
    decreases |holds|
  {
    if holds == map[] {
      assert TightHolds(holds) == map[];
    } else {
      var o :| o in holds;
      SizeSumRemove(holds, o);
      SizeSumRemove(TightHolds(holds), o);
      TightSizes(holds - {o});
      assert TightHolds(holds) - {o} == TightHolds(holds - {o});
    }
  }

  lemma DescribedClock(snap: MasterSnapshot, s: State)
    requires Describes(snap, s)
    ensures snap.clock == s.clock
  {
  }

  /** A restart through a snapshot: the recovered master stands for the same metadata, and its ranges are as exclusive as before. */
  method Restart(m: MasterService) returns (r: Outcome<MasterService>, ghost snap: MasterSnapshot)
    requires m.Valid()
    ensures Describes(snap, m.View()) && NamedOnce(snap.segments) && (r.Ok? <==> SecureAll(FleetOf(Empty(snap.segments)), snap.objects))
    ensures (r.Ok? ==> Unscaled(m.View().fleet)) && (Roomy(m.View().fleet) ==> (r.Ok? <==> Unscaled(m.View().fleet)))
    ensures r.Ok? ==> fresh(r.value) && r.value.Valid() && r.value.View() == m.View().(fleet := Tight(m.View().fleet), log := [])
    ensures r.Ok? ==> AllocatedSum(r.value.View().fleet) == AllocatedSum(m.View().fleet)
    ensures r.Ok? ==> r.value.Rules() == m.Rules() && r.value.segmentTtl == m.segmentTtl && HeardOf(r.value, m.clock)
  {
    hide Inv, SegmentState.Valid, FleetOf, Describes, FitsAll, SecureAll, Restored, Unscaled, Roomy, Tight, AllocatedSum;
    var taken := Snapshot(m);
    snap := taken;
    assert snap.clock == m.clock by { DescribedClock(snap, m.View()); }
    RecoveryIff(snap, m.View());
    r := Recover(taken);
    if r.Ok? { RecoveryRoundTrip(snap, m.View()); }
  }
}