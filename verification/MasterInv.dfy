/**
  The master's invariant is kept by every elementary change, hence over every run.
 */
module MasterInv {
  import opened Segments
  import opened MasterSpec

  // ---- giving ranges back ----

  lemma ReleaseFleetOk(fleet: map<string, Segment>, bs: set<Buffer>)
    requires FleetOk(fleet)
    ensures FleetOk(Release(fleet, bs))
  {
    var f := Release(fleet, bs);
    forall n | n in f ensures f[n].name == n && f[n].Valid() {
      assert fleet[n].Valid();
    }
  }

  lemma ForgetInv(s: State, key: string)
    requires Inv(s) && key in s.objects
    ensures Inv(Forget(s, key))
  {
    hide FleetOk, ReplicasOk, LeaseOk;
    var t := Forget(s, key);
    var bs := BuffersOf(s.objects[key].replicas);
    ReleaseFleetOk(s.fleet, bs);
    forall k, id | k in t.objects && id in t.objects[k].replicas && t.objects[k].replicas[id].data.Memory?
      ensures BufferHeld(t.objects[k].replicas[id].data.buffer, t.fleet)
    {
      StillHeld(s, key, k, id);
    }
    forall k, id, k', id', n, o | Owns(t.objects, k, id, n, o) && Owns(t.objects, k', id', n, o) ensures k == k' && id == id' {
      assert Owns(s.objects, k, id, n, o) && Owns(s.objects, k', id', n, o);
    }
    forall n, o | n in t.fleet && o in t.fleet[n].holds ensures exists k, id :: Owns(t.objects, k, id, n, o) {
      ForgetOwned(s, key, n, o);
    }
  }

  /** What is still held after forgetting an object has another owner. */
  lemma ForgetOwned(s: State, key: string, n: string, o: nat)
    requires NoLeak(s.objects, s.fleet) && key in s.objects
    requires n in Forget(s, key).fleet && o in Forget(s, key).fleet[n].holds
    ensures exists k, id :: Owns(Forget(s, key).objects, k, id, n, o)
  {
    var k, id :| Owns(s.objects, k, id, n, o);
    assert Owns(Forget(s, key).objects, k, id, n, o);
  }

  /** Another object's range survives when one object is forgotten. */
  lemma StillHeld(s: State, key: string, k: string, id: nat)
    requires Inv(s) && key in s.objects && k in s.objects && k != key
    requires id in s.objects[k].replicas && s.objects[k].replicas[id].data.Memory?
    ensures BufferHeld(s.objects[k].replicas[id].data.buffer, Forget(s, key).fleet)
  {
    hide FleetOk, ReplicasOk, LeaseOk, NoLeak;
    var b := s.objects[k].replicas[id].data.buffer;
    var bs := BuffersOf(s.objects[key].replicas);
    assert BufferHeld(b, s.fleet);
    assert Owns(s.objects, k, id, b.segment, b.offset);
    forall c | c in bs && c.segment == b.segment ensures c.offset != b.offset {
      var id' :| id' in s.objects[key].replicas && s.objects[key].replicas[id'].data.Memory? && s.objects[key].replicas[id'].data.buffer == c;
      assert Owns(s.objects, key, id', c.segment, c.offset);
    }
  }

  // ---- changes of one object's flags ----

  /** Changing an object without moving its buffers keeps ownership as it is. */
  lemma SameBuffersInv(s: State, key: string, o: ObjectMeta)
    requires Inv(s) && key in s.objects
    requires o.replicas.Keys == s.objects[key].replicas.Keys
    requires forall id :: id in o.replicas ==>
      o.replicas[id].data == s.objects[key].replicas[id].data && o.replicas[id].id == s.objects[key].replicas[id].id
    requires ReplicasOk(o.replicas, s.nextId) && LeaseOk(o, s.clock)
    ensures Inv(s.(objects := s.objects[key := o]))
  {
    hide FleetOk, ReplicasOk, LeaseOk;
    var t := s.(objects := s.objects[key := o]);
    forall k, id, n, off ensures Owns(t.objects, k, id, n, off) <==> Owns(s.objects, k, id, n, off) {
    }
    forall k, id | k in t.objects && id in t.objects[k].replicas && t.objects[k].replicas[id].data.Memory?
      ensures BufferHeld(t.objects[k].replicas[id].data.buffer, t.fleet)
    {
      assert s.objects[k].replicas[id].data == t.objects[k].replicas[id].data;
    }
    forall n, off | n in t.fleet && off in t.fleet[n].holds ensures exists k, id :: Owns(t.objects, k, id, n, off) {
      var k, id :| Owns(s.objects, k, id, n, off);
      assert Owns(t.objects, k, id, n, off);
    }
  }

  lemma StatusOk(replicas: ReplicaList, nextId: nat, status: Status)
    requires ReplicasOk(replicas, nextId)
    ensures ReplicasOk(WithStatus(replicas, status), nextId)
  {
    var rs := WithStatus(replicas, status);
    assert forall id :: id in rs ==> rs[id] == replicas[id].(status := status);
  }

  // ---- mounting ----

  lemma MountInv(s: State, name: string, capacity: nat)
    requires Inv(s) && name !in s.fleet
    ensures Inv(s.(fleet := s.fleet[name := Segment(name, capacity, map[])]))
  {
    hide ReplicasOk, LeaseOk;
    var t := s.(fleet := s.fleet[name := Segment(name, capacity, map[])]);
    forall n | n in t.fleet ensures t.fleet[n].name == n && t.fleet[n].Valid() {
    }
    hide FleetOk;
    forall k, id | k in t.objects && id in t.objects[k].replicas && t.objects[k].replicas[id].data.Memory?
      ensures BufferHeld(t.objects[k].replicas[id].data.buffer, t.fleet)
    {
      assert BufferHeld(s.objects[k].replicas[id].data.buffer, s.fleet);
    }
  }

  lemma UnmountOwns(objects: map<string, ObjectMeta>, name: string, k: string, id: nat, n: string, o: nat)
    ensures Owns(Unmounted(objects, name), k, id, n, o) <==> n != name && Owns(objects, k, id, n, o)
  {
    if Owns(objects, k, id, n, o) && n != name {
      assert id in OffSegment(objects[k].replicas, name);
    }
  }

  lemma OffSegmentOk(o: ObjectMeta, name: string, nextId: nat, clock: nat)
    requires ReplicasOk(o.replicas, nextId) && LeaseOk(o, clock) && OffSegment(o.replicas, name) != map[]
    ensures ReplicasOk(OffSegment(o.replicas, name), nextId) && LeaseOk(o.(replicas := OffSegment(o.replicas, name)), clock)
  {
  }

  lemma UnmountInv(s: State, name: string)
    requires Inv(s) && name in s.fleet
    ensures Inv(s.(objects := Unmounted(s.objects, name), fleet := s.fleet - {name}))
  {
    hide ReplicasOk, LeaseOk, Segment.Valid;
    var t := s.(objects := Unmounted(s.objects, name), fleet := s.fleet - {name});
    forall k, id, n, o ensures Owns(t.objects, k, id, n, o) <==> n != name && Owns(s.objects, k, id, n, o) {
      UnmountOwns(s.objects, name, k, id, n, o);
    }
    forall k | k in t.objects ensures ReplicasOk(t.objects[k].replicas, t.nextId) && LeaseOk(t.objects[k], t.clock) {
      OffSegmentOk(s.objects[k], name, s.nextId, s.clock);
    }
    forall k, id | k in t.objects && id in t.objects[k].replicas && t.objects[k].replicas[id].data.Memory?
      ensures BufferHeld(t.objects[k].replicas[id].data.buffer, t.fleet)
    {
      assert BufferHeld(s.objects[k].replicas[id].data.buffer, s.fleet);
    }
    forall n, o | n in t.fleet && o in t.fleet[n].holds ensures exists k, id :: Owns(t.objects, k, id, n, o) {
      var k, id :| Owns(s.objects, k, id, n, o);
      assert Owns(t.objects, k, id, n, o);
    }
  }

  // ---- placing ----

  lemma {:induction false} HoldAllAt(fleet: map<string, Segment>, bs: seq<Buffer>, es: seq<nat>, n: string)
    requires |bs| == |es| && DistinctSegments(bs) && (forall i :: 0 <= i < |bs| ==> bs[i].segment in fleet)
    ensures HoldAll(fleet, bs, es).Keys == fleet.Keys
    ensures forall i :: 0 <= i < |bs| && bs[i].segment == n ==> HoldAll(fleet, bs, es)[n] == Hold1(fleet, bs[i], es[i])[n]
    ensures n in fleet && (forall i :: 0 <= i < |bs| ==> bs[i].segment != n) ==> HoldAll(fleet, bs, es)[n] == fleet[n]
  {
    if bs != [] {
      var m := |bs| - 1;
      HoldAllAt(fleet, bs[..m], es[..m], n);
      HoldAllAt(fleet, bs[..m], es[..m], bs[m].segment);
    }
  }

  /** The holds of a segment after a placement: what it held, and at most one new range. */
  lemma {:induction false} HoldAllSegments(f: map<string, Segment>, c: Change)
    requires c.Place? && AllTakeable(f, c.buffers, c.extents, c.size)
    ensures SameSegments(f, HoldAll(f, c.buffers, c.extents))
  {
    var g := HoldAll(f, c.buffers, c.extents);
    HoldAllAt(f, c.buffers, c.extents, "");
    forall n | n in f && n in g ensures f[n].name == g[n].name && f[n].capacity == g[n].capacity {
      HoldAllAt(f, c.buffers, c.extents, n);
      if i :| 0 <= i < |c.buffers| && c.buffers[i].segment == n { assert g[n] == Hold1(f, c.buffers[i], c.extents[i])[n]; }
    }
  }

  lemma {:induction false} HoldAllHolds(fleet: map<string, Segment>, bs: seq<Buffer>, es: seq<nat>, size: nat, n: string, o: nat)
    requires AllTakeable(fleet, bs, es, size) && n in fleet
    ensures HoldAll(fleet, bs, es).Keys == fleet.Keys
    ensures o in HoldAll(fleet, bs, es)[n].holds <==> o in fleet[n].holds || exists i :: 0 <= i < |bs| && bs[i].segment == n && bs[i].offset == o
    ensures o in fleet[n].holds ==> HoldAll(fleet, bs, es)[n].holds[o] == fleet[n].holds[o]
    ensures forall i :: 0 <= i < |bs| && bs[i].segment == n && bs[i].offset == o ==> HoldAll(fleet, bs, es)[n].holds[o].size == bs[i].size
  {
    HoldAllAt(fleet, bs, es, n);
    if exists i :: 0 <= i < |bs| && bs[i].segment == n {
      var i :| 0 <= i < |bs| && bs[i].segment == n;
      assert Takeable(fleet, bs[i], es[i]);
    }
  }

  lemma {:induction false} HoldAllFleetOk(fleet: map<string, Segment>, bs: seq<Buffer>, es: seq<nat>, size: nat)
    requires FleetOk(fleet) && AllTakeable(fleet, bs, es, size)
    ensures FleetOk(HoldAll(fleet, bs, es))
  {
    var f := HoldAll(fleet, bs, es);
    forall n | n in f ensures f[n].name == n && f[n].Valid() {
      HoldAllAt(fleet, bs, es, n);
      if exists i :: 0 <= i < |bs| && bs[i].segment == n {
        var i :| 0 <= i < |bs| && bs[i].segment == n;
        assert Takeable(fleet, bs[i], es[i]);
      }
    }
  }

  lemma FreshOk(bs: seq<Buffer>, nextId: nat, size: nat)
    requires DistinctSegments(bs) && forall i :: 0 <= i < |bs| ==> bs[i].size == size
    ensures ReplicasOk(FreshReplicas(bs, nextId), nextId + |bs|)
  {
    var rs := FreshReplicas(bs, nextId);
    forall id | id in rs ensures rs[id] == FreshReplica(bs, nextId, id) && rs[id].Size() == size {
    }
  }

  lemma PlaceOwns(s: State, c: Change, k: string, id: nat, n: string, o: nat)
    requires c.Place? && Enabled(s, c)
    ensures Owns(Apply(s, c).objects, k, id, n, o) <==>
      if k == c.key then s.nextId <= id < s.nextId + |c.buffers| && c.buffers[id - s.nextId].segment == n && c.buffers[id - s.nextId].offset == o
      else Owns(s.objects, k, id, n, o)
  {
    hide HoldAll, AllTakeable, FreshReplicas;
    FreshAt(c.buffers, s.nextId, id);
  }

  lemma FreshAt(bs: seq<Buffer>, nextId: nat, id: nat)
    ensures id in FreshReplicas(bs, nextId) <==> nextId <= id < nextId + |bs|
    ensures id in FreshReplicas(bs, nextId) ==> FreshReplicas(bs, nextId)[id] == Replica(id, Initialized, 0, Memory(bs[id - nextId]))
  {
    if nextId <= id < nextId + |bs| { assert FreshReplicas(bs, nextId)[id] == FreshReplica(bs, nextId, id); }
  }

  /** A range of the old state is not among those just taken. */
  lemma TakenWasFree(s: State, c: Change, k: string, id: nat, n: string, o: nat)
    requires Inv(s) && c.Place? && Enabled(s, c) && Owns(s.objects, k, id, n, o)
    ensures forall i :: 0 <= i < |c.buffers| ==> c.buffers[i].segment != n || c.buffers[i].offset != o
  {
    assert BufferHeld(s.objects[k].replicas[id].data.buffer, s.fleet);
    assert forall i :: 0 <= i < |c.buffers| ==> Takeable(s.fleet, c.buffers[i], c.extents[i]);
  }

  lemma PlaceExclusive(s: State, c: Change, k: string, id: nat, k': string, id': nat, n: string, o: nat)
    requires Inv(s) && c.Place? && Enabled(s, c)
    requires Owns(Apply(s, c).objects, k, id, n, o) && Owns(Apply(s, c).objects, k', id', n, o)
    ensures k == k' && id == id'
  {
    hide Owns;
    PlaceOwns(s, c, k, id, n, o);
    PlaceOwns(s, c, k', id', n, o);
    if k != c.key { TakenWasFree(s, c, k, id, n, o); }
    if k' != c.key { TakenWasFree(s, c, k', id', n, o); }
  }

  lemma PlaceBackedNew(s: State, c: Change, id: nat)
    requires c.Place? && Enabled(s, c) && id in FreshReplicas(c.buffers, s.nextId)
    ensures FreshReplicas(c.buffers, s.nextId)[id].data.Memory?
    ensures BufferHeld(FreshReplicas(c.buffers, s.nextId)[id].data.buffer, HoldAll(s.fleet, c.buffers, c.extents))
  {
    hide HoldAll;
    var i := id - s.nextId;
    assert FreshReplicas(c.buffers, s.nextId)[id] == FreshReplica(c.buffers, s.nextId, id);
    assert Takeable(s.fleet, c.buffers[i], c.extents[i]);
    HoldAllHolds(s.fleet, c.buffers, c.extents, c.size, c.buffers[i].segment, c.buffers[i].offset);
  }

  lemma {:induction false} PlaceBackedOld(fleet: map<string, Segment>, bs: seq<Buffer>, es: seq<nat>, size: nat, b: Buffer)
    requires AllTakeable(fleet, bs, es, size) && BufferHeld(b, fleet)
    ensures BufferHeld(b, HoldAll(fleet, bs, es))
  {
    hide HoldAll;
    HoldAllHolds(fleet, bs, es, size, b.segment, b.offset);
  }

  lemma PlaceBacked(s: State, c: Change, k: string, id: nat)
    requires Inv(s) && c.Place? && Enabled(s, c)
    requires k in Apply(s, c).objects && id in Apply(s, c).objects[k].replicas && Apply(s, c).objects[k].replicas[id].data.Memory?
    ensures BufferHeld(Apply(s, c).objects[k].replicas[id].data.buffer, Apply(s, c).fleet)
  {
    hide HoldAll, FreshReplicas, BufferHeld;
    if k == c.key {
      PlaceBackedNew(s, c, id);
    } else {
      PlaceBackedOld(s.fleet, c.buffers, c.extents, c.size, s.objects[k].replicas[id].data.buffer);
    }
  }

  lemma PlaceNoLeak(s: State, c: Change, n: string, o: nat)
    requires Inv(s) && c.Place? && Enabled(s, c)
    requires n in Apply(s, c).fleet && o in Apply(s, c).fleet[n].holds
    ensures exists k, id :: Owns(Apply(s, c).objects, k, id, n, o)
  {
    hide HoldAll, FreshReplicas, Owns, FleetOk, Backed, Exclusive, ReplicasOk, LeaseOk, Takeable;
    assert forall i :: 0 <= i < |c.buffers| ==> Takeable(s.fleet, c.buffers[i], c.extents[i]);
    SegmentsKnown(s.fleet, c.buffers, c.extents, c.size);
    HoldAllAt(s.fleet, c.buffers, c.extents, n);
    HoldAllHolds(s.fleet, c.buffers, c.extents, c.size, n, o);
    if o in s.fleet[n].holds {
      var k, id :| Owns(s.objects, k, id, n, o);
      PlaceOwns(s, c, k, id, n, o);
      OwnerKnown(s.objects, k, id, n, o);
    } else {
      var i :| 0 <= i < |c.buffers| && c.buffers[i].segment == n && c.buffers[i].offset == o;
      PlaceOwns(s, c, c.key, s.nextId + i, n, o);
    }
  }

  lemma SegmentsKnown(fleet: map<string, Segment>, bs: seq<Buffer>, es: seq<nat>, size: nat)
    requires AllTakeable(fleet, bs, es, size)
    ensures DistinctSegments(bs) && forall i :: 0 <= i < |bs| ==> bs[i].segment in fleet
  {
  }

  lemma OwnerKnown(objects: map<string, ObjectMeta>, k: string, id: nat, n: string, o: nat)
    requires Owns(objects, k, id, n, o)
    ensures k in objects
  {
  }

  lemma PlaceInv(s: State, c: Change)
    requires Inv(s) && c.Place? && Enabled(s, c)
    ensures Inv(Apply(s, c))
  {
    hide HoldAll, FreshReplicas, Owns, BufferHeld;
    var t := Apply(s, c);
    HoldAllFleetOk(s.fleet, c.buffers, c.extents, c.size);
    FreshOk(c.buffers, s.nextId, c.size);
    forall k | k in t.objects ensures ReplicasOk(t.objects[k].replicas, t.nextId) && LeaseOk(t.objects[k], t.clock) {
      if k != c.key { assert ReplicasOk(s.objects[k].replicas, s.nextId) && LeaseOk(s.objects[k], s.clock); }
    }
    forall k, id | k in t.objects && id in t.objects[k].replicas && t.objects[k].replicas[id].data.Memory?
      ensures BufferHeld(t.objects[k].replicas[id].data.buffer, t.fleet)
    {
      PlaceBacked(s, c, k, id);
    }
    forall k, id, k', id', n, o | Owns(t.objects, k, id, n, o) && Owns(t.objects, k', id', n, o) ensures k == k' && id == id' {
      PlaceExclusive(s, c, k, id, k', id', n, o);
    }
    forall n, o | n in t.fleet && o in t.fleet[n].holds ensures exists k, id :: Owns(t.objects, k, id, n, o) {
      PlaceNoLeak(s, c, n, o);
    }
  }

  // ---- every change, every run ----

  lemma CommitInv(s: State, k: string)
    requires Inv(s) && k in s.objects
    ensures Inv(s.(objects := s.objects[k := s.objects[k].(replicas := WithStatus(s.objects[k].replicas, Complete))]))
  {
    hide FleetOk, Backed, Exclusive, NoLeak;
    var o := s.objects[k];
    StatusOk(o.replicas, s.nextId, Complete);
    assert LeaseOk(o, s.clock);
    hide ReplicasOk;
    SameBuffersInv(s, k, o.(replicas := WithStatus(o.replicas, Complete)));
  }

  lemma ReopenInv(s: State, k: string, who: Identity)
    requires Inv(s) && k in s.objects && s.objects[k].leaseUntil <= s.clock
    ensures var reopened := s.objects[k].(replicas := WithStatus(s.objects[k].replicas, Initialized), identity := who, lastAccess := s.clock);
      Inv(s.(objects := s.objects[k := reopened]))
  {
    hide FleetOk, Backed, Exclusive, NoLeak, ReplicasOk;
    var o := s.objects[k];
    StatusOk(o.replicas, s.nextId, Initialized);
    SameBuffersInv(s, k, o.(replicas := WithStatus(o.replicas, Initialized), identity := who, lastAccess := s.clock));
  }

  lemma ReadInv(s: State, k: string)
    requires Inv(s) && k in s.objects && s.objects[k].HasComplete()
    ensures Inv(s.(objects := s.objects[k := s.objects[k].(lastAccess := s.clock, leaseUntil := s.clock + s.leaseTtl)]))
  {
    hide FleetOk, Backed, Exclusive, NoLeak;
    var o := s.objects[k];
    var id :| id in o.replicas && o.replicas[id].status == Complete;
    assert ReplicasOk(o.replicas, s.nextId);
    SameBuffersInv(s, k, o.(lastAccess := s.clock, leaseUntil := s.clock + s.leaseTtl));
  }

  lemma TickInv(s: State)
    requires Inv(s)
    ensures Inv(s.(clock := s.clock + 1))
  {
    hide FleetOk, Backed, Exclusive, NoLeak, ReplicasOk;
  }

  /** Every enabled change keeps the invariant. */
  lemma ApplyInv(s: State, c: Change)
    requires Inv(s) && Enabled(s, c)
    ensures Inv(Apply(s, c))
  {
    hide Inv, AllTakeable, Lists, Release, BuffersOf, HoldAll, FreshReplicas, WithStatus, Unmounted, ObjectMeta.HasComplete;
    match c
    case Mount(n, cap) =>
      MountInv(s, n, cap);
      LogOnly(s.(fleet := s.fleet[n := Segment(n, cap, map[])]), Apply(s, c));
    case Unmount(n) =>
      UnmountInv(s, n);
      LogOnly(s.(objects := Unmounted(s.objects, n), fleet := s.fleet - {n}), Apply(s, c));
    case Drop(k) => ForgetInv(s, k);
    case Remove(k) =>
      ForgetInv(s, k);
      LogOnly(Forget(s, k), Apply(s, c));
    case Place(_, _, _, _, _, _, _) => PlaceInv(s, c);
    case Commit(k, order) =>
      CommitInv(s, k);
      LogOnly(s.(objects := s.objects[k := s.objects[k].(replicas := WithStatus(s.objects[k].replicas, Complete))]), Apply(s, c));
    case Reopen(k, who) => ReopenInv(s, k, who);
    case Read(k) => ReadInv(s, k);
    case Tick => TickInv(s);
  }

  lemma LogOnly(s: State, t: State)
    requires Inv(s) && t == s.(log := t.log)
    ensures Inv(t)
  {
  }

  /** The invariant holds over every run. */
  lemma {:induction false} RunInv(s: State, cs: seq<Change>)
    requires Inv(s) && Path(s, cs)
    ensures Inv(Run(s, cs))
    decreases |cs|
  {
    if cs != [] {
      ApplyInv(s, cs[0]);
      RunInv(Apply(s, cs[0]), cs[1..]);
    }
  }

  /** A path may be cut anywhere. */
  lemma {:induction false} RunConcat(s: State, cs: seq<Change>, ds: seq<Change>)
    requires Path(s, cs) && Path(Run(s, cs), ds)
    ensures Path(s, cs + ds) && Run(s, cs + ds) == Run(Run(s, cs), ds)
    decreases |cs|
  {
    if cs == [] {
      assert cs + ds == ds;
    } else {
      RunConcat(Apply(s, cs[0]), cs[1..], ds);
      assert (cs + ds)[1..] == cs[1..] + ds;
    }
  }
}
