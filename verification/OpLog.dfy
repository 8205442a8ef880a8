/**
  Recovery by replaying the op-log: the state a log rebuilds, and which steps of
  the master keep it in agreement with the objects that can be read.
 */
module OpLogs {
  import opened Buffers
  import opened Fleets
  import opened MasterInv
  import opened MasterSpec
  import opened Parts
  import opened Segments
  import opened SmallFloat

  // ---- the state a log rebuilds ----

  /** Ids handed out after replay start above every replayed one. */
  function IdsAbove(nextId: nat, replicas: seq<Replica>): (m: nat)
    ensures nextId <= m && forall i :: 0 <= i < |replicas| ==> replicas[i].id < m
    ensures m == nextId || exists i :: 0 <= i < |replicas| && m == replicas[i].id + 1
  {
    if replicas == [] then nextId
    else
      var n := |replicas| - 1;
      var before := IdsAbove(nextId, replicas[..n]);
      assert forall i :: 0 <= i < n ==> replicas[..n][i] == replicas[i];
      if before <= replicas[n].id then replicas[n].id + 1 else before
  }

  /** Replaying one entry; a commit fails unless all its ranges are free. */
  ghost function Replayed(t: State, e: Entry): Option<State> {
    match e
    case SegmentMounted(n, cap) =>
      if n in t.fleet then None else Some(t.(fleet := t.fleet[n := Segment(n, cap, map[])]))
    case SegmentUnmounted(n) =>
      Some(if n in t.fleet then t.(objects := Unmounted(t.objects, n), fleet := t.fleet - {n}) else t)
    case RemovedEntry(k) =>
      Some(if k in t.objects then Forget(t, k) else t)
    case PutCommitted(k, who, rs, soft, hard) =>
      if !Fits(t.fleet, MemoryBuffers(rs)) then None
      else Some(t.(
        objects := t.objects[k := ObjectMeta(Collected(rs), who, 0, t.clock, soft, hard)],
        fleet := Exact(t.fleet, MemoryBuffers(rs)),
        nextId := IdsAbove(t.nextId, rs)))
  }

  const BLANK := State(map[], map[], 0, 0, 5, [])

  ghost function Rebuilt(log: seq<Entry>): Option<State> {
    if log == [] then Some(BLANK)
    else
      var n := |log| - 1;
      match Rebuilt(log[..n])
      case None => None
      case Some(t) => Replayed(t, log[n])
  }

  lemma {:induction false} RebuiltSnoc(log: seq<Entry>, e: Entry)
    ensures Rebuilt(log + [e]) == match Rebuilt(log) case None => None case Some(t) => Replayed(t, e)
  {
    assert (log + [e])[..|log|] == log;
  }

  // ---- agreement with what can be read ----

  ghost predicate Visible(objects: map<string, ObjectMeta>, k: string) {
    k in objects && objects[k].HasComplete()
  }

  /** The replicas of the objects that can be read. */
  ghost function VisiblePairs(objects: map<string, ObjectMeta>): set<(string, nat)> {
    set k, id | k in objects && id in objects[k].replicas && objects[k].HasComplete() :: (k, id)
  }

  /** The same object as far as the log records it. */
  ghost predicate SameDurable(o: ObjectMeta, p: ObjectMeta) {
    o.replicas == p.replicas && o.identity == p.identity && o.softPinned == p.softPinned && o.hardPinned == p.hardPinned
  }

  /** `t` has exactly the readable objects of `s`, and holds exactly their ranges; objects without replicas do not matter. */
  ghost predicate Mirrors(s: State, t: State) {
    && t.fleet == Part(s, VisiblePairs(s.objects))
    && (forall k :: Visible(s.objects, k) ==> k in t.objects && SameDurable(s.objects[k], t.objects[k]))
    && (forall k :: k in t.objects && !Visible(s.objects, k) ==> t.objects[k].replicas == map[])
    && (forall k, id :: k in t.objects && id in t.objects[k].replicas ==> id < t.nextId)
    && (forall k :: k in t.objects ==> t.objects[k].leaseUntil == 0)
  }

  ghost predicate Agree(s: State) {
    Rebuilt(s.log).Some? && Mirrors(s, Rebuilt(s.log).value)
  }

  /** A step the log can follow: it commits, drops or reopens nothing that can be read, and commits on no scaled segment. */
  ghost predicate Durable(s: State, c: Change) {
    && (c.Drop? || c.Reopen? || c.Commit? ==> !Visible(s.objects, c.key))
    && (c.Commit? ==> RowUnscaled(s.fleet, c.order))
  }

  // ---- parts of a fleet, point by point ----

  ghost predicate PartAt(f: map<string, Segment>, s: State, who: set<(string, nat)>, n: string, o: nat) {
    n in f && n in s.fleet ==>
      && (o in f[n].holds <==> o in s.fleet[n].holds && OwnedBy(s.objects, who, n, o))
      && (o in f[n].holds && o in s.fleet[n].holds ==> f[n].holds[o] == Hold(s.fleet[n].holds[o].size, s.fleet[n].holds[o].size))
  }

  lemma PartPointwise(f: map<string, Segment>, s: State, who: set<(string, nat)>)
    requires SameSegments(f, s.fleet) && forall n, o :: PartAt(f, s, who, n, o)
    ensures f == Part(s, who)
  {
    hide OwnedBy;
    forall n | n in f ensures f[n].holds == PartHolds(s, who, n) {
      forall o ensures o in f[n].holds <==> o in PartHolds(s, who, n)
        ensures o in f[n].holds ==> f[n].holds[o] == PartHolds(s, who, n)[o]
      {
        assert PartAt(f, s, who, n, o);
      }
    }
  }

  lemma PartIs(s: State, who: set<(string, nat)>, n: string, o: nat)
    ensures SameSegments(Part(s, who), s.fleet) && PartAt(Part(s, who), s, who, n, o)
  {
    hide OwnedBy;
  }

  /** A part depends on the fleet's segments and on the ranges its owners own. */
  lemma PartSame(s: State, t: State, who: set<(string, nat)>)
    requires SameSegments(s.fleet, t.fleet)
    requires forall n, o :: n in s.fleet && OwnedBy(s.objects, who, n, o) ==>
      o in s.fleet[n].holds && o in t.fleet[n].holds && t.fleet[n].holds[o].size == s.fleet[n].holds[o].size
    requires forall n, o :: n in s.fleet ==> (OwnedBy(t.objects, who, n, o) <==> OwnedBy(s.objects, who, n, o))
    ensures Part(t, who) == Part(s, who)
  {
    hide OwnedBy, Part;
    var f := Part(s, who);
    PartIs(s, who, "", 0);
    forall n, o ensures PartAt(f, t, who, n, o) {
      PartIs(s, who, n, o);
    }
    PartPointwise(f, t, who);
  }

  /** Owned ranges are held. */
  lemma OwnedHeld(s: State, who: set<(string, nat)>, n: string, o: nat)
    requires Inv(s) && OwnedBy(s.objects, who, n, o)
    ensures n in s.fleet && o in s.fleet[n].holds
  {
    var p :| p in who && Owns(s.objects, p.0, p.1, n, o);
    assert BufferHeld(s.objects[p.0].replicas[p.1].data.buffer, s.fleet);
  }

  // ---- steps that leave the readable objects alone ----

  ghost predicate SameVisible(s: State, t: State) {
    forall k ::
      && (Visible(s.objects, k) <==> Visible(t.objects, k))
      && (Visible(s.objects, k) ==> SameDurable(s.objects[k], t.objects[k]))
  }

  /** The readable objects keep their ranges. */
  ghost predicate RangesKept(s: State, t: State) {
    forall k, id :: (k, id) in VisiblePairs(s.objects) && s.objects[k].replicas[id].data.Memory? ==>
      BufferHeld(s.objects[k].replicas[id].data.buffer, t.fleet)
  }

  lemma SamePairs(s: State, t: State)
    requires SameVisible(s, t)
    ensures VisiblePairs(s.objects) == VisiblePairs(t.objects)
    ensures forall n, o :: OwnedBy(t.objects, VisiblePairs(s.objects), n, o) <==> OwnedBy(s.objects, VisiblePairs(s.objects), n, o)
  {
    hide ObjectMeta.HasComplete;
    forall k, id ensures (k, id) in VisiblePairs(s.objects) <==> (k, id) in VisiblePairs(t.objects) {
      assert Visible(s.objects, k) <==> Visible(t.objects, k);
    }
    forall k, id, n, o | (k, id) in VisiblePairs(s.objects)
      ensures Owns(t.objects, k, id, n, o) <==> Owns(s.objects, k, id, n, o)
    {
      assert Visible(s.objects, k);
    }
    assert forall p :: p in VisiblePairs(s.objects) ==> p == (p.0, p.1);
  }

  lemma MirrorsKept(s: State, s': State, t: State)
    requires Inv(s) && Mirrors(s, t) && SameVisible(s, s') && SameSegments(s.fleet, s'.fleet) && RangesKept(s, s')
    ensures Mirrors(s', t)
  {
    var v := VisiblePairs(s.objects);
    SamePairs(s, s');
    hide VisiblePairs, Part, Inv, ObjectMeta.HasComplete;
    forall n, o | n in s.fleet && OwnedBy(s.objects, v, n, o)
      ensures o in s.fleet[n].holds && o in s'.fleet[n].holds && s'.fleet[n].holds[o].size == s.fleet[n].holds[o].size
    {
      var p :| p in v && Owns(s.objects, p.0, p.1, n, o);
      ReplicaHeld(s, p.0, p.1);
      assert p == (p.0, p.1);
    }
    PartSame(s, s', v);
  }

  lemma VisibleComplete(s: State, k: string)
    requires Inv(s) && Visible(s.objects, k)
    ensures s.objects[k].replicas != map[] && forall id :: id in s.objects[k].replicas ==> s.objects[k].replicas[id].status == Complete
  {
    assert ReplicasOk(s.objects[k].replicas, s.nextId);
  }

  lemma FleetKept(s: State, s': State)
    requires Inv(s) && s'.fleet == s.fleet
    ensures RangesKept(s, s')
  {
    hide Inv, ObjectMeta.HasComplete, BufferHeld;
    forall k, id | (k, id) in VisiblePairs(s.objects)
      ensures s.objects[k].replicas[id].data.Memory? ==> BufferHeld(s.objects[k].replicas[id].data.buffer, s'.fleet)
    {
      ReplicaHeld(s, k, id);
    }
  }

  lemma ReadMirrors(s: State, c: Change, t: State)
    requires Inv(s) && Mirrors(s, t) && Enabled(s, c) && (c.Read? || c.Tick?)
    ensures Mirrors(Apply(s, c), t)
  {
    hide Inv, Mirrors, RangesKept;
    var s' := Apply(s, c);
    assert SameVisible(s, s');
    FleetKept(s, s');
    MirrorsKept(s, s', t);
  }

  lemma ReopenMirrors(s: State, k: string, who: Identity, t: State)
    requires Inv(s) && Mirrors(s, t) && Enabled(s, Reopen(k, who)) && !Visible(s.objects, k)
    ensures Mirrors(Apply(s, Reopen(k, who)), t)
  {
    hide Inv, Mirrors, RangesKept;
    var s' := Apply(s, Reopen(k, who));
    assert !Visible(s'.objects, k);
    assert SameVisible(s, s');
    FleetKept(s, s');
    MirrorsKept(s, s', t);
  }

  lemma DropMirrors(s: State, k: string, t: State)
    requires Inv(s) && Mirrors(s, t) && k in s.objects && !Visible(s.objects, k)
    ensures Mirrors(Forget(s, k), t)
  {
    hide Inv, Mirrors, Release;
    var s' := Forget(s, k);
    forall l ensures (Visible(s.objects, l) <==> Visible(s'.objects, l)) && (Visible(s.objects, l) ==> SameDurable(s.objects[l], s'.objects[l])) {
    }
    assert SameSegments(s.fleet, s'.fleet) by { ReleaseSegments(s.fleet, BuffersOf(s.objects[k].replicas)); }
    forall l, id | (l, id) in VisiblePairs(s.objects) && s.objects[l].replicas[id].data.Memory?
      ensures BufferHeld(s.objects[l].replicas[id].data.buffer, s'.fleet) { StillHeld(s, k, l, id); }
    MirrorsKept(s, s', t);
  }

  lemma PlaceMirrors(s: State, c: Change, t: State)
    requires Inv(s) && Mirrors(s, t) && c.Place? && Enabled(s, c)
    ensures Mirrors(Apply(s, c), t)
  {
    hide Inv, Mirrors, HoldAll, AllTakeable, FreshReplicas;
    var s' := Apply(s, c);
    FreshNotVisible(s, c);
    forall k ensures (Visible(s.objects, k) <==> Visible(s'.objects, k)) && (Visible(s.objects, k) ==> SameDurable(s.objects[k], s'.objects[k])) {
    }
    HoldAllSegments(s.fleet, c);
    forall k, id | (k, id) in VisiblePairs(s.objects) && s.objects[k].replicas[id].data.Memory?
      ensures BufferHeld(s.objects[k].replicas[id].data.buffer, s'.fleet)
    {
      ReplicaHeld(s, k, id);
      var b := s.objects[k].replicas[id].data.buffer;
      HoldAllHolds(s.fleet, c.buffers, c.extents, c.size, b.segment, b.offset);
    }
    MirrorsKept(s, s', t);
  }

  lemma FreshNotVisible(s: State, c: Change)
    requires c.Place? && Enabled(s, c)
    ensures !Visible(Apply(s, c).objects, c.key)
  {
    var rs := FreshReplicas(c.buffers, s.nextId);
    forall id | id in rs ensures rs[id].status == Initialized { assert rs[id] == FreshReplica(c.buffers, s.nextId, id); }
  }

  // ---- logged steps ----

  lemma MountMirrors(s: State, n: string, cap: nat, t: State)
    requires Inv(s) && Mirrors(s, t) && n !in s.fleet
    ensures var s' := Apply(s, Mount(n, cap)); n !in t.fleet && Mirrors(s', t.(fleet := t.fleet[n := Segment(n, cap, map[])]))
  {
    hide Inv, VisiblePairs, OwnedBy, Part;
    var v := VisiblePairs(s.objects);
    var s' := Apply(s, Mount(n, cap));
    var f := t.fleet[n := Segment(n, cap, map[])];
    PartIs(s, v, "", 0);
    forall m, o ensures PartAt(f, s', v, m, o) {
      PartIs(s, v, m, o);
    }
    PartPointwise(f, s', v);
  }

  /** Forgetting a readable object leaves the others' part. */
  lemma ForgetPart(s: State, k: string)
    requires Inv(s) && Visible(s.objects, k)
    ensures Release(Part(s, VisiblePairs(s.objects)), BuffersOf(s.objects[k].replicas)) == Part(Forget(s, k), VisiblePairs(Forget(s, k).objects))
  {
    hide Inv, VisiblePairs, OwnedBy, Part, Release;
    var v, s' := VisiblePairs(s.objects), Forget(s, k);
    var bs := BuffersOf(s.objects[k].replicas);
    var f := Release(Part(s, v), bs);
    PartIs(s, v, "", 0);
    ReleaseSegments(Part(s, v), bs);
    ReleaseSegments(s.fleet, bs);
    forall n, o ensures PartAt(f, s', VisiblePairs(s'.objects), n, o) {
      PartIs(s, v, n, o);
      if n in s.fleet {
        ReleaseAt(Part(s, v), bs, n, o);
        ReleaseAt(s.fleet, bs, n, o);
        OwnedLess(s, k, n, o);
      }
    }
    PartPointwise(f, s', VisiblePairs(s'.objects));
  }

  /** A buffer of `bs` starts at `o` of segment `n`. */
  ghost predicate StartsAt(bs: set<Buffer>, n: string, o: nat) {
    exists b :: b in bs && b.segment == n && b.offset == o
  }

  lemma ReleaseAt(f: map<string, Segment>, bs: set<Buffer>, n: string, o: nat)
    requires n in f
    ensures n in Release(f, bs) && (o in Release(f, bs)[n].holds <==> o in f[n].holds && !StartsAt(bs, n, o))
    ensures o in Release(f, bs)[n].holds ==> Release(f, bs)[n].holds[o] == f[n].holds[o]
  {
  }

  lemma PairIs(objects: map<string, ObjectMeta>, k: string, id: nat)
    ensures (k, id) in VisiblePairs(objects) <==> Visible(objects, k) && id in objects[k].replicas
  {
  }

  lemma OwnedLess(s: State, k: string, n: string, o: nat)
    requires Inv(s) && Visible(s.objects, k)
    ensures OwnedBy(Forget(s, k).objects, VisiblePairs(Forget(s, k).objects), n, o) <==>
      OwnedBy(s.objects, VisiblePairs(s.objects), n, o) && !StartsAt(BuffersOf(s.objects[k].replicas), n, o)
  {
    hide Inv, Release, VisiblePairs, ObjectMeta.HasComplete, BuffersOf, StartsAt;
    var s', v := Forget(s, k), VisiblePairs(s.objects);
    if OwnedBy(s'.objects, VisiblePairs(s'.objects), n, o) {
      var p :| p in VisiblePairs(s'.objects) && Owns(s'.objects, p.0, p.1, n, o);
      assert p == (p.0, p.1);
      PairIs(s'.objects, p.0, p.1);
      PairIs(s.objects, p.0, p.1);
      assert p in v && Owns(s.objects, p.0, p.1, n, o);
      OthersStart(s, k, p.0, p.1, n, o);
    }
    if OwnedBy(s.objects, v, n, o) && !StartsAt(BuffersOf(s.objects[k].replicas), n, o) {
      var p :| p in v && Owns(s.objects, p.0, p.1, n, o);
      assert p == (p.0, p.1);
      OwnStart(s.objects, p.0, p.1, n, o);
      PairIs(s.objects, p.0, p.1);
      PairIs(s'.objects, p.0, p.1);
      assert p in VisiblePairs(s'.objects) && Owns(s'.objects, p.0, p.1, n, o);
    }
  }

  lemma OwnStart(objects: map<string, ObjectMeta>, k: string, id: nat, n: string, o: nat)
    requires Owns(objects, k, id, n, o)
    ensures StartsAt(BuffersOf(objects[k].replicas), n, o)
  {
    assert objects[k].replicas[id].data.buffer in BuffersOf(objects[k].replicas);
  }

  lemma OthersStart(s: State, k: string, l: string, id: nat, n: string, o: nat)
    requires Inv(s) && k in s.objects && l != k && Owns(s.objects, l, id, n, o)
    ensures !StartsAt(BuffersOf(s.objects[k].replicas), n, o)
  {
    hide Inv;
    var bs := BuffersOf(s.objects[k].replicas);
    if StartsAt(bs, n, o) {
      var b :| b in bs && b.segment == n && b.offset == o;
      var i :| i in s.objects[k].replicas && s.objects[k].replicas[i].data.Memory? && s.objects[k].replicas[i].data.buffer == b;
      SoleOwner(s, k, i, l, id, n, o);
    }
  }

  lemma RemoveMirrors(s: State, k: string, t: State)
    requires Inv(s) && Mirrors(s, t) && k in s.objects
    ensures Mirrors(Forget(s, k), if k in t.objects then Forget(t, k) else t)
  {
    hide Inv, Part, VisiblePairs, ObjectMeta.HasComplete, Release, BuffersOf;
    if Visible(s.objects, k) {
      ForgetPart(s, k);
    } else {
      DropMirrors(s, k, t);
      if k in t.objects {
        EmptyBuffers();
        ReleaseNone(t.fleet);
      }
    }
  }

  // ---- unmounting ----

  lemma UnmountVisible(s: State, n: string, k: string)
    requires Inv(s)
    ensures Visible(Unmounted(s.objects, n), k) <==> Visible(s.objects, k) && OffSegment(s.objects[k].replicas, n) != map[]
  {
    if Visible(s.objects, k) && OffSegment(s.objects[k].replicas, n) != map[] {
      VisibleComplete(s, k);
      var id :| id in OffSegment(s.objects[k].replicas, n);
      assert Unmounted(s.objects, n)[k].replicas[id].status == Complete;
    }
  }

  lemma UnmountOwned(s: State, n: string, m: string, o: nat)
    requires Inv(s) && m != n
    ensures OwnedBy(Unmounted(s.objects, n), VisiblePairs(Unmounted(s.objects, n)), m, o) <==> OwnedBy(s.objects, VisiblePairs(s.objects), m, o)
  {
    hide Inv;
    var objs, objs' := s.objects, Unmounted(s.objects, n);
    if OwnedBy(objs', VisiblePairs(objs'), m, o) {
      var p :| p in VisiblePairs(objs') && Owns(objs', p.0, p.1, m, o);
      UnmountOwns(objs, n, p.0, p.1, m, o);
      UnmountVisible(s, n, p.0);
      assert p in VisiblePairs(objs);
    }
    if OwnedBy(objs, VisiblePairs(objs), m, o) {
      var p :| p in VisiblePairs(objs) && Owns(objs, p.0, p.1, m, o);
      UnmountOwns(objs, n, p.0, p.1, m, o);
      UnmountVisible(s, n, p.0);
      assert p in VisiblePairs(objs');
    }
  }

  lemma UnmountMirrors(s: State, n: string, t: State)
    requires Inv(s) && Mirrors(s, t) && n in s.fleet
    ensures n in t.fleet && Mirrors(Apply(s, Unmount(n)), t.(objects := Unmounted(t.objects, n), fleet := t.fleet - {n}))
  {
    hide Inv, Part, VisiblePairs, OwnedBy, ObjectMeta.HasComplete;
    var s' := Apply(s, Unmount(n));
    var objects' := Unmounted(t.objects, n);
    UnmountPart(s, n);
    PartIs(s, VisiblePairs(s.objects), "", 0);
    forall k ensures Visible(s'.objects, k) ==> k in objects' && SameDurable(s'.objects[k], objects'[k])
      ensures k in objects' && !Visible(s'.objects, k) ==> objects'[k].replicas == map[]
    {
      UnmountVisible(s, n, k);
      UnmountObject(s, n, t, k);
    }
    OffSegmentIds(t.objects, n);
  }

  lemma UnmountObject(s: State, n: string, t: State, k: string)
    requires Mirrors(s, t)
    requires Visible(Unmounted(s.objects, n), k) <==> Visible(s.objects, k) && OffSegment(s.objects[k].replicas, n) != map[]
    ensures var objects' := Unmounted(t.objects, n);
      && (Visible(Unmounted(s.objects, n), k) ==> k in objects' && SameDurable(Unmounted(s.objects, n)[k], objects'[k]))
      && (k in objects' && !Visible(Unmounted(s.objects, n), k) ==> objects'[k].replicas == map[])
  {
    hide Part, VisiblePairs, ObjectMeta.HasComplete, OffSegment;
    UnmountNothing(n);
  }

  lemma OffSegmentIds(objects: map<string, ObjectMeta>, n: string)
    ensures forall k :: k in Unmounted(objects, n) ==>
      k in objects && Unmounted(objects, n)[k].replicas.Keys <= objects[k].replicas.Keys
        && Unmounted(objects, n)[k].leaseUntil == objects[k].leaseUntil
  {
  }

  lemma UnmountNothing(n: string)
    ensures OffSegment(map[], n) == map[]
  {
  }

  lemma UnmountPart(s: State, n: string)
    requires Inv(s) && n in s.fleet
    ensures Part(s, VisiblePairs(s.objects)) - {n} == Part(Apply(s, Unmount(n)), VisiblePairs(Unmounted(s.objects, n)))
  {
    hide Inv, Part, VisiblePairs, OwnedBy, Unmounted;
    var v, s' := VisiblePairs(s.objects), Apply(s, Unmount(n));
    var f := Part(s, v) - {n};
    PartIs(s, v, "", 0);
    forall m, o ensures PartAt(f, s', VisiblePairs(s'.objects), m, o) {
      PartIs(s, v, m, o);
      if m != n { UnmountOwned(s, n, m, o); }
    }
    PartPointwise(f, s', VisiblePairs(s'.objects));
  }

  // ---- committing ----

  ghost function Committed(t: State, c: Change, o: ObjectMeta): State
    requires c.Commit?
  {
    t.(objects := t.objects[c.key := ObjectMeta(Collected(c.order), o.identity, 0, t.clock, o.softPinned, o.hardPinned)],
       fleet := Exact(t.fleet, MemoryBuffers(c.order)),
       nextId := IdsAbove(t.nextId, c.order))
  }

  lemma CommitPairs(s: State, c: Change)
    requires Inv(s) && c.Commit? && Enabled(s, c) && !Visible(s.objects, c.key)
    ensures VisiblePairs(Apply(s, c).objects) == VisiblePairs(s.objects) + Pairs(c.key, c.order)
    ensures forall id :: (c.key, id) !in VisiblePairs(s.objects)
  {
    var objs, objs', k := s.objects, Apply(s, c).objects, c.key;
    CommitApplied(s, c);
    CommitVisible(s, c);
    hide Inv, Apply, VisiblePairs, Enabled, ObjectMeta.HasComplete;
    forall l, id: nat ensures (l, id) in VisiblePairs(objs') <==> (l, id) in VisiblePairs(objs) + Pairs(k, c.order) {
      PairIs(objs, l, id);
      PairIs(objs', l, id);
    }
    assert forall p :: p in VisiblePairs(objs') || p in VisiblePairs(objs) + Pairs(k, c.order) ==> p == (p.0, p.1);
    forall id: nat ensures (k, id) !in VisiblePairs(objs) { PairIs(objs, k, id); }
  }

  /** A commit makes an object readable, if it has replicas at all. */
  lemma CommitVisible(s: State, c: Change)
    requires c.Commit? && Enabled(s, c)
    ensures Visible(Apply(s, c).objects, c.key) <==> c.order != []
    ensures forall id :: (c.key, id) in Pairs(c.key, c.order) <==> id in s.objects[c.key].replicas
    ensures forall l, id :: (l, id) in Pairs(c.key, c.order) ==> l == c.key
    ensures forall l :: l != c.key ==> (Visible(Apply(s, c).objects, l) <==> Visible(s.objects, l))
  {
    var rs := WithStatus(s.objects[c.key].replicas, Complete);
    assert Apply(s, c).objects[c.key].replicas == rs;
    forall id | id in rs ensures (c.key, id) in Pairs(c.key, c.order) {
      var i :| 0 <= i < |c.order| && c.order[i].id == id;
      assert (c.key, c.order[i].id) in Pairs(c.key, c.order);
    }
    if c.order != [] { assert rs[c.order[0].id].status == Complete; }
  }

  lemma CommitApplied(s: State, c: Change)
    requires c.Commit? && Enabled(s, c)
    ensures var o := s.objects[c.key].(replicas := WithStatus(s.objects[c.key].replicas, Complete));
      Apply(s, c) == s.(objects := s.objects[c.key := o], log := s.log + [PutCommitted(c.key, o.identity, c.order, o.softPinned, o.hardPinned)])
  {
  }

  /** The ranges of an object not yet readable are free in the rebuilt fleet, and its commit reserves them. */
  lemma CommitPart(s: State, c: Change)
    requires Inv(s) && c.Commit? && Enabled(s, c) && !Visible(s.objects, c.key) && RowUnscaled(s.fleet, c.order)
    ensures var f := Part(s, VisiblePairs(s.objects));
      && Fits(f, MemoryBuffers(c.order)) && (Roomy(s.fleet) ==> Secure(f, MemoryBuffers(c.order)))
      && Exact(f, MemoryBuffers(c.order)) == Part(Apply(s, c), VisiblePairs(Apply(s, c).objects))
  {
    var v := VisiblePairs(s.objects);
    CommitPairs(s, c);
    CommitApplied(s, c);
    assert c.order[..|c.order|] == c.order;
    hide Inv, Part, VisiblePairs, Apply, Fits, Secure, Exact, MemoryBuffers, Pairs, RowUnscaled, Roomy;
    PartRow(s, v, c.key, c.order, |c.order|);
    CommitSamePart(s, c, v + Pairs(c.key, c.order));
  }

  lemma CommitSamePart(s: State, c: Change, who: set<(string, nat)>)
    requires Inv(s) && c.Commit? && Enabled(s, c)
    ensures Part(Apply(s, c), who) == Part(s, who)
  {
    hide Inv, Part;
    var s' := Apply(s, c);
    forall k, id, n, o ensures Owns(s'.objects, k, id, n, o) <==> Owns(s.objects, k, id, n, o) {
    }
    forall n, o | n in s.fleet && OwnedBy(s.objects, who, n, o) ensures o in s.fleet[n].holds { OwnedHeld(s, who, n, o); }
    hide Apply, Owns;
    assert s'.fleet == s.fleet by { CommitApplied(s, c); }
    PartSame(s, s', who);
  }

  lemma CommitMirrors(s: State, c: Change, t: State)
    requires Inv(s) && Mirrors(s, t) && c.Commit? && Enabled(s, c) && !Visible(s.objects, c.key) && RowUnscaled(s.fleet, c.order)
    ensures Fits(t.fleet, MemoryBuffers(c.order)) && Mirrors(Apply(s, c), Committed(t, c, s.objects[c.key]))
  {
    hide Inv, Part, VisiblePairs, Apply, Fits, Exact, MemoryBuffers, Collected, RowUnscaled, Enabled, Lists;
    hide ObjectMeta.HasComplete, Pairs, WithStatus, Mirrors, Visible;
    var k, s' := c.key, Apply(s, c);
    MirrorFleet(s, t);
    CommitPart(s, c);
    CommitApplied(s, c);
    CommitVisible(s, c);
    CommitLists(s, c);
    ListedIds(c.order, t.nextId);
    MirrorsEntered(s, s', t, Committed(t, c, s.objects[k]), k);
  }

  lemma MirrorFleet(s: State, t: State)
    requires Mirrors(s, t)
    ensures t.fleet == Part(s, VisiblePairs(s.objects))
  {
  }

  lemma CommitLists(s: State, c: Change)
    requires c.Commit? && Enabled(s, c)
    ensures c.key in s.objects && Collected(c.order) == WithStatus(s.objects[c.key].replicas, Complete)
    ensures c.order == [] ==> Collected(c.order) == map[]
  {
    hide Collected, WithStatus, Lists;
    CollectedLists(c.order, WithStatus(s.objects[c.key].replicas, Complete));
    if c.order == [] { NoneCollected(); }
  }

  lemma NoneCollected()
    ensures Collected([]) == map[]
  {
  }

  lemma MirrorsEntered(s: State, s': State, t: State, t': State, k: string)
    requires Mirrors(s, t) && k in s'.objects && k in t'.objects
    requires s'.objects == s.objects[k := s'.objects[k]] && t'.objects == t.objects[k := t'.objects[k]]
    requires t'.objects[k].leaseUntil == 0
    requires t'.fleet == Part(s', VisiblePairs(s'.objects)) && t.nextId <= t'.nextId && forall id :: id in t'.objects[k].replicas ==> id < t'.nextId
    requires SameDurable(s'.objects[k], t'.objects[k]) && (Visible(s'.objects, k) || t'.objects[k].replicas == map[])
    ensures Mirrors(s', t')
  {
    hide Part, VisiblePairs, ObjectMeta.HasComplete;
    forall l | l != k ensures Visible(s'.objects, l) <==> Visible(s.objects, l) {
    }
    forall l, id | l in t'.objects && id in t'.objects[l].replicas ensures id < t'.nextId {
      if l != k { assert l in t.objects && id in t.objects[l].replicas; }
    }
  }

  lemma {:induction false} ListedIds(order: seq<Replica>, nextId: nat)
    ensures forall id :: id in Collected(order) ==> id < IdsAbove(nextId, order)
  {
    if order != [] { ListedIds(order[..|order| - 1], nextId); }
  }

  // ---- which steps the log can follow ----

  lemma MountStep(s: State, n: string, cap: nat)
    requires Inv(s) && Agree(s) && n !in s.fleet
    ensures Agree(Apply(s, Mount(n, cap)))
  {
    hide Inv, Rebuilt, Mirrors, Visible, RowUnscaled, Fits, Exact, MemoryBuffers, Collected, Unmounted, Release, BuffersOf, IdsAbove, Enabled;
    var t := Rebuilt(s.log).value;
    MountMirrors(s, n, cap, t);
    RebuiltSnoc(s.log, SegmentMounted(n, cap));
  }

  lemma UnmountStep(s: State, n: string)
    requires Inv(s) && Agree(s) && n in s.fleet
    ensures Agree(Apply(s, Unmount(n)))
  {
    hide Inv, Rebuilt, Mirrors, Visible, RowUnscaled, Fits, Exact, MemoryBuffers, Collected, Unmounted, Release, BuffersOf, IdsAbove, Enabled;
    var t := Rebuilt(s.log).value;
    UnmountMirrors(s, n, t);
    RebuiltSnoc(s.log, SegmentUnmounted(n));
  }

  lemma RemoveStep(s: State, k: string)
    requires Inv(s) && Agree(s) && k in s.objects
    ensures Agree(Apply(s, Remove(k)))
  {
    hide Inv, Rebuilt, Mirrors, Visible, RowUnscaled, Fits, Exact, MemoryBuffers, Collected, Unmounted, Release, BuffersOf, IdsAbove, Enabled;
    var t := Rebuilt(s.log).value;
    RemoveMirrors(s, k, t);
    LogBlind(Forget(s, k), s.log + [RemovedEntry(k)], if k in t.objects then Forget(t, k) else t);
    RebuiltSnoc(s.log, RemovedEntry(k));
  }

  lemma CommitStep(s: State, c: Change)
    requires Inv(s) && Agree(s) && c.Commit? && Enabled(s, c) && Durable(s, c)
    ensures Agree(Apply(s, c))
  {
    assert c.key in s.objects;
    hide Inv, Apply, Rebuilt, Mirrors, Visible, RowUnscaled, Fits, Exact, MemoryBuffers, Collected, Unmounted, Release, BuffersOf, IdsAbove, Enabled;
    CommitMirrors(s, c, Rebuilt(s.log).value);
    CommitApplied(s, c);
    var o := s.objects[c.key];
    RebuiltSnoc(s.log, PutCommitted(c.key, o.identity, c.order, o.softPinned, o.hardPinned));
  }

  /** A durable step keeps the rebuilt state in agreement. */
  lemma DurableStep(s: State, c: Change)
    requires Inv(s) && Agree(s) && Enabled(s, c) && Durable(s, c)
    ensures Agree(Apply(s, c))
  {
    hide Inv, Rebuilt, Mirrors, Visible, RowUnscaled, Fits, Exact, MemoryBuffers, Collected, Unmounted, Release;
    hide Lists, BuffersOf, AllTakeable, HoldAll, FreshReplicas, WithStatus, ObjectMeta.HasComplete, IdsAbove;
    var t := Rebuilt(s.log).value;
    match c
    case Mount(n, cap) => MountStep(s, n, cap);
    case Unmount(n) => UnmountStep(s, n);
    case Remove(k) => RemoveStep(s, k);
    case Commit(_, _) => CommitStep(s, c);
    case Drop(k) => DropMirrors(s, k, t);
    case Place(_, _, _, _, _, _, _) => PlaceMirrors(s, c, t);
    case Reopen(k, who) => ReopenMirrors(s, k, who, t);
    case Read(_) => ReadMirrors(s, c, t);
    case Tick => ReadMirrors(s, c, t);
  }

  lemma LogBlind(s: State, log: seq<Entry>, t: State)
    requires Mirrors(s, t)
    ensures Mirrors(s.(log := log), t)
  {
    assert Part(s.(log := log), VisiblePairs(s.objects)) == Part(s, VisiblePairs(s.objects)) by {
      forall n | n in s.fleet ensures PartHolds(s.(log := log), VisiblePairs(s.objects), n) == PartHolds(s, VisiblePairs(s.objects), n) {
      }
    }
  }

  lemma {:induction false} FitsFirst(f: map<string, Segment>, bs: seq<Buffer>)
    requires Fits(f, bs) && bs != []
    ensures RangeFree(f, bs[0])
  {
    hide RangeFree;
    var n := |bs| - 1;
    if n == 0 {
      assert bs[..0] == [];
      assert Exact(f, bs[..0]) == f;
    } else {
      FitsFirst(f, bs[..n]);
    }
  }

  lemma {:induction false} FirstBuffer(replicas: seq<Replica>)
    requires replicas != [] && replicas[0].data.Memory?
    ensures MemoryBuffers(replicas) != [] && MemoryBuffers(replicas)[0] == replicas[0].data.buffer
  {
    if |replicas| > 1 { FirstBuffer(replicas[..|replicas| - 1]); }
  }

  /** Committing a readable object again asks for ranges the rebuilt fleet holds: replay fails. */
  lemma CommitAgain(s: State, c: Change)
    requires Inv(s) && c.Commit? && Enabled(s, c) && Visible(s.objects, c.key)
    ensures !Fits(Part(s, VisiblePairs(s.objects)), MemoryBuffers(c.order))
  {
    hide Inv, Fits, MemoryBuffers, Part, ObjectMeta.HasComplete;
    var k, f := c.key, Part(s, VisiblePairs(s.objects));
    FirstListed(s, c);
    hide Enabled;
    var r := c.order[0];
    ReplicaHeld(s, k, r.id);
    FirstBuffer(c.order);
    var b := r.data.buffer;
    PairIs(s.objects, k, r.id);
    OwnedOne(s.objects, VisiblePairs(s.objects), k, r.id, b.segment, b.offset);
    hide OwnedBy;
    PartIs(s, VisiblePairs(s.objects), b.segment, b.offset);
    if Fits(f, MemoryBuffers(c.order)) { FitsFirst(f, MemoryBuffers(c.order)); }
  }

  lemma FirstListed(s: State, c: Change)
    requires Inv(s) && c.Commit? && Enabled(s, c) && Visible(s.objects, c.key)
    ensures c.order != [] && c.order[0].id in s.objects[c.key].replicas && c.order[0].data == s.objects[c.key].replicas[c.order[0].id].data
  {
    hide Inv, ObjectMeta.HasComplete, Lists, WithStatus;
    VisibleComplete(s, c.key);
    ListsFirst(c.order, WithStatus(s.objects[c.key].replicas, Complete), s.objects[c.key].replicas);
  }

  lemma ListsFirst(order: seq<Replica>, rs: ReplicaList, was: ReplicaList)
    requires Lists(order, rs) && rs == WithStatus(was, Complete) && was != map[]
    ensures order != [] && order[0].id in was && order[0].data == was[order[0].id].data
  {
    var id :| id in was;
    assert id in rs;
    assert order != [];
    assert order[0].id in rs && rs[order[0].id] == order[0];
  }

  lemma OwnedOne(objects: map<string, ObjectMeta>, who: set<(string, nat)>, k: string, id: nat, n: string, o: nat)
    requires (k, id) in who && Owns(objects, k, id, n, o)
    ensures OwnedBy(objects, who, n, o)
  {
    assert Owns(objects, (k, id).0, (k, id).1, n, o);
  }

  /** A commit on a scaled segment cannot be replayed. */
  lemma {:induction false} CommitScaled(f: map<string, Segment>, order: seq<Replica>)
    requires Fits(f, MemoryBuffers(order))
    ensures RowUnscaled(f, order)
    decreases |order|
  {
    hide Segment.Free;
    if order != [] {
      var n := |order| - 1;
      var bs := MemoryBuffers(order[..n]);
      if order[n].data.Memory? {
        assert MemoryBuffers(order)[..|bs|] == bs;
        ExactShape(f, bs);
      }
      CommitScaled(f, order[..n]);
      forall j | 0 <= j < |order| && order[j].data.Memory? && order[j].data.buffer.segment in f
        ensures f[order[j].data.buffer.segment].capacity <= MAX_BIN_SIZE
      {
        if j < n { assert order[..n][j] == order[j]; }
      }
    }
  }

  /** Dropping or reopening a readable object leaves the log behind. */
  lemma LostMirrors(s: State, s': State, t: State, k: string)
    requires Inv(s) && Mirrors(s, t) && Visible(s.objects, k) && !Visible(s'.objects, k)
    ensures !Mirrors(s', t)
  {
    VisibleComplete(s, k);
    hide Inv, Part;
  }

  /** Agreement survives a step if and only if the step is durable. */
  lemma AgreeIff(s: State, c: Change)
    requires Inv(s) && Agree(s) && Enabled(s, c)
    ensures Agree(Apply(s, c)) <==> Durable(s, c)
  {
    hide Inv, RowUnscaled, Fits, Exact, MemoryBuffers, Part;
    var t := Rebuilt(s.log).value;
    if Durable(s, c) {
      DurableStep(s, c);
    } else if c.Commit? {
      CommitApplied(s, c);
      var o := s.objects[c.key];
      RebuiltSnoc(s.log, PutCommitted(c.key, o.identity, c.order, o.softPinned, o.hardPinned));
      if Visible(s.objects, c.key) {
        CommitAgain(s, c);
      } else if Fits(t.fleet, MemoryBuffers(c.order)) {
        CommitScaled(t.fleet, c.order);
        PartUnscaled(s, c.order);
      }
    } else {
      assert !Visible(Apply(s, c).objects, c.key);
      LostMirrors(s, Apply(s, c), t, c.key);
    }
  }

  lemma PartUnscaled(s: State, order: seq<Replica>)
    requires RowUnscaled(Part(s, VisiblePairs(s.objects)), order)
    ensures RowUnscaled(s.fleet, order)
  {
    hide VisiblePairs;
  }

  // ---- whole runs ----

  /** Every step of a run is durable. */
  ghost predicate DurableRun(s: State, cs: seq<Change>)
    requires Path(s, cs)
    decreases |cs|
  {
    cs != [] ==> Durable(s, cs[0]) && DurableRun(Apply(s, cs[0]), cs[1..])
  }

  lemma BlankAgrees()
    ensures Agree(BLANK) && Inv(BLANK)
  {
    NobodyOwns(BLANK);
    assert VisiblePairs(map[]) == {};
  }

  lemma {:induction false} RunAgrees(s: State, cs: seq<Change>)
    requires Inv(s) && Agree(s) && Path(s, cs) && DurableRun(s, cs)
    ensures Agree(Run(s, cs))
    decreases |cs|
  {
    hide Inv, Agree, Durable;
    if cs != [] {
      ApplyInv(s, cs[0]);
      DurableStep(s, cs[0]);
      RunAgrees(Apply(s, cs[0]), cs[1..]);
    }
  }

  /** The log only grows, by at most one entry a step. */
  lemma LogGrows(s: State, c: Change)
    requires Enabled(s, c)
    ensures s.log <= Apply(s, c).log && |Apply(s, c).log| <= |s.log| + 1
  {
  }

  lemma {:induction false} RunLogGrows(s: State, cs: seq<Change>)
    requires Path(s, cs)
    ensures s.log <= Run(s, cs).log
    decreases |cs|
  {
    if cs != [] {
      LogGrows(s, cs[0]);
      RunLogGrows(Apply(s, cs[0]), cs[1..]);
    }
  }

  /** Every prefix of a run's log was the log at some point of the run, and agreed with it there. */
  lemma {:induction false} PrefixAgrees(s: State, cs: seq<Change>, j: nat) returns (i: nat)
    requires Inv(s) && Agree(s) && Path(s, cs) && DurableRun(s, cs) && |s.log| <= j <= |Run(s, cs).log|
    ensures i <= |cs| && Path(s, cs[..i]) && Run(s, cs[..i]).log == Run(s, cs).log[..j] && Agree(Run(s, cs[..i]))
    decreases |cs|
  {
    hide Inv, Agree, Durable;
    RunLogGrows(s, cs);
    if j == |s.log| {
      i := 0;
      assert cs[..0] == [];
    } else {
      var s1 := Apply(s, cs[0]);
      LogGrows(s, cs[0]);
      ApplyInv(s, cs[0]);
      DurableStep(s, cs[0]);
      var i1 := PrefixAgrees(s1, cs[1..], j);
      i := i1 + 1;
      assert cs[..i][1..] == cs[1..][..i1];
    }
  }

  // ---- the rebuilt master ----

  /** The rebuilt state is itself a sound one. */
  lemma MirrorInv(s: State, t: State)
    requires Inv(s) && Mirrors(s, t)
    ensures Inv(t)
  {
    hide Inv, Part, VisiblePairs, ObjectMeta.HasComplete, ReplicasOk, LeaseOk, FleetOk, Owns;
    PartFleetOk(s, VisiblePairs(s.objects));
    forall k | k in t.objects ensures ReplicasOk(t.objects[k].replicas, t.nextId) && LeaseOk(t.objects[k], t.clock) {
      MirrorReplicas(s, t, k);
    }
    forall k, id | k in t.objects && id in t.objects[k].replicas && t.objects[k].replicas[id].data.Memory?
      ensures BufferHeld(t.objects[k].replicas[id].data.buffer, t.fleet)
    {
      MirrorHeld(s, t, k, id);
    }
    forall k, id, k', id', n, o | Owns(t.objects, k, id, n, o) && Owns(t.objects, k', id', n, o) ensures k == k' && id == id' {
      MirrorOwns(s, t, k, id, n, o);
      MirrorOwns(s, t, k', id', n, o);
      SoleOwner(s, k, id, k', id', n, o);
    }
    forall n, o | n in t.fleet && o in t.fleet[n].holds ensures exists k, id :: Owns(t.objects, k, id, n, o) {
      var k, id := MirrorOwner(s, t, n, o);
    }
    hide Mirrors;
    InvFromParts(t);
  }

  lemma MirrorOwns(s: State, t: State, k: string, id: nat, n: string, o: nat)
    requires Mirrors(s, t) && Owns(t.objects, k, id, n, o)
    ensures Owns(s.objects, k, id, n, o)
  {
    hide Part, VisiblePairs, ObjectMeta.HasComplete;
    assert Visible(s.objects, k);
  }

  lemma MirrorOwner(s: State, t: State, n: string, o: nat) returns (k: string, id: nat)
    requires Mirrors(s, t) && n in t.fleet && o in t.fleet[n].holds
    ensures Owns(t.objects, k, id, n, o)
  {
    hide Part, VisiblePairs, ObjectMeta.HasComplete;
    PartIs(s, VisiblePairs(s.objects), n, o);
    var p :| p in VisiblePairs(s.objects) && Owns(s.objects, p.0, p.1, n, o);
    k, id := p.0, p.1;
    assert p == (k, id);
    PairIs(s.objects, k, id);
  }

  lemma InvFromParts(t: State)
    requires FleetOk(t.fleet) && Exclusive(t.objects) && NoLeak(t.objects, t.fleet) && Backed(t.objects, t.fleet)
    requires forall k :: k in t.objects ==> ReplicasOk(t.objects[k].replicas, t.nextId) && LeaseOk(t.objects[k], t.clock)
    ensures Inv(t)
  {
  }

  lemma PartFleetOk(s: State, who: set<(string, nat)>)
    requires Inv(s)
    ensures FleetOk(Part(s, who))
  {
    hide OwnedBy;
    forall n | n in s.fleet ensures Part(s, who)[n].Valid() { assert s.fleet[n].Valid(); }
  }

  lemma MirrorReplicas(s: State, t: State, k: string)
    requires Inv(s) && Mirrors(s, t) && k in t.objects
    ensures ReplicasOk(t.objects[k].replicas, t.nextId) && LeaseOk(t.objects[k], t.clock)
  {
    hide Part, VisiblePairs;
    if Visible(s.objects, k) { assert ReplicasOk(s.objects[k].replicas, s.nextId); }
  }

  lemma MirrorHeld(s: State, t: State, k: string, id: nat)
    requires Inv(s) && Mirrors(s, t) && k in t.objects && id in t.objects[k].replicas && t.objects[k].replicas[id].data.Memory?
    ensures BufferHeld(t.objects[k].replicas[id].data.buffer, t.fleet)
  {
    hide Inv, Part, ObjectMeta.HasComplete;
    assert Visible(s.objects, k);
    ReplicaHeld(s, k, id);
    var b, v := t.objects[k].replicas[id].data.buffer, VisiblePairs(s.objects);
    PairIs(s.objects, k, id);
    OwnedOne(s.objects, v, k, id, b.segment, b.offset);
    hide OwnedBy, VisiblePairs;
    PartIs(s, v, b.segment, b.offset);
  }

  /** Replaying one more entry is certain to succeed. */
  ghost predicate Securable(t: State, e: Entry) {
    && (e.SegmentMounted? ==> e.name !in t.fleet)
    && (e.PutCommitted? ==> Secure(t.fleet, MemoryBuffers(e.replicas)))
  }

  ghost predicate SecureLog(log: seq<Entry>) {
    log != [] ==>
      var n := |log| - 1;
      SecureLog(log[..n]) && Rebuilt(log[..n]).Some? && Securable(Rebuilt(log[..n]).value, log[n])
  }

  lemma {:induction false} SecureLogPrefix(log: seq<Entry>, j: nat)
    requires SecureLog(log) && j <= |log|
    ensures SecureLog(log[..j])
  {
    hide Securable, Rebuilt;
    if j < |log| {
      var n := |log| - 1;
      SecureLogPrefix(log[..n], j);
      assert log[..n][..j] == log[..j];
    } else {
      assert log[..j] == log;
    }
  }

  /** Node pools have room at every point of a run. */
  ghost predicate RoomyRun(s: State, cs: seq<Change>)
    requires Path(s, cs)
    decreases |cs|
  {
    Roomy(s.fleet) && (cs != [] ==> RoomyRun(Apply(s, cs[0]), cs[1..]))
  }

  lemma SecureStep(s: State, c: Change)
    requires Inv(s) && Agree(s) && Enabled(s, c) && Durable(s, c) && Roomy(s.fleet) && SecureLog(s.log)
    ensures SecureLog(Apply(s, c).log)
  {
    hide Inv, Part, RowUnscaled, Fits, Secure, Exact, MemoryBuffers, Visible, Roomy, Forget;
    match c
    case Mount(n, cap) =>
      MountMirrors(s, n, cap, Rebuilt(s.log).value);
      SecureSnoc(s.log, SegmentMounted(n, cap));
    case Unmount(n) => SecureSnoc(s.log, SegmentUnmounted(n));
    case Remove(k) => SecureSnoc(s.log, RemovedEntry(k));
    case Commit(k, order) =>
      CommitPart(s, c);
      CommitApplied(s, c);
      var o := s.objects[k];
      SecureSnoc(s.log, PutCommitted(k, o.identity, order, o.softPinned, o.hardPinned));
    case Drop(k) => ForgetLog(s, k);
    case _ =>
  }

  lemma ForgetLog(s: State, k: string)
    requires k in s.objects
    ensures Forget(s, k).log == s.log
  {
  }

  lemma {:induction false} SecureSnoc(log: seq<Entry>, e: Entry)
    requires SecureLog(log) && Rebuilt(log).Some? && Securable(Rebuilt(log).value, e)
    ensures SecureLog(log + [e])
  {
    assert (log + [e])[..|log|] == log;
  }

  lemma {:induction false} RunSecure(s: State, cs: seq<Change>)
    requires Inv(s) && Agree(s) && Path(s, cs) && DurableRun(s, cs) && RoomyRun(s, cs) && SecureLog(s.log)
    ensures SecureLog(Run(s, cs).log)
    decreases |cs|
  {
    hide Inv, Agree, Durable, SecureLog, Roomy;
    if cs != [] {
      ApplyInv(s, cs[0]);
      DurableStep(s, cs[0]);
      SecureStep(s, cs[0]);
      RunSecure(Apply(s, cs[0]), cs[1..]);
    }
  }
}