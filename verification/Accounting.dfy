/**
  The bytes the master counts as allocated are the bytes of its objects' replicas.
 */
module Accounting {
  import opened Fleets
  import opened MasterInv
  import opened MasterSpec
  import opened Parts
  import opened Segments

  ghost function ReplicaBytes(rs: ReplicaList): nat {
    if rs == map[] then 0
    else
      var id :| id in rs;
      rs[id].Size() + ReplicaBytes(rs - {id})
  }

  ghost function ObjectBytes(objects: map<string, ObjectMeta>): nat {
    if objects == map[] then 0
    else
      var k :| k in objects;
      ReplicaBytes(objects[k].replicas) + ObjectBytes(objects - {k})
  }

  /** Giving one range back takes its size off the total. */
  lemma {:induction false} FreedSum(f: map<string, Segment>, b: Buffer)
    requires BufferHeld(b, f)
    ensures AllocatedSum(FreedIn(f, b)) + b.size == AllocatedSum(f)
  {
    hide AllocatedSum;
    var g := FreedIn(f, b);
    AllocatedSumRemove(f, b.segment);
    AllocatedSumRemove(g, b.segment);
    assert f - {b.segment} == g - {b.segment};
    SizeSumRemove(f[b.segment].holds, b.offset);
  }

  /** The buffers of a replica list are held, on distinct segments. */
  ghost predicate AllHeld(f: map<string, Segment>, rs: ReplicaList) {
    && (forall id :: id in rs ==> rs[id].data.Memory? && BufferHeld(rs[id].data.buffer, f))
    && (forall i, j :: i in rs && j in rs && i != j ==>
      rs[i].data.Memory? && rs[j].data.Memory? && rs[i].data.buffer.segment != rs[j].data.buffer.segment)
  }

  lemma {:induction false} ReleaseSum(f: map<string, Segment>, rs: ReplicaList)
    requires AllHeld(f, rs)
    ensures AllocatedSum(Release(f, BuffersOf(rs))) + ReplicaBytes(rs) == AllocatedSum(f)
    decreases |rs|
  {
    hide AllocatedSum, Release, BuffersOf, AllHeld;
    if rs == map[] {
      EmptyBuffers();
      ReleaseNone(f);
    } else {
      var id :| id in rs && ReplicaBytes(rs) == rs[id].Size() + ReplicaBytes(rs - {id});
      var rest := rs - {id};
      HeldLess(f, rs, id);
      ReleaseSum(f, rest);
      var b := rs[id].data.buffer;
      assert rest[id := rs[id]] == rs;
      BuffersAdd(rest, id, rs[id]);
      assert BuffersOf(rs) == BuffersOf(rest) + {b};
      ReleaseMore(f, BuffersOf(rest), b);
      assert Release(f, BuffersOf(rs)) == FreedIn(Release(f, BuffersOf(rest)), b);
      assert rs[id].Size() == b.size;
      StillThere(f, rest, b);
      FreedSum(Release(f, BuffersOf(rest)), b);
    }
  }

  lemma HeldLess(f: map<string, Segment>, rs: ReplicaList, id: nat)
    requires AllHeld(f, rs) && id in rs
    ensures AllHeld(f, rs - {id}) && rs[id].data.Memory? && BufferHeld(rs[id].data.buffer, f)
    ensures forall i :: i in rs - {id} ==> rs[i].data.Memory? && rs[i].data.buffer.segment != rs[id].data.buffer.segment
  {
  }

  lemma StillThere(f: map<string, Segment>, rest: ReplicaList, b: Buffer)
    requires BufferHeld(b, f) && forall i :: i in rest ==> rest[i].data.Memory? && rest[i].data.buffer.segment != b.segment
    ensures BufferHeld(b, Release(f, BuffersOf(rest)))
  {
    forall c | c in BuffersOf(rest) ensures c.segment != b.segment {
      var i :| i in rest && rest[i].data.Memory? && rest[i].data.buffer == c;
    }
  }

  lemma ObjectHeld(s: State, k: string)
    requires Inv(s) && k in s.objects
    ensures AllHeld(s.fleet, s.objects[k].replicas)
  {
    var rs := s.objects[k].replicas;
    assert ReplicasOk(rs, s.nextId);
    hide Inv;
    forall id | id in rs ensures BufferHeld(rs[id].data.buffer, s.fleet) { ReplicaHeld(s, k, id); }
  }

  lemma {:induction false} NothingHeld(f: map<string, Segment>)
    requires forall n :: n in f ==> f[n].holds == map[]
    ensures AllocatedSum(f) == 0
    decreases |f|
  {
    if f != map[] {
      var n :| n in f;
      AllocatedSumRemove(f, n);
      NothingHeld(f - {n});
    }
  }

  /** In every reachable state the allocated bytes are exactly those of the objects' replicas. */
  lemma {:induction false} AllocatedIsObjects(s: State)
    requires Inv(s)
    ensures AllocatedSum(s.fleet) == ObjectBytes(s.objects)
    decreases |s.objects|
  {
    if s.objects == map[] {
      forall n | n in s.fleet ensures s.fleet[n].holds == map[] {
        if o :| o in s.fleet[n].holds { Unowned(s, n, o); }
      }
      NothingHeld(s.fleet);
    } else {
      hide Inv, AllocatedSum, Release, BuffersOf, ReplicaBytes, AllHeld;
      var k :| k in s.objects && ObjectBytes(s.objects) == ReplicaBytes(s.objects[k].replicas) + ObjectBytes(s.objects - {k});
      ForgetInv(s, k);
      AllocatedIsObjects(Forget(s, k));
      ObjectHeld(s, k);
      ReleaseSum(s.fleet, s.objects[k].replicas);
    }
  }

  lemma Unowned(s: State, n: string, o: nat)
    requires Inv(s) && n in s.fleet && o in s.fleet[n].holds
    ensures s.objects != map[]
  {
  }
}
