/**
  Eviction does not ask whether a put has ended. When an unfinished one can go, and a
  run in which the second of two puts takes the place of the first.
 */
module LostPuts {
  import opened Accounting
  import opened Bits
  import opened Buffers
  import opened Eviction
  import opened Fleets
  import opened MasterInv
  import opened Masters
  import opened MasterSpec
  import opened Parts
  import opened Segments
  import opened Sequences
  import opened SmallFloat

  // ---- what a pass can take ----

  /** A pass that makes room for some request takes the object. */
  ghost predicate CanGo(s: State, k: string) {
    exists needed, cs :: FitPass(s, cs, needed) && Path(s, cs) && k !in Run(s, cs).objects
  }

  /** The victims among some keys, in order. */
  lemma {:induction false} VictimsExist(s: State, keys: set<string>) returns (victims: seq<string>)
    requires keys <= s.objects.Keys
    ensures VictimsAmong(s.objects, s.clock, keys, victims)
    decreases |keys|
  {
    victims := [];
    if keys != {} {
      var k :| k in keys;
      victims := VictimsExist(s, keys - {k});
      assert keys - {k} + {k} == keys;
      if Evictable(s.objects[k], s.clock) {
        var p: nat := |victims|;
        while p > 0 && !NoWarmer(s.objects[victims[p - 1]], s.objects[k])
          invariant p <= |victims| && forall j :: p <= j < |victims| ==> NoWarmer(s.objects[k], s.objects[victims[j]])
        {
          p := p - 1;
        }
        InsertVictim(s.objects, s.clock, keys - {k}, victims, k, p);
        victims := InsertAt(victims, p, k);
      }
    }
  }

  /** A request beyond the capacity drains every victim. */
  lemma {:induction false} DrainAll(s: State, victims: seq<string>)
    requires Victims(s, victims)
    ensures var cs := Removals(victims); FitPass(s, cs, CapacitySum(s.fleet) + 1) && Path(s, cs) && Run(s, cs).objects == s.objects - KeySet(victims)
  {
    hide Victims, Removals, EvictedTo, Path, Run, AllocatedSum, CapacitySum;
    var n := |victims|;
    assert victims[..n] == victims;
    forall i | 0 <= i <= n ensures Path(s, Removals(victims[..i])) { VictimsGone(s, victims, i); }
    VictimsGone(s, victims, n);
    PassDone(s, victims, n, -1);
  }

  lemma {:induction false} CanGoIff(s: State, k: string)
    requires k in s.objects
    ensures CanGo(s, k) <==> Evictable(s.objects[k], s.clock)
  {
    hide Path, Run, Evictions, CapacitySum, AllocatedSum, Removals, ColdestGone, NoneEvictable;
    if CanGo(s, k) {
      var needed, cs :| FitPass(s, cs, needed) && Path(s, cs) && k !in Run(s, cs).objects;
      if needed == 0 { NothingDone(s, k); } else { EvictionsPath(s, cs); }
    }
    if Evictable(s.objects[k], s.clock) {
      var victims := VictimsExist(s, s.objects.Keys);
      DrainAll(s, victims);
    }
  }

  /** A put that has not ended is out of reach of the passes exactly when it is hard-pinned. */
  lemma {:induction false} UnfinishedGoesIff(s: State, k: string)
    requires Inv(s) && k in s.objects && !s.objects[k].HasComplete()
    ensures CanGo(s, k) <==> !s.objects[k].hardPinned
  {
    hide Inv, CanGo;
    LeasedIsComplete(s, k);
    CanGoIff(s, k);
  }

  // ---- two puts into one segment ----

  const WHO := Identity("model", "tokenizer", None, "tenant")
  const ONE := Masters.Config(1, false, false, None)
  const FIRST := Item("k", WHO, 8)
  const SECOND := Item("l", WHO, 64)

  /** One segment of 64 bytes. */
  ghost predicate Small(s: State) {
    s.fleet.Keys == {"s"} && s.fleet["s"].capacity == 64
  }

  lemma {:induction false} SmallCapacity(s: State)
    requires Small(s)
    ensures CapacitySum(s.fleet) == 64
  {
    CapacitySumRemove(s.fleet, "s");
    assert s.fleet - {"s"} == map[];
  }

  /** With no object there is room for any request up to the capacity. */
  lemma {:induction false} RoomWhenEmpty(u: State, policy: Policy, size: nat)
    requires Inv(u) && Small(u) && u.objects == map[] && 0 < size <= 64 && policy.mounted == ["s"]
    ensures !Short(policy, u.fleet, size, 1)
  {
    hide FloatToUint, RoundDown, HasRoom;
    assert FloatToUint(RoundDown(64)) == 64 by { Bin64(); }
    NothingHeldThere(u);
    EmptyHasRoom(u.fleet["s"], size);
    var views := ViewsOf(u.fleet, policy.mounted);
    assert 0 in Serving(views, size, {});
  }

  lemma NothingHeldThere(s: State)
    requires Inv(s) && s.objects == map[]
    ensures forall n :: n in s.fleet ==> s.fleet[n].holds == map[]
  {
    forall n | n in s.fleet ensures s.fleet[n].holds == map[] {
      if o :| o in s.fleet[n].holds { Unowned(s, n, o); }
    }
  }

  /** The first put has started and not ended, and nothing else is there. */
  ghost predicate Started(s: State) {
    && Inv(s) && Small(s) && s.objects.Keys == {"k"} && Evictable(s.objects["k"], s.clock)
    && s.objects["k"].replicas != map[] && forall id :: id in s.objects["k"].replicas ==> s.objects["k"].replicas[id].Size() == 8
  }

  lemma {:induction false} ObjectCounts(s: State, k: string, id: nat)
    requires Inv(s) && k in s.objects && id in s.objects[k].replicas
    ensures AllocatedSum(s.fleet) >= s.objects[k].replicas[id].Size()
  {
    ReplicaHeld(s, k, id);
    var b := s.objects[k].replicas[id].data.buffer;
    FreedSum(s.fleet, b);
  }

  lemma {:induction false} SameCapacity(f: map<string, Segment>, g: map<string, Segment>)
    requires SameSegments(f, g)
    ensures CapacitySum(f) == CapacitySum(g)
    decreases |f|
  {
    hide CapacitySum;
    if f == map[] {
      assert g == map[];
    } else {
      var n :| n in f;
      CapacitySumRemove(f, n);
      CapacitySumRemove(g, n);
      SameCapacity(f - {n}, g - {n});
    }
  }

  /** A put of the whole capacity or more that finds no room has taken every object on the way that eviction may take. */
  lemma {:induction false} FailedTakes(s: State, evs: seq<Change>, policy: Policy, size: nat, n: nat, k: string, id: nat)
    requires Inv(s) && Evictions(s, evs) && Path(s, evs) && RoomMade(s, evs, policy, size, n) && Short(policy, Run(s, evs).fleet, size, n)
    requires 0 < Needed(size, n) && CapacitySum(s.fleet) <= Needed(size, n)
    requires k in s.objects && Evictable(s.objects[k], s.clock) && id in s.objects[k].replicas && s.objects[k].replicas[id].Size() > 0
    ensures k !in Run(s, evs).objects
  {
    hide Inv, Path, Run, Evictions, CapacitySum, AllocatedSum, WatermarkPass, ColdestGone, Serving, ViewsOf;
    var i: nat :| TwoPasses(s, evs, i, policy, size, n);
    var t, u := Run(s, evs[..i]), Run(s, evs);
    assert evs[..i] + evs[i..] == evs;
    assert evs[i..] == [] ==> evs[..i] == evs;
    EvictionsPath(s, evs);
    EvictionsTake(s, evs, i);
    EvictionsPath(s, evs[..i]);
    RunConcat(s, evs[..i], evs[i..]);
    RunInv(s, evs);
    SameCapacity(s.fleet, t.fleet);
    if k in u.objects { ObjectCounts(u, k, id); }
  }

  /** So many bytes, as a 64-bit count that saturates, are free. */
  ghost predicate BytesFree(fleet: map<string, Segment>, bytes: nat) {
    AllocatedSum(fleet) + bytes <= CapacitySum(fleet) || (bytes > 0xFFFF_FFFF_FFFF_FFFF
      && AllocatedSum(fleet) + 0xFFFF_FFFF_FFFF_FFFF <= CapacitySum(fleet))
  }

  /** A pass for the bytes ends with nothing left to take, or with the bytes free. */
  lemma {:induction false} FitLeaves(s: State, evs: seq<Change>, size: nat, n: nat)
    requires FitPass(s, evs, Needed(size, n)) && size > 0 && n > 0
    ensures Path(s, evs) && (NoneEvictable(Run(s, evs)) || BytesFree(Run(s, evs).fleet, size * n))
  {
    hide Path, Run, Evictions, CapacitySum, AllocatedSum, ColdestGone, NoneEvictable;
    assert size * n > 0;
    EvictionsPath(s, evs);
    SameCapacity(s.fleet, Run(s, evs).fleet);
  }

  /** A put that finds no room leaves nothing that eviction may take, unless the bytes it asks for are free but scattered. */
  lemma {:induction false} FailedFull(s: State, evs: seq<Change>, t: State, policy: Policy, size: nat, n: nat)
    requires Path(s, evs) && t == Run(s, evs) && Short(policy, t.fleet, size, n) && size > 0
    requires RoomMade(s, evs, policy, size, n)
    ensures NoneEvictable(t) || BytesFree(t.fleet, size * n)
  {
    hide Path, Run, WatermarkPass, FitPass, NoneEvictable, BytesFree, Needed, Serving, ViewsOf;
    var i: nat :| TwoPasses(s, evs, i, policy, size, n);
    assert evs[..i] + evs[i..] == evs;
    assert evs[i..] == [] ==> evs[..i] == evs;
    FitLeaves(Run(s, evs[..i]), evs[i..], size, n);
    RunConcat(s, evs[..i], evs[i..]);
  }

  lemma {:induction false} FitNeeds(s: State, evs: seq<Change>, size: nat, n: nat, i: nat)
    requires FitPass(s, evs, Needed(size, n)) && i < |evs|
    ensures Path(s, evs[..i]) && AllocatedSum(Run(s, evs[..i]).fleet) + size * n > CapacitySum(s.fleet)
  {
    hide Path, Run, Evictions, CapacitySum, AllocatedSum, ColdestGone, NoneEvictable;
  }

  lemma {:induction false} WatermarkNeeds(s: State, evs: seq<Change>, limits: Limits, i: nat)
    requires WatermarkPass(s, evs, limits) && i < |evs|
    ensures Path(s, evs[..i])
    ensures var cap := CapacitySum(s.fleet);
      AllocatedSum(s.fleet) as real >= limits.highWatermark * cap as real && !AtGoal(AllocatedSum(Run(s, evs[..i]).fleet), Goal(limits, cap))
  {
    hide Path, Run, Evictions, CapacitySum, AllocatedSum, ColdestGone, NoneEvictable, AtGoal, Goal;
  }

  /** Nothing goes without need: at each eviction the fleet is above the goal of a watermark pass, or short of the bytes asked for. */
  lemma {:induction false} TakenForNeed(s: State, evs: seq<Change>, policy: Policy, size: nat, n: nat, i: nat)
    requires Evictions(s, evs) && RoomMade(s, evs, policy, size, n) && i < |evs|
    ensures Path(s, evs[..i])
    ensures var cap, used := CapacitySum(s.fleet), AllocatedSum(Run(s, evs[..i]).fleet);
      || used + size * n > cap
      || (AllocatedSum(s.fleet) as real >= policy.limits.highWatermark * cap as real && !AtGoal(used, Goal(policy.limits, cap)))
  {
    hide Path, Run, Evictions, CapacitySum, AllocatedSum, WatermarkPass, FitPass, Goal, AtGoal, Short, Needed;
    var k: nat :| TwoPasses(s, evs, k, policy, size, n);
    if i < k {
      assert evs[..k][..i] == evs[..i];
      WatermarkNeeds(s, evs[..k], policy.limits, i);
    } else {
      var t, more := Run(s, evs[..k]), evs[k..];
      assert more != [] && evs[..k] + more[..i - k] == evs[..i];
      FitNeeds(t, more, size, n, i - k);
      RunConcat(s, evs[..k], more[..i - k]);
      EvictionsTake(s, evs, k);
      EvictionsPath(s, evs[..k]);
      SameCapacity(s.fleet, t.fleet);
    }
  }

  lemma {:induction false} EvictionsTake(s: State, evs: seq<Change>, i: nat)
    requires i <= |evs| && Evictions(s, evs)
    ensures Evictions(s, evs[..i])
    decreases |evs|
  {
    hide Apply;
    if i > 0 {
      EvictionsTake(Apply(s, evs[0]), evs[1..], i - 1);
      assert evs[..i][1..] == evs[1..][..i - 1];
    }
  }

  /** One that finds room and fills a segment has left no other object there. */
  lemma {:induction false} PlacedTakes(s: State, t: State, item: Item, config: Masters.Config, buffers: seq<Buffer>, i: nat, k: string, id: nat)
    requires Inv(t) && Placed(s, t, item, config, buffers) && i < |buffers| && k != item.key
    requires buffers[i].segment in t.fleet && t.fleet[buffers[i].segment].capacity == item.size
    requires k in t.objects && id in t.objects[k].replicas && t.objects[k].replicas[id].data.Memory?
    ensures t.objects[k].replicas[id].data.buffer.segment != buffers[i].segment
  {
    hide Inv, FreshReplicas;
    FreshAt(buffers, s.nextId, i);
    NoRoomBeside(t, item.key, s.nextId + i, k, id);
  }

  lemma FreshAt(buffers: seq<Buffer>, id: nat, i: nat)
    requires i < |buffers|
    ensures id + i in FreshReplicas(buffers, id) && FreshReplicas(buffers, id)[id + i].data == Memory(buffers[i])
  {
    assert FreshReplica(buffers, id, id + i).data == Memory(buffers[i]);
  }

  /** An object that fills a segment is alone there. */
  lemma {:induction false} NoRoomBeside(t: State, l: string, own: nat, k: string, id: nat)
    requires Inv(t) && k != l && l in t.objects && own in t.objects[l].replicas && k in t.objects && id in t.objects[k].replicas
    requires t.objects[l].replicas[own].data.Memory? && t.objects[k].replicas[id].data.Memory?
    requires var b := t.objects[l].replicas[own].data.buffer; b.segment in t.fleet && t.fleet[b.segment].capacity == b.size
    ensures t.objects[k].replicas[id].data.buffer.segment != t.objects[l].replicas[own].data.buffer.segment
  {
    assert FleetOk(t.fleet);
    hide Inv;
    ReplicaHeld(t, l, own);
    ReplicaHeld(t, k, id);
    var b, c := t.objects[l].replicas[own].data.buffer, t.objects[k].replicas[id].data.buffer;
    if b.segment == c.segment {
      if b.offset == c.offset { SoleOwner(t, l, own, k, id, b.segment, b.offset); }
      assert false;
    }
  }

  /**
    The two puts as a batch makes them: both succeed, and the first is gone. Its
    caller holds a buffer that is the second one's now.
   */
  method LostRun() returns (m: MasterService, first: Outcome<seq<Buffer>>, second: Outcome<seq<Buffer>>)
    ensures fresh(m) && m.Valid() && first.Ok? && second.Ok? && m.objects.Keys == {"l"}
  {
    hide Inv, SegmentState.Valid, FleetOf, LeasesKept, PinsKept, Placed, Path, Run, PutSteps, Started, Apply, Short;
    m := new MasterService(Random);
    m.MountSegment("s", 64);
    ghost var s0 := m.View();
    assert s0.objects == map[] && Small(s0) by { Mounts(State(map[], map[], 0, 0, 5, []), s0); }
    assert m.Rules().mounted == ["s"];
    ghost var path;
    first, path := m.PutStart(FIRST, ONE);
    ghost var s1 := m.View();
    StillSmall(s0, s1);
    OnlyOne(s0, s1, "k");
    if m.objects == map[] { RoomWhenEmpty(s1, m.Rules(), 8); }
    FirstStarted(s0, s1, first);
    second, path := m.PutStart(SECOND, ONE);
    ghost var s2 := m.View();
    StillSmall(s1, s2);
    SecondTakes(s1, s2, path, m.Rules(), second);
    if m.objects == map[] { RoomWhenEmpty(s2, m.Rules(), 64); }
  }

  lemma Mounts(s: State, t: State)
    requires s.objects == map[] && s.fleet == map[] && t == Apply(s, Mount("s", 64))
    ensures t.objects == map[] && Small(t)
  {
  }

  lemma StillSmall(s: State, t: State)
    requires Small(s) && SameSegments(s.fleet, t.fleet)
    ensures Small(t)
  {
  }

  lemma OnlyOne(s: State, t: State, k: string)
    requires s.objects == map[] && NoneNewBut(s, t, k)
    ensures t.objects.Keys <= {k}
  {
  }

  lemma {:induction false} FirstStarted(s: State, t: State, r: Outcome<seq<Buffer>>)
    requires r.Ok? && Inv(t) && Small(t) && t.clock == s.clock && t.objects.Keys <= {"k"} && Placed(s, t, FIRST, ONE, r.value)
    ensures Started(t)
  {
    hide Inv;
    var rs := t.objects["k"].replicas;
    assert s.nextId in rs;
    forall id | id in rs ensures rs[id].Size() == 8 { assert rs[id] == FreshReplica(r.value, s.nextId, id); }
  }

  lemma {:induction false} SecondTakes(s: State, t: State, path: seq<Change>, policy: Policy, r: Outcome<seq<Buffer>>)
    requires Started(s) && Inv(t) && Small(t) && NoneNewBut(s, t, "l")
    requires PutSteps(s, path, SECOND, ONE, policy, r) && Path(s, path) && t == Run(s, path)
    requires r.Ok? ==> Placed(s, t, SECOND, ONE, r.value)
    ensures if r.Ok? then t.objects.Keys == {"l"} else t.objects == map[]
  {
    hide Path, Run, PutSteps, Inv, Placed;
    if r.Ok? {
      assert "l" in t.objects by { ThereNow(s, t, r.value); }
      SecondAlone(s, t, r.value);
    } else {
      SecondFails(s, path, policy, r);
    }
  }

  lemma {:induction false} SecondAlone(s: State, t: State, buffers: seq<Buffer>)
    requires Inv(t) && Small(t) && Placed(s, t, SECOND, ONE, buffers)
    ensures "k" in t.objects ==> t.objects["k"].replicas == map[]
  {
    hide Inv, Small;
    FreshOne(buffers, s.nextId);
    AloneSmall(t, s.nextId);
  }

  lemma {:induction false} AloneSmall(t: State, own: nat)
    requires Inv(t) && Small(t) && "l" in t.objects && own in t.objects["l"].replicas && t.objects["l"].replicas[own].Size() == 64
    ensures "k" in t.objects ==> t.objects["k"].replicas == map[]
  {
    hide Inv;
    ReplicaHeld(t, "l", own);
    if "k" in t.objects && t.objects["k"].replicas != map[] {
      var id :| id in t.objects["k"].replicas;
      ReplicaHeld(t, "k", id);
      NoRoomBeside(t, "l", own, "k", id);
      assert false;
    }
  }

  lemma ThereNow(s: State, t: State, buffers: seq<Buffer>)
    requires Placed(s, t, SECOND, ONE, buffers)
    ensures "l" in t.objects
  {
  }

  lemma {:induction false} SecondFails(s: State, path: seq<Change>, policy: Policy, r: Outcome<seq<Buffer>>)
    requires Started(s) && PutSteps(s, path, SECOND, ONE, policy, r) && Path(s, path) && r.Err?
    ensures Run(s, path).objects == map[]
  {
    hide Path, Run, Evictions, RoomMade, Inv, ColdestGone, Small, Evictable;
    var evs, extents :| PutBy(s, path, SECOND, ONE, policy, r, evs, extents);
    assert path == evs;
    EvictionsPath(s, evs);
    SmallCapacity(s);
    var id :| id in s.objects["k"].replicas;
    FailedTakes(s, evs, policy, 64, 1, "k", id);
  }

  /** A batch of the two: it succeeds, and its first item is gone. */
  method LostBatch() returns (m: MasterService, r: Outcome<seq<seq<Buffer>>>)
    ensures fresh(m) && m.Valid() && r.Ok? && m.objects.Keys == {"l"}
  {
    hide Inv, SegmentState.Valid, FleetOf, LeasesKept, PinsKeptBut, Path, Run, BatchPlaced, NoneNewAmong;
    hide SameSegments, Small, Stopped, Apply, Short, BatchSteps;
    m := new MasterService(Random);
    m.MountSegment("s", 64);
    ghost var s0 := m.View();
    assert s0.objects == map[] && Small(s0) by { Mounts(State(map[], map[], 0, 0, 5, []), s0); }
    assert m.Rules().mounted == ["s"];
    ghost var path, failed, started, put;
    r, path, failed, started, put := m.BatchPutStart([FIRST, SECOND], ONE);
    ghost var s1 := m.View();
    if r.Err? { NeverStops(s0, Run(s0, started), put, failed, m.Rules()); }
    StillSmall(s0, s1);
    BatchTakes(s0, s1, r.value);
  }

  /** Neither item can find the segment full: the put before it has emptied it. */
  lemma {:induction false} NeverStops(s: State, t: State, put: seq<Change>, n: nat, policy: Policy)
    requires s.objects == map[] && Small(s) && policy.mounted == ["s"]
    ensures !Stopped(s, t, put, [FIRST, SECOND], n, ONE, policy)
  {
    hide Inv, Path, Run, Small, SameSegments, BatchPlaced, PutSteps, Short;
    if Stopped(s, t, put, [FIRST, SECOND], n, ONE, policy) {
      var u := Run(t, put);
      StillSmall(s, t);
      StillSmall(t, u);
      if n == 0 {
        assert u.objects == map[];
      } else {
        FirstIn(s, t);
        SecondFails(t, put, policy, Err(NoAvailableSegment));
      }
      RoomWhenEmpty(u, policy, [FIRST, SECOND][n].size);
    }
  }

  lemma {:induction false} FirstIn(s: State, t: State)
    requires s.objects == map[] && Inv(t) && Small(t) && NoneNewAmong(s, t, [FIRST, SECOND][..1])
    requires exists out :: BatchPlaced(t.objects, [FIRST, SECOND][..1], ONE, out) && forall i :: 0 <= i < 1 ==> |out[i]| == ONE.replicaNum
    ensures Started(t)
  {
    hide Inv, FreshReplicas;
    var items := [FIRST, SECOND][..1];
    assert items == [FIRST];
    assert KeysOf(items) == {"k"} by { assert items[0].key == "k"; }
    var out :| BatchPlaced(t.objects, items, ONE, out) && forall i :: 0 <= i < 1 ==> |out[i]| == ONE.replicaNum;
    assert LastOfKey(items, 0);
    assert EnteredOn(t.objects["k"], FIRST, ONE, out[0]);
    var own :| t.objects["k"].replicas == FreshReplicas(out[0], own);
    FreshOne(out[0], own);
  }

  lemma {:induction false} BatchTakes(s: State, t: State, out: seq<seq<Buffer>>)
    requires s.objects == map[] && Inv(t) && Small(t) && NoneNewAmong(s, t, [FIRST, SECOND]) && |out| == 2 && |out[0]| == |out[1]| == 1
    requires BatchPlaced(t.objects, [FIRST, SECOND], ONE, out)
    ensures t.objects.Keys == {"l"}
  {
    hide Inv, FreshReplicas;
    var items := [FIRST, SECOND];
    assert KeysOf(items) == {"k", "l"} by { assert items[0].key == "k" && items[1].key == "l"; }
    assert LastOfKey(items, 0) && LastOfKey(items, 1);
    assert "l" in t.objects && EnteredOn(t.objects["l"], SECOND, ONE, out[1]);
    var own :| t.objects["l"].replicas == FreshReplicas(out[1], own);
    FreshOne(out[1], own);
    AloneSmall(t, own);
    if "k" in t.objects {
      assert EnteredOn(t.objects["k"], FIRST, ONE, out[0]);
      var id :| t.objects["k"].replicas == FreshReplicas(out[0], id);
      FreshOne(out[0], id);
    }
  }

  lemma FreshOne(buffers: seq<Buffer>, id: nat)
    requires |buffers| == 1
    ensures FreshReplicas(buffers, id).Keys == {id} && FreshReplicas(buffers, id)[id].Size() == buffers[0].size
  {
    assert FreshReplica(buffers, id, id).data == Memory(buffers[0]);
  }
}
