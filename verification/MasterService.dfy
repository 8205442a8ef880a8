/**
  The master service: object metadata, the two-phase put, leases and eviction.
  Each operation follows a path of elementary changes; `View()` is the state they
  act on.
 */
module Masters {
  import opened Buffers
  import opened Eviction
  import opened Fleets
  import opened MasterInv
  import opened MasterSpec
  import opened Segments
  import opened Sequences
  import opened Words

  datatype Config = Config(replicaNum: nat, softPin: bool, hardPin: bool, preferred: Option<string>)


  /** The allocated bytes watermark eviction aims at, rounded toward zero. */
  function Target(highWatermark: real, evictionRatio: real, capacity: nat): nat {
    var goal := highWatermark * (1.0 - evictionRatio) * capacity as real;
    if goal < 0.0 then 0 else goal.Floor
  }

  /** When eviction starts, and how far below that it goes, as fractions of the capacity. */
  datatype Limits = Limits(highWatermark: real, evictionRatio: real)

  /** What placement goes by: the watermarks, the strategy, and the names mounted, in order. */
  datatype Policy = Policy(limits: Limits, strategy: Strategy, mounted: seq<string>)

  /** So many bytes are no more than a goal; none are never more. */
  ghost predicate AtGoal(used: nat, goal: real) {
    used == 0 || used as real <= goal
  }

  /** The bound in bytes that a goal comes to. */
  ghost predicate Bound(limit: nat, goal: real) {
    forall used: nat :: used <= limit <==> AtGoal(used, goal)
  }

  /** How much may be allocated after a watermark pass. */
  ghost function Goal(limits: Limits, capacity: nat): real {
    limits.highWatermark * (1.0 - limits.evictionRatio) * capacity as real
  }

  lemma TargetBound(limits: Limits, capacity: nat)
    ensures Bound(Target(limits.highWatermark, limits.evictionRatio, capacity), Goal(limits, capacity))
  {
    var goal := Goal(limits, capacity);
    var limit := Target(limits.highWatermark, limits.evictionRatio, capacity);
    assert limit == if goal < 0.0 then 0 else goal.Floor;
    hide Goal, Target;
    forall used: nat ensures used <= limit <==> AtGoal(used, goal) {
    }
  }

  /**
    The watermark pass: nothing below the high watermark, else until no more than that,
    less the eviction ratio, is allocated.
   */
  ghost predicate WatermarkPass(s: State, path: seq<Change>, limits: Limits) {
    var cap := CapacitySum(s.fleet);
    if cap == 0 || AllocatedSum(s.fleet) as real < limits.highWatermark * cap as real then path == []
    else exists limit: nat :: Bound(limit, Goal(limits, cap)) && EvictedTo(s, path, limit)
  }

  /** The pass that frees `needed` bytes of the capacity. */
  ghost predicate FitPass(s: State, path: seq<Change>, needed: nat) {
    if needed == 0 then path == [] else EvictedTo(s, path, CapacitySum(s.fleet) - needed)
  }

  /** Fewer segments can serve a request than it wants replicas. */
  ghost predicate Short(policy: Policy, fleet: map<string, Segment>, size: nat, n: nat) {
    n > 0 && (size == 0 || |Serving(ViewsOf(fleet, policy.mounted), size, {})| < n)
  }

  /** What one allocation evicts: a watermark pass, and only if that leaves it short a pass for the bytes it needs. */
  ghost predicate RoomMade(s: State, evs: seq<Change>, policy: Policy, size: nat, n: nat) {
    exists k :: TwoPasses(s, evs, k, policy, size, n)
  }

  /** The first `k` evictions are the watermark pass and the rest the pass for the bytes. */
  ghost predicate TwoPasses(s: State, evs: seq<Change>, k: nat, policy: Policy, size: nat, n: nat) {
    && k <= |evs| && Path(s, evs[..k]) && WatermarkPass(s, evs[..k], policy.limits)
    && if Short(policy, Run(s, evs[..k]).fleet, size, n) then FitPass(Run(s, evs[..k]), evs[k..], Needed(size, n)) else evs[k..] == []
  }

  lemma {:induction false} MadeAtOnce(s: State, evs: seq<Change>, policy: Policy, size: nat, n: nat)
    requires Path(s, evs) && WatermarkPass(s, evs, policy.limits) && !Short(policy, Run(s, evs).fleet, size, n)
    ensures RoomMade(s, evs, policy, size, n)
  {
    hide Path, WatermarkPass, FitPass, Short;
    assert evs[..|evs|] == evs;
    assert TwoPasses(s, evs, |evs|, policy, size, n);
  }

  lemma {:induction false} MadeTwice(s: State, evs: seq<Change>, more: seq<Change>, policy: Policy, size: nat, n: nat)
    requires Path(s, evs) && WatermarkPass(s, evs, policy.limits) && Short(policy, Run(s, evs).fleet, size, n)
    requires FitPass(Run(s, evs), more, Needed(size, n))
    ensures RoomMade(s, evs + more, policy, size, n)
  {
    hide Path, Run, WatermarkPass, FitPass, Short;
    assert (evs + more)[..|evs|] == evs && (evs + more)[|evs|..] == more;
    assert TwoPasses(s, evs + more, |evs|, policy, size, n);
  }

  /** The bytes of `n` replicas, as a saturating 64-bit product. */
  function Needed(size: nat, n: nat): nat {
    if size * n <= U64_MAX then size * n else U64_MAX
  }

  /** The state a put allocates in: an uncommitted leftover of the key is reclaimed. */
  ghost function Reclaimed(s: State, key: string): State {
    if key in s.objects then Forget(s, key) else s
  }

  ghost function Reclaim(s: State, key: string): seq<Change> {
    if key in s.objects then [Drop(key)] else []
  }

  ghost function PlaceOf(item: Item, config: Config, r: Outcome<seq<Buffer>>, extents: seq<nat>): seq<Change> {
    if r.Err? then [] else [Place(item.key, item.identity, item.size, r.value, extents, config.softPin, config.hardPin)]
  }

  /**
    The steps of an allocating put: reclaim the leftover, evict coldest first, and place
    the replicas where the strategy says, unless too few segments have room by then.
   */
  ghost predicate PutSteps(s: State, path: seq<Change>, item: Item, config: Config, policy: Policy, r: Outcome<seq<Buffer>>) {
    exists evs, extents :: PutBy(s, path, item, config, policy, r, evs, extents)
  }

  ghost predicate PutBy(s: State, path: seq<Change>, item: Item, config: Config, policy: Policy,
      r: Outcome<seq<Buffer>>, evs: seq<Change>, extents: seq<nat>) {
    var t := Reclaimed(s, item.key);
    && path == Reclaim(s, item.key) + evs + PlaceOf(item, config, r, extents)
    && Evictions(t, evs) && Path(t, evs) && ColdestGone(t, Run(t, evs))
    && RoomMade(t, evs, policy, item.size, config.replicaNum) && Decided(Run(t, evs).fleet, item, config, policy, r)
  }

  /** Where replicas go, and when there is no place for them, in the fleet the evictions left. */
  ghost predicate Decided(fleet: map<string, Segment>, item: Item, config: Config, policy: Policy, r: Outcome<seq<Buffer>>) {
    && (r.Err? <==> Short(policy, fleet, item.size, config.replicaNum))
    && (r.Ok? ==> |r.value| == config.replicaNum && Chosen(policy.strategy, ViewsOf(fleet, policy.mounted), item.size, {}, config.preferred, r.value))
  }

  /** Every object but `key` that is there now was there before, unchanged. */
  ghost predicate NoneNewBut(s: State, t: State, key: string) {
    forall k :: k in t.objects && k != key ==> k in s.objects && t.objects[k] == s.objects[k]
  }

  /** What `key` is after a put placed it. */
  ghost predicate Placed(s: State, t: State, item: Item, config: Config, buffers: seq<Buffer>) {
    && item.key in t.objects
    && t.objects[item.key] == ObjectMeta(FreshReplicas(buffers, s.nextId), item.identity, 0, s.clock, config.softPin, config.hardPin)
    && |buffers| == config.replicaNum && forall i :: 0 <= i < |buffers| ==> buffers[i].size == item.size
  }

  /** The replicas a reader is given: complete, and on disk or on a live segment. */
  function Readable(replicas: ReplicaList, alive: set<string>): ReplicaList {
    map id |
      && id in replicas && replicas[id].status == Complete
      && (replicas[id].data.Memory? ==> replicas[id].data.buffer.segment in alive)
      :: replicas[id]
  }

  /** Segments heard of recently enough; all mounted ones when no limit is set. */
  function Alive(heartbeats: map<string, nat>, segmentTtl: nat, clock: nat): set<string> {
    set n | n in heartbeats && (segmentTtl == 0 || clock <= heartbeats[n] + segmentTtl)
  }

  /** Why a read is refused, once it is. */
  function Refusal(objects: map<string, ObjectMeta>, key: string, requester: Identity): ErrorCode {
    if key !in objects then ObjectNotFound
    else match objects[key].identity.ReuseViolation(requester)
      case Some(v) => UnsafeReuse(v)
      case None => ObjectNotReady
  }

  // ---- what operations do to an object, field by field ----

  /** All replicas of an object changed their status, and nothing else about it or them did. */
  ghost predicate Restatused(was: ReplicaList, now: ReplicaList, status: Status) {
    now.Keys == was.Keys && forall id :: id in was && id in now ==>
      && now[id].id == was[id].id && now[id].data == was[id].data && now[id].refCount == was[id].refCount
      && now[id].status == status
  }

  /** An ended put: readable, and otherwise as it was. */
  ghost predicate Ended(was: ObjectMeta, now: ObjectMeta) {
    && Restatused(was.replicas, now.replicas, Complete) && now.identity == was.identity
    && now.leaseUntil == was.leaseUntil && now.lastAccess == was.lastAccess
    && now.softPinned == was.softPinned && now.hardPinned == was.hardPinned
  }

  /** An object opened for rewriting: another's, not readable, just used, in the same buffers under the same pins and lease. */
  ghost predicate Rewriting(was: ObjectMeta, now: ObjectMeta, who: Identity, clock: nat) {
    && Restatused(was.replicas, now.replicas, Initialized) && now.identity == who
    && now.leaseUntil == was.leaseUntil && now.lastAccess == clock
    && now.softPinned == was.softPinned && now.hardPinned == was.hardPinned
  }

  /** An object just read: leased from now on, and otherwise as it was. */
  ghost predicate JustRead(was: ObjectMeta, now: ObjectMeta, clock: nat, ttl: nat) {
    && now.replicas == was.replicas && now.identity == was.identity
    && now.leaseUntil == clock + ttl && now.lastAccess == clock
    && now.softPinned == was.softPinned && now.hardPinned == was.hardPinned
  }

  /** Only the object of one key is not as it was. */
  ghost predicate OnlyAt(was: map<string, ObjectMeta>, now: map<string, ObjectMeta>, key: string) {
    now.Keys == was.Keys && forall k :: k in was && k in now && k != key ==> now[k] == was[k]
  }

  /** A replica that a segment does not hold. */
  ghost predicate Elsewhere(r: Replica, name: string) {
    r.data.Memory? ==> r.data.buffer.segment != name
  }

  /** After a segment has gone: each object keeps just its replicas elsewhere, and goes if it has none. */
  ghost predicate LeftSegment(was: map<string, ObjectMeta>, now: map<string, ObjectMeta>, name: string) {
    && (forall k :: k in now <==> k in was && exists id :: id in was[k].replicas && Elsewhere(was[k].replicas[id], name))
    && (forall k :: k in now && k in was ==>
      && (forall id :: id in now[k].replicas <==> id in was[k].replicas && Elsewhere(was[k].replicas[id], name))
      && (forall id :: id in now[k].replicas && id in was[k].replicas ==> now[k].replicas[id] == was[k].replicas[id])
      && now[k].identity == was[k].identity && now[k].leaseUntil == was[k].leaseUntil && now[k].lastAccess == was[k].lastAccess
      && now[k].softPinned == was[k].softPinned && now[k].hardPinned == was[k].hardPinned)
  }

  lemma UnmountedLeft(objects: map<string, ObjectMeta>, name: string)
    ensures LeftSegment(objects, Unmounted(objects, name), name)
  {
    forall k | k in objects
      ensures OffSegment(objects[k].replicas, name) != map[] <==> exists id :: id in objects[k].replicas && Elsewhere(objects[k].replicas[id], name)
    {
      var off := OffSegment(objects[k].replicas, name);
      if off != map[] {
        var id :| id in off;
        assert Elsewhere(objects[k].replicas[id], name);
      }
      if id :| id in objects[k].replicas && Elsewhere(objects[k].replicas[id], name) { assert id in off; }
    }
  }

  /** A replica a reader may have: complete, and on disk or on a segment heard of recently enough. */
  ghost predicate Reachable(r: Replica, heartbeats: map<string, nat>, segmentTtl: nat, clock: nat) {
    && r.status == Complete
    && (r.data.Memory? ==>
      && r.data.buffer.segment in heartbeats
      && (segmentTtl == 0 || clock <= heartbeats[r.data.buffer.segment] + segmentTtl))
  }

  lemma ReadableMeans(replicas: ReplicaList, heartbeats: map<string, nat>, segmentTtl: nat, clock: nat)
    ensures var rs := Readable(replicas, Alive(heartbeats, segmentTtl, clock));
      && (forall id :: id in rs <==> id in replicas && Reachable(replicas[id], heartbeats, segmentTtl, clock))
      && (forall id :: id in rs ==> rs[id] == replicas[id])
  {
  }

  /** The buffers of `replicas`, one for each. */
  ghost predicate BufferList(buffers: seq<Buffer>, replicas: ReplicaList) {
    exists order: seq<Replica> :: Lists(order, replicas) && |order| == |buffers| && forall i :: 0 <= i < |order| ==>
      order[i].data == Memory(buffers[i])
  }

  /** The object a put asks for. */
  datatype Item = Item(key: string, identity: Identity, size: nat)

  class MasterService {
    const segs: SegmentState
    var objects: map<string, ObjectMeta>
    var clock: nat
    var leaseTtl: nat
    var highWatermark: real
    var evictionRatio: real
    /** Last heartbeat of each mounted segment, and how many ticks it may miss (0: any). */
    var heartbeats: map<string, nat>
    var segmentTtl: nat
    /** The op-log. */
    var log: seq<Entry>

    ghost function Repr(): set<object>
      reads this, segs
    {
      {this, segs} + segs.parts
    }

    ghost predicate Separate()
      reads this, segs, segs.parts
    {
      this !in segs.parts && segs !in segs.parts && segs.Valid()
    }

    ghost predicate Valid()
      reads this, segs, segs.parts
    {
      Separate() && Inv(View())
    }

    /** The metadata this master stands for. */
    ghost function View(): State
      reads this, segs
    {
      State(objects, segs.Fleet(), segs.nextReplicaId, clock, leaseTtl, log)
    }

    ghost function Rules(): Policy
      reads this, segs
    {
      Policy(Limits(highWatermark, evictionRatio), segs.strategy, Names(segs.views))
    }

    twostate predicate SameSettings()
      reads this, segs
    {
      && Names(segs.views) == old(Names(segs.views)) && leaseTtl == old(leaseTtl)
      && heartbeats == old(heartbeats) && segmentTtl == old(segmentTtl)
      && highWatermark == old(highWatermark) && evictionRatio == old(evictionRatio)
    }

    constructor (strategy: Strategy)
      ensures Valid() && fresh(Repr())
      ensures View() == State(map[], map[], 0, 0, 5, []) && segs.strategy == strategy && segs.views == []
      ensures highWatermark == 0.95 && evictionRatio == 0.1 && heartbeats == map[] && segmentTtl == 0
    {
      segs := new SegmentState(strategy);
      objects, clock, leaseTtl, log := map[], 0, 5, [];
      highWatermark, evictionRatio := 0.95, 0.1;
      heartbeats, segmentTtl := map[], 0;
    }

    method TickClock() returns (now: nat)
      requires Valid()
      modifies this
      ensures Valid() && View() == Apply(old(View()), Tick)
      ensures now == clock == old(clock) + 1 && objects == old(objects) && log == old(log) && SameSettings()
    {
      hide Inv, SegmentState.Valid, FleetOf;
      ApplyInv(View(), Tick);
      clock := clock + 1;
      now := clock;
    }

    /** Mount a segment. The name is not checked, and the master stays sound exactly when it was not mounted. */
    method MountSegment(name: string, capacity: nat)
      requires Valid()
      modifies Repr()
      ensures Valid() <==> name !in old(segs.Fleet())
      ensures Valid() ==> View() == Apply(old(View()), Mount(name, capacity))
      ensures fresh(Repr() - old(Repr()))
      ensures heartbeats == old(heartbeats)[name := clock]
      ensures segmentTtl == old(segmentTtl) && highWatermark == old(highWatermark) && evictionRatio == old(evictionRatio)
      ensures segs.views == old(segs.views) + [Segment(name, capacity, map[])]
      ensures objects == old(objects) && clock == old(clock) && leaseTtl == old(leaseTtl) && log == old(log) + [SegmentMounted(name, capacity)]
    {
      hide Inv, SegmentState.Valid, FleetOf;
      if name !in segs.Fleet() { ApplyInv(View(), Mount(name, capacity)); }
      heartbeats := heartbeats[name := clock];
      segs.Mount(name, capacity);
      log := log + [SegmentMounted(name, capacity)];
    }

    /** Unmount a segment: its replicas go with it. */
    method UnmountSegment(name: string) returns (r: Outcome<()>)
      requires Valid()
      modifies Repr()
      ensures Valid() && segs.parts == old(segs.parts)
      ensures r == (if name in old(View()).fleet then Ok(()) else Err(SegmentNotFound))
      ensures r.Err? ==> View() == old(View())
      ensures r.Ok? ==> View() == Apply(old(View()), Unmount(name))
      ensures heartbeats == (if r.Ok? then old(heartbeats) - {name} else old(heartbeats))
      ensures r.Ok? ==> LeftSegment(old(objects), objects, name) && log == old(log) + [SegmentUnmounted(name)] && clock == old(clock)
      ensures r.Ok? ==> exists i :: 0 <= i < |old(segs.views)| && Named(old(segs.views), i, name) && segs.views == Drop1(old(segs.views), i)
      ensures segmentTtl == old(segmentTtl) && highWatermark == old(highWatermark) && evictionRatio == old(evictionRatio)
    {
      hide Inv, SegmentState.Valid, FleetOf, Unmounted, LeftSegment, Drop1;
      UnmountedLeft(objects, name);
      var i := segs.Find(name);
      if i == |segs.allocators| {
        return Err(SegmentNotFound);
      }
      ApplyInv(View(), Unmount(name));
      objects := Unmounted(objects, name);
      segs.Unmount(name);
      heartbeats := heartbeats - {name};
      log := log + [SegmentUnmounted(name)];
      return Ok(());
    }

    /** Take an object out and give its ranges back; `Forget` without touching the log. */
    method Discard(key: string)
      requires Valid() && key in objects
      modifies this`objects, segs`views, segs.parts
      ensures Separate() && segs.parts == old(segs.parts)
      ensures View() == Forget(old(View()), key) && Inv(View()) && Names(segs.views) == old(Names(segs.views))
    {
      hide Inv, SegmentState.Valid, FleetOf, Release, BuffersOf;
      ForgetInv(View(), key);
      var replicas := objects[key].replicas;
      objects := objects - {key};
      segs.FreeReplicas(replicas);
    }

    /** Phase 2 of a put: every replica becomes readable. */
    method PutEnd(key: string) returns (r: Outcome<()>, ghost path: seq<Change>)
      requires Valid()
      modifies this
      ensures Valid() && SameSettings()
      ensures r == (if key in old(objects) then Ok(()) else Err(ObjectNotFound))
      ensures r.Err? ==> path == [] && View() == old(View())
      ensures r.Ok? ==> |path| == 1 && path[0].Commit? && path[0].key == key && Enabled(old(View()), path[0]) && View() == Apply(old(View()), path[0])
      ensures r.Ok? ==> OnlyAt(old(objects), objects, key) && Ended(old(objects)[key], objects[key]) && clock == old(clock)
      ensures r.Ok? ==>
        var o := objects[key];
        Lists(path[0].order, o.replicas) && log == old(log) + [PutCommitted(key, o.identity, path[0].order, o.softPinned, o.hardPinned)]
    {
      hide Inv, SegmentState.Valid, FleetOf, Lists;
      path := [];
      if key !in objects {
        return Err(ObjectNotFound), [];
      }
      var o := objects[key].(replicas := WithStatus(objects[key].replicas, Complete));
      ReplicaIds(View(), key);
      var order := ListReplicas(o.replicas);
      ApplyInv(View(), Commit(key, order));
      objects := objects[key := o];
      log := log + [PutCommitted(key, o.identity, order, o.softPinned, o.hardPinned)];
      path := [Commit(key, order)];
      r := Ok(());
    }

    /** Abort a put: free the allocation and drop the object. */
    method PutRevoke(key: string) returns (r: Outcome<()>)
      requires Valid()
      modifies Repr()
      ensures Valid() && segs.parts == old(segs.parts)
      ensures r == (if key in old(objects) then Ok(()) else Err(ObjectNotFound))
      ensures r.Err? ==> View() == old(View())
      ensures r.Ok? ==> View() == Apply(old(View()), Drop(key))
      ensures r.Ok? ==> objects == old(objects) - {key} && SameSegments(old(View()).fleet, View().fleet) && log == old(log) && clock == old(clock)
      ensures SameSettings()
    {
      hide Inv, SegmentState.Valid, FleetOf, Release;
      if key !in objects {
        return Err(ObjectNotFound);
      }
      ReleaseSegments(View().fleet, BuffersOf(objects[key].replicas));
      Discard(key);
      r := Ok(());
    }

    /** Remove an object; blocked while it is leased unless forced. */
    method RemoveObject(key: string, force: bool) returns (r: Outcome<()>)
      requires Valid()
      modifies Repr()
      ensures Valid() && segs.parts == old(segs.parts)
      ensures r == (if key !in old(objects) then Err(ObjectNotFound)
                    else if old(objects)[key].leaseUntil > clock && !force then Err(ObjectNotReady) else Ok(()))
      ensures r.Err? ==> View() == old(View())
      ensures r.Ok? ==> View() == Apply(old(View()), Remove(key))
      ensures r.Ok? ==> objects == old(objects) - {key} && SameSegments(old(View()).fleet, View().fleet)
      ensures r.Ok? ==> log == old(log) + [RemovedEntry(key)] && clock == old(clock)
      ensures SameSettings()
    {
      hide Inv, SegmentState.Valid, FleetOf, Release;
      if key !in objects {
        return Err(ObjectNotFound);
      }
      if objects[key].leaseUntil > clock && !force {
        return Err(ObjectNotReady);
      }
      ApplyInv(View(), Remove(key));
      ReleaseSegments(View().fleet, BuffersOf(objects[key].replicas));
      Discard(key);
      log := log + [RemovedEntry(key)];
      r := Ok(());
    }

    // ---- eviction ----

    /** Objects eviction may take, coldest first. */
    method VictimsColdestFirst() returns (victims: seq<string>)
      requires Valid()
      ensures Victims(View(), victims)
    {
      hide Inv, SegmentState.Valid, FleetOf;
      victims := [];
      var rest := objects.Keys;
      assert objects.Keys - rest == {};
      while rest != {}
        invariant rest <= objects.Keys && VictimsAmong(objects, clock, objects.Keys - rest, victims)
      {
        var k :| k in rest;
        assert objects.Keys - (rest - {k}) == objects.Keys - rest + {k};
        if Evictable(objects[k], clock) {
          var p: nat := |victims|;
          while p > 0 && !NoWarmer(objects[victims[p - 1]], objects[k])
            invariant p <= |victims| && forall j :: p <= j < |victims| ==> NoWarmer(objects[k], objects[victims[j]])
          {
            p := p - 1;
          }
          InsertVictim(objects, clock, objects.Keys - rest, victims, k, p);
          victims := InsertAt(victims, p, k);
        }
        rest := rest - {k};
      }
      assert objects.Keys - rest == objects.Keys;
    }

    /** Evict one object, logged. */
    method EvictOne(key: string)
      requires Valid() && key in objects
      modifies Repr()
      ensures Valid() && segs.parts == old(segs.parts)
      ensures View() == Apply(old(View()), Remove(key))
      ensures SameSettings()
    {
      hide Inv, SegmentState.Valid, FleetOf, Release;
      ApplyInv(View(), Remove(key));
      Discard(key);
      log := log + [RemovedEntry(key)];
    }

    /** Evict, coldest first, until at most `limit` bytes are allocated. */
    method EvictDown(limit: int) returns (evicted: nat, ghost path: seq<Change>)
      requires Valid()
      modifies Repr()
      ensures Valid() && segs.parts == old(segs.parts)
      ensures EvictedTo(old(View()), path, limit) && View() == Run(old(View()), path) && evicted == |path|
      ensures SameSettings()
    {
      hide Inv, SegmentState.Valid, FleetOf, Apply, Removals, Victims, AllocatedSum;
      ghost var s0 := View();
      var victims := VictimsColdestFirst();
      evicted := 0;
      VictimsGone(s0, victims, 0);
      NoRemovals(s0, victims);
      while evicted < |victims|
        invariant evicted <= |victims|
        invariant Valid() && segs.parts == old(segs.parts)
        invariant Path(s0, Removals(victims[..evicted])) && View() == Run(s0, Removals(victims[..evicted]))
        invariant forall i :: 0 <= i < evicted ==> Path(s0, Removals(victims[..i])) && AllocatedSum(Run(s0, Removals(victims[..i])).fleet) > limit
        invariant SameSettings()
      {
        var used := segs.Allocated();
        if used <= limit {
          break;
        }
        VictimsNext(s0, victims, evicted);
        EvictOne(victims[evicted]);
        evicted := evicted + 1;
      }
      path := Removals(victims[..evicted]);
      PassDone(s0, victims, evicted, limit);
    }

    /** Watermark eviction: above the high watermark, evict down to the target below it. */
    method EvictIfNeeded() returns (evicted: nat, ghost path: seq<Change>)
      requires Valid()
      modifies Repr()
      ensures Valid() && segs.parts == old(segs.parts) && SameSettings()
      ensures Evictions(old(View()), path) && Path(old(View()), path) && View() == Run(old(View()), path) && evicted == |path|
      ensures ColdestGone(old(View()), View())
      ensures WatermarkPass(old(View()), path, Limits(highWatermark, evictionRatio))
    {
      hide Inv, SegmentState.Valid, FleetOf, CapacitySum, AllocatedSum, Target, Bound, Goal;
      var cap := segs.Capacity();
      var used := segs.Allocated();
      if cap == 0 || used as real < highWatermark * cap as real {
        return 0, [];
      }
      TargetBound(Limits(highWatermark, evictionRatio), cap);
      evicted, path := EvictDown(Target(highWatermark, evictionRatio, cap));
    }

    /** On-demand eviction: free `needed` bytes over all segments, as far as that can be done. */
    method EvictToFit(needed: nat) returns (evicted: nat, ghost path: seq<Change>)
      requires Valid()
      modifies Repr()
      ensures Valid() && segs.parts == old(segs.parts) && SameSettings()
      ensures Evictions(old(View()), path) && Path(old(View()), path) && View() == Run(old(View()), path) && evicted == |path|
      ensures ColdestGone(old(View()), View())
      ensures FitPass(old(View()), path, needed)
    {
      hide Inv, SegmentState.Valid, FleetOf, CapacitySum, AllocatedSum;
      if needed == 0 {
        return 0, [];
      }
      var cap := segs.Capacity();
      evicted, path := EvictDown(cap - needed);
    }

    /** Allocate the buffers of an object, evicting if there is no room. */
    method AllocateReplicas(size: nat, n: nat, preferred: Option<string>)
        returns (r: Outcome<seq<Buffer>>, ghost path: seq<Change>, ghost extents: seq<nat>)
      requires Valid()
      modifies Repr()
      ensures Separate() && segs.parts == old(segs.parts) && SameSettings()
      ensures Evictions(old(View()), path) && Path(old(View()), path) && Inv(Run(old(View()), path))
      ensures ColdestGone(old(View()), Run(old(View()), path))
      ensures RoomMade(old(View()), path, Rules(), size, n)
      ensures r.Err? <==> Short(Rules(), Run(old(View()), path).fleet, size, n)
      ensures r.Err? ==> r.error == NoAvailableSegment && View() == Run(old(View()), path)
      ensures r.Ok? ==>
        && |r.value| == n && AllTakeable(Run(old(View()), path).fleet, r.value, extents, size)
        && View() == Run(old(View()), path).(fleet := HoldAll(Run(old(View()), path).fleet, r.value, extents))
        && Chosen(segs.strategy, ViewsOf(Run(old(View()), path).fleet, Rules().mounted), size, {}, preferred, r.value)
    {
      hide Inv, SegmentState.Valid, Serving, FleetOf, CapacitySum, AllocatedSum, AllTakeable, Chosen;
      hide HoldAll, ColdestGone, Evictions, WatermarkPass, FitPass, RoomMade, Needed, Path, Run;
      ghost var s0, policy := View(), Rules();
      var _, first := EvictIfNeeded();
      path := first;
      segs.ViewsAgree();
      r, extents := segs.Allocate(size, n, preferred, {});
      if r.Ok? {
        MadeAtOnce(s0, first, policy, size, n);
      } else {
        var _, more := EvictToFit(Needed(size, n));
        EvictionsConcat(s0, path, more);
        ColdestTwice(s0, path, more);
        path := path + more;
        MadeTwice(s0, first, more, policy, size, n);
        segs.ViewsAgree();
        r, extents := segs.Allocate(size, n, preferred, {});
      }
    }

    // ---- two-phase put ----

    /** Enter an object with a fresh replica for each buffer. */
    method Record(item: Item, config: Config, buffers: seq<Buffer>)
      requires Separate()
      modifies this`objects, segs`nextReplicaId
      ensures Separate()
      ensures View() == old(View()).(
        objects := old(objects)[item.key := ObjectMeta(FreshReplicas(buffers, old(View()).nextId), item.identity, 0, clock,
          config.softPin, config.hardPin)],
        nextId := old(View()).nextId + |buffers|)
    {
      hide SegmentState.Valid, FleetOf, FreshReplicas;
      ghost var id0 := segs.nextReplicaId;
      var replicas: ReplicaList := map[];
      NoFresh(id0);
      for i := 0 to |buffers|
        invariant Separate() && objects == old(objects)
        invariant segs.nextReplicaId == id0 + i && replicas == FreshReplicas(buffers[..i], id0)
      {
        var id := segs.NextId();
        FreshMore(buffers, i, id0);
        replicas := replicas[id := Replica(id, Initialized, 0, Memory(buffers[i]))];
      }
      assert buffers[..|buffers|] == buffers;
      objects := objects[item.key := ObjectMeta(replicas, item.identity, 0, clock, config.softPin, config.hardPin)];
    }

    /** Phase 1 of a put: allocate the replicas, not yet readable. */
    method PutStart(item: Item, config: Config) returns (r: Outcome<seq<Buffer>>, ghost path: seq<Change>)
      requires Valid()
      modifies Repr()
      ensures Valid() && segs.parts == old(segs.parts) && SameSettings()
      ensures Path(old(View()), path) && View() == Run(old(View()), path)
      ensures r == Err(ObjectAlreadyExists) <==> item.key in old(objects) && old(objects)[item.key].HasComplete()
      ensures r == Err(ObjectAlreadyExists) ==> path == []
      ensures r != Err(ObjectAlreadyExists) ==> PutSteps(old(View()), path, item, config, Rules(), r)
      ensures r.Err? && r.error != ObjectAlreadyExists ==>
        r.error == NoAvailableSegment && item.key !in objects && Short(Rules(), View().fleet, item.size, config.replicaNum)
      ensures r.Ok? ==> Placed(old(View()), View(), item, config, r.value)
      ensures NoneNewBut(old(View()), View(), item.key) && clock == old(clock) && SameSegments(old(View()).fleet, View().fleet)
      ensures LeasesKept(old(View()), View()) && PinsKept(old(View()), View(), item.key)
    {
      hide Inv, SegmentState.Valid, FleetOf, AllTakeable, HoldAll, ColdestGone, Evictions, Forget, Apply, Path, Run;
      hide LeasesKept, PinsKept, NoneNewBut, PutSteps, FreshReplicas, RoomMade, Needed, Short, Chosen;
      ghost var s0, policy := View(), Rules();
      var key := item.key;
      LeasedIsComplete(s0, key);
      if key in objects && objects[key].HasComplete() {
        NothingDone(s0, key);
        return Err(ObjectAlreadyExists), [];
      }
      if key in objects {
        Discard(key);
      }
      ghost var evs, extents;
      r, evs, extents := AllocateReplicas(item.size, config.replicaNum, config.preferred);
      PutEvicted(s0, key, evs);
      ghost var s2 := Run(Reclaimed(s0, key), evs);
      path := Reclaim(s0, key) + evs + PlaceOf(item, config, r, extents);
      if r.Err? {
        PutFailed(s0, item, config, policy, evs, r, extents);
        return;
      }
      Record(item, config, r.value);
      PutPlaced(s0, item, config, policy, evs, r, extents);
      ApplyInv(s2, PlaceOf(item, config, r, extents)[0]);
      TakenSizes(s2.fleet, r.value, extents, item.size);
      HoldAllSegments(s2.fleet, PlaceOf(item, config, r, extents)[0]);
    }

    // ---- reading ----

    /** Read path: the complete replicas on live segments, for the identity that wrote them, under a lease. */
    method GetReplicaList(key: string, requester: Identity) returns (r: Outcome<seq<Replica>>)
      requires Valid()
      modifies this`objects
      ensures Valid()
      ensures r.Err? ==> View() == old(View())
      ensures r.Ok? ==> Enabled(old(View()), Read(key)) && View() == Apply(old(View()), Read(key))
      ensures r.Ok? ==> old(objects)[key].identity == requester && r.value != []
      ensures r.Ok? ==> Lists(r.value, Readable(old(objects)[key].replicas, Alive(heartbeats, segmentTtl, clock)))
      ensures r.Err? ==> r.error == Refusal(objects, key, requester)
      ensures r == Err(ObjectNotFound) <==> key !in old(objects)
      ensures r.Err? && r.error.UnsafeReuse? <==> key in old(objects) && old(objects)[key].identity != requester
      ensures r == Err(ObjectNotReady) ==> Readable(objects[key].replicas, Alive(heartbeats, segmentTtl, clock)) == map[]
      ensures r.Ok? <==>
        && key in old(objects) && old(objects)[key].identity == requester
        && exists id :: id in old(objects)[key].replicas && Reachable(old(objects)[key].replicas[id], heartbeats, segmentTtl, clock)
      ensures r.Ok? ==> OnlyAt(old(objects), objects, key) && JustRead(old(objects)[key], objects[key], clock, leaseTtl)
      ensures r.Ok? ==> forall i :: 0 <= i < |r.value| ==>
        r.value[i].id in objects[key].replicas && objects[key].replicas[r.value[i].id] == r.value[i]
      ensures r.Ok? ==> forall id :: id in objects[key].replicas ==>
        (Reachable(objects[key].replicas[id], heartbeats, segmentTtl, clock) <==> exists i :: 0 <= i < |r.value| && r.value[i].id == id)
    {
      hide Inv, SegmentState.Valid, FleetOf, Alive, Readable, Reachable;
      var alive := Alive(heartbeats, segmentTtl, clock);
      if key !in objects {
        return Err(ObjectNotFound);
      }
      ReadableMeans(objects[key].replicas, heartbeats, segmentTtl, clock);
      assert Enabled(View(), Read(key)) || Readable(objects[key].replicas, alive) == map[] by { HasReadable(View(), key, alive); }
      var violation := objects[key].identity.ReuseViolation(requester);
      if violation.Some? {
        return Err(UnsafeReuse(violation.value));
      }
      ReplicaIds(View(), key);
      var complete := ListReplicas(Readable(objects[key].replicas, alive));
      if complete == [] {
        return Err(ObjectNotReady);
      }
      assert complete[0].id in Readable(objects[key].replicas, alive);
      ApplyInv(View(), Read(key));
      objects := objects[key := objects[key].(lastAccess := clock, leaseUntil := clock + leaseTtl)];
      r := Ok(complete);
    }

    method ExistKey(key: string) returns (b: bool)
      requires Valid()
      ensures b <==> key in objects && exists id :: id in objects[key].replicas && objects[key].replicas[id].status == Complete
    {
      b := key in objects && objects[key].HasComplete();
    }

    // ---- upsert and batches ----

    /** Write over a key: in place if the size is the same, refused while it is leased. */
    method UpsertStart(item: Item, config: Config) returns (r: Outcome<seq<Buffer>>, ghost path: seq<Change>)
      requires Valid()
      modifies Repr()
      ensures Valid() && segs.parts == old(segs.parts) && SameSettings()
      ensures Path(old(View()), path) && View() == Run(old(View()), path)
      ensures r == Err(ObjectNotReady) <==> item.key in old(objects) && old(objects)[item.key].leaseUntil > clock
      ensures r.Err? && r.error != ObjectNotReady ==> r.error == NoAvailableSegment && item.key !in objects
      ensures r == Err(ObjectNotReady) ==> path == []
      ensures r.Ok? && path == [Reopen(item.key, item.identity)] <==>
        item.key in old(objects) && old(objects)[item.key].HasComplete() && old(objects)[item.key].leaseUntil <= clock
          && SizeOf(old(objects)[item.key]) == item.size
      ensures r.Ok? && path == [Reopen(item.key, item.identity)] ==>
        && OnlyAt(old(objects), objects, item.key) && Rewriting(old(objects)[item.key], objects[item.key], item.identity, clock)
        && BufferList(r.value, objects[item.key].replicas)
      ensures r.Ok? && path != [Reopen(item.key, item.identity)] ==>
        Placed(old(View()), View(), item, config, r.value)
      ensures r.Ok? ==> SameSegments(old(View()).fleet, View().fleet)
      ensures r.Err? && r.error != ObjectNotReady ==> Short(Rules(), View().fleet, item.size, config.replicaNum)
      ensures clock == old(clock)
      ensures r != Err(ObjectNotReady) && path != [Reopen(item.key, item.identity)] ==>
        PutSteps(old(View()), path, item, config, Rules(), r)
      ensures NoneNewBut(old(View()), View(), item.key)
      ensures LeasesKept(old(View()), View()) && PinsKept(old(View()), View(), item.key)
    {
      hide Inv, SegmentState.Valid, FleetOf, Apply, Path, Run, PutSteps, LeasesKept;
      hide PinsKept, NoneNewBut, Placed, BufferList, SizeOf, OnlyAt, Rewriting, Short, SameSegments;
      ghost var s0 := View();
      var key := item.key;
      LeasedIsComplete(s0, key);
      if key !in objects || !objects[key].HasComplete() {
        r, path := PutStart(item, config);
        PutNotReopen(s0, path, item, config, Rules(), r);
        return;
      }
      if objects[key].leaseUntil > clock {
        NothingDone(s0, key);
        return Err(ObjectNotReady), [];
      }
      AnySize(s0, key);
      var some :| some in objects[key].replicas;
      if objects[key].replicas[some].Size() == item.size {
        var buffers := Reopened(item);
        ReopenPath(s0, item);
        SegmentsSame(s0.fleet);
        return Ok(buffers), [Reopen(key, item.identity)];
      }
      r, path := Replace(item, config);
      PutNotReopen(s0, path, item, config, Rules(), r);
    }

    /** Free the old version of an object and allocate anew. */
    method Replace(item: Item, config: Config) returns (r: Outcome<seq<Buffer>>, ghost path: seq<Change>)
      requires Valid() && item.key in objects && objects[item.key].leaseUntil <= clock
      modifies Repr()
      ensures Valid() && segs.parts == old(segs.parts) && SameSettings() && clock == old(clock)
      ensures Path(old(View()), path) && View() == Run(old(View()), path)
      ensures PutSteps(old(View()), path, item, config, Rules(), r)
      ensures r.Err? ==> r.error == NoAvailableSegment && item.key !in objects && Short(Rules(), View().fleet, item.size, config.replicaNum)
      ensures r.Ok? ==> Placed(old(View()), View(), item, config, r.value)
      ensures NoneNewBut(old(View()), View(), item.key) && SameSegments(old(View()).fleet, View().fleet)
      ensures LeasesKept(old(View()), View()) && PinsKept(old(View()), View(), item.key)
    {
      hide Inv, SegmentState.Valid, FleetOf, Apply, Path, Run, PutSteps, LeasesKept, PinsKept, NoneNewBut, FreshReplicas, Release, Short;
      ghost var s0 := View();
      ReleaseSegments(s0.fleet, BuffersOf(objects[item.key].replicas));
      Discard(item.key);
      r, path := PutStart(item, config);
      SegmentsChain(s0.fleet, Forget(s0, item.key).fleet, View().fleet);
      DropThenPut(s0, path, item, config, Rules(), r);
      KeptOver(s0, View(), item.key);
      path := [Drop(item.key)] + path;
    }

    /** Reopen an object in place for rewriting. */
    method Reopened(item: Item) returns (buffers: seq<Buffer>)
      requires Valid() && item.key in objects && objects[item.key].leaseUntil <= clock
      modifies this`objects
      ensures Valid() && View() == Apply(old(View()), Reopen(item.key, item.identity))
      ensures OnlyAt(old(objects), objects, item.key) && Rewriting(old(objects)[item.key], objects[item.key], item.identity, clock)
      ensures BufferList(buffers, objects[item.key].replicas)
    {
      hide Inv, SegmentState.Valid, FleetOf;
      var key := item.key;
      ghost var s0 := View();
      ApplyInv(View(), Reopen(key, item.identity));
      objects := objects[key := objects[key].(replicas := WithStatus(objects[key].replicas, Initialized),
        identity := item.identity, lastAccess := clock)];
      ReplicaIds(View(), key);
      AllInMemory(View(), key);
      var order := ListReplicas(objects[key].replicas);
      buffers := [];
      for i := 0 to |order|
        invariant |buffers| == i && forall j :: 0 <= j < i ==> order[j].data == Memory(buffers[j])
      {
        buffers := buffers + [order[i].data.buffer];
      }
    }

    /** Revoke the puts of `items`; those no longer there are skipped. */
    method RevokeAll(items: seq<Item>) returns (ghost path: seq<Change>)
      requires Valid()
      modifies Repr()
      ensures Valid() && segs.parts == old(segs.parts) && SameSettings() && clock == old(clock)
      ensures Path(old(View()), path) && View() == Run(old(View()), path)
      ensures objects == old(objects) - KeysOf(items) && Revokes(path, items)
    {
      hide Inv, SegmentState.Valid, FleetOf, Forget, Path, Run, KeysOf;
      ghost var s0 := View();
      path := [];
      NothingDone(s0, "");
      NoKeys(s0.objects, items);
      for i := 0 to |items|
        invariant Valid() && segs.parts == old(segs.parts) && SameSettings() && clock == s0.clock
        invariant Path(s0, path) && View() == Run(s0, path)
        invariant objects == s0.objects - KeysOf(items[..i]) && Revokes(path, items)
      {
        ghost var s1 := View();
        MoreKeys(s0.objects, items, i);
        ReclaimPath(s1, items[i].key);
        var r := PutRevoke(items[i].key);
        RunConcat(s0, path, Reclaim(s1, items[i].key));
        path := path + Reclaim(s1, items[i].key);
      }
      assert items[..|items|] == items;
    }

    /** Start many puts; a failure revokes those already started. */
    method BatchPutStart(items: seq<Item>, config: Config)
        returns (r: Outcome<seq<seq<Buffer>>>, ghost path: seq<Change>, ghost failed: nat, ghost started: seq<Change>, ghost put: seq<Change>)
      requires Valid()
      modifies Repr()
      ensures Valid() && segs.parts == old(segs.parts) && SameSettings()
      ensures Path(old(View()), path) && View() == Run(old(View()), path)
      ensures r.Ok? ==> |r.value| == |items| && forall i :: 0 <= i < |items| ==> |r.value[i]| == config.replicaNum
      ensures r.Ok? ==> BatchPlaced(View().objects, items, config, r.value) && SameSegments(old(View()).fleet, View().fleet)
      ensures r.Ok? ==> BatchSteps(old(View()), items, config, Rules(), path, r.value)
      ensures r.Err? ==> failed < |items| && forall i :: 0 <= i < failed ==> items[i].key !in objects
      ensures r.Err? ==> Path(old(View()), started) && exists out, undo ::
        && BatchSteps(old(View()), items[..failed], config, Rules(), started, out) && path == started + put + undo && Revokes(undo, items[..failed])
      ensures r.Err? ==> items[failed].key in objects ==> r.error == ObjectAlreadyExists && items[failed].key in old(objects)
      ensures r.Err? ==> r.error == ObjectAlreadyExists || r.error == NoAvailableSegment
      ensures r == Err(ObjectAlreadyExists) ==> put == [] && items[failed].key in old(objects) && old(objects)[items[failed].key].HasComplete()
      ensures r == Err(NoAvailableSegment) ==> Stopped(old(View()), Run(old(View()), started), put, items, failed, config, Rules())
      ensures NoneNewAmong(old(View()), View(), if r.Err? then [] else items)
      ensures LeasesKept(old(View()), View()) && PinsKeptBut(old(View()), View(), items)
    {
      hide Inv, SegmentState.Valid, FleetOf, Forget, Apply, Path, Run, PutSteps;
      hide LeasesKept, PinsKept, FreshReplicas, NoneNewAmong, NotLeased, BatchPlaced, NoneNewBut, Placed, PinsKeptBut;
      hide SameSegments, BatchSteps, Revokes;
      ghost var s0 := View();
      NoSteps(s0, items, config, Rules());
      var out: seq<seq<Buffer>> := [];
      path, failed, started, put := [], 0, [], [];
      NothingDone(s0, "");
      NoneNewStart(s0, items, config);
      PinsStart(s0, items);
      SegmentsSame(s0.fleet);
      for n := 0 to |items|
        invariant Valid() && segs.parts == old(segs.parts) && SameSettings()
        invariant Path(s0, path) && View() == Run(s0, path) && LeasesKept(s0, View())
        invariant BatchSteps(s0, items[..n], config, Rules(), path, out)
        invariant |out| == n && forall i :: 0 <= i < n ==> |out[i]| == config.replicaNum
        invariant NoneNewAmong(s0, View(), items[..n]) && BatchPlaced(View().objects, items[..n], config, out) && SameSegments(s0.fleet, View().fleet)
        invariant PinsKeptBut(s0, View(), items) && clock == s0.clock && forall i :: 0 <= i < n ==> NotLeased(s0, items[i].key)
      {
        ghost var s1 := View();
        var one, more := PutStart(items[n], config);
        RunConcat(s0, path, more);
        LeasesChain(s0, s1, View());
        PinsChain(s0, s1, View(), items, n);
        ghost var earlier := path;
        path := path + more;
        NewWith(s0, s1, View(), items, n);
        if one.Err? {
          NothingDone(s1, items[n].key);
          ghost var s2 := View();
          if one.error == ObjectAlreadyExists {
            WasComplete(s0, s1, items, n, config, out);
          } else {
            StoppedHere(s0, s1, s2, more, items, n, config, Rules(), out);
          }
          ghost var undo := RevokeAll(items[..n]);
          RunConcat(s0, path, undo);
          LeasesRevoked(s0, s2, View(), items[..n]);
          PinsRevoked(s0, s2, View(), items, n);
          NoneNewRevoked(s0, s1, s2, View(), items, n);
          assert BatchSteps(s0, items[..n], config, Rules(), earlier, out) && path + undo == earlier + more + undo && Revokes(undo, items[..n]);
          return Err(one.error), path + undo, n, earlier, more;
        }
        StillLeased(s0, s1, items[n].key);
        SegmentsChain(s0.fleet, s1.fleet, View().fleet);
        PlacedMore(s1, View(), items, n, config, out, one.value);
        MoreSteps(s0, items, n, config, Rules(), earlier, more, out, one.value);
        out := out + [one.value];
      }
      assert items[..|items|] == items;
      r := Ok(out);
    }
  }

  /**
    Write over a key, end, and read: the read succeeds exactly for the identity that
    wrote, and lists exactly the buffers the writer was given.
   */
  method WriteThenRead(m: MasterService, item: Item, config: Config, requester: Identity)
      returns (w: Outcome<seq<Buffer>>, r: Outcome<seq<Replica>>)
    requires m.Valid() && m.segmentTtl == 0 && m.heartbeats.Keys == m.segs.Fleet().Keys && config.replicaNum > 0
    modifies m.Repr()
    ensures m.Valid() && (w.Ok? ==> (r.Ok? <==> requester == item.identity))
    ensures w.Ok? && r.Ok? ==> forall b :: b in w.value <==> exists i :: 0 <= i < |r.value| && r.value[i].data == Memory(b)
  {
    hide Inv, SegmentState.Valid, FleetOf, Apply, Path, Run, PutSteps, Short, LeasesKept, PinsKept, NoneNewBut, Lists;
    hide Alive, Readable, Rewriting, Placed;
    hide SameSegments, Reachable, Ended, JustRead, BufferList;
    ghost var s0, h0 := m.View(), m.heartbeats;
    ghost var path;
    w, path := m.UpsertStart(item, config);
    r := Err(ObjectNotFound);
    if w.Err? {
      return;
    }
    ghost var s1 := m.View();
    Opened(s0, s1, item, config, w.value, path);
    var _, commit := m.PutEnd(item.key);
    ghost var s2 := m.View();
    EndedReaches(s1, s2, h0, item.key, w.value);
    r := m.GetReplicaList(item.key, requester);
    if r.Ok? { ListsBuffers(s2.objects[item.key], m.objects[item.key], h0, m.clock, m.leaseTtl, r.value, w.value); }
  }

  /** What is open for writing after the start of an upsert: the key's object, for its writer, in the buffers handed out. */
  ghost predicate OpenFor(o: ObjectMeta, who: Identity, buffers: seq<Buffer>) {
    o.identity == who && o.replicas != map[] && forall b :: b in buffers <==> exists id :: id in o.replicas && o.replicas[id].data == Memory(b)
  }

  lemma {:induction false} Opened(s: State, t: State, item: Item, config: Config, buffers: seq<Buffer>, path: seq<Change>)
    requires Inv(t) && config.replicaNum > 0
    requires path == [Reopen(item.key, item.identity)] ==>
      && item.key in s.objects && s.objects[item.key].HasComplete() && OnlyAt(s.objects, t.objects, item.key)
      && Rewriting(s.objects[item.key], t.objects[item.key], item.identity, t.clock) && BufferList(buffers, t.objects[item.key].replicas)
    requires path != [Reopen(item.key, item.identity)] ==> Placed(s, t, item, config, buffers)
    requires SameSegments(s.fleet, t.fleet)
    ensures item.key in t.objects && OpenFor(t.objects[item.key], item.identity, buffers) && t.fleet.Keys == s.fleet.Keys
  {
    hide Inv;
    if path == [Reopen(item.key, item.identity)] {
      ListedOpen(t.objects[item.key].replicas, buffers);
    } else {
      FreshOpen(buffers, s.nextId);
    }
  }

  lemma ListedOpen(replicas: ReplicaList, buffers: seq<Buffer>)
    requires BufferList(buffers, replicas)
    ensures forall b :: b in buffers <==> exists id :: id in replicas && replicas[id].data == Memory(b)
  {
    var order: seq<Replica> :| Lists(order, replicas) && |order| == |buffers| && forall i :: 0 <= i < |order| ==> order[i].data == Memory(buffers[i]);
    forall b | b in buffers ensures exists id :: id in replicas && replicas[id].data == Memory(b) {
      var i :| 0 <= i < |buffers| && buffers[i] == b;
      assert replicas[order[i].id] == order[i];
    }
    forall id | id in replicas ensures exists i :: 0 <= i < |buffers| && replicas[id].data == Memory(buffers[i]) {
      var i :| 0 <= i < |order| && order[i].id == id;
      assert replicas[id].data == Memory(buffers[i]);
    }
  }

  lemma FreshOpen(buffers: seq<Buffer>, nextId: nat)
    ensures var rs := FreshReplicas(buffers, nextId);
      (buffers != [] ==> rs != map[]) && forall b :: b in buffers <==> exists id :: id in rs && rs[id].data == Memory(b)
  {
    var rs := FreshReplicas(buffers, nextId);
    forall i | 0 <= i < |buffers| ensures nextId + i in rs && rs[nextId + i].data == Memory(buffers[i]) {
      assert rs[nextId + i] == FreshReplica(buffers, nextId, nextId + i);
    }
    if buffers != [] { assert nextId + 0 in rs; }
    forall id | id in rs ensures rs[id].data == Memory(buffers[id - nextId]) {
      assert rs[id] == FreshReplica(buffers, nextId, id);
    }
  }

  /** Once ended, every replica of it can be reached. */
  lemma {:induction false} EndedReaches(s: State, t: State, heartbeats: map<string, nat>, key: string, buffers: seq<Buffer>)
    requires Inv(t) && t.fleet == s.fleet && heartbeats.Keys == t.fleet.Keys && key in s.objects && key in t.objects
    requires Ended(s.objects[key], t.objects[key])
    requires OpenFor(s.objects[key], s.objects[key].identity, buffers)
    ensures OpenFor(t.objects[key], s.objects[key].identity, buffers)
    ensures forall id :: id in t.objects[key].replicas ==> Reachable(t.objects[key].replicas[id], heartbeats, 0, t.clock)
    ensures exists id :: id in t.objects[key].replicas && Reachable(t.objects[key].replicas[id], heartbeats, 0, t.clock)
  {
    StillOpen(s.objects[key], t.objects[key], buffers);
    AllReach(t, heartbeats, key);
    hide Inv, Reachable;
    var some :| some in t.objects[key].replicas;
  }

  lemma StillOpen(o: ObjectMeta, p: ObjectMeta, buffers: seq<Buffer>)
    requires Ended(o, p) && OpenFor(o, o.identity, buffers)
    ensures OpenFor(p, o.identity, buffers)
  {
    var some :| some in o.replicas;
    assert some in p.replicas;
    forall b | b in buffers ensures exists id :: id in p.replicas && p.replicas[id].data == Memory(b) {
      var id :| id in o.replicas && o.replicas[id].data == Memory(b);
      assert id in p.replicas;
    }
    forall id | id in p.replicas && p.replicas[id].data.Memory? ensures p.replicas[id].data.buffer in buffers {
      assert o.replicas[id].data == Memory(p.replicas[id].data.buffer);
    }
  }

  lemma AllReach(s: State, heartbeats: map<string, nat>, key: string)
    requires Inv(s) && heartbeats.Keys == s.fleet.Keys && key in s.objects && forall id :: id in s.objects[key].replicas ==>
      s.objects[key].replicas[id].status == Complete
    ensures forall id :: id in s.objects[key].replicas ==> Reachable(s.objects[key].replicas[id], heartbeats, 0, s.clock)
  {
    var o := s.objects[key];
    assert ReplicasOk(o.replicas, s.nextId) && Backed(s.objects, s.fleet);
    hide Inv;
    forall id | id in o.replicas ensures Reachable(o.replicas[id], heartbeats, 0, s.clock) {
      assert BufferHeld(o.replicas[id].data.buffer, s.fleet);
    }
  }

  lemma {:induction false} ListsBuffers(o: ObjectMeta, p: ObjectMeta, heartbeats: map<string, nat>, clock: nat,
      ttl: nat, list: seq<Replica>, buffers: seq<Buffer>)
    requires OpenFor(o, o.identity, buffers) && JustRead(o, p, clock, ttl)
    requires forall id :: id in o.replicas ==> Reachable(o.replicas[id], heartbeats, 0, clock)
    requires forall i :: 0 <= i < |list| ==> list[i].id in p.replicas && p.replicas[list[i].id] == list[i]
    requires forall id :: id in p.replicas ==> (Reachable(p.replicas[id], heartbeats, 0, clock) <==> exists i :: 0 <= i < |list| && list[i].id == id)
    ensures forall b :: b in buffers <==> exists i :: 0 <= i < |list| && list[i].data == Memory(b)
  {
    hide Reachable;
    forall b | b in buffers ensures exists i :: 0 <= i < |list| && list[i].data == Memory(b) {
      var id :| id in o.replicas && o.replicas[id].data == Memory(b);
      var i :| 0 <= i < |list| && list[i].id == id;
    }
    forall i | 0 <= i < |list| && list[i].data.Memory? ensures list[i].data.buffer in buffers {
      assert o.replicas[list[i].id].data == Memory(list[i].data.buffer);
    }
  }

  // ---- where puts go ----

  /** A preferred segment that has room once the evictions are done gets the first replica. */
  lemma {:induction false} PreferredGets(s: State, path: seq<Change>, item: Item, config: Config, policy: Policy, r: Outcome<seq<Buffer>>, p: string)
    requires Inv(s) && PutSteps(s, path, item, config, policy, r) && Path(s, path) && r.Ok? && config.preferred == Some(p) && config.replicaNum > 0
    requires Distinct(policy.mounted) && p in policy.mounted
    ensures path != [] && Path(s, path[..|path| - 1])
    ensures var f := Run(s, path[..|path| - 1]).fleet; p in f && HasRoom(f[p], item.size) ==> r.value[0].segment == p
  {
    hide Inv, ColdestGone, RoomMade, Evictions, Forget, Chosen, HasRoom, Path, Run, Apply;
    var evs, extents :| PutBy(s, path, item, config, policy, r, evs, extents);
    var before := Reclaim(s, item.key) + evs;
    assert path[..|path| - 1] == before;
    ReclaimPath(s, item.key);
    RunConcat(s, Reclaim(s, item.key), evs);
    RunInv(s, before);
    var t := Run(s, before);
    if p in t.fleet && HasRoom(t.fleet[p], item.size) {
      var views := ViewsOf(t.fleet, policy.mounted);
      RightNames(t, policy.mounted);
      var i :| 0 <= i < |policy.mounted| && policy.mounted[i] == p;
      assert i in Serving(views, item.size, {});
      PreferredServed(policy.strategy, views, item.size, {}, p, r.value, i);
    }
  }

  lemma RightNames(s: State, names: seq<string>)
    requires Inv(s) && Distinct(names)
    ensures UniqueNames(ViewsOf(s.fleet, names)) && Names(ViewsOf(s.fleet, names)) == names
  {
    assert FleetOk(s.fleet);
    hide Inv;
    forall i | 0 <= i < |names| ensures ViewsOf(s.fleet, names)[i].name == names[i] {
    }
  }

  ghost function KeysOf(items: seq<Item>): set<string> {
    set i | 0 <= i < |items| :: items[i].key
  }

  /** Every object there now, but for those of `items`, was there before, unchanged. */
  ghost predicate NoneNewAmong(s: State, t: State, items: seq<Item>) {
    forall k :: k in t.objects && k !in KeysOf(items) ==> k in s.objects && t.objects[k] == s.objects[k]
  }

  /** What a put entered: fresh replicas, in order, on the buffers it returned. */
  ghost predicate EnteredOn(o: ObjectMeta, item: Item, config: Config, buffers: seq<Buffer>) {
    && o.identity == item.identity && o.softPinned == config.softPin && o.hardPinned == config.hardPin && o.leaseUntil == 0
    && (exists id :: o.replicas == FreshReplicas(buffers, id)) && forall i :: 0 <= i < |buffers| ==> buffers[i].size == item.size
  }

  /** Each key still there is as its last item entered it; hard-pinned, none of them has gone. */
  ghost predicate BatchPlaced(objects: map<string, ObjectMeta>, items: seq<Item>, config: Config, out: seq<seq<Buffer>>) {
    |out| == |items| && forall i :: 0 <= i < |items| && LastOfKey(items, i) ==>
      && (config.hardPin || i == |items| - 1 ==> items[i].key in objects)
      && (items[i].key in objects ==> EnteredOn(objects[items[i].key], items[i], config, out[i]))
  }

  ghost predicate LastOfKey(items: seq<Item>, i: nat)
    requires i < |items|
  {
    forall j :: i < j < |items| ==> items[j].key != items[i].key
  }

  /** Only drops of the items' keys. */
  ghost predicate Revokes(path: seq<Change>, items: seq<Item>) {
    forall i :: 0 <= i < |path| ==> path[i].Drop? && exists j :: 0 <= j < |items| && items[j].key == path[i].key
  }

  /** The steps of a batch: those of the put of each item, one after the other. */
  ghost predicate BatchSteps(s: State, items: seq<Item>, config: Config, policy: Policy, path: seq<Change>, out: seq<seq<Buffer>>)
    decreases |items|
  {
    |out| == |items| &&
    if items == [] then path == []
    else
      var n := |items| - 1;
      exists a, b :: path == a + b && Path(s, a) && BatchSteps(s, items[..n], config, policy, a, out[..n])
        && PutSteps(Run(s, a), b, items[n], config, policy, Ok(out[n]))
  }

  lemma {:induction false} NoSteps(s: State, items: seq<Item>, config: Config, policy: Policy)
    ensures BatchSteps(s, items[..0], config, policy, [], []) && Revokes([], items)
  {
  }

  lemma {:induction false} MoreSteps(s: State, items: seq<Item>, n: nat, config: Config, policy: Policy, a: seq<Change>, b: seq<Change>,
      out: seq<seq<Buffer>>, one: seq<Buffer>)
    requires n < |items| && Path(s, a) && BatchSteps(s, items[..n], config, policy, a, out)
    requires PutSteps(Run(s, a), b, items[n], config, policy, Ok(one))
    ensures BatchSteps(s, items[..n + 1], config, policy, a + b, out + [one])
  {
    hide Path, Run, PutSteps;
    assert |out| == n;
    assert items[..n + 1][..n] == items[..n] && (out + [one])[..n] == out;
  }

  /** Where a batch stopped: the items before the nth were placed, and its put found no room although it evicted what it could. */
  ghost predicate Stopped(s: State, t: State, put: seq<Change>, items: seq<Item>, n: nat, config: Config, policy: Policy) {
    && n < |items| && Inv(t) && t.clock == s.clock && NoneNewAmong(s, t, items[..n]) && SameSegments(s.fleet, t.fleet)
    && (exists out :: BatchPlaced(t.objects, items[..n], config, out) && forall i :: 0 <= i < n ==> |out[i]| == config.replicaNum)
    && PutSteps(t, put, items[n], config, policy, Err(NoAvailableSegment)) && Path(t, put)
    && NoRoomAfter(t, Run(t, put), items[n], config, policy)
  }

  /** What a put that found no room leaves. */
  ghost predicate NoRoomAfter(t: State, u: State, item: Item, config: Config, policy: Policy) {
    && Inv(u) && NoneNewBut(t, u, item.key) && item.key !in u.objects && SameSegments(t.fleet, u.fleet)
    && Short(policy, u.fleet, item.size, config.replicaNum)
  }

  lemma {:induction false} StoppedHere(s: State, t: State, u: State, put: seq<Change>, items: seq<Item>, n: nat, config: Config, policy: Policy,
                                       out: seq<seq<Buffer>>)
    requires n < |items| && Inv(t) && t.clock == s.clock && NoneNewAmong(s, t, items[..n]) && SameSegments(s.fleet, t.fleet)
    requires BatchPlaced(t.objects, items[..n], config, out) && forall i :: 0 <= i < n ==> |out[i]| == config.replicaNum
    requires PutSteps(t, put, items[n], config, policy, Err(NoAvailableSegment)) && Path(t, put) && u == Run(t, put)
    requires NoRoomAfter(t, u, items[n], config, policy)
    ensures Stopped(s, t, put, items, n, config, policy)
  {
    hide Inv, NoneNewAmong, SameSegments, BatchPlaced, PutSteps, Path, Run, NoRoomAfter;
  }

  /** A complete object in the way of an item was there before the batch. */
  lemma {:induction false} WasComplete(s: State, t: State, items: seq<Item>, n: nat, config: Config, out: seq<seq<Buffer>>)
    requires n < |items| && NoneNewAmong(s, t, items[..n]) && BatchPlaced(t.objects, items[..n], config, out)
    requires items[n].key in t.objects && t.objects[items[n].key].HasComplete()
    ensures items[n].key in s.objects && s.objects[items[n].key].HasComplete()
  {
    if items[n].key in KeysOf(items[..n]) { NotComplete(t.objects, items[..n], items[n].key, config, out); }
  }

  lemma {:induction false} NotComplete(objects: map<string, ObjectMeta>, items: seq<Item>, key: string, config: Config, out: seq<seq<Buffer>>)
    requires BatchPlaced(objects, items, config, out) && key in KeysOf(items) && key in objects
    ensures !objects[key].HasComplete()
  {
    var i := LastIndex(items, key);
    assert EnteredOn(objects[key], items[i], config, out[i]);
  }

  lemma {:induction false} LastIndex(items: seq<Item>, key: string) returns (i: nat)
    requires key in KeysOf(items)
    ensures i < |items| && items[i].key == key && LastOfKey(items, i)
  {
    i := |items| - 1;
    while items[i].key != key
      invariant i < |items| && (exists j :: 0 <= j <= i && items[j].key == key) && forall j :: i < j < |items| ==> items[j].key != key
      decreases i
    {
      i := i - 1;
    }
  }

  lemma PlacedMore(s: State, t: State, items: seq<Item>, n: nat, config: Config, out: seq<seq<Buffer>>, buffers: seq<Buffer>)
    requires n < |items| && BatchPlaced(s.objects, items[..n], config, out) && Placed(s, t, items[n], config, buffers)
    requires NoneNewBut(s, t, items[n].key) && PinsKept(s, t, items[n].key)
    ensures BatchPlaced(t.objects, items[..n + 1], config, out + [buffers]) && |buffers| == config.replicaNum
  {
    hide FreshReplicas;
    var now := items[..n + 1];
    forall i | 0 <= i < n + 1 && LastOfKey(now, i)
      ensures (config.hardPin || i == n ==> now[i].key in t.objects)
      ensures now[i].key in t.objects ==> EnteredOn(t.objects[now[i].key], now[i], config, (out + [buffers])[i])
    {
      if i < n {
        assert now[n].key != now[i].key;
        assert forall j :: i < j < n ==> now[j] == items[..n][j];
        assert LastOfKey(items[..n], i);
      }
    }
  }

  lemma SegmentsSame(f: map<string, Segment>)
    ensures SameSegments(f, f)
  {
  }

  lemma SegmentsChain(f: map<string, Segment>, g: map<string, Segment>, h: map<string, Segment>)
    requires SameSegments(f, g) && SameSegments(g, h)
    ensures SameSegments(f, h)
  {
  }

  /** Hard-pinned objects outside the batch are as they were. */
  ghost predicate PinsKeptBut(s: State, t: State, items: seq<Item>) {
    forall k :: k in s.objects && s.objects[k].hardPinned && k !in KeysOf(items) ==> k in t.objects && t.objects[k] == s.objects[k]
  }

  lemma PinsStart(s: State, items: seq<Item>)
    ensures PinsKeptBut(s, s, items)
  {
  }

  lemma PinsChain(s: State, t: State, u: State, items: seq<Item>, n: nat)
    requires n < |items| && PinsKeptBut(s, t, items) && PinsKept(t, u, items[n].key)
    ensures PinsKeptBut(s, u, items)
  {
    assert items[n].key in KeysOf(items);
  }

  lemma PinsRevoked(s: State, t: State, u: State, items: seq<Item>, n: nat)
    requires n < |items| && PinsKeptBut(s, t, items) && u.objects == t.objects - KeysOf(items[..n])
    ensures PinsKeptBut(s, u, items)
  {
    forall k | k in KeysOf(items[..n]) ensures k in KeysOf(items) {
      var i :| 0 <= i < n && items[..n][i].key == k;
      assert items[i].key == k;
    }
  }

  lemma NoneNewStart(s: State, items: seq<Item>, config: Config)
    ensures NoneNewAmong(s, s, items[..0]) && BatchPlaced(s.objects, items[..0], config, [])
  {
  }

  lemma NewWith(s: State, t: State, u: State, items: seq<Item>, n: nat)
    requires n < |items| && NoneNewAmong(s, t, items[..n]) && NoneNewBut(t, u, items[n].key)
    ensures NoneNewAmong(s, u, items[..n + 1])
  {
    MoreKeys(u.objects, items, n);
    MoreKeys(t.objects, items, n);
    forall k | k in u.objects && k !in KeysOf(items[..n + 1]) ensures k in s.objects && u.objects[k] == s.objects[k] {
      assert k in u.objects - KeysOf(items[..n + 1]);
      assert k in t.objects - KeysOf(items[..n]);
    }
  }

  lemma NoneNewRevoked(s: State, t: State, u: State, v: State, items: seq<Item>, n: nat)
    requires n < |items| && NoneNewAmong(s, t, items[..n]) && NoneNewBut(t, u, items[n].key)
    requires items[n].key in u.objects ==> u == t
    requires v.objects == u.objects - KeysOf(items[..n])
    ensures NoneNewAmong(s, v, [])
    ensures items[n].key in v.objects ==> items[n].key in s.objects
    ensures forall i :: 0 <= i < n ==> items[i].key !in v.objects
  {
    forall i | 0 <= i < n ensures items[i].key !in v.objects { assert items[..n][i].key in KeysOf(items[..n]); }
  }

  lemma NoKeys(objects: map<string, ObjectMeta>, items: seq<Item>)
    ensures objects - KeysOf(items[..0]) == objects
  {
  }

  lemma MoreKeys(objects: map<string, ObjectMeta>, items: seq<Item>, i: nat)
    requires i < |items|
    ensures objects - KeysOf(items[..i + 1]) == objects - KeysOf(items[..i]) - {items[i].key}
  {
    assert KeysOf(items[..i + 1]) == KeysOf(items[..i]) + {items[i].key} by {
      assert items[..i + 1] == items[..i] + [items[i]];
      forall k | k in KeysOf(items[..i]) ensures k in KeysOf(items[..i + 1]) {
        var j :| 0 <= j < i && items[..i][j].key == k;
        assert items[..i + 1][j].key == k;
      }
      assert items[..i + 1][i].key in KeysOf(items[..i + 1]);
    }
  }

  ghost predicate NotLeased(s: State, key: string) {
    key in s.objects ==> s.objects[key].leaseUntil <= s.clock
  }

  lemma LeasesChain(s: State, t: State, u: State)
    requires LeasesKept(s, t) && LeasesKept(t, u) && t.clock == s.clock
    ensures LeasesKept(s, u)
  {
  }

  lemma StillLeased(s: State, t: State, key: string)
    requires Inv(t) && LeasesKept(s, t) && t.clock == s.clock && !(key in t.objects && t.objects[key].HasComplete())
    ensures NotLeased(s, key)
  {
    hide Inv;
    LeasedIsComplete(t, key);
  }

  lemma LeasesRevoked(s: State, t: State, u: State, items: seq<Item>)
    requires LeasesKept(s, t) && u.objects == t.objects - KeysOf(items) && forall i :: 0 <= i < |items| ==> NotLeased(s, items[i].key)
    ensures LeasesKept(s, u)
  {
  }

  /** The size of an object: all its replicas agree on it. */
  ghost function SizeOf(o: ObjectMeta): nat {
    if o.replicas == map[] then 0 else
    var id :| id in o.replicas;
    o.replicas[id].Size()
  }

  lemma AnySize(s: State, key: string)
    requires Inv(s) && key in s.objects && s.objects[key].HasComplete()
    ensures exists id :: id in s.objects[key].replicas
    ensures forall id :: id in s.objects[key].replicas ==> s.objects[key].replicas[id].Size() == SizeOf(s.objects[key])
  {
    assert ReplicasOk(s.objects[key].replicas, s.nextId);
  }

  lemma AllInMemory(s: State, key: string)
    requires Inv(s) && key in s.objects
    ensures forall id :: id in s.objects[key].replicas ==> s.objects[key].replicas[id].data.Memory?
  {
    assert ReplicasOk(s.objects[key].replicas, s.nextId);
  }

  lemma {:induction false} ReopenPath(s: State, item: Item)
    requires item.key in s.objects && s.objects[item.key].leaseUntil <= s.clock
    ensures var c := Reopen(item.key, item.identity);
      && Path(s, [c]) && Run(s, [c]) == Apply(s, c)
      && NoneNewBut(s, Apply(s, c), item.key) && LeasesKept(s, Apply(s, c)) && PinsKept(s, Apply(s, c), item.key)
  {
    var c := Reopen(item.key, item.identity);
    assert Path(Apply(s, c), [c][1..]);
  }

  lemma {:induction false} PutNotReopen(s: State, path: seq<Change>, item: Item, config: Config, policy: Policy, r: Outcome<seq<Buffer>>)
    requires PutSteps(s, path, item, config, policy, r)
    ensures path != [Reopen(item.key, item.identity)]
  {
    hide ColdestGone, Path, Run, Forget, Apply, RoomMade, Decided;
    var evs, extents :| PutBy(s, path, item, config, policy, r, evs, extents);
    assert item.key in s.objects ==> path[0] == Drop(item.key);
    assert item.key !in s.objects && evs != [] ==> path[0] == evs[0];
    assert item.key !in s.objects && evs == [] ==> path == PlaceOf(item, config, r, extents);
  }

  /** Dropping the old version and then putting is the put that reclaims it. */
  lemma {:induction false} DropThenPut(s: State, path: seq<Change>, item: Item, config: Config, policy: Policy, r: Outcome<seq<Buffer>>)
    requires item.key in s.objects && s.objects[item.key].leaseUntil <= s.clock
    requires PutSteps(Forget(s, item.key), path, item, config, policy, r) && Path(Forget(s, item.key), path)
    ensures PutSteps(s, [Drop(item.key)] + path, item, config, policy, r)
    ensures Path(s, [Drop(item.key)] + path) && Run(s, [Drop(item.key)] + path) == Run(Forget(s, item.key), path)
  {
    hide ColdestGone, Evictions, Forget, PlaceOf, RoomMade, Decided;
    ReclaimPath(s, item.key);
    var s1 := Forget(s, item.key);
    var evs, extents :| PutBy(s1, path, item, config, policy, r, evs, extents);
    hide Path, Run;
    assert PutBy(s, [Drop(item.key)] + path, item, config, policy, r, evs, extents);
    RunConcat(s, [Drop(item.key)], path);
  }

  lemma KeptOver(s: State, t: State, key: string)
    requires key in s.objects && s.objects[key].leaseUntil <= s.clock
    requires NoneNewBut(Forget(s, key), t, key) && LeasesKept(Forget(s, key), t) && PinsKept(Forget(s, key), t, key)
    ensures NoneNewBut(s, t, key) && LeasesKept(s, t) && PinsKept(s, t, key)
  {
    hide Release;
  }

  lemma {:induction false} NothingDone(s: State, key: string)
    ensures Path(s, []) && Run(s, []) == s && NoneNewBut(s, s, key) && LeasesKept(s, s) && PinsKept(s, s, key)
  {
  }

  /** After the reclaiming and the evictions of a put. */
  lemma {:induction false} PutEvicted(s: State, key: string, evs: seq<Change>)
    requires Evictions(Reclaimed(s, key), evs) && Path(Reclaimed(s, key), evs)
    requires key in s.objects ==> s.objects[key].leaseUntil <= s.clock
    ensures Path(s, Reclaim(s, key) + evs) && Run(s, Reclaim(s, key) + evs) == Run(Reclaimed(s, key), evs)
    ensures var t := Run(Reclaimed(s, key), evs);
      && key !in t.objects && t.nextId == s.nextId && t.clock == s.clock && SameSegments(s.fleet, t.fleet)
      && NoneNewBut(s, t, key) && LeasesKept(s, t) && PinsKept(s, t, key)
  {
    hide Evictions, Forget, Apply, Path, Run;
    ReclaimPath(s, key);
    EvictionsPath(Reclaimed(s, key), evs);
    EvictionsKeep(Reclaimed(s, key), evs, key);
    RunConcat(s, Reclaim(s, key), evs);
  }

  lemma {:induction false} PutFailed(s: State, item: Item, config: Config, policy: Policy, evs: seq<Change>,
      r: Outcome<seq<Buffer>>, extents: seq<nat>)
    requires Evictions(Reclaimed(s, item.key), evs) && Path(Reclaimed(s, item.key), evs)
    requires RoomMade(Reclaimed(s, item.key), evs, policy, item.size, config.replicaNum)
    requires Decided(Run(Reclaimed(s, item.key), evs).fleet, item, config, policy, r)
    requires ColdestGone(Reclaimed(s, item.key), Run(Reclaimed(s, item.key), evs)) && r.Err?
    ensures var path := Reclaim(s, item.key) + evs + PlaceOf(item, config, r, extents);
      PutSteps(s, path, item, config, policy, r) && path == Reclaim(s, item.key) + evs
  {
    hide Evictions, Forget, Apply, Path, Run, ColdestGone, RoomMade, Decided;
    assert PutBy(s, Reclaim(s, item.key) + evs + PlaceOf(item, config, r, extents), item, config, policy, r, evs, extents);
  }

  lemma {:induction false} PutPlaced(s: State, item: Item, config: Config, policy: Policy, evs: seq<Change>,
      r: Outcome<seq<Buffer>>, extents: seq<nat>)
    requires Evictions(Reclaimed(s, item.key), evs) && Path(Reclaimed(s, item.key), evs)
    requires RoomMade(Reclaimed(s, item.key), evs, policy, item.size, config.replicaNum)
    requires Decided(Run(Reclaimed(s, item.key), evs).fleet, item, config, policy, r)
    requires ColdestGone(Reclaimed(s, item.key), Run(Reclaimed(s, item.key), evs)) && r.Ok?
    requires Path(s, Reclaim(s, item.key) + evs) && Run(s, Reclaim(s, item.key) + evs) == Run(Reclaimed(s, item.key), evs)
    requires var t := Run(Reclaimed(s, item.key), evs);
      && item.key !in t.objects && AllTakeable(t.fleet, r.value, extents, item.size)
      && NoneNewBut(s, t, item.key) && LeasesKept(s, t) && PinsKept(s, t, item.key)
    requires item.key in s.objects ==> s.objects[item.key].leaseUntil <= s.clock
    ensures var t := Run(Reclaimed(s, item.key), evs);
      var path := Reclaim(s, item.key) + evs + PlaceOf(item, config, r, extents);
      var place := Place(item.key, item.identity, item.size, r.value, extents, config.softPin, config.hardPin);
      && Enabled(t, place) && PutSteps(s, path, item, config, policy, r) && Path(s, path) && Run(s, path) == Apply(t, place)
      && NoneNewBut(s, Apply(t, place), item.key) && LeasesKept(s, Apply(t, place)) && PinsKept(s, Apply(t, place), item.key)
      && Apply(t, place) == t.(
        objects := t.objects[item.key := ObjectMeta(FreshReplicas(r.value, t.nextId), item.identity, 0, t.clock, config.softPin, config.hardPin)],
        fleet := HoldAll(t.fleet, r.value, extents),
        nextId := t.nextId + |r.value|)
  {
    hide Evictions, Forget, Apply, Path, Run, ColdestGone, RoomMade, Decided, FreshReplicas, HoldAll, AllTakeable, Reclaim, Reclaimed;
    assert PutBy(s, Reclaim(s, item.key) + evs + PlaceOf(item, config, r, extents), item, config, policy, r, evs, extents);
    var t := Run(Reclaimed(s, item.key), evs);
    var place := Place(item.key, item.identity, item.size, r.value, extents, config.softPin, config.hardPin);
    PlaceApplied(t, place);
    RunConcat(s, Reclaim(s, item.key) + evs, [place]);
  }

  lemma HasReadable(s: State, key: string, alive: set<string>)
    requires key in s.objects
    ensures Enabled(s, Read(key)) || Readable(s.objects[key].replicas, alive) == map[]
  {
    if id :| id in Readable(s.objects[key].replicas, alive) { assert s.objects[key].replicas[id].status == Complete; }
  }

  lemma ReplicaIds(s: State, key: string)
    requires Inv(s) && key in s.objects
    ensures forall id :: id in s.objects[key].replicas ==> s.objects[key].replicas[id].id == id
  {
  }

  /** The replicas of a list in some order. */
  method ListReplicas(replicas: ReplicaList) returns (order: seq<Replica>)
    requires forall id :: id in replicas ==> replicas[id].id == id
    ensures Lists(order, replicas)
  {
    order := [];
    var rest := replicas.Keys;
    assert replicas - rest == map[];
    while rest != {}
      invariant rest <= replicas.Keys && Lists(order, replicas - rest)
    {
      var id :| id in rest;
      ListsAdd(order, replicas - rest, replicas[id]);
      assert replicas - (rest - {id}) == (replicas - rest)[id := replicas[id]];
      order := order + [replicas[id]];
      rest := rest - {id};
    }
    assert replicas - rest == replicas;
  }

  lemma ListsAdd(order: seq<Replica>, replicas: ReplicaList, r: Replica)
    requires Lists(order, replicas) && r.id !in replicas
    ensures Lists(order + [r], replicas[r.id := r])
  {
    var order', replicas' := order + [r], replicas[r.id := r];
    forall id | id in replicas' ensures exists i :: 0 <= i < |order'| && order'[i].id == id {
      if id == r.id {
        assert order'[|order|].id == id;
      } else {
        var i :| 0 <= i < |order| && order[i].id == id;
        assert order'[i].id == id;
      }
    }
  }

  lemma {:induction false} NoRemovals(s: State, victims: seq<string>)
    ensures Path(s, Removals(victims[..0])) && Run(s, Removals(victims[..0])) == s
  {
  }

  lemma {:induction false} VictimsNext(s: State, victims: seq<string>, i: nat)
    requires Victims(s, victims) && i < |victims| && Path(s, Removals(victims[..i]))
    ensures victims[i] in Run(s, Removals(victims[..i])).objects
    ensures Path(s, Removals(victims[..i + 1]))
    ensures Run(s, Removals(victims[..i + 1])) == Apply(Run(s, Removals(victims[..i])), Remove(victims[i]))
  {
    hide Apply;
    VictimsGone(s, victims, i);
    assert victims[..i + 1][..i] == victims[..i];
    TakeOne(s.objects, victims, i + 1);
    EvictionsSnoc(s, Removals(victims[..i]), victims[i]);
  }

  lemma {:induction false} PassDone(s: State, victims: seq<string>, n: nat, limit: int)
    requires Victims(s, victims) && n <= |victims| && Path(s, Removals(victims[..n]))
    requires AllocatedSum(Run(s, Removals(victims[..n])).fleet) <= limit || n == |victims|
    requires forall i :: 0 <= i < n ==> Path(s, Removals(victims[..i])) && AllocatedSum(Run(s, Removals(victims[..i])).fleet) > limit
    ensures EvictedTo(s, Removals(victims[..n]), limit) && |Removals(victims[..n])| == n
  {
    hide Apply, Victims, ColdestGone, NoneEvictable, AllocatedSum, Removals;
    var cs := Removals(victims[..n]);
    VictimsGone(s, victims, n);
    VictimsColdest(s, victims, n);
    RemovalsAt(victims[..n], n);
    forall i | 0 <= i < |cs| ensures Path(s, cs[..i]) && AllocatedSum(Run(s, cs[..i]).fleet) > limit {
      RemovalsAt(victims[..n], i);
      assert victims[..n][..i] == victims[..i];
    }
  }

  /** A leased object can be read, so no put may take its place. */
  lemma LeasedIsComplete(s: State, key: string)
    requires Inv(s)
    ensures key in s.objects && s.objects[key].leaseUntil > s.clock ==> s.objects[key].HasComplete()
  {
    if key in s.objects && s.objects[key].leaseUntil > s.clock {
      assert LeaseOk(s.objects[key], s.clock);
      var id :| id in s.objects[key].replicas;
      assert s.objects[key].replicas[id].status == Complete;
    }
  }

  lemma {:induction false} ReclaimPath(s: State, key: string)
    ensures Path(s, Reclaim(s, key)) && Run(s, Reclaim(s, key)) == Reclaimed(s, key)
    ensures Reclaimed(s, key).objects == s.objects - {key} && key !in Reclaimed(s, key).objects
    ensures Reclaimed(s, key).clock == s.clock && Reclaimed(s, key).nextId == s.nextId && SameSegments(s.fleet, Reclaimed(s, key).fleet)
  {
    if key in s.objects {
      ReleaseSegments(s.fleet, BuffersOf(s.objects[key].replicas));
      assert Path(Apply(s, Drop(key)), [Drop(key)][1..]);
    }
  }

  lemma NoFresh(nextId: nat)
    ensures FreshReplicas([], nextId) == map[]
  {
  }

  lemma FreshMore(bs: seq<Buffer>, i: nat, nextId: nat)
    requires i < |bs|
    ensures FreshReplicas(bs[..i + 1], nextId) == FreshReplicas(bs[..i], nextId)[nextId + i := Replica(nextId + i, Initialized, 0, Memory(bs[i]))]
  {
    var a, b := FreshReplicas(bs[..i + 1], nextId), FreshReplicas(bs[..i], nextId);
    forall id | id in a ensures a[id] == b[nextId + i := Replica(nextId + i, Initialized, 0, Memory(bs[i]))][id] {
      assert a[id] == FreshReplica(bs[..i + 1], nextId, id);
      if id < nextId + i { assert b[id] == FreshReplica(bs[..i], nextId, id); }
    }
    forall id | id in b ensures id in a { assert nextId <= id < nextId + i; assert FreshReplica(bs[..i + 1], nextId, id) == a[id]; }
    assert FreshReplica(bs[..i + 1], nextId, nextId + i) == a[nextId + i];
  }

  lemma {:induction false} PlaceApplied(s: State, c: Change)
    requires c.Place? && c.key !in s.objects && AllTakeable(s.fleet, c.buffers, c.extents, c.size)
    ensures Enabled(s, c) && Path(s, [c]) && Run(s, [c]) == Apply(s, c)
    ensures Apply(s, c) == s.(
      objects := s.objects[c.key := ObjectMeta(FreshReplicas(c.buffers, s.nextId), c.identity, 0, s.clock, c.softPinned, c.hardPinned)],
      fleet := HoldAll(s.fleet, c.buffers, c.extents),
      nextId := s.nextId + |c.buffers|)
  {
    assert Path(Apply(s, c), [c][1..]);
  }

  lemma TakenSizes(fleet: map<string, Segment>, bs: seq<Buffer>, es: seq<nat>, size: nat)
    requires AllTakeable(fleet, bs, es, size)
    ensures forall i :: 0 <= i < |bs| ==> bs[i].size == size
  {
  }
}
