/**
  The in-process client: object bytes live in local arenas at the places the
  master allocates. Seen from outside it is a map from keys to the bytes of the
  last committed put, from which keys may be evicted at any time.
 */
module Clients {
  import opened Eviction
  import opened Fleets
  import opened Frames
  import opened Masters
  import opened MasterInv
  import opened MasterSpec
  import opened Parts
  import opened Segments

  // ---- what a user sees ----

  datatype Stored = Stored(identity: Identity, bytes: seq<Byte>)

  /** What happened to the stored objects: a committed put, or a key gone by removal or eviction. */
  datatype Event = PutDone(key: string, stored: Stored) | Gone(keys: set<string>)

  ghost function Contents(history: seq<Event>): map<string, Stored> {
    if history == [] then map[] else After(Contents(history[..|history| - 1]), history[|history| - 1])
  }

  ghost function After(before: map<string, Stored>, e: Event): map<string, Stored> {
    if e.PutDone? then before[e.key := e.stored] else before - e.keys
  }

  /** The last committed put of a key. */
  ghost function LastPut(history: seq<Event>, key: string): Option<Stored> {
    if history == [] then None
    else
      var n := |history| - 1;
      if history[n].PutDone? && history[n].key == key then Some(history[n].stored) else LastPut(history[..n], key)
  }

  /** What is stored under a key is what was last put there. */
  lemma {:induction false} StoredWasLastPut(history: seq<Event>, key: string)
    requires key in Contents(history)
    ensures LastPut(history, key) == Some(Contents(history)[key])
  {
    var n := |history| - 1;
    if !(history[n].PutDone? && history[n].key == key) { StoredWasLastPut(history[..n], key); }
  }

  lemma {:induction false} Happened(history: seq<Event>, e: Event)
    ensures Contents(history + [e]) == After(Contents(history), e)
  {
    assert (history + [e])[..|history|] == history;
  }

  // ---- bytes in arenas ----

  type Arenas = map<string, seq<Byte>>

  /** Arenas as large as their segments. */
  ghost predicate ArenasFit(arenas: Arenas, fleet: map<string, Segment>) {
    arenas.Keys == fleet.Keys && forall n :: n in arenas && n in fleet ==> |arenas[n]| == fleet[n].capacity
  }

  ghost predicate InArena(arenas: Arenas, b: Buffer) {
    b.segment in arenas && b.offset + b.size <= |arenas[b.segment]|
  }

  function Slice(arenas: Arenas, b: Buffer): seq<Byte>
    requires InArena(arenas, b)
  {
    arenas[b.segment][b.offset..b.offset + b.size]
  }

  function Write(arenas: Arenas, b: Buffer, data: seq<Byte>): Arenas
    requires InArena(arenas, b) && |data| == b.size
  {
    var a := arenas[b.segment];
    arenas[b.segment := a[..b.offset] + data + a[b.offset + b.size..]]
  }

  /** No byte lies in both buffers. */
  ghost predicate Apart(b: Buffer, c: Buffer) {
    b.segment != c.segment || b.offset + b.size <= c.offset || c.offset + c.size <= b.offset
  }

  lemma WriteSlice(arenas: Arenas, b: Buffer, data: seq<Byte>, c: Buffer)
    requires InArena(arenas, b) && |data| == b.size && InArena(arenas, c)
    ensures InArena(Write(arenas, b, data), c) && Slice(Write(arenas, b, data), b) == data
    ensures Apart(b, c) ==> Slice(Write(arenas, b, data), c) == Slice(arenas, c)
  {
  }

  // ---- the arenas hold what the objects promise ----

  ghost predicate Readable1(o: ObjectMeta, arenas: Arenas, what: Stored) {
    && o.identity == what.identity
    && forall id :: id in o.replicas && o.replicas[id].data.Memory? ==>
      InArena(arenas, o.replicas[id].data.buffer) && Slice(arenas, o.replicas[id].data.buffer) == what.bytes
  }

  /** Every object with replicas is committed, and each replica holds the bytes stored under its key. */
  ghost predicate Faithful(s: State, arenas: Arenas, contents: map<string, Stored>) {
    && (forall k :: k in contents <==> k in s.objects && s.objects[k].HasComplete())
    && (forall k :: k in s.objects && s.objects[k].HasComplete() ==> Readable1(s.objects[k], arenas, contents[k]))
  }

  /** Ranges of different objects are apart. */
  lemma ObjectsApart(s: State, k: string, id: nat, l: string, jd: nat)
    requires Inv(s) && k in s.objects && id in s.objects[k].replicas && l in s.objects && jd in s.objects[l].replicas && k != l
    ensures s.objects[k].replicas[id].data.Memory? && s.objects[l].replicas[jd].data.Memory?
    ensures Apart(s.objects[k].replicas[id].data.buffer, s.objects[l].replicas[jd].data.buffer)
  {
    hide Inv;
    ReplicaHeld(s, k, id);
    ReplicaHeld(s, l, jd);
    var b, c := s.objects[k].replicas[id].data.buffer, s.objects[l].replicas[jd].data.buffer;
    if b.segment == c.segment && b.offset == c.offset { SoleOwner(s, k, id, l, jd, b.segment, b.offset); }
  }

  lemma ReplicaInArena(s: State, arenas: Arenas, k: string, id: nat)
    requires Inv(s) && ArenasFit(arenas, s.fleet) && k in s.objects && id in s.objects[k].replicas
    ensures s.objects[k].replicas[id].data.Memory? && InArena(arenas, s.objects[k].replicas[id].data.buffer)
  {
    hide Inv;
    ReplicaHeld(s, k, id);
  }

  // ---- writing an object's replicas ----

  /** The first `n` buffers hold `data`; every place apart from them is as it was. */
  ghost predicate Wrote(was: Arenas, now: Arenas, buffers: seq<Buffer>, n: nat, data: seq<Byte>)
    requires n <= |buffers|
  {
    && now.Keys == was.Keys && (forall s :: s in was && s in now ==> |now[s]| == |was[s]|)
    && (forall j :: 0 <= j < n ==> InArena(now, buffers[j]) && Slice(now, buffers[j]) == data)
    && (forall c :: InArena(was, c) && InArena(now, c) && (forall j :: 0 <= j < n ==> Apart(buffers[j], c)) ==> Slice(now, c) == Slice(was, c))
  }

  lemma WroteMore(was: Arenas, now: Arenas, buffers: seq<Buffer>, n: nat, data: seq<Byte>)
    requires n < |buffers| && Wrote(was, now, buffers, n, data) && DistinctSegments(buffers)
    requires InArena(now, buffers[n]) && buffers[n].size == |data|
    ensures Wrote(was, Write(now, buffers[n], data), buffers, n + 1, data)
  {
    hide Write, Slice;
    var b, now' := buffers[n], Write(now, buffers[n], data);
    WriteShape(now, b, data);
    forall j | 0 <= j < n + 1 ensures InArena(now', buffers[j]) && Slice(now', buffers[j]) == data {
      WriteSlice(now, b, data, buffers[j]);
    }
    forall c | InArena(was, c) && InArena(now', c) && forall j :: 0 <= j < n + 1 ==> Apart(buffers[j], c) ensures Slice(now', c) == Slice(was, c) {
      WriteSlice(now, b, data, c);
      assert Apart(buffers[n], c);
    }
  }

  lemma WriteShape(arenas: Arenas, b: Buffer, data: seq<Byte>)
    requires InArena(arenas, b) && |data| == b.size
    ensures var w := Write(arenas, b, data); w.Keys == arenas.Keys && forall s :: s in arenas && s in w ==> |w[s]| == |arenas[s]|
  {
  }

  // ---- the steps of a put ----

  /** After phase 1 the stored objects are the survivors, and the new one is not readable yet. */
  lemma AfterStart(s: State, t: State, arenas: Arenas, contents: map<string, Stored>, key: string, gone: set<string>)
    requires Faithful(s, arenas, contents) && NoneNewBut(s, t, key) && !(key in t.objects && t.objects[key].HasComplete())
    requires gone == set k | k in contents && !(k in t.objects && t.objects[k].HasComplete())
    ensures Faithful(t, arenas, contents - gone)
  {
    hide ObjectMeta.HasComplete, Readable1;
  }

  /** Replicas numbered from `nextId` on, one for each buffer in order. */
  ghost predicate FreshIds(rs: ReplicaList, nextId: nat, buffers: seq<Buffer>) {
    && (forall id: nat :: id in rs <==> nextId <= id < nextId + |buffers|)
    && (forall id :: id in rs && nextId <= id < nextId + |buffers| ==> rs[id].data == Memory(buffers[id - nextId]))
  }

  lemma FreshBuffers(s: State, t: State, item: Item, config: Config, buffers: seq<Buffer>)
    requires Inv(t) && Placed(s, t, item, config, buffers)
    ensures DistinctSegments(buffers) && !t.objects[item.key].HasComplete()
    ensures FreshIds(t.objects[item.key].replicas, s.nextId, buffers)
  {
    FreshIdsOf(buffers, s.nextId);
    assert ReplicasOk(t.objects[item.key].replicas, t.nextId);
    hide Inv, FreshReplicas;
    FreshApart(t.objects[item.key].replicas, s.nextId, buffers, t.nextId);
  }

  lemma FreshIdsOf(buffers: seq<Buffer>, nextId: nat)
    ensures FreshIds(FreshReplicas(buffers, nextId), nextId, buffers)
    ensures forall id :: id in FreshReplicas(buffers, nextId) ==> FreshReplicas(buffers, nextId)[id].status == Initialized
  {
    var rs := FreshReplicas(buffers, nextId);
    forall id: nat ensures id in rs <==> nextId <= id < nextId + |buffers|
      ensures id in rs ==> rs[id] == FreshReplica(buffers, nextId, id)
    {
      if nextId <= id < nextId + |buffers| { assert rs[id] == FreshReplica(buffers, nextId, id); }
    }
  }

  lemma FreshApart(rs: ReplicaList, nextId: nat, buffers: seq<Buffer>, bound: nat)
    requires ReplicasOk(rs, bound) && FreshIds(rs, nextId, buffers)
    ensures DistinctSegments(buffers)
  {
    forall i, j | 0 <= i < j < |buffers| ensures buffers[i].segment != buffers[j].segment {
      assert nextId + i in rs && nextId + j in rs;
      assert rs[nextId + i].data.buffer.segment != rs[nextId + j].data.buffer.segment;
    }
  }

  /** Writing the new object's buffers leaves every stored object readable as it was. */
  lemma AfterWrite(s: State, t: State, was: Arenas, now: Arenas, contents: map<string, Stored>, item: Item,
      config: Config, buffers: seq<Buffer>, data: seq<Byte>)
    requires Inv(t) && Placed(s, t, item, config, buffers) && Faithful(t, was, contents) && ArenasFit(was, t.fleet)
    requires Wrote(was, now, buffers, |buffers|, data)
    ensures Faithful(t, now, contents)
  {
    FreshBuffers(s, t, item, config, buffers);
    assert item.key in t.objects;
    hide Inv, ObjectMeta.HasComplete, Placed, Wrote, Readable1, ArenasFit;
    forall k | k in t.objects && t.objects[k].HasComplete() ensures Readable1(t.objects[k], now, contents[k]) {
      OneKept(s, t, was, now, item, buffers, data, k, contents[k]);
    }
  }

  lemma OneKept(s: State, t: State, was: Arenas, now: Arenas, item: Item, buffers: seq<Buffer>, data: seq<Byte>, k: string, what: Stored)
    requires Inv(t) && ArenasFit(was, t.fleet) && Wrote(was, now, buffers, |buffers|, data)
    requires k in t.objects && item.key in t.objects && k != item.key && Readable1(t.objects[k], was, what)
    requires FreshIds(t.objects[item.key].replicas, s.nextId, buffers)
    ensures Readable1(t.objects[k], now, what)
  {
    hide Inv, Slice;
    forall id | id in t.objects[k].replicas && t.objects[k].replicas[id].data.Memory?
      ensures InArena(now, t.objects[k].replicas[id].data.buffer) && Slice(now, t.objects[k].replicas[id].data.buffer) == what.bytes
    {
      var c := t.objects[k].replicas[id].data.buffer;
      ReplicaInArena(t, was, k, id);
      forall j | 0 <= j < |buffers| ensures Apart(buffers[j], c) {
        assert s.nextId + j in t.objects[item.key].replicas;
        ObjectsApart(t, item.key, s.nextId + j, k, id);
      }
    }
  }

  /** The commit makes the new object readable with the bytes just written. */
  lemma AfterEnd(s: State, t: State, c: Change, arenas: Arenas, contents: map<string, Stored>, item: Item,
      config: Config, buffers: seq<Buffer>, data: seq<Byte>)
    requires Inv(t) && Placed(s, t, item, config, buffers) && Faithful(t, arenas, contents)
    requires c.Commit? && c.key == item.key && Enabled(t, c)
    requires forall j :: 0 <= j < |buffers| ==> InArena(arenas, buffers[j]) && Slice(arenas, buffers[j]) == data
    ensures Faithful(Apply(t, c), arenas, if buffers == [] then contents else contents[item.key := Stored(item.identity, data)])
  {
    hide Inv, Slice, FreshReplicas, ObjectMeta.HasComplete, Readable1, Lists;
    var k, u := item.key, Apply(t, c);
    FreshBuffers(s, t, item, config, buffers);
    NowComplete(t.objects[k].replicas, u.objects[k], s.nextId, buffers);
    NowReadable(t.objects[k].replicas, u.objects[k], s.nextId, buffers, arenas, Stored(item.identity, data));
    hide Enabled, WithStatus;
    assert k !in contents;
  }

  lemma NowReadable(rs: ReplicaList, o: ObjectMeta, nextId: nat, buffers: seq<Buffer>, arenas: Arenas, what: Stored)
    requires o.replicas == WithStatus(rs, Complete) && FreshIds(rs, nextId, buffers) && o.identity == what.identity
    requires forall j :: 0 <= j < |buffers| ==> InArena(arenas, buffers[j]) && Slice(arenas, buffers[j]) == what.bytes
    ensures Readable1(o, arenas, what)
  {
    hide Slice;
    forall id | id in o.replicas ensures InArena(arenas, o.replicas[id].data.buffer) && Slice(arenas, o.replicas[id].data.buffer) == what.bytes {
      assert o.replicas[id].data == Memory(buffers[id - nextId]);
    }
  }

  lemma NowComplete(rs: ReplicaList, o: ObjectMeta, nextId: nat, buffers: seq<Buffer>)
    requires o.replicas == WithStatus(rs, Complete)
    requires FreshIds(rs, nextId, buffers)
    ensures o.HasComplete() <==> buffers != []
  {
    if buffers != [] {
      assert nextId in rs;
      assert o.replicas[nextId].status == Complete;
    }
  }

  /** The first replica in memory. */
  method FirstMemoryBuffer(replicas: seq<Replica>) returns (r: Outcome<Buffer>)
    ensures r.Ok? <==> exists i :: 0 <= i < |replicas| && replicas[i].data.Memory?
    ensures r.Ok? ==> exists i :: 0 <= i < |replicas| && replicas[i].data == Memory(r.value) && forall j :: 0 <= j < i ==> replicas[j].data.Disk?
    ensures r.Err? ==> r.error == InvalidReplica
  {
    for i := 0 to |replicas|
      invariant forall j :: 0 <= j < i ==> replicas[j].data.Disk?
    {
      match replicas[i].data {
        case Memory(b) => return Ok(b);
        case Disk(_, _) =>
      }
    }
    r := Err(InvalidReplica);
  }

  class DummyClient {
    const master: MasterService
    var arenas: Arenas
    /** What happened so far, as a user of the store sees it. */
    ghost var history: seq<Event>

    ghost function Repr(): set<object>
      reads this, master, master.segs
    {
      {this} + master.Repr()
    }

    ghost predicate Valid()
      reads this, master, master.segs, master.segs.parts
    {
      && this !in master.Repr() && master.Valid()
      && master.segmentTtl == 0 && master.heartbeats.Keys == master.segs.Fleet().Keys
      && ArenasFit(arenas, master.segs.Fleet())
      && Faithful(master.View(), arenas, Contents(history))
    }

    constructor (strategy: Strategy)
      ensures Valid() && fresh(Repr()) && history == []
    {
      master := new MasterService(strategy);
      arenas, history := map[], [];
    }

    method Mount(name: string, capacity: nat)
      requires Valid()
      modifies Repr()
      ensures Valid() <==> name !in old(master.segs.Fleet())
      ensures fresh(Repr() - old(Repr())) && history == old(history)
      ensures Valid() ==> master.View() == Apply(old(master.View()), MasterSpec.Mount(name, capacity))
    {
      hide Inv, SegmentState.Valid, FleetOf, Contents, Faithful;
      ghost var s, was := master.View(), arenas;
      master.MountSegment(name, capacity);
      arenas := arenas[name := seq(capacity, _ => 0)];
      if name !in s.fleet { NewArena(s, master.View(), was, arenas, name, Contents(history)); }
    }

    /** Allocate, write every replica, commit. */
    method Put(key: string, identity: Identity, data: seq<Byte>, config: Config)
        returns (r: Outcome<()>, ghost gone: set<string>, ghost start: Outcome<seq<Buffer>>, ghost path: seq<Change>)
      requires Valid()
      modifies Repr()
      ensures Valid() && master.segs.parts == old(master.segs.parts)
      ensures r == Err(ObjectAlreadyExists) <==> key in Contents(old(history))
      ensures r == Err(ObjectAlreadyExists) ==> history == old(history)
      ensures r != Err(ObjectAlreadyExists) ==>
        history == old(history) + [Gone(gone)] + if r.Ok? && config.replicaNum > 0 then [PutDone(key, Stored(identity, data))] else []
      ensures r != Err(ObjectAlreadyExists) ==>
        && PutSteps(old(master.View()), path, Item(key, identity, |data|), config, old(master.Rules()), start)
        && Path(old(master.View()), path) && gone == Evicted(Run(old(master.View()), path), Contents(old(history))) && (r.Ok? <==> start.Ok?)
      ensures r.Err? && r.error != ObjectAlreadyExists ==>
        r.error == NoAvailableSegment && Short(master.Rules(), master.View().fleet, |data|, config.replicaNum)
      ensures master.Rules() == old(master.Rules())
      ensures LeasesKept(old(master.View()), master.View()) && PinsKept(old(master.View()), master.View(), key)
    {
      hide Inv, SegmentState.Valid, FleetOf, Contents, Faithful, Path, Run, Apply;
      hide PutSteps, LeasesKept, PinsKept, NoneNewBut, Placed, Wrote, ArenasFit, SameSegments, Enabled, Short;
      ghost var s, was, contents := master.View(), arenas, Contents(history);
      gone := {};
      FaithfulKeys(s, arenas, contents, key);
      LeasedIsComplete(s, key);
      var item := Item(key, identity, |data|);
      var buffers;
      buffers, path := master.PutStart(item, config);
      start := buffers;
      if buffers == Err(ObjectAlreadyExists) {
        NothingDone(s, key);
        r := Err(ObjectAlreadyExists);
        return;
      }
      ghost var t := master.View();
      SameArenas(arenas, s.fleet, t.fleet);
      gone := Evicted(t, contents);
      Started(s, t, arenas, contents, item, config, buffers);
      Happened(history, Gone(gone));
      history := history + [Gone(gone)];
      if buffers.Err? {
        r := Err(buffers.error);
        return;
      }
      NothingWrote(arenas, buffers.value, data);
      FreshBuffers(s, t, item, config, buffers.value);
      for i := 0 to |buffers.value|
        invariant Wrote(was, arenas, buffers.value, i, data)
        invariant master.Valid() && master.View() == t && master.segs.parts == old(master.segs.parts)
        invariant master.segmentTtl == 0 && master.heartbeats == old(master.heartbeats) && history == old(history) + [Gone(gone)]
        invariant master.Rules() == old(master.Rules())
      {
        BufferFits(s, t, was, arenas, item, config, buffers.value, i, data);
        WroteMore(was, arenas, buffers.value, i, data);
        arenas := Write(arenas, buffers.value[i], data);
      }
      WroteArenas(was, arenas, t.fleet, buffers.value, data);
      AfterWrite(s, t, was, arenas, contents - gone, item, config, buffers.value, data);
      ghost var commit;
      assert key in master.objects by { PlacedThere(s, t, item, config, buffers.value); }
      r, commit := master.PutEnd(key);
      Committed1(s, t, commit[0], was, arenas, contents - gone, item, config, buffers.value, data);
      if config.replicaNum > 0 {
        Happened(history, PutDone(key, Stored(identity, data)));
        history := history + [PutDone(key, Stored(identity, data))];
      }
    }

    /** Read an object: exactly the bytes of the last committed put of the key, for the identity that put them. */
    method Get(key: string, identity: Identity) returns (r: Outcome<seq<Byte>>)
      requires Valid()
      modifies master
      ensures Valid() && history == old(history)
      ensures r.Ok? <==> key in Contents(history) && Contents(history)[key].identity == identity
      ensures r.Ok? ==> Contents(history)[key].bytes == r.value && LastPut(history, key) == Some(Stored(identity, r.value))
      ensures key in Contents(history) && r.Err? ==> r.error.UnsafeReuse?
      ensures key !in Contents(history) ==> r.Err? && !(r.error == InvalidReplica)
      ensures if r.Ok? then Enabled(old(master.View()), Read(key)) && master.View() == Apply(old(master.View()), Read(key))
        else master.View() == old(master.View())
    {
      hide Inv, SegmentState.Valid, FleetOf, Contents, LastPut, Faithful, Apply, Lists, Readable, Alive, ArenasFit;
      ghost var s, contents := master.View(), Contents(history);
      FaithfulKeys(s, arenas, contents, key);
      if key in contents { AllReadable(s, master.heartbeats, arenas, contents, key); }
      var replicas := master.GetReplicaList(key, identity);
      if replicas.Err? {
        return Err(replicas.error);
      }
      ListedReadable(s, arenas, contents, key, replicas.value, Alive(master.heartbeats, 0, s.clock));
      ReadFaithful(s, key, arenas, contents);
      StoredWasLastPut(history, key);
      assert replicas.value[0].data.Memory?;
      var b := FirstMemoryBuffer(replicas.value);
      r := Ok(Slice(arenas, b.value));
    }

    method Remove(key: string, force: bool) returns (r: Outcome<()>)
      requires Valid()
      modifies Repr()
      ensures Valid() && master.segs.parts == old(master.segs.parts)
      ensures r.Err? ==> history == old(history)
      ensures r.Ok? ==> history == old(history) + [Gone({key})]
      ensures r.Ok? <==> key in old(master.objects) && (force || old(master.objects)[key].leaseUntil <= old(master.clock))
    {
      hide Inv, SegmentState.Valid, FleetOf, Contents, Faithful, Release, ArenasFit;
      ghost var s := master.View();
      r := master.RemoveObject(key, force);
      if r.Ok? {
        RemoveFaithful(s, key, arenas, Contents(history));
        SameArenas(arenas, s.fleet, master.View().fleet);
        Happened(history, Gone({key}));
        history := history + [Gone({key})];
      }
    }

    /** Time passes: nothing stored changes, but leases run out. */
    method Tick()
      requires Valid()
      modifies master
      ensures Valid() && history == old(history) && master.View() == Apply(old(master.View()), MasterSpec.Tick)
    {
      hide Inv, SegmentState.Valid, FleetOf, Contents;
      ghost var s := master.View();
      var _ := master.TickClock();
    }

    method Exist(key: string) returns (b: bool)
      requires Valid()
      ensures b <==> key in Contents(history)
    {
      FaithfulKeys(master.View(), arenas, Contents(history), key);
      b := master.ExistKey(key);
    }
  }

  /** A read leases its object: a plain removal is refused until the lease has run out, and not after. */
  method ReadThenRemove(c: DummyClient, key: string, identity: Identity, n: nat) returns (r: Outcome<()>)
    requires c.Valid() && key in Contents(c.history) && Contents(c.history)[key].identity == identity
    modifies c.Repr()
    ensures c.Valid() && (r.Ok? <==> n >= old(c.master.leaseTtl))
    ensures c.history == old(c.history) + if r.Ok? then [Gone({key})] else []
  {
    hide Inv, SegmentState.Valid, FleetOf, Contents, DummyClient.Valid;
    var _ := c.Get(key, identity);
    ghost var until := c.master.clock + c.master.leaseTtl;
    for i := 0 to n
      invariant c.Valid() && c.history == old(c.history) && c.master.segs.parts == old(c.master.segs.parts)
      invariant key in c.master.objects && c.master.objects[key].leaseUntil == until && c.master.clock + c.master.leaseTtl == until + i
      invariant c.master.leaseTtl == old(c.master.leaseTtl)
    {
      c.Tick();
    }
    r := c.Remove(key, false);
  }

  /** The stored keys that are not readable in `t`. */
  ghost function Evicted(t: State, contents: map<string, Stored>): set<string> {
    set k | k in contents && !(k in t.objects && t.objects[k].HasComplete())
  }

  lemma NewArena(s: State, t: State, was: Arenas, now: Arenas, name: string, contents: map<string, Stored>)
    requires Faithful(s, was, contents) && t.objects == s.objects && name !in was && name in now && now == was[name := now[name]]
    ensures Faithful(t, now, contents)
  {
    hide ObjectMeta.HasComplete;
    forall k | k in t.objects && t.objects[k].HasComplete() ensures Readable1(t.objects[k], now, contents[k]) {
      assert Readable1(s.objects[k], was, contents[k]);
    }
  }

  lemma FaithfulKeys(s: State, arenas: Arenas, contents: map<string, Stored>, key: string)
    requires Faithful(s, arenas, contents)
    ensures key in contents <==> key in s.objects && s.objects[key].HasComplete()
  {
  }

  lemma SameArenas(arenas: Arenas, f: map<string, Segment>, g: map<string, Segment>)
    requires ArenasFit(arenas, f) && SameSegments(f, g)
    ensures ArenasFit(arenas, g) && f.Keys == g.Keys
  {
  }

  lemma Started(s: State, t: State, arenas: Arenas, contents: map<string, Stored>, item: Item, config: Config, r: Outcome<seq<Buffer>>)
    requires Inv(t) && Faithful(s, arenas, contents) && NoneNewBut(s, t, item.key)
    requires if r.Ok? then Placed(s, t, item, config, r.value) else item.key !in t.objects
    ensures Faithful(t, arenas, contents - Evicted(t, contents))
  {
    hide Inv, Faithful, NoneNewBut;
    if r.Ok? { FreshBuffers(s, t, item, config, r.value); }
    AfterStart(s, t, arenas, contents, item.key, Evicted(t, contents));
  }

  lemma NothingWrote(arenas: Arenas, buffers: seq<Buffer>, data: seq<Byte>)
    ensures Wrote(arenas, arenas, buffers, 0, data)
  {
  }

  lemma BufferFits(s: State, t: State, was: Arenas, now: Arenas, item: Item, config: Config, buffers: seq<Buffer>, i: nat, data: seq<Byte>)
    requires Inv(t) && Placed(s, t, item, config, buffers) && ArenasFit(was, t.fleet) && i < |buffers| && item.size == |data|
    requires Wrote(was, now, buffers, i, data)
    ensures InArena(now, buffers[i]) && buffers[i].size == |data|
  {
    hide Inv, FreshReplicas, Slice;
    FreshBuffers(s, t, item, config, buffers);
    assert s.nextId + i in t.objects[item.key].replicas;
    ReplicaInArena(t, was, item.key, s.nextId + i);
  }

  lemma WroteArenas(was: Arenas, now: Arenas, fleet: map<string, Segment>, buffers: seq<Buffer>, data: seq<Byte>)
    requires ArenasFit(was, fleet) && Wrote(was, now, buffers, |buffers|, data)
    ensures ArenasFit(now, fleet)
  {
  }

  lemma PlacedThere(s: State, t: State, item: Item, config: Config, buffers: seq<Buffer>)
    requires Placed(s, t, item, config, buffers)
    ensures item.key in t.objects && |buffers| == config.replicaNum
  {
  }

  lemma Committed1(s: State, t: State, c: Change, was: Arenas, arenas: Arenas, contents: map<string, Stored>,
      item: Item, config: Config, buffers: seq<Buffer>, data: seq<Byte>)
    requires Inv(t) && Placed(s, t, item, config, buffers) && Faithful(t, arenas, contents)
    requires c.Commit? && c.key == item.key && Enabled(t, c) && Wrote(was, arenas, buffers, |buffers|, data)
    ensures Faithful(Apply(t, c), arenas, if config.replicaNum == 0 then contents else contents[item.key := Stored(item.identity, data)])
    ensures Apply(t, c).fleet == t.fleet
    ensures LeasesKept(s, t) && NotLeased(s, item.key) ==> LeasesKept(s, Apply(t, c))
    ensures PinsKept(s, t, item.key) ==> PinsKept(s, Apply(t, c), item.key)
  {
    hide Inv, Faithful, Slice;
    AfterEnd(s, t, c, arenas, contents, item, config, buffers, data);
  }

  /** While no segment is given up for dead, every replica of a stored object is handed out. */
  lemma AllReadable(s: State, heartbeats: map<string, nat>, arenas: Arenas, contents: map<string, Stored>, key: string)
    requires Inv(s) && heartbeats.Keys == s.fleet.Keys && Faithful(s, arenas, contents) && key in contents
    ensures key in s.objects && s.objects[key].identity == contents[key].identity
    ensures Readable(s.objects[key].replicas, Alive(heartbeats, 0, s.clock)) != map[]
  {
    var rs, alive := s.objects[key].replicas, Alive(heartbeats, 0, s.clock);
    var id :| id in rs && rs[id].status == Complete;
    hide Inv;
    ReplicaHeld(s, key, id);
    assert rs[id].data.buffer.segment in alive;
    assert id in Readable(rs, alive);
  }

  lemma ListedReadable(s: State, arenas: Arenas, contents: map<string, Stored>, key: string, order: seq<Replica>, alive: set<string>)
    requires Inv(s) && Faithful(s, arenas, contents) && key in s.objects && order != [] && Lists(order, Readable(s.objects[key].replicas, alive))
    ensures key in contents
    ensures forall i :: 0 <= i < |order| ==>
      && order[i].data.Memory? && InArena(arenas, order[i].data.buffer)
      && Slice(arenas, order[i].data.buffer) == contents[key].bytes
  {
    hide Inv, Slice;
    var rs := s.objects[key].replicas;
    forall i | 0 <= i < |order| ensures order[i].id in rs && rs[order[i].id] == order[i] && order[i].status == Complete {
      assert order[i].id in Readable(rs, alive);
    }
    assert order[0].id in rs;
    assert s.objects[key].HasComplete();
    hide Lists, ObjectMeta.HasComplete;
    forall i | 0 <= i < |order| ensures order[i].data.Memory? { ReplicaHeld(s, key, order[i].id); }
  }

  lemma ReadFaithful(s: State, key: string, arenas: Arenas, contents: map<string, Stored>)
    requires Enabled(s, Read(key)) && Faithful(s, arenas, contents)
    ensures Faithful(Apply(s, Read(key)), arenas, contents) && Apply(s, Read(key)).fleet == s.fleet
  {
  }

  lemma RemoveFaithful(s: State, key: string, arenas: Arenas, contents: map<string, Stored>)
    requires Enabled(s, Remove(key)) && Faithful(s, arenas, contents)
    ensures Faithful(Apply(s, Remove(key)), arenas, contents - {key}) && SameSegments(s.fleet, Apply(s, Remove(key)).fleet)
  {
    hide ObjectMeta.HasComplete, Readable1;
    ReleaseSegments(s.fleet, BuffersOf(s.objects[key].replicas));
  }
}