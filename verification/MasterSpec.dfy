/**
  The master's metadata as a value, and the elementary changes its operations
  are made of. Every operation of the master service is a path of such changes.
 */
module MasterSpec {
  import opened Segments

  datatype Violation = ModelDiffers | TokenizerDiffers | AdapterDiffers | TenantDiffers

  datatype Identity = Identity(model: string, tokenizer: string, adapter: Option<string>, tenant: string) {
    /** Why `other` may not reuse what this identity wrote: the first part that differs; absent exactly for an equal identity. */
    function ReuseViolation(other: Identity): (v: Option<Violation>)
      ensures v.None? <==> this == other
      ensures v == Some(ModelDiffers) <==> model != other.model
      ensures v == Some(TokenizerDiffers) <==> model == other.model && tokenizer != other.tokenizer
      ensures v == Some(TenantDiffers) <==> this == other.(tenant := tenant) && tenant != other.tenant
    {
      if model != other.model then Some(ModelDiffers)
      else if tokenizer != other.tokenizer then Some(TokenizerDiffers)
      else if adapter != other.adapter then Some(AdapterDiffers)
      else if tenant != other.tenant then Some(TenantDiffers)
      else None
    }
  }

  datatype Status = Undefined | Initialized | Processing | Complete | Removed | Failed

  datatype ReplicaData = Memory(buffer: Buffer) | Disk(path: string, objectSize: nat)

  datatype Replica = Replica(id: nat, status: Status, refCount: nat, data: ReplicaData) {
    function Size(): nat {
      match data
      case Memory(b) => b.size
      case Disk(_, n) => n
    }

    predicate OnSegment(name: string) {
      data.Memory? && data.buffer.segment == name
    }
  }

  type ReplicaList = map<nat, Replica>

  datatype ObjectMeta = ObjectMeta(
    replicas: ReplicaList,
    identity: Identity,
    leaseUntil: nat,
    lastAccess: nat,
    softPinned: bool,
    hardPinned: bool)
  {
    /** Some replica can be read. */
    predicate HasComplete() {
      exists id :: id in replicas && replicas[id].status == Complete
    }
  }

  /** A durable change, as the op-log records it. */
  datatype Entry =
    | SegmentMounted(name: string, capacity: nat)
    | SegmentUnmounted(name: string)
    | PutCommitted(key: string, identity: Identity, replicas: seq<Replica>, softPinned: bool, hardPinned: bool)
    | RemovedEntry(key: string)

  datatype State = State(
    objects: map<string, ObjectMeta>,
    fleet: map<string, Segment>,
    nextId: nat,
    clock: nat,
    leaseTtl: nat,
    log: seq<Entry>)

  // ---- what must hold in every state ----

  ghost predicate FleetOk(fleet: map<string, Segment>) {
    forall n :: n in fleet ==> fleet[n].name == n && fleet[n].Valid()
  }

  /** The replicas of one object: in memory, of one size and status, on distinct segments. */
  ghost predicate ReplicasOk(replicas: ReplicaList, nextId: nat) {
    && (forall id :: id in replicas ==> id < nextId && replicas[id].id == id && replicas[id].data.Memory?)
    && (forall id, id' :: id in replicas && id' in replicas ==>
      replicas[id].status == replicas[id'].status && replicas[id].Size() == replicas[id'].Size())
    && (forall id, id' :: id in replicas && id' in replicas && id != id' ==>
      replicas[id].data.buffer.segment != replicas[id'].data.buffer.segment)
  }

  /** Object `key` holds the range of its replica `id`. */
  ghost predicate Owns(objects: map<string, ObjectMeta>, key: string, id: nat, segment: string, offset: nat) {
    && key in objects && id in objects[key].replicas
    && objects[key].replicas[id].data.Memory?
    && objects[key].replicas[id].data.buffer.segment == segment
    && objects[key].replicas[id].data.buffer.offset == offset
  }

  /** Every buffer is held in its segment with its size. */
  ghost predicate Backed(objects: map<string, ObjectMeta>, fleet: map<string, Segment>) {
    forall key, id :: key in objects && id in objects[key].replicas && objects[key].replicas[id].data.Memory? ==>
      BufferHeld(objects[key].replicas[id].data.buffer, fleet)
  }

  ghost predicate BufferHeld(b: Buffer, fleet: map<string, Segment>) {
    && b.segment in fleet && b.offset in fleet[b.segment].holds
    && fleet[b.segment].holds[b.offset].size == b.size
  }

  /** No range has two owners, within an object or across objects. */
  ghost predicate Exclusive(objects: map<string, ObjectMeta>) {
    forall k, id, k', id', n, o :: Owns(objects, k, id, n, o) && Owns(objects, k', id', n, o) ==> k == k' && id == id'
  }

  /** Nothing is held that no object owns. */
  ghost predicate NoLeak(objects: map<string, ObjectMeta>, fleet: map<string, Segment>) {
    forall n, o :: n in fleet && o in fleet[n].holds ==> exists k, id :: Owns(objects, k, id, n, o)
  }

  ghost predicate LeaseOk(o: ObjectMeta, clock: nat) {
    o.leaseUntil > clock ==> o.replicas != map[] && forall id :: id in o.replicas ==> o.replicas[id].status == Complete
  }

  ghost predicate Inv(s: State) {
    && FleetOk(s.fleet)
    && (forall k :: k in s.objects ==> ReplicasOk(s.objects[k].replicas, s.nextId) && LeaseOk(s.objects[k], s.clock))
    && Backed(s.objects, s.fleet)
    && Exclusive(s.objects)
    && NoLeak(s.objects, s.fleet)
  }

  /** The same segments by name and capacity, whatever they hold. */
  ghost predicate SameSegments(f: map<string, Segment>, g: map<string, Segment>) {
    f.Keys == g.Keys && forall n :: n in f && n in g ==> f[n].name == g[n].name && f[n].capacity == g[n].capacity
  }

  // ---- elementary changes ----

  function BuffersOf(replicas: ReplicaList): set<Buffer> {
    set id | id in replicas && replicas[id].data.Memory? :: replicas[id].data.buffer
  }

  /** The fleet after the ranges of `bs` were given back. */
  function Release(fleet: map<string, Segment>, bs: set<Buffer>): map<string, Segment> {
    map n | n in fleet :: fleet[n].(holds := fleet[n].holds - (set b | b in bs && b.segment == n :: b.offset))
  }

  function Hold1(fleet: map<string, Segment>, b: Buffer, extent: nat): map<string, Segment>
    requires b.segment in fleet
  {
    fleet[b.segment := fleet[b.segment].(holds := fleet[b.segment].holds[b.offset := Hold(b.size, extent)])]
  }

  /** A buffer may be taken: its segment stays sound, with a range nobody held. */
  ghost predicate Takeable(fleet: map<string, Segment>, b: Buffer, extent: nat) {
    && b.segment in fleet && b.offset !in fleet[b.segment].holds
    && Hold1(fleet, b, extent)[b.segment].Valid()
  }

  ghost function HoldAll(fleet: map<string, Segment>, bs: seq<Buffer>, extents: seq<nat>): map<string, Segment>
    requires |bs| == |extents| && forall i :: 0 <= i < |bs| ==> bs[i].segment in fleet
  {
    if bs == [] then fleet
    else
      var n := |bs| - 1;
      var before := HoldAll(fleet, bs[..n], extents[..n]);
      if bs[n].segment in before then Hold1(before, bs[n], extents[n]) else before
  }

  ghost predicate DistinctSegments(bs: seq<Buffer>) {
    forall i, j :: 0 <= i < j < |bs| ==> bs[i].segment != bs[j].segment
  }

  ghost predicate AllTakeable(fleet: map<string, Segment>, bs: seq<Buffer>, extents: seq<nat>, size: nat) {
    && |bs| == |extents| && DistinctSegments(bs)
    && forall i :: 0 <= i < |bs| ==> bs[i].size == size && Takeable(fleet, bs[i], extents[i])
  }

  function FreshReplica(bs: seq<Buffer>, nextId: nat, id: nat): Replica
    requires nextId <= id < nextId + |bs|
  {
    Replica(id, Initialized, 0, Memory(bs[id - nextId]))
  }

  function FreshReplicas(bs: seq<Buffer>, nextId: nat): ReplicaList {
    map id: nat {:trigger FreshReplica(bs, nextId, id)} | nextId <= id < nextId + |bs| :: FreshReplica(bs, nextId, id)
  }

  function WithStatus(replicas: ReplicaList, status: Status): ReplicaList {
    map id | id in replicas :: replicas[id].(status := status)
  }

  function OffSegment(replicas: ReplicaList, name: string): ReplicaList {
    map id | id in replicas && !replicas[id].OnSegment(name) :: replicas[id]
  }

  /** `order` lists the replicas, each once. */
  ghost predicate Lists(order: seq<Replica>, replicas: ReplicaList) {
    && (forall i :: 0 <= i < |order| ==> order[i].id in replicas && replicas[order[i].id] == order[i])
    && (forall i, j :: 0 <= i < j < |order| ==> order[i].id != order[j].id)
    && (forall id :: id in replicas ==> exists i :: 0 <= i < |order| && order[i].id == id)
  }

  datatype Change =
    | Mount(name: string, capacity: nat)
    | Unmount(name: string)
    | Drop(key: string)
    | Remove(key: string)
    | Place(key: string, identity: Identity, size: nat, buffers: seq<Buffer>, extents: seq<nat>, softPinned: bool, hardPinned: bool)
    | Commit(key: string, order: seq<Replica>)
    | Reopen(key: string, identity: Identity)
    | Read(key: string)
    | Tick

  ghost predicate Enabled(s: State, c: Change) {
    match c
    case Mount(n, _) => n !in s.fleet
    case Unmount(n) => n in s.fleet
    case Drop(k) => k in s.objects
    case Remove(k) => k in s.objects
    case Place(k, _, size, bs, es, _, _) => k !in s.objects && AllTakeable(s.fleet, bs, es, size)
    case Commit(k, order) => k in s.objects && Lists(order, WithStatus(s.objects[k].replicas, Complete))
    case Reopen(k, _) => k in s.objects && s.objects[k].leaseUntil <= s.clock
    case Read(k) => k in s.objects && s.objects[k].HasComplete()
    case Tick => true
  }

  /** The state without object `key`, its ranges given back. */
  ghost function Forget(s: State, key: string): State
    requires key in s.objects
  {
    s.(objects := s.objects - {key}, fleet := Release(s.fleet, BuffersOf(s.objects[key].replicas)))
  }

  function Unmounted(objects: map<string, ObjectMeta>, name: string): map<string, ObjectMeta> {
    map k | k in objects && OffSegment(objects[k].replicas, name) != map[] :: objects[k].(replicas := OffSegment(objects[k].replicas, name))
  }

  ghost function Apply(s: State, c: Change): State
    requires Enabled(s, c)
  {
    match c
    case Mount(n, cap) => s.(fleet := s.fleet[n := Segment(n, cap, map[])], log := s.log + [SegmentMounted(n, cap)])
    case Unmount(n) => s.(objects := Unmounted(s.objects, n), fleet := s.fleet - {n}, log := s.log + [SegmentUnmounted(n)])
    case Drop(k) => Forget(s, k)
    case Remove(k) => Forget(s, k).(log := s.log + [RemovedEntry(k)])
    case Place(k, who, _, bs, es, soft, hard) =>
      s.(objects := s.objects[k := ObjectMeta(FreshReplicas(bs, s.nextId), who, 0, s.clock, soft, hard)],
         fleet := HoldAll(s.fleet, bs, es),
         nextId := s.nextId + |bs|)
    case Commit(k, order) =>
      var o := s.objects[k].(replicas := WithStatus(s.objects[k].replicas, Complete));
      s.(objects := s.objects[k := o], log := s.log + [PutCommitted(k, o.identity, order, o.softPinned, o.hardPinned)])
    case Reopen(k, who) =>
      s.(objects := s.objects[k := s.objects[k].(replicas := WithStatus(s.objects[k].replicas, Initialized), identity := who, lastAccess := s.clock)])
    case Read(k) =>
      s.(objects := s.objects[k := s.objects[k].(lastAccess := s.clock, leaseUntil := s.clock + s.leaseTtl)])
    case Tick => s.(clock := s.clock + 1)
  }

  /** Every change of a path is enabled where it happens. */
  ghost predicate Path(s: State, cs: seq<Change>)
    decreases |cs|
  {
    cs != [] ==> Enabled(s, cs[0]) && Path(Apply(s, cs[0]), cs[1..])
  }

  ghost function Run(s: State, cs: seq<Change>): State
    requires Path(s, cs)
    decreases |cs|
  {
    if cs == [] then s else Run(Apply(s, cs[0]), cs[1..])
  }

  lemma ReleaseSegments(f: map<string, Segment>, bs: set<Buffer>)
    ensures SameSegments(f, Release(f, bs))
  {
  }
}
