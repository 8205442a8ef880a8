/**
  Runs that show where a property stops short: an op-log does not see a revoked
  object, a snapshot of a scaled segment in use cannot be restored, and a name
  mounted twice hands out bytes twice.
 */
module Limits {
  import opened Buffers
  import opened Fleets
  import opened MasterInv
  import opened MasterSpec
  import opened OpLogs
  import opened Parts
  import opened Recovery
  import opened Segments
  import opened SmallFloat

  const WHO := Identity("model", "tokenizer", None, "tenant")
  const WHERE := Buffer("s", 0, 8)
  const COPY := Replica(0, Initialized, 0, Memory(WHERE))
  const PLACED := Place("k", WHO, 8, [WHERE], [8], false, false)
  const COMMITTED := Commit("k", [COPY.(status := Complete)])

  /** One segment, with one object placed on it. */
  ghost function OnePlaced(capacity: nat): State {
    State(map["k" := ObjectMeta(map[0 := COPY], WHO, 0, 0, false, false)],
          map["s" := Segment("s", capacity, map[0 := Hold(8, 8)])], 1, 0, 5, [SegmentMounted("s", capacity)])
  }

  ghost function Mounted(capacity: nat): State {
    State(map[], map["s" := Segment("s", capacity, map[])], 0, 0, 5, [SegmentMounted("s", capacity)])
  }

  lemma MountRuns(capacity: nat)
    ensures Enabled(BLANK, Mount("s", capacity)) && Apply(BLANK, Mount("s", capacity)) == Mounted(capacity)
  {
  }

  lemma PlaceRuns(capacity: nat)
    requires capacity >= 8
    ensures Enabled(Mounted(capacity), PLACED) && Apply(Mounted(capacity), PLACED) == OnePlaced(capacity)
  {
    var s := Mounted(capacity);
    assert Hold1(s.fleet, WHERE, 8)["s"].holds == map[0 := Hold(8, 8)];
    assert AllTakeable(s.fleet, [WHERE], [8], 8);
    assert [WHERE][..0] == [] && [8][..0] == [];
    assert HoldAll(s.fleet, [], []) == s.fleet;
    assert HoldAll(s.fleet, [WHERE], [8]) == map["s" := Segment("s", capacity, map[0 := Hold(8, 8)])];
    assert FreshReplicas([WHERE], 0) == map[0 := COPY] by {
      assert FreshReplica([WHERE], 0, 0) == COPY;
    }
  }

  /** A state an actual run reaches. */
  lemma OnePlacedReached(capacity: nat)
    requires capacity >= 8
    ensures var cs := [Mount("s", capacity), PLACED]; Path(BLANK, cs) && Run(BLANK, cs) == OnePlaced(capacity)
    ensures Inv(OnePlaced(capacity))
  {
    hide Inv, Apply, Enabled, OnePlaced, Mounted;
    MountRuns(capacity);
    PlaceRuns(capacity);
    Ahead(Mounted(capacity), PLACED, []);
    Ahead(BLANK, Mount("s", capacity), [PLACED]);
    assert [Mount("s", capacity)] + [PLACED] == [Mount("s", capacity), PLACED];
    BlankAgrees();
    RunInv(BLANK, [Mount("s", capacity), PLACED]);
  }

  /** A run with one more step in front. */
  lemma {:induction false} Ahead(s: State, c: Change, rest: seq<Change>)
    requires Enabled(s, c) && Path(Apply(s, c), rest)
    ensures Path(s, [c] + rest) && Run(s, [c] + rest) == Run(Apply(s, c), rest)
    ensures Run(s, []) == s && Path(s, [])
  {
    assert ([c] + rest)[1..] == rest;
  }

  /** Reachable, with node headroom, and yet beyond recovery: a segment over 3.75 GiB with one object. */
  lemma ScaledBeyondRecovery()
    ensures var s := OnePlaced(MAX_BIN_SIZE + 1); Inv(s) && Roomy(s.fleet)
    ensures forall snap :: Describes(snap, OnePlaced(MAX_BIN_SIZE + 1)) ==>
      NamedOnce(snap.segments) && !FitsAll(FleetOf(Empty(snap.segments)), snap.objects)
  {
    var s := OnePlaced(MAX_BIN_SIZE + 1);
    OnePlacedReached(MAX_BIN_SIZE + 1);
    hide Inv, Describes, FitsAll, FleetOf, Empty, NamedOnce;
    assert s.fleet["s"].holds != map[] && |s.fleet["s"].holds| == 1 && s.fleet["s"].capacity > MAX_BIN_SIZE;
    assert !Unscaled(s.fleet) && Roomy(s.fleet);
    forall snap | Describes(snap, s) ensures NamedOnce(snap.segments) && !FitsAll(FleetOf(Empty(snap.segments)), snap.objects) {
      RecoveryIff(snap, s);
    }
  }

  /** Revoking an object that was committed is not logged: replaying the log would bring it back. */
  lemma RevokedComesBack()
    ensures Inv(OnePlaced(64)) && Enabled(OnePlaced(64), COMMITTED)
    ensures var s := Apply(OnePlaced(64), COMMITTED); Agree(s) && Enabled(s, Drop("k")) && !Agree(Apply(s, Drop("k")))
  {
    OnePlacedReached(64);
    CommitEnabled();
    NowVisible();
    PlacedAgrees();
    hide Inv, Agree, Apply, Enabled, Visible, OnePlaced, RowUnscaled, Path, Run;
    AgreeIff(OnePlaced(64), COMMITTED);
    ApplyInv(OnePlaced(64), COMMITTED);
    AgreeIff(Apply(OnePlaced(64), COMMITTED), Drop("k"));
  }

  lemma PlacedAgrees()
    ensures Agree(OnePlaced(64))
  {
    MountRuns(64);
    PlaceRuns(64);
    BlankAgrees();
    assert Durable(BLANK, Mount("s", 64)) && Durable(Mounted(64), PLACED);
    hide Inv, Agree, Apply, Enabled, OnePlaced, Mounted;
    DurableStep(BLANK, Mount("s", 64));
    ApplyInv(BLANK, Mount("s", 64));
    DurableStep(Mounted(64), PLACED);
  }

  lemma CommitEnabled()
    ensures Enabled(OnePlaced(64), COMMITTED) && !Visible(OnePlaced(64).objects, "k")
    ensures RowUnscaled(OnePlaced(64).fleet, COMMITTED.order)
  {
    var rs := WithStatus(map[0 := COPY], Complete);
    assert rs == map[0 := COPY.(status := Complete)];
    assert Lists(COMMITTED.order, rs) by {
      forall id | id in rs ensures exists i :: 0 <= i < 1 && COMMITTED.order[i].id == id { assert COMMITTED.order[0].id == id; }
    }
  }

  lemma NowVisible()
    requires Enabled(OnePlaced(64), COMMITTED)
    ensures Visible(Apply(OnePlaced(64), COMMITTED).objects, "k") && Enabled(Apply(OnePlaced(64), COMMITTED), Drop("k"))
  {
    assert Apply(OnePlaced(64), COMMITTED).objects["k"].replicas[0].status == Complete;
  }

  /**
    Mounting a name that is mounted makes a second allocator that knows nothing of the
    first: its first buffer starts at byte 0 and overlaps every buffer handed out before
    that starts inside it. So a mount keeps buffers exclusive exactly when the name was
    not mounted (`SegmentState.Mount`), which it does not check.
   */
  method MountedTwice(segs: SegmentState, name: string, capacity: nat, size: nat) returns (b: Option<Buffer>)
    requires segs.Valid() && name in segs.Fleet()
    modifies segs, segs.parts
    ensures segs.views == old(segs.views) + [Segment(name, capacity, map[])] && !segs.Valid()
    ensures capacity <= MAX_BIN_SIZE ==> (b.Some? <==> 0 < size <= FloatToUint(RoundDown(capacity)))
    ensures b.Some? ==> b.value == Buffer(name, 0, size)
    ensures b.Some? ==> forall o :: o in old(segs.Fleet())[name].holds && o < size ==>
      Overlap(b.value, Buffer(name, o, old(segs.Fleet())[name].holds[o].size))
  {
    hide OffsetBufferAllocator.Valid, OffsetBufferAllocator.Repr, OffsetBufferAllocator.LargestFree, RoundDown, FloatToUint, FleetOf;
    ghost var n := |segs.views|;
    HeldSizes(segs, name);
    FleetSnoc(segs.views, Segment(name, capacity, map[]));
    segs.Mount(name, capacity);
    assert segs.Own(n);
    var a := segs.allocators[|segs.allocators| - 1];
    if capacity <= MAX_BIN_SIZE { a.EmptyLargest(); }
    b := a.Allocate(size);
  }

  lemma HeldSizes(segs: SegmentState, name: string)
    requires segs.Valid() && name in segs.Fleet()
    ensures segs.Fleet()[name].Valid()
  {
    hide OffsetBufferAllocator.Valid, OffsetBufferAllocator.Repr, FleetOf;
    FleetAt(segs.views, name);
    var i :| 0 <= i < |segs.views| && segs.views[i].name == name;
    assert segs.AllocatorOk(i);
    segs.allocators[i].ViewValid();
  }

  /** Two buffers have a byte in common. */
  ghost predicate Overlap(b: Buffer, c: Buffer) {
    b.segment == c.segment && b.offset < c.offset + c.size && c.offset < b.offset + b.size
  }
}
