/**
  Exact ranges and who owns them: reserving the buffers of some of the objects
  rebuilds exactly the part of the fleet those objects own.
 */
module Parts {
  import opened Buffers
  import opened Fleets
  import opened MasterSpec
  import opened Segments
  import opened SmallFloat

  // ---- reserving a row of ranges ----

  /** The memory buffers of a row of replicas, in order. */
  ghost function MemoryBuffers(replicas: seq<Replica>): seq<Buffer> {
    if replicas == [] then []
    else
      var n := |replicas| - 1;
      var before := MemoryBuffers(replicas[..n]);
      if replicas[n].data.Memory? then before + [replicas[n].data.buffer] else before
  }

  /** The fleet with every buffer of `bs` held, exactly. */
  ghost function Exact(f: map<string, Segment>, bs: seq<Buffer>): map<string, Segment> {
    if bs == [] then f
    else
      var n := |bs| - 1;
      var before := Exact(f, bs[..n]);
      if bs[n].segment in before then Hold1(before, bs[n], bs[n].size) else before
  }

  /** Each buffer of `bs` in turn names a mounted segment and a free range of it. */
  ghost predicate Fits(f: map<string, Segment>, bs: seq<Buffer>) {
    bs != [] ==>
      var n := |bs| - 1;
      Fits(f, bs[..n]) && RangeFree(Exact(f, bs[..n]), bs[n])
  }

  /** Each buffer of `bs` in turn can be reserved: its range is free and there are nodes for it. */
  ghost predicate Secure(f: map<string, Segment>, bs: seq<Buffer>) {
    bs != [] ==>
      var n := |bs| - 1;
      Secure(f, bs[..n]) && RangeFree(Exact(f, bs[..n]), bs[n]) && NodesToSpare(Exact(f, bs[..n])[bs[n].segment])
  }

  /** A row of replicas as the list the master keeps. */
  function Collected(replicas: seq<Replica>): ReplicaList {
    if replicas == [] then map[]
    else
      var n := |replicas| - 1;
      Collected(replicas[..n])[replicas[n].id := replicas[n]]
  }

  lemma ListsButLast(order: seq<Replica>, replicas: ReplicaList)
    requires Lists(order, replicas) && order != []
    ensures var n := |order| - 1; Lists(order[..n], replicas - {order[n].id})
  {
    var n := |order| - 1;
    var less := replicas - {order[n].id};
    forall id | id in less ensures exists i :: 0 <= i < n && order[..n][i].id == id {
      var i :| 0 <= i < |order| && order[i].id == id;
      assert order[..n][i].id == id;
    }
  }

  lemma {:induction false} CollectedLists(order: seq<Replica>, replicas: ReplicaList)
    requires Lists(order, replicas)
    ensures Collected(order) == replicas
  {
    if order == [] {
      assert replicas == map[];
    } else {
      var n := |order| - 1;
      ListsButLast(order, replicas);
      CollectedLists(order[..n], replicas - {order[n].id});
      assert order[n].id in replicas && replicas[order[n].id] == order[n];
      hide Lists;
      assert (replicas - {order[n].id})[order[n].id := order[n]] == replicas;
    }
  }

  lemma {:induction false} Start(f: map<string, Segment>, replicas: seq<Replica>)
    ensures Fits(f, MemoryBuffers(replicas[..0])) && f == Exact(f, MemoryBuffers(replicas[..0])) && Secure(f, MemoryBuffers(replicas[..0]))
  {
  }

  lemma {:induction false} Next(f: map<string, Segment>, replicas: seq<Replica>, i: nat)
    requires i < |replicas|
    ensures var bs, bs' := MemoryBuffers(replicas[..i]), MemoryBuffers(replicas[..i + 1]);
      && (replicas[i].data.Disk? ==> bs' == bs)
      && (replicas[i].data.Memory? ==>
        && (Fits(f, bs') <==> Fits(f, bs) && RangeFree(Exact(f, bs), replicas[i].data.buffer))
        && (Secure(f, bs') <==>
          && Secure(f, bs) && RangeFree(Exact(f, bs), replicas[i].data.buffer)
          && NodesToSpare(Exact(f, bs)[replicas[i].data.buffer.segment]))
        && (RangeFree(Exact(f, bs), replicas[i].data.buffer) ==>
          Exact(f, bs') == Hold1(Exact(f, bs), replicas[i].data.buffer, replicas[i].data.buffer.size)))
    ensures var bs := MemoryBuffers(replicas[..i]);
      Secure(f, MemoryBuffers(replicas)) && replicas[i].data.Memory? ==>
        RangeFree(Exact(f, bs), replicas[i].data.buffer) && NodesToSpare(Exact(f, bs)[replicas[i].data.buffer.segment])
    ensures Secure(f, MemoryBuffers(replicas)) ==> Secure(f, MemoryBuffers(replicas[..i + 1]))
  {
    hide Exact, Segment.Free, NodesToSpare;
    assert replicas[..i + 1][..i] == replicas[..i];
    if replicas[i].data.Memory? {
      BuffersTake(replicas[..i], replicas[i].data.buffer);
      ExactSnoc(f, MemoryBuffers(replicas[..i]), replicas[i].data.buffer);
    }
    if Secure(f, MemoryBuffers(replicas)) { SecurePrefix(f, replicas, i + 1); }
  }

  lemma {:induction false} BuffersTake(replicas: seq<Replica>, b: Buffer)
    ensures (MemoryBuffers(replicas) + [b])[..|MemoryBuffers(replicas)|] == MemoryBuffers(replicas)
  {
  }

  lemma {:induction false} ExactSnoc(f: map<string, Segment>, bs: seq<Buffer>, b: Buffer)
    ensures Exact(f, bs + [b]) == if b.segment in Exact(f, bs) then Hold1(Exact(f, bs), b, b.size) else Exact(f, bs)
  {
    assert (bs + [b])[..|bs|] == bs;
  }

  lemma {:induction false} SecurePrefix(f: map<string, Segment>, replicas: seq<Replica>, i: nat)
    requires Secure(f, MemoryBuffers(replicas)) && i <= |replicas|
    ensures Secure(f, MemoryBuffers(replicas[..i]))
  {
    hide Exact, Segment.Free;
    if i < |replicas| {
      var n := |replicas| - 1;
      if replicas[n].data.Memory? { BuffersTake(replicas[..n], replicas[n].data.buffer); }
      SecurePrefix(f, replicas[..n], i);
      assert replicas[..n][..i] == replicas[..i];
    } else {
      assert replicas[..i] == replicas;
    }
  }

  lemma {:induction false} ExactShape(f: map<string, Segment>, bs: seq<Buffer>)
    ensures Exact(f, bs).Keys == f.Keys
    ensures forall n :: n in f ==> Exact(f, bs)[n].capacity == f[n].capacity && Exact(f, bs)[n].name == f[n].name
  {
    if bs != [] { ExactShape(f, bs[..|bs| - 1]); }
  }

  // ---- the part of a fleet that some replicas own ----

  /** One of the replicas `who` owns the range at `o` of segment `n`. */
  ghost predicate OwnedBy(objects: map<string, ObjectMeta>, who: set<(string, nat)>, n: string, o: nat) {
    exists p :: p in who && Owns(objects, p.0, p.1, n, o)
  }

  /** What the fleet holds for the replicas `who`, each range cut to its size. */
  ghost function Part(s: State, who: set<(string, nat)>): map<string, Segment> {
    map n | n in s.fleet :: s.fleet[n].(holds := PartHolds(s, who, n))
  }

  ghost function PartHolds(s: State, who: set<(string, nat)>, n: string): map<nat, Hold>
    requires n in s.fleet
  {
    map o | o in s.fleet[n].holds && OwnedBy(s.objects, who, n, o) :: Hold(s.fleet[n].holds[o].size, s.fleet[n].holds[o].size)
  }

  /** Every segment's pool has nodes to spare, however its buffers lie. */
  ghost predicate Roomy(fleet: map<string, Segment>) {
    forall n :: n in fleet ==> 2 * |fleet[n].holds| + 4 <= MAX_NODES
  }

  /** The replicas of a row sit on segments of at most 3.75 GiB. */
  ghost predicate RowUnscaled(fleet: map<string, Segment>, order: seq<Replica>) {
    forall j :: 0 <= j < |order| && order[j].data.Memory? && order[j].data.buffer.segment in fleet ==>
      fleet[order[j].data.buffer.segment].capacity <= MAX_BIN_SIZE
  }

  /** Segments in use are at most 3.75 GiB, so their sizes go unscaled. */
  ghost predicate Unscaled(fleet: map<string, Segment>) {
    forall n :: n in fleet && fleet[n].holds != map[] ==> fleet[n].capacity <= MAX_BIN_SIZE
  }

  lemma NobodyOwns(s: State)
    ensures Part(s, {}) == map n | n in s.fleet :: s.fleet[n].(holds := map[])
  {
    forall n | n in s.fleet ensures PartHolds(s, {}, n) == map[] {
    }
  }

  /** A replica's buffer is held in a sound segment, and it owns it. */
  lemma ReplicaHeld(s: State, k: string, id: nat)
    requires Inv(s) && k in s.objects && id in s.objects[k].replicas
    ensures s.objects[k].replicas[id].data.Memory?
    ensures var b := s.objects[k].replicas[id].data.buffer;
      && BufferHeld(b, s.fleet) && s.fleet[b.segment].Valid()
      && Owns(s.objects, k, id, b.segment, b.offset)
  {
    assert ReplicasOk(s.objects[k].replicas, s.nextId);
  }

  lemma SoleOwner(s: State, k: string, id: nat, k': string, id': nat, n: string, o: nat)
    requires Inv(s) && Owns(s.objects, k, id, n, o) && Owns(s.objects, k', id', n, o)
    ensures k == k' && id == id'
  {
  }

  /** The range of a replica that is not in `who` is free in their part. */
  lemma PartFree(s: State, who: set<(string, nat)>, k: string, id: nat)
    requires Inv(s) && k in s.objects && id in s.objects[k].replicas && (k, id) !in who
    ensures s.objects[k].replicas[id].data.Memory?
    ensures s.objects[k].replicas[id].data.buffer.segment in s.fleet
    ensures s.fleet[s.objects[k].replicas[id].data.buffer.segment].capacity <= MAX_BIN_SIZE ==>
      RangeFree(Part(s, who), s.objects[k].replicas[id].data.buffer)
    ensures Roomy(s.fleet) ==>
      && s.objects[k].replicas[id].data.buffer.segment in Part(s, who)
      && NodesToSpare(Part(s, who)[s.objects[k].replicas[id].data.buffer.segment])
  {
    hide Inv;
    ReplicaHeld(s, k, id);
    var b := s.objects[k].replicas[id].data.buffer;
    var n, seg := b.segment, s.fleet[b.segment];
    forall o | o in PartHolds(s, who, n) ensures o != b.offset && (o + seg.holds[o].size <= b.offset || b.offset + b.size <= o) {
      var p :| p in who && Owns(s.objects, p.0, p.1, n, o);
      if o == b.offset { SoleOwner(s, k, id, p.0, p.1, n, o); }
    }
    SubsetSize(PartHolds(s, who, n).Keys, seg.holds.Keys);
    GapsBound(PartHolds(s, who, n), seg.capacity);
  }

  /** One more owner is one more range held. */
  lemma PartStep(s: State, who: set<(string, nat)>, k: string, id: nat)
    requires Inv(s) && k in s.objects && id in s.objects[k].replicas
    ensures s.objects[k].replicas[id].data.Memory? && s.objects[k].replicas[id].data.buffer.segment in Part(s, who)
    ensures var b := s.objects[k].replicas[id].data.buffer; Part(s, who + {(k, id)}) == Hold1(Part(s, who), b, b.size)
  {
    hide Inv, PartHolds;
    ReplicaHeld(s, k, id);
    var b := s.objects[k].replicas[id].data.buffer;
    forall n | n in s.fleet ensures PartHolds(s, who + {(k, id)}, n) ==
      if n == b.segment then PartHolds(s, who, n)[b.offset := Hold(b.size, b.size)] else PartHolds(s, who, n)
    {
      PartHoldsStep(s, who, k, id, n);
    }
  }

  lemma PartHoldsStep(s: State, who: set<(string, nat)>, k: string, id: nat, n: string)
    requires k in s.objects && id in s.objects[k].replicas && s.objects[k].replicas[id].data.Memory? && n in s.fleet
    requires BufferHeld(s.objects[k].replicas[id].data.buffer, s.fleet)
    ensures var b := s.objects[k].replicas[id].data.buffer;
      PartHolds(s, who + {(k, id)}, n) == if n == b.segment then PartHolds(s, who, n)[b.offset := Hold(b.size, b.size)] else PartHolds(s, who, n)
  {
    hide OwnedBy;
    var b := s.objects[k].replicas[id].data.buffer;
    forall o | o in s.fleet[n].holds
      ensures OwnedBy(s.objects, who + {(k, id)}, n, o) <==> OwnedBy(s.objects, who, n, o) || (n == b.segment && o == b.offset)
    {
      OwnedMore(s.objects, who, k, id, n, o);
    }
  }

  lemma OwnedMore(objects: map<string, ObjectMeta>, who: set<(string, nat)>, k: string, id: nat, n: string, o: nat)
    ensures OwnedBy(objects, who + {(k, id)}, n, o) <==> OwnedBy(objects, who, n, o) || Owns(objects, k, id, n, o)
  {
    if Owns(objects, k, id, n, o) {
      assert (k, id) in who + {(k, id)} && Owns(objects, (k, id).0, (k, id).1, n, o);
    }
    if OwnedBy(objects, who, n, o) {
      var p :| p in who && Owns(objects, p.0, p.1, n, o);
      assert p in who + {(k, id)};
    }
  }

  /** The replicas of one object, as owners. */
  ghost function Pairs(k: string, order: seq<Replica>): set<(string, nat)> {
    set i | 0 <= i < |order| :: (k, order[i].id)
  }

  lemma PairsSnoc(k: string, order: seq<Replica>, i: nat)
    requires i < |order|
    ensures Pairs(k, order[..i + 1]) == Pairs(k, order[..i]) + {(k, order[i].id)}
  {
    assert order[..i + 1] == order[..i] + [order[i]];
    forall p | p in Pairs(k, order[..i]) ensures p in Pairs(k, order[..i + 1]) {
      var j :| 0 <= j < i && p == (k, order[..i][j].id);
      assert order[..i + 1][j].id == order[..i][j].id;
    }
    assert (k, order[..i + 1][i].id) in Pairs(k, order[..i + 1]);
  }

  /** Reserving the replicas of one more object adds it to the part, and cannot fail. */
  lemma {:induction false} PartRow(s: State, who: set<(string, nat)>, k: string, order: seq<Replica>, i: nat)
    requires Inv(s) && k in s.objects && i <= |order|
    requires forall j :: 0 <= j < |order| ==> order[j].id in s.objects[k].replicas && order[j].data == s.objects[k].replicas[order[j].id].data
    requires forall j, l :: 0 <= j < l < |order| ==> order[j].id != order[l].id
    requires (forall id :: (k, id) !in who) && RowUnscaled(s.fleet, order)
    ensures Fits(Part(s, who), MemoryBuffers(order[..i]))
    ensures Roomy(s.fleet) ==> Secure(Part(s, who), MemoryBuffers(order[..i]))
    ensures Exact(Part(s, who), MemoryBuffers(order[..i])) == Part(s, who + Pairs(k, order[..i]))
  {
    hide Inv, Part, RangeFree, NodesToSpare, Pairs, Roomy;
    var f := Part(s, who);
    if i == 0 {
      assert Pairs(k, order[..0]) == {} by { PairsNone(k, order); }
      assert who + {} == who;
    } else {
      PartRow(s, who, k, order, i - 1);
      var r, before := order[i - 1], order[..i - 1];
      assert order[..i][..i - 1] == before;
      PairsSnoc(k, order, i - 1);
      NotPaired(who, k, order, i - 1);
      var now := who + Pairs(k, before);
      assert who + Pairs(k, order[..i]) == now + {(k, r.id)};
      PartFree(s, now, k, r.id);
      PartStep(s, now, k, r.id);
      BuffersTake(before, r.data.buffer);
    }
  }

  lemma PairsNone(k: string, order: seq<Replica>)
    ensures Pairs(k, order[..0]) == {}
  {
  }

  lemma NotPaired(who: set<(string, nat)>, k: string, order: seq<Replica>, i: nat)
    requires i < |order| && (forall id :: (k, id) !in who) && forall j, l :: 0 <= j < l < |order| ==> order[j].id != order[l].id
    ensures (k, order[i].id) !in who + Pairs(k, order[..i])
  {
  }
}
