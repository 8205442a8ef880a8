/**
  The op-log file and recovery from it, after a crash at any byte of the file.
 */
module OpLogRecovery {
  import opened Fleets
  import opened Frames
  import opened Masters
  import opened MasterInv
  import opened MasterSpec
  import opened OpLogs
  import opened Parts
  import opened Recovery
  import opened Segments

  /** An append-only log file. */
  class OpLog {
    const codec: Codec<Entry>
    var file: seq<Byte>
    /** What the file held when it was opened, and the entries appended since. */
    ghost const prior: seq<Byte>
    ghost var entries: seq<Entry>

    ghost predicate Valid()
      reads this
    {
      file == prior + Encode(codec, entries)
    }

    /** Open a file for appending; what it holds is kept. */
    constructor (codec: Codec<Entry>, file: seq<Byte>)
      ensures Valid() && entries == [] && this.codec == codec && this.file == prior == file
    {
      this.codec, this.file, prior := codec, file, file;
      entries := [];
    }

    /** On a file of whole frames that decode, old and new entries are read back in order. */
    lemma ReadsBack()
      requires Valid() && CodecOk(codec) && Legible(codec, prior) && AllFit(codec, entries)
      ensures Decode(codec, file) == Decode(codec, prior) + entries
    {
      hide CodecOk, AllFit, Decode, Encode, Legible;
      EncodedWhole(codec, entries);
      LegibleRest(codec, prior, Encode(codec, entries));
    }

    /**
      Behind a torn frame, entries are read back only when their bytes make that frame up,
      its checksum included; else all of them are lost, however many there are.
     */
    lemma TornLoses(base: seq<Byte>, torn: Entry, n: nat)
      requires Valid() && Legible(codec, base) && Fit(codec, torn) && n < |Frame(codec, torn)| && prior == base + Frame(codec, torn)[..n]
      ensures var more := Encode(codec, entries);
        if MadeUp(codec, torn, n, more) && codec.dec(Mixed(codec, torn, n, more)).Some? then
          Decode(codec, file) == Decode(codec, base) + [codec.dec(Mixed(codec, torn, n, more)).value]
            + Decode(codec, more[Swallowed(codec, torn, n, more)..])
        else
          Decode(codec, file) == Decode(codec, base)
    {
      hide Fit, Decode, DecodeSkipping, Frame, Legible, Encode, Mixed, Swallowed, Header, FromLe;
      var more := Encode(codec, entries);
      TornReads(codec, torn, n, more);
      hide MadeUp;
      LegibleRest(codec, base, Frame(codec, torn)[..n] + more);
      assert file == base + (Frame(codec, torn)[..n] + more);
    }

    method Append(e: Entry)
      requires Valid()
      modifies this
      ensures Valid() && entries == old(entries) + [e]
    {
      hide Frame;
      assert (entries + [e])[..|entries|] == entries;
      file := file + Frame(codec, e);
      entries := entries + [e];
    }
  }

  /** What a logged put comes back as: its identity, pins and replicas, used now and under no lease. */
  ghost predicate AsLogged(o: ObjectMeta, e: Entry, clock: nat)
    requires e.PutCommitted?
  {
    && o.identity == e.identity && o.softPinned == e.softPinned && o.hardPinned == e.hardPinned
    && o.leaseUntil == 0 && o.lastAccess == clock && o.replicas == Collected(e.replicas)
  }

  /** Apply one replayed entry to a master that has no op-log attached. Only a mount of a mounted name leaves it unsound. */
  method ApplyOp(m: MasterService, e: Entry) returns (r: Outcome<()>)
    requires m.Separate()
    modifies m.Repr()
    ensures m.segs.parts >= old(m.segs.parts) && fresh(m.segs.parts - old(m.segs.parts))
    ensures m.Separate() <==> !(e.SegmentMounted? && e.name in old(m.segs.Fleet()))
    ensures r.Ok? && m.Separate() ==> Replayed(old(m.View()), e) == Some(m.View())
    ensures r.Ok? && m.Separate() <==> Securable(old(m.View()), e)
    ensures r.Err? ==> e.PutCommitted?
    ensures m.heartbeats == match e
      case SegmentMounted(n, _) => old(m.heartbeats)[n := m.clock]
      case SegmentUnmounted(n) => if n in old(m.segs.Fleet()) then old(m.heartbeats) - {n} else old(m.heartbeats)
      case _ => old(m.heartbeats)
    ensures r.Ok? ==> match e
      case SegmentMounted(_, _) => m.objects == old(m.objects)
      case SegmentUnmounted(n) => if n in old(m.segs.Fleet()) then LeftSegment(old(m.objects), m.objects, n) else m.objects == old(m.objects)
      case RemovedEntry(k) => m.objects == old(m.objects) - {k}
      case PutCommitted(k, _, _, _, _) => m.objects - {k} == old(m.objects) - {k} && k in m.objects && AsLogged(m.objects[k], e, m.clock)
    ensures m.clock == old(m.clock) && m.segmentTtl == old(m.segmentTtl) && m.highWatermark == old(m.highWatermark)
    ensures m.evictionRatio == old(m.evictionRatio)
  {
    hide SegmentState.Valid, FleetOf, Fits, Secure, Exact, MemoryBuffers, Release, BuffersOf, Unmounted, Collected;
    match e {
      case SegmentMounted(n, cap) =>
        m.heartbeats := m.heartbeats[n := m.clock];
        m.segs.Mount(n, cap);
      case SegmentUnmounted(n) =>
        var i := m.segs.Find(n);
        if i < |m.segs.allocators| {
          UnmountedLeft(m.objects, n);
          m.objects := Unmounted(m.objects, n);
          m.segs.Unmount(n);
          m.heartbeats := m.heartbeats - {n};
        }
      case RemovedEntry(k) =>
        if k in m.objects {
          var replicas := m.objects[k].replicas;
          m.objects := m.objects - {k};
          m.segs.FreeReplicas(replicas);
        }
      case PutCommitted(k, who, rs, soft, hard) =>
        var one := ReserveReplicas(m.segs, rs);
        if one.Err? {
          return Err(one.error);
        }
        SecureFits(old(m.segs.Fleet()), MemoryBuffers(rs));
        m.segs.StartIdsAt(IdsAbove(m.segs.nextReplicaId, rs));
        m.objects := m.objects[k := ObjectMeta(Collected(rs), who, 0, m.clock, soft, hard)];
    }
    r := Ok(());
  }

  /** No entry mounts a name that is mounted already. */
  ghost predicate MountsOnce(log: seq<Entry>) {
    forall i :: 0 <= i < |log| && log[i].SegmentMounted? && Rebuilt(log[..i]).Some? ==> log[i].name !in Rebuilt(log[..i]).value.fleet
  }

  /** Apply one entry that can be applied: the mounted segments stay those heard of. */
  method ReplayOne(m: MasterService, e: Entry) returns (r: Outcome<()>)
    requires m.Separate() && HeardOf(m, m.clock) && (e.SegmentMounted? ==> e.name !in m.segs.Fleet())
    modifies m.Repr()
    ensures m.segs.parts >= old(m.segs.parts) && fresh(m.segs.parts - old(m.segs.parts)) && m.Separate()
    ensures r.Ok? <==> Securable(old(m.View()), e)
    ensures r.Ok? ==> Replayed(old(m.View()), e) == Some(m.View()) && HeardOf(m, m.clock)
    ensures m.clock == old(m.clock) && m.segmentTtl == old(m.segmentTtl) && m.highWatermark == old(m.highWatermark)
    ensures m.evictionRatio == old(m.evictionRatio)
  {
    hide SegmentState.Valid, FleetOf, Replayed, Securable;
    ghost var was := m.View();
    r := ApplyOp(m, e);
    if r.Ok? { ReplayedFleet(was, e, m.View()); }
  }

  /** Rebuild a master from the bytes of an op-log file. */
  method RecoverFromOplog(strategy: Strategy, codec: Codec<Entry>, bytes: seq<Byte>) returns (r: Outcome<MasterService>)
    requires MountsOnce(Decode(codec, bytes))
    ensures r.Ok? ==> fresh(r.value) && r.value.Separate() && Rebuilt(Decode(codec, bytes)) == Some(r.value.View())
    ensures r.Ok? <==> SecureLog(Decode(codec, bytes))
    ensures r.Ok? ==> r.value.segs.strategy == strategy && HeardOf(r.value, 0)
    ensures r.Ok? ==> r.value.segmentTtl == 0 && r.value.highWatermark == 0.95 && r.value.evictionRatio == 0.1 && fresh(r.value.Repr())
  {
    hide Inv, SegmentState.Valid, FleetOf, Replayed, Securable, Decode;
    var m := new MasterService(strategy);
    var entries := Replay(codec, bytes);
    assert HeardOf(m, 0);
    hide HeardOf;
    assert Rebuilt(entries[..0]) == Some(BLANK);
    for i := 0 to |entries|
      invariant m.Separate() && fresh(m) && fresh(m.Repr())
      invariant Rebuilt(entries[..i]) == Some(m.View()) && SecureLog(entries[..i])
      invariant m.segs.strategy == strategy && HeardOf(m, 0) && m.clock == 0
      invariant m.segmentTtl == 0 && m.highWatermark == 0.95 && m.evictionRatio == 0.1
    {
      assert entries[..i + 1][..i] == entries[..i];
      ghost var was := m.View();
      if SecureLog(entries) {
        SecureLogPrefix(entries, i + 1);
      }
      assert entries[i].SegmentMounted? ==> entries[i].name !in m.View().fleet;
      var one := ReplayOne(m, entries[i]);
      if one.Err? {
        return Err(one.error);
      }
    }
    assert entries[..|entries|] == entries;
    r := Ok(m);
  }

  /** Which segments an entry leaves mounted. */
  lemma ReplayedFleet(s: State, e: Entry, t: State)
    requires Replayed(s, e) == Some(t)
    ensures match e
      case SegmentMounted(n, _) => t.fleet.Keys == s.fleet.Keys + {n}
      case SegmentUnmounted(n) => t.fleet.Keys == s.fleet.Keys - {n}
      case _ => t.fleet.Keys == s.fleet.Keys
  {
    hide Fits, MemoryBuffers, BuffersOf, Collected, IdsAbove, Unmounted;
    match e
    case PutCommitted(_, _, rs, _, _) => ExactKeys(s.fleet, MemoryBuffers(rs));
    case _ =>
  }

  lemma NothingMounted()
    ensures MountsOnce([])
  {
  }

  lemma {:induction false} MountsSnoc(log: seq<Entry>, e: Entry)
    requires MountsOnce(log) && (e.SegmentMounted? && Rebuilt(log).Some? ==> e.name !in Rebuilt(log).value.fleet)
    ensures MountsOnce(log + [e])
  {
    hide Rebuilt;
    var all := log + [e];
    forall i | 0 <= i < |all| && all[i].SegmentMounted? && Rebuilt(all[..i]).Some? ensures all[i].name !in Rebuilt(all[..i]).value.fleet {
      if i < |log| { assert all[..i] == log[..i] && all[i] == log[i]; } else { assert all[..i] == log; }
    }
  }

  lemma {:induction false} MountsPrefix(log: seq<Entry>, j: nat)
    requires MountsOnce(log) && j <= |log|
    ensures MountsOnce(log[..j])
  {
    hide Rebuilt;
    forall i | 0 <= i < j && log[..j][i].SegmentMounted? && Rebuilt(log[..j][..i]).Some?
      ensures log[..j][i].name !in Rebuilt(log[..j][..i]).value.fleet
    {
      assert log[..j][..i] == log[..i] && log[..j][i] == log[i];
    }
  }

  lemma MountsStep(s: State, c: Change)
    requires Inv(s) && Agree(s) && Enabled(s, c) && MountsOnce(s.log)
    ensures MountsOnce(Apply(s, c).log)
  {
    hide Inv, MountsOnce, Rebuilt, Mirrors, Forget;
    match c
    case Mount(n, cap) =>
      MountMirrors(s, n, cap, Rebuilt(s.log).value);
      MountsSnoc(s.log, SegmentMounted(n, cap));
    case Unmount(n) => MountsSnoc(s.log, SegmentUnmounted(n));
    case Remove(k) =>
      ForgetLog(s, k);
      MountsSnoc(s.log, RemovedEntry(k));
    case Commit(k, order) =>
      var o := s.objects[k];
      MountsSnoc(s.log, PutCommitted(k, o.identity, order, o.softPinned, o.hardPinned));
    case Drop(k) => ForgetLog(s, k);
    case _ =>
  }

  /** The log of a durable run never mounts a name twice without an unmount. */
  lemma {:induction false} RunMounts(s: State, cs: seq<Change>)
    requires Inv(s) && Agree(s) && Path(s, cs) && DurableRun(s, cs) && MountsOnce(s.log)
    ensures MountsOnce(Run(s, cs).log)
    decreases |cs|
  {
    hide Inv, Agree, Durable, MountsOnce;
    if cs != [] {
      ApplyInv(s, cs[0]);
      DurableStep(s, cs[0]);
      MountsStep(s, cs[0]);
      RunMounts(Apply(s, cs[0]), cs[1..]);
    }
  }

  /**
    A crash at any byte of the op-log of any durable run: what is read back is the
    log of some point of the run, and replaying it yields exactly the objects that
    could be read there.
   */
  lemma CrashSafe(cs: seq<Change>, codec: Codec<Entry>, cut: nat) returns (i: nat)
    requires CodecOk(codec) && Path(BLANK, cs) && DurableRun(BLANK, cs)
    requires AllFit(codec, Run(BLANK, cs).log) && cut <= |Encode(codec, Run(BLANK, cs).log)|
    ensures var got := Decode(codec, Encode(codec, Run(BLANK, cs).log)[..cut]);
      && MountsOnce(got) && (RoomyRun(BLANK, cs) ==> SecureLog(got))
      && i <= |cs| && Path(BLANK, cs[..i]) && Run(BLANK, cs[..i]).log == got
      && |got| == WholeFrames(codec, Run(BLANK, cs).log, cut)
      && Rebuilt(got).Some? && Mirrors(Run(BLANK, cs[..i]), Rebuilt(got).value) && Inv(Rebuilt(got).value)
  {
    hide Decode, Encode, WholeFrames, DurableRun, RoomyRun, Mirrors, Inv, SecureLog, Rebuilt, MountsOnce, CodecOk, AllFit;
    var log := Run(BLANK, cs).log;
    CutDecodes(codec, log, cut);
    var j := WholeFrames(codec, log, cut);
    BlankAgrees();
    i := PrefixAgrees(BLANK, cs, j);
    assert SecureLog(BLANK.log) by { NothingSecure(); }
    if RoomyRun(BLANK, cs) {
      RunSecure(BLANK, cs);
      SecureLogPrefix(log, j);
    }
    assert MountsOnce(BLANK.log) by { NothingMounted(); }
    RunMounts(BLANK, cs);
    MountsPrefix(log, j);
    RunInv(BLANK, cs[..i]);
    MirrorInv(Run(BLANK, cs[..i]), Rebuilt(log[..j]).value);
  }

  /**
    Recovery from an op-log cut at any byte, and a read: it succeeds exactly for the
    objects that could be read at the point of the run the log reaches, and for the
    identity they were put under.
   */
  method RecoverAndRead(strategy: Strategy, codec: Codec<Entry>, bytes: seq<Byte>, key: string, requester: Identity,
      ghost cs: seq<Change>, ghost cut: nat)
      returns (m: Outcome<MasterService>, r: Outcome<seq<Replica>>, ghost i: nat)
    requires CodecOk(codec) && Path(BLANK, cs) && DurableRun(BLANK, cs) && AllFit(codec, Run(BLANK, cs).log)
    requires cut <= |Encode(codec, Run(BLANK, cs).log)| && bytes == Encode(codec, Run(BLANK, cs).log)[..cut]
    ensures i <= |cs| && Path(BLANK, cs[..i]) && Run(BLANK, cs[..i]).log == Decode(codec, bytes)
    ensures RoomyRun(BLANK, cs) ==> m.Ok?
    ensures m.Ok? ==>
      var objects := Run(BLANK, cs[..i]).objects;
      && (r.Ok? <==> Visible(objects, key) && objects[key].identity == requester)
      && (r.Ok? ==> Lists(r.value, objects[key].replicas))
  {
    hide CodecOk, AllFit, Path, Run, DurableRun, RoomyRun, Encode, Decode, SecureLog, Rebuilt, Inv, Mirrors;
    hide SegmentState.Valid, FleetOf, Visible, MountsOnce;
    hide Alive, Readable, Lists;
    i := CrashSafe(cs, codec, cut);
    m := RecoverFromOplog(strategy, codec, bytes);
    r := Err(ObjectNotFound);
    if m.Ok? {
      ghost var s, t := Run(BLANK, cs[..i]), m.value.View();
      RunInv(BLANK, cs[..i]);
      MirrorRead(s, t, m.value.heartbeats, key);
      r := m.value.GetReplicaList(key, requester);
    }
  }

  /** Of a mirrored state just the visible objects have replicas, and all of those can be reached. */
  lemma {:induction false} MirrorRead(s: State, t: State, heartbeats: map<string, nat>, key: string)
    requires Inv(s) && Inv(t) && Mirrors(s, t) && heartbeats.Keys == t.fleet.Keys
    ensures Visible(s.objects, key) ==>
      && key in t.objects && t.objects[key].identity == s.objects[key].identity && t.objects[key].replicas == s.objects[key].replicas
      && Readable(t.objects[key].replicas, Alive(heartbeats, 0, t.clock)) == t.objects[key].replicas && t.objects[key].replicas != map[]
    ensures key in t.objects && !Visible(s.objects, key) ==> t.objects[key].replicas == map[]
    ensures forall id :: key in t.objects && id in t.objects[key].replicas ==> Reachable(t.objects[key].replicas[id], heartbeats, 0, t.clock)
  {
    hide Part, VisiblePairs, Alive, Readable, Reachable;
    if Visible(s.objects, key) {
      AllReachable(s, t, heartbeats, key);
      ReadableMeans(t.objects[key].replicas, heartbeats, 0, t.clock);
    }
  }

  lemma AllReachable(s: State, t: State, heartbeats: map<string, nat>, key: string)
    requires Inv(s) && Inv(t) && heartbeats.Keys == t.fleet.Keys && Visible(s.objects, key)
    requires key in t.objects && t.objects[key].replicas == s.objects[key].replicas
    ensures t.objects[key].replicas != map[]
    ensures forall id :: id in t.objects[key].replicas ==> Reachable(t.objects[key].replicas[id], heartbeats, 0, t.clock)
  {
    var o := t.objects[key];
    assert ReplicasOk(o.replicas, s.nextId) && Backed(t.objects, t.fleet);
    var some :| some in o.replicas && o.replicas[some].status == Complete;
    hide Inv;
    forall id | id in o.replicas ensures Reachable(o.replicas[id], heartbeats, 0, t.clock) {
      assert BufferHeld(o.replicas[id].data.buffer, t.fleet);
    }
  }

  lemma NothingSecure()
    ensures SecureLog([])
  {
  }
}
