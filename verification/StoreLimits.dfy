/**
  Runs that show where the block store stops short: an overwritten block whose file
  number is given out again after a restart, and records behind a torn one.
 */
module StoreLimits {
  import opened Blocks
  import opened Frames
  import opened KvStores
  import opened Segments
  import opened Wal

  /** A disk whose one live commit names a file that is gone. */
  ghost predicate Stale(codec: Codec<Record>, d: Disk, k: BlockKey, data: seq<Byte>) {
    d.wal == Encode(codec, [CommitOf(codec, k, 1, data)]) && 1 !in d.files
  }

  function StaleLog(codec: Codec<Record>, k: BlockKey, data: seq<Byte>): Log {
    Log([], [CommitOf(codec, k, 1, data)])
  }

  lemma {:induction false} StaleLive(codec: Codec<Record>, k: BlockKey, data: seq<Byte>)
    ensures LiveIn(codec, StaleLog(codec, k, data)) == map[k := Pointer(1, |data|, codec.crc(data))]
    ensures Kept(codec, Encode(codec, [CommitOf(codec, k, 1, data)]), StaleLog(codec, k, data))
  {
    LiveAdd(codec, Log([], []), CommitOf(codec, k, 1, data));
    NoneLive();
    TooShort(codec, []);
    assert [] + [CommitOf(codec, k, 1, data)] == [CommitOf(codec, k, 1, data)];
  }

  /** Spill a block, overwrite it, and stop: the disk left is stale and cannot be gone on from. */
  method OverwriteRun(codec: Codec<Record>, k: BlockKey, data: seq<Byte>, other: seq<Byte>) returns (store: LocalKvStore)
    requires CodecOk(codec) && Fit(codec, CommitOf(codec, k, 1, data))
    ensures store.Valid() && store.Sized() && store.codec == codec && store.Contents() == map[k := other]
    ensures Stale(codec, store.disk, k, data) && !Resumable(codec, store.disk)
  {
    hide CodecOk, AllFit, Fit, TiersOk, HashesOk, DurableOk, TierBytes, CrashAtomic, Served, ContentsOf;
    hide Stale, Resumable, CommitOf, SpillSteps, DiskAfter;
    store := new LocalKvStore(codec, map[], |data| + |other|, |data| + |other|);
    var _ := store.PutDram(k, data);
    TierOf(store.dram, store.ssd, store.meta, store.disk.files, k);
    assert store.Contents()[k] == data;
    var ok, _ := store.DemoteToSsd(k);
    assert store.log == StaleLog(codec, k, data);
    TierOf(store.dram, store.ssd, store.meta, store.disk.files, k);
    SpilledTo(codec, store.disk, store.nextFile, store.ssd, k, data);
    ghost var before := store.disk;
    ghost var steps := store.PutDram(k, other);
    TwoSteps(codec, before, DeleteFile(1), DeleteFile(1));
    StaleStore(codec, store.disk, store.nextFile, store.dram, store.ssd, store.meta, k, data);
  }

  lemma {:induction false} SpilledTo(codec: Codec<Record>, disk: Disk, nextFile: nat, ssd: map<BlockKey, nat>, k: BlockKey, data: seq<Byte>)
    requires DurableOk(codec, disk, StaleLog(codec, k, data), nextFile, ssd) && k in ssd
    ensures ssd[k] == 1
  {
    StaleLive(codec, k, data);
  }

  lemma {:induction false} StaleStore(codec: Codec<Record>, disk: Disk, nextFile: nat, dram: map<BlockKey, seq<Byte>>,
      ssd: map<BlockKey, nat>, meta: Metas, k: BlockKey, data: seq<Byte>)
    requires CodecOk(codec) && Fit(codec, CommitOf(codec, k, 1, data)) && 1 !in disk.files
    requires TiersOk(dram, ssd, meta, disk.files) && DurableOk(codec, disk, StaleLog(codec, k, data), nextFile, ssd)
    requires meta.Keys == {k} && meta[k].tier == CpuDram
    ensures AllFit(codec, StaleLog(codec, k, data).added) && Stale(codec, disk, k, data) && !Resumable(codec, disk)
  {
    var log := StaleLog(codec, k, data);
    StaleLive(codec, k, data);
    assert disk.wal == Encode(codec, log.added);
    hide CodecOk, TiersOk, Resumable, Encode, LiveIn, Fit, Verified;
    forall l ensures l !in ssd { TierOf(dram, ssd, meta, disk.files, l); }
    ResumesIff(codec, disk, log, nextFile, ssd);
    assert k in LiveIn(codec, log) && k !in ssd && !Covered(1, ssd);
  }

  /**
    From such a disk recovery's counter is 0, so the next block spilled, if it has the
    same bytes, brings the overwritten one back in the middle of its own spilling.
    Both then name one file, and dropping the first takes the bytes of the second.
   */
  lemma {:induction false} StaleReturns(codec: Codec<Record>, d: Disk, k: BlockKey, l: BlockKey, data: seq<Byte>)
    requires CodecOk(codec) && Stale(codec, d, k, data) && k != l
    requires AllFit(codec, [CommitOf(codec, k, 1, data), CommitOf(codec, l, 1, data), Tombstone(k)])
    ensures Counter(codec, Live(DecodeSkipping(codec, d.wal)), d.files, 0) && Served(codec, d) == map[]
    ensures Served(codec, Stepped(codec, d, WriteFile(1, data))) == map[k := data]
    ensures !CrashAtomic(codec, d, SpillSteps(codec, l, 1, data))
    ensures var e := DiskAfter(codec, d, SpillSteps(codec, l, 1, data));
      Served(codec, e) == map[k := data, l := data] && Served(codec, DiskAfter(codec, e, DropSteps(k, 1))) == map[]
  {
    hide CodecOk, Encode, DecodeSkipping, Fit, AllFit, CrashAtomic, Served, ServedBy, DiskAfter, Live, Counter;
    var c, x := CommitOf(codec, k, 1, data), CommitOf(codec, l, 1, data);
    assert [c] + [x] == [c, x] && [c, x] + [Tombstone(k)] == [c, x, Tombstone(k)];
    FitSnoc(codec, [c], x);
    FitSnoc(codec, [c, x], Tombstone(k));
    StaleServes(codec, d, k, data);
    StaleShares(codec, d, k, l, data);
    StaleTorn(codec, d, k, l, data);
  }

  /** What is served before the steps and between them. */
  lemma {:induction false} StaleServes(codec: Codec<Record>, d: Disk, k: BlockKey, data: seq<Byte>)
    requires CodecOk(codec) && Stale(codec, d, k, data) && AllFit(codec, [CommitOf(codec, k, 1, data)])
    ensures Counter(codec, Live(DecodeSkipping(codec, d.wal)), d.files, 0) && Served(codec, d) == map[]
    ensures Served(codec, Stepped(codec, d, WriteFile(1, data))) == map[k := data]
  {
    hide CodecOk, Encode, DecodeSkipping, Fit, AllFit, Live, LiveIn, ServedBy, Counter;
    StaleLive(codec, k, data);
    WholeLog(codec, d.wal, StaleLog(codec, k, data));
    OneFile(codec, map[k := Pointer(1, |data|, codec.crc(data))], d.files, data);
    OneFile(codec, map[k := Pointer(1, |data|, codec.crc(data))], d.files[1 := data], data);
  }

  /** What is served after them, and after the first block is dropped. */
  lemma {:induction false} StaleShares(codec: Codec<Record>, d: Disk, k: BlockKey, l: BlockKey, data: seq<Byte>)
    requires CodecOk(codec) && Stale(codec, d, k, data) && k != l
    requires AllFit(codec, [CommitOf(codec, k, 1, data)] + [CommitOf(codec, l, 1, data)] + [Tombstone(k)])
    ensures var e := DiskAfter(codec, d, SpillSteps(codec, l, 1, data));
      Served(codec, e) == map[k := data, l := data] && Served(codec, DiskAfter(codec, e, DropSteps(k, 1))) == map[]
  {
    var log, x, t := StaleLog(codec, k, data), CommitOf(codec, l, 1, data), Tombstone(k);
    var p := Pointer(1, |data|, codec.crc(data));
    var ss := SpillSteps(codec, l, 1, data);
    hide Frame, CodecOk, Encode, Fit, AllFit, LiveIn, ServedBy, Served, Kept;
    FitSnoc(codec, log.added + [x], t);
    StaleLive(codec, k, data);
    var m := Stepped(codec, d, WriteFile(1, data));
    TwoSteps(codec, d, WriteFile(1, data), AppendRecord(x));
    Appended(codec, m, log, x);
    var e := DiskAfter(codec, d, ss);
    OneFile(codec, map[k := p, l := p], m.files, data);
    StaleDrops(codec, e, log.Add(x), k, l, data);
  }

  lemma {:induction false} StaleDrops(codec: Codec<Record>, e: Disk, log: Log, k: BlockKey, l: BlockKey, data: seq<Byte>)
    requires CodecOk(codec) && AllFit(codec, log.added + [Tombstone(k)]) && Kept(codec, e.wal, log)
    requires LiveIn(codec, log) == map[k := Pointer(1, |data|, codec.crc(data)), l := Pointer(1, |data|, codec.crc(data))]
    ensures Served(codec, DiskAfter(codec, e, DropSteps(k, 1))) == map[]
  {
    hide Frame, CodecOk, Encode, Fit, AllFit, LiveIn, ServedBy, Served, Kept;
    TwoSteps(codec, e, AppendRecord(Tombstone(k)), DeleteFile(1));
    Appended(codec, e, log, Tombstone(k));
    var f := DiskAfter(codec, e, DropSteps(k, 1));
    ServedWhole(codec, f, log.Add(Tombstone(k)));
    OneFile(codec, LiveIn(codec, log) - {k}, f.files, data);
  }

  lemma {:induction false} ServedWhole(codec: Codec<Record>, d: Disk, log: Log)
    requires CodecOk(codec) && AllFit(codec, log.added) && Kept(codec, d.wal, log)
    ensures Served(codec, d) == ServedBy(codec, LiveIn(codec, log), d.files)
  {
    WholeLog(codec, d.wal, log);
  }

  /** Commits that all name one file serve its bytes if it is there, and nothing if not. */
  lemma OneFile(codec: Codec<Record>, live: map<BlockKey, Pointer>, files: map<nat, seq<Byte>>, data: seq<Byte>)
    requires forall k :: k in live ==> live[k] == Pointer(1, |data|, codec.crc(data))
    requires 1 in files ==> files[1] == data
    ensures ServedBy(codec, live, files) == if 1 in files then map k | k in live :: data else map[]
    ensures 1 !in files ==> Counter(codec, live, files, 0)
  {
  }

  lemma {:induction false} StaleTorn(codec: Codec<Record>, d: Disk, k: BlockKey, l: BlockKey, data: seq<Byte>)
    requires k != l && Served(codec, d) == map[] && Served(codec, Stepped(codec, d, WriteFile(1, data))) == map[k := data]
    requires Served(codec, DiskAfter(codec, d, SpillSteps(codec, l, 1, data))) == map[k := data, l := data]
    ensures !CrashAtomic(codec, d, SpillSteps(codec, l, 1, data))
  {
    var ss, m := SpillSteps(codec, l, 1, data), Stepped(codec, d, WriteFile(1, data));
    hide Served;
    assert CrashDuring(codec, DiskAfter(codec, d, ss[..0]), ss[0], m) by { assert ss[..0] == [] && data[..|data|] == data; }
    assert l !in Served(codec, m) && l in Served(codec, DiskAfter(codec, d, ss)) && k in Served(codec, m) && k !in Served(codec, d);
  }

  // ---- what a disk that can be gone on from is ----

  /** Spilling a block to a file is atomic under crashes and publishes the block, and nothing else. */
  ghost predicate Spills(codec: Codec<Record>, d: Disk, k: BlockKey, f: nat, data: seq<Byte>) {
    var ss := SpillSteps(codec, k, f, data);
    CrashAtomic(codec, d, ss) && Served(codec, DiskAfter(codec, d, ss)) == Served(codec, d)[k := data]
  }

  /** Dropping a spilled block is atomic under crashes and takes that block, and nothing else. */
  ghost predicate Drops(codec: Codec<Record>, d: Disk, k: BlockKey, f: nat) {
    var ss := DropSteps(k, f);
    CrashAtomic(codec, d, ss) && Served(codec, DiskAfter(codec, d, ss)) == Served(codec, d) - {k}
  }

  /** The pointer has the length and checksum of some bytes, and a commit of one byte more fits its frame. */
  ghost predicate Genuine(codec: Codec<Record>, k: BlockKey, p: Pointer) {
    exists bytes :: |bytes| == p.len && codec.crc(bytes) == p.crc && Fit(codec, CommitOf(codec, k, p.file, bytes + [0]))
  }

  /** Every spill to a file beyond the counter and every drop of a served block goes as it should. */
  ghost predicate Safe(codec: Codec<Record>, d: Disk, n: nat) {
    && (forall k, f: nat, data :: f > n && Fit(codec, CommitOf(codec, k, f, data)) ==> Spills(codec, d, k, f, data))
    && (forall k :: k in Served(codec, d) && Fit(codec, Tombstone(k)) ==> Drops(codec, d, k, LiveOn(codec, d)[k].file))
  }

  function LiveOn(codec: Codec<Record>, d: Disk): (live: map<BlockKey, Pointer>)
    ensures forall k :: k in Served(codec, d) <==> k in live && Verified(codec, d.files, live[k])
  {
    Live(DecodeSkipping(codec, d.wal))
  }

  /**
    A disk with a whole log can be gone on from exactly when every spill to come and every
    drop is atomic under crashes and does what it says, whatever block files are missing
    or damaged.
   */
  lemma {:induction false} ResumableIffSafe(codec: Codec<Record>, d: Disk, n: nat)
    requires CodecOk(codec) && Whole(codec, d.wal) && Counter(codec, LiveOn(codec, d), d.files, n)
    requires forall k :: k in LiveOn(codec, d) ==> Genuine(codec, k, LiveOn(codec, d)[k]) && Fit(codec, Tombstone(k))
    ensures Resumable(codec, d) <==> Safe(codec, d, n)
  {
    hide CodecOk, Whole, Counter, Served, Spills, Drops, Genuine, Fit, Verified, CommitOf;
    if Resumable(codec, d) {
      forall k, f: nat, data | f > n && Fit(codec, CommitOf(codec, k, f, data)) ensures Spills(codec, d, k, f, data) {
        ResumedSpills(codec, d, n, k, f, data);
      }
      forall k | k in Served(codec, d) && Fit(codec, Tombstone(k)) ensures Drops(codec, d, k, LiveOn(codec, d)[k].file) {
        ResumedDrops(codec, d, n, k);
      }
    } else {
      NotSafe(codec, d, n);
    }
  }

  lemma {:induction false} ResumedJournal(codec: Codec<Record>, d: Disk, n: nat, f: nat)
    requires Resumable(codec, d) && Counter(codec, LiveOn(codec, d), d.files, n) && n <= f
    ensures Journaled(codec, d, Log(d.wal, []), f) && LiveIn(codec, Log(d.wal, [])) == LiveOn(codec, d)
  {
    Opened(codec, d.wal);
    hide Whole, Counter, Live, LiveIn, Kept, DecodeSkipping, Verified, Reached;
    var live := LiveOn(codec, d);
    forall k | k in live ensures live[k].file <= f { CounterBounds(codec, live, d.files, n, live[k].file); }
  }

  lemma {:induction false} ResumedSpills(codec: Codec<Record>, d: Disk, n: nat, k: BlockKey, f: nat, data: seq<Byte>)
    requires CodecOk(codec) && Resumable(codec, d) && Counter(codec, LiveOn(codec, d), d.files, n)
    requires f > n && Fit(codec, CommitOf(codec, k, f, data))
    ensures Spills(codec, d, k, f, data)
  {
    hide CodecOk, Resumable, Counter, Fit, CrashAtomic, DiskAfter, Served, Journaled, CommitOf;
    ResumedJournal(codec, d, n, f - 1);
    CommitAtomic(codec, d, Log(d.wal, []), f - 1, k, data);
  }

  lemma {:induction false} ResumedDrops(codec: Codec<Record>, d: Disk, n: nat, k: BlockKey)
    requires CodecOk(codec) && Resumable(codec, d) && Counter(codec, LiveOn(codec, d), d.files, n)
    requires k in Served(codec, d) && Fit(codec, Tombstone(k))
    ensures Drops(codec, d, k, LiveOn(codec, d)[k].file)
  {
    hide CodecOk, Resumable, Counter, Fit, CrashAtomic, DiskAfter, Served, Journaled, Verified;
    ResumedJournal(codec, d, n, n);
    DropAtomic(codec, d, Log(d.wal, []), n, k);
  }

  lemma {:induction false} NotSafe(codec: Codec<Record>, d: Disk, n: nat)
    requires CodecOk(codec) && Whole(codec, d.wal) && Counter(codec, LiveOn(codec, d), d.files, n) && !Resumable(codec, d)
    requires forall k :: k in LiveOn(codec, d) ==> Genuine(codec, k, LiveOn(codec, d)[k]) && Fit(codec, Tombstone(k))
    ensures !Safe(codec, d, n)
  {
    hide CodecOk, Whole, Counter, Served, Spills, Drops, Genuine, Fit, Verified, CommitOf, Reached;
    var live := LiveOn(codec, d);
    if k :| k in live && !Reached(codec, live, d.files, live[k].file) {
      CounterBounds(codec, live, d.files, n, live[k].file);
      BeyondReturns(codec, d, n, k);
    } else {
      var k, l :| k in live && l in live && k != l && Verified(codec, d.files, live[k]) && Verified(codec, d.files, live[l])
        && live[k].file == live[l].file;
      SharedGoes(codec, d, k, l);
    }
  }

  /** A live commit beyond the counter comes back in the middle of a spill to its file. */
  lemma {:induction false} BeyondReturns(codec: Codec<Record>, d: Disk, n: nat, k: BlockKey)
    requires k in LiveOn(codec, d) && Counter(codec, LiveOn(codec, d), d.files, n)
    requires LiveOn(codec, d)[k].file > n && Genuine(codec, k, LiveOn(codec, d)[k])
    ensures !Safe(codec, d, n)
  {
    var p := LiveOn(codec, d)[k];
    var f := p.file;
    var bytes :| |bytes| == p.len && codec.crc(bytes) == p.crc && Fit(codec, CommitOf(codec, k, f, bytes + [0]));
    var data := bytes + [0];
    var ss, m := SpillSteps(codec, k, f, data), d.(files := d.files[f := bytes]);
    assert k !in Served(codec, d);
    assert k in Served(codec, m) && Served(codec, m)[k] == bytes;
    hide Served, LiveOn, CommitOf;
    assert CrashDuring(codec, DiskAfter(codec, d, ss[..0]), ss[0], m) by { assert ss[..0] == [] && data[..|bytes|] == bytes; }
    assert !Spills(codec, d, k, f, data);
  }

  /** Of two commits verified by one file, dropping one takes the other's bytes. */
  lemma {:induction false} SharedGoes(codec: Codec<Record>, d: Disk, k: BlockKey, l: BlockKey)
    requires CodecOk(codec) && Whole(codec, d.wal) && Fit(codec, Tombstone(k))
    requires k != l && k in Served(codec, d) && l in Served(codec, d) && LiveOn(codec, d)[k].file == LiveOn(codec, d)[l].file
    ensures !Drops(codec, d, k, LiveOn(codec, d)[k].file)
  {
    hide CodecOk, Whole, Fit, CrashAtomic, Served, ServedBy, DiskAfter, Verified;
    var live := LiveOn(codec, d);
    var f := live[k].file;
    hide LiveOn;
    DropLeaves(codec, d, k, f);
    FileNeeded(codec, live - {k}, d.files - {f}, l);
  }

  /** What a drop leaves served. */
  lemma {:induction false} DropLeaves(codec: Codec<Record>, d: Disk, k: BlockKey, f: nat)
    requires CodecOk(codec) && Whole(codec, d.wal) && Fit(codec, Tombstone(k))
    ensures Served(codec, DiskAfter(codec, d, DropSteps(k, f))) == ServedBy(codec, LiveOn(codec, d) - {k}, d.files - {f})
  {
    var log, t := Log(d.wal, []), Tombstone(k);
    Opened(codec, d.wal);
    FitSnoc(codec, [], t);
    assert AllFit(codec, []);
    hide CodecOk, Whole, Fit, AllFit, Live, LiveIn, Kept, DecodeSkipping, Frame, Served, ServedBy;
    TwoSteps(codec, d, AppendRecord(t), DeleteFile(f));
    Appended(codec, d, log, t);
    ServedWhole(codec, DiskAfter(codec, d, DropSteps(k, f)), log.Add(t));
  }

  lemma FileNeeded(codec: Codec<Record>, live: map<BlockKey, Pointer>, files: map<nat, seq<Byte>>, l: BlockKey)
    requires l in live && live[l].file !in files
    ensures l !in ServedBy(codec, live, files)
  {
  }

  /**
    A crash inside an append leaves a torn record, and the store opened on it goes on
    appending behind it: what it commits is not served after the next crash, unless its
    bytes make the torn record up, checksum included.
   */
  lemma {:induction false} TornTailLoses(codec: Codec<Record>, d: Disk, base: seq<Byte>, torn: Record, n: nat, more: seq<Byte>)
    requires Whole(codec, base) && Fit(codec, torn) && 0 < n < |Frame(codec, torn)|
    requires d.wal == base + (Frame(codec, torn)[..n] + more)
    ensures !MadeUp(codec, torn, n, more) ==> Served(codec, d) == Served(codec, d.(wal := base)) && !Resumable(codec, d)
    ensures MadeUp(codec, torn, n, more) ==>
      var rest := DecodeSkipping(codec, more[Swallowed(codec, torn, n, more)..]);
      var read := match codec.dec(Mixed(codec, torn, n, more)) case None => rest case Some(r) => [r] + rest;
      Served(codec, d) == ServedBy(codec, Live(DecodeSkipping(codec, base) + read), d.files)
  {
    var t := Frame(codec, torn)[..n] + more;
    TornReads(codec, torn, n, more);
    MadeUpIff(codec, torn, n, more);
    WholeRest(codec, base, t);
    hide Decode, DecodeSkipping, Frame, Live, MadeUp, Mixed, Swallowed, FromLe, Intact;
    var records := DecodeSkipping(codec, base);
    assert records + [] == records;
  }
}
