/**
  The byte store of one node: blocks in memory, spilled to files, with a log that
  makes the spilled tier recoverable after a crash at any point.
 */
module KvStores {
  import opened Blocks
  import opened Frames
  import opened MasterSpec
  import opened Segments
  import W = Wal

  datatype StoreError = NotFound | Unsafe(violation: Violation)

  datatype Fetched = Bytes(data: seq<Byte>) | Refused(error: StoreError)

  // ---- invariants over the store's fields ----

  /** Each block is in one tier, of the size its metadata says. */
  ghost predicate TiersOk(dram: map<BlockKey, seq<Byte>>, ssd: map<BlockKey, nat>, meta: Metas, files: map<nat, seq<Byte>>) {
    && (forall k :: k in meta <==> k in dram || k in ssd)
    && (forall k :: k in dram ==> k !in ssd && k in meta && meta[k].tier == CpuDram && meta[k].bytes == |dram[k]|)
    && (forall k :: k in ssd ==> k in meta && meta[k].tier == LocalSsd && ssd[k] in files && meta[k].bytes == |files[ssd[k]]|)
  }

  /** Blocks by content hash: exactly those present. */
  ghost predicate HashesOk(byHash: map<string, set<BlockKey>>, meta: Metas) {
    ReverseOk(byHash, meta.Keys, HashOf)
  }

  /** The spilled blocks are exactly those whose last commit is verified. */
  ghost predicate DurableOk(codec: Codec<W.Record>, disk: W.Disk, log: W.Log, nextFile: nat, ssd: map<BlockKey, nat>) {
    W.Journaled(codec, disk, log, nextFile) && Linked(codec, W.LiveIn(codec, log), disk.files, ssd)
  }

  ghost predicate Linked(codec: Codec<W.Record>, live: map<BlockKey, W.Pointer>, files: map<nat, seq<Byte>>, ssd: map<BlockKey, nat>) {
    && (forall k :: k in ssd <==> k in live && W.Verified(codec, files, live[k]))
    && (forall k :: k in ssd ==> ssd[k] == live[k].file)
  }

  lemma LinkedSpilled(codec: Codec<W.Record>, live: map<BlockKey, W.Pointer>, files: map<nat, seq<Byte>>, ssd: map<BlockKey, nat>,
      k: BlockKey, f: nat, data: seq<Byte>)
    requires Linked(codec, live, files, ssd) && (forall l :: l in live ==> live[l].file != f)
    ensures Linked(codec, live[k := W.Pointer(f, |data|, codec.crc(data))], files[f := data], ssd[k := f])
  {
  }

  lemma LinkedGone(codec: Codec<W.Record>, live: map<BlockKey, W.Pointer>, files: map<nat, seq<Byte>>, ssd: map<BlockKey, nat>, k: BlockKey)
    requires Linked(codec, live, files, ssd) && W.Unshared(codec, live, files) && k in ssd
    ensures k in live && W.Verified(codec, files, live[k]) && live[k].file == ssd[k]
    ensures Linked(codec, live, files - {ssd[k]}, ssd - {k}) && Linked(codec, live - {k}, files - {ssd[k]}, ssd - {k})
  {
    hide W.Verified;
    W.FileGone(codec, live, files, k);
  }

  ghost function SsdContents(ssd: map<BlockKey, nat>, files: map<nat, seq<Byte>>): map<BlockKey, seq<Byte>> {
    map k | k in ssd && ssd[k] in files :: files[ssd[k]]
  }

  ghost function ContentsOf(dram: map<BlockKey, seq<Byte>>, ssd: map<BlockKey, nat>, files: map<nat, seq<Byte>>): map<BlockKey, seq<Byte>> {
    dram + SsdContents(ssd, files)
  }

  /** No two spilled blocks share a file. */
  ghost predicate OneFileEach(ssd: map<BlockKey, nat>) {
    forall k, l :: k in ssd && l in ssd && k != l ==> ssd[k] != ssd[l]
  }

  lemma DurableFiles(codec: Codec<W.Record>, disk: W.Disk, log: W.Log, nextFile: nat, ssd: map<BlockKey, nat>)
    requires DurableOk(codec, disk, log, nextFile, ssd)
    ensures OneFileEach(ssd) && forall k :: k in ssd ==> ssd[k] <= nextFile
  {
    hide W.LiveIn, W.Kept, W.Verified;
  }

  /** A block is taken out of both tiers by taking it out of its own. */
  lemma OutOfBoth(dram: map<BlockKey, seq<Byte>>, ssd: map<BlockKey, nat>, k: BlockKey)
    ensures k !in dram ==> dram - {k} == dram
    ensures k !in ssd ==> ssd - {k} == ssd
  {
  }

  /** A spilled block taken out with its file. */
  lemma SpilledRemoved(dram: map<BlockKey, seq<Byte>>, ssd: map<BlockKey, nat>, meta: Metas, files: map<nat, seq<Byte>>, k: BlockKey)
    requires TiersOk(dram, ssd, meta, files) && OneFileEach(ssd) && k in ssd
    ensures TiersOk(dram, ssd - {k}, meta - {k}, files - {ssd[k]})
    ensures ContentsOf(dram, ssd - {k}, files - {ssd[k]}) == ContentsOf(dram, ssd, files) - {k}
  {
    hide ContentsOf;
    SpilledGone(dram, ssd, files, k);
  }

  lemma SpilledGone(dram: map<BlockKey, seq<Byte>>, ssd: map<BlockKey, nat>, files: map<nat, seq<Byte>>, k: BlockKey)
    requires OneFileEach(ssd) && k in ssd && k !in dram
    ensures ContentsOf(dram, ssd - {k}, files - {ssd[k]}) == ContentsOf(dram, ssd, files) - {k}
  {
    hide SsdContents;
    SsdGone(ssd, files, k);
    var x := SsdContents(ssd, files);
    assert dram + (x - {k}) == (dram + x) - {k};
  }

  lemma SsdGone(ssd: map<BlockKey, nat>, files: map<nat, seq<Byte>>, k: BlockKey)
    requires OneFileEach(ssd) && k in ssd
    ensures SsdContents(ssd - {k}, files - {ssd[k]}) == SsdContents(ssd, files) - {k}
  {
    forall l | l in ssd && l != k ensures ssd[l] != ssd[k] {
    }
  }

  lemma MemoryRemoved(dram: map<BlockKey, seq<Byte>>, ssd: map<BlockKey, nat>, meta: Metas, files: map<nat, seq<Byte>>, k: BlockKey)
    requires TiersOk(dram, ssd, meta, files) && k !in ssd
    ensures TiersOk(dram - {k}, ssd, meta - {k}, files)
    ensures ContentsOf(dram - {k}, ssd, files) == ContentsOf(dram, ssd, files) - {k}
    ensures SsdContents(ssd, files) - {k} == SsdContents(ssd, files)
    ensures k !in meta ==> meta - {k} == meta && dram - {k} == dram
  {
  }

  lemma {:induction false} DurableRemoved(codec: Codec<W.Record>, disk: W.Disk, log: W.Log, nextFile: nat,
      ssd: map<BlockKey, nat>, k: BlockKey)
    requires CodecOk(codec) && DurableOk(codec, disk, log, nextFile, ssd) && k in ssd
    ensures var d := disk.(files := disk.files - {ssd[k]});
      && DurableOk(codec, d, log, nextFile, ssd - {k}) && d == W.DiskAfter(codec, disk, [W.DeleteFile(ssd[k])])
      && (AllFit(codec, log.added) ==> W.CrashAtomic(codec, disk, [W.DeleteFile(ssd[k])]) && W.Served(codec, d) == W.Served(codec, disk) - {k})
  {
    hide CodecOk, AllFit, W.LiveIn, W.Kept, W.CrashAtomic, W.Verified, W.Served, Linked;
    LinkedGone(codec, W.LiveIn(codec, log), disk.files, ssd, k);
    W.OverwriteAtomic(codec, disk, log, nextFile, k);
    W.TwoSteps(codec, disk, W.DeleteFile(ssd[k]), W.DeleteFile(ssd[k]));
  }

  lemma MemoryAdded(dram: map<BlockKey, seq<Byte>>, ssd: map<BlockKey, nat>, meta: Metas, files: map<nat, seq<Byte>>,
      k: BlockKey, data: seq<Byte>, now: nat)
    requires TiersOk(dram, ssd, meta, files) && k !in meta
    ensures TiersOk(dram[k := data], ssd, meta[k := BlockMeta(CpuDram, |data|, now)], files)
    ensures ContentsOf(dram[k := data], ssd, files) == ContentsOf(dram, ssd, files)[k := data]
  {
    NotSpilled(ssd, files, k);
    hide SsdContents;
    assert dram[k := data] + SsdContents(ssd, files) == (dram + SsdContents(ssd, files))[k := data];
  }

  /** A block moved from memory to a file nobody else uses. */
  lemma Spilled(dram: map<BlockKey, seq<Byte>>, ssd: map<BlockKey, nat>, meta: Metas, files: map<nat, seq<Byte>>, k: BlockKey, f: nat)
    requires TiersOk(dram, ssd, meta, files) && k in dram && forall l :: l in ssd ==> ssd[l] != f
    ensures k in meta && TiersOk(dram - {k}, ssd[k := f], meta[k := meta[k].(tier := LocalSsd)], files[f := dram[k]])
    ensures ContentsOf(dram - {k}, ssd[k := f], files[f := dram[k]]) == ContentsOf(dram, ssd, files)
  {
    hide ContentsOf;
    SpilledContents(dram, ssd, files, k, f);
  }

  lemma SpilledContents(dram: map<BlockKey, seq<Byte>>, ssd: map<BlockKey, nat>, files: map<nat, seq<Byte>>, k: BlockKey, f: nat)
    requires k in dram && k !in ssd && forall l :: l in ssd ==> ssd[l] != f
    ensures ContentsOf(dram - {k}, ssd[k := f], files[f := dram[k]]) == ContentsOf(dram, ssd, files)
  {
    var a, b := SsdContents(ssd[k := f], files[f := dram[k]]), SsdContents(ssd, files);
    assert a == b[k := dram[k]];
    hide SsdContents;
    assert (dram - {k}) + b[k := dram[k]] == dram + b by {
      assert k !in b by { NotSpilled(ssd, files, k); }
    }
  }

  lemma OnlySpilled(dram: map<BlockKey, seq<Byte>>, ssd: map<BlockKey, nat>, meta: Metas, files: map<nat, seq<Byte>>)
    requires TiersOk(dram, ssd, meta, files)
    ensures ContentsOf(dram, ssd, files) - dram.Keys == SsdContents(ssd, files)
  {
  }

  lemma NotSpilled(ssd: map<BlockKey, nat>, files: map<nat, seq<Byte>>, k: BlockKey)
    requires k !in ssd
    ensures k !in SsdContents(ssd, files)
  {
  }

  lemma {:induction false} DurableSpilled(codec: Codec<W.Record>, disk: W.Disk, log: W.Log, nextFile: nat,
      ssd: map<BlockKey, nat>, k: BlockKey, data: seq<Byte>)
    requires CodecOk(codec) && DurableOk(codec, disk, log, nextFile, ssd) && k !in ssd
    ensures var f := nextFile + 1;
      var c := W.CommitOf(codec, k, f, data);
      var ss := W.SpillSteps(codec, k, f, data);
      var d := W.Disk(disk.wal + Frame(codec, c), disk.files[f := data]);
      && d == W.DiskAfter(codec, disk, ss) && DurableOk(codec, d, log.Add(c), f, ssd[k := f])
      && (AllFit(codec, log.added + [c]) ==> W.CrashAtomic(codec, disk, ss) && W.Served(codec, d) == W.Served(codec, disk)[k := data])
  {
    var f := nextFile + 1;
    var c := W.CommitOf(codec, k, f, data);
    hide CodecOk, AllFit, W.LiveIn, W.Kept, W.CrashAtomic, W.Verified, W.Served, Frame, Linked;
    DurableFiles(codec, disk, log, nextFile, ssd);
    W.CommitAtomic(codec, disk, log, nextFile, k, data);
    W.TwoSteps(codec, disk, W.WriteFile(f, data), W.AppendRecord(c));
    W.LiveAdd(codec, log, c);
    LinkedSpilled(codec, W.LiveIn(codec, log), disk.files, ssd, k, f, data);
  }

  /** Everything that spilling a block keeps, and what it does to the disk. */
  lemma {:induction false} SpillStep(codec: Codec<W.Record>, disk: W.Disk, log: W.Log, nextFile: nat, dram: map<BlockKey, seq<Byte>>,
      ssd: map<BlockKey, nat>, meta: Metas, byHash: map<string, set<BlockKey>>, uses: seq<BlockKey>, k: BlockKey)
    requires CodecOk(codec) && TiersOk(dram, ssd, meta, disk.files) && HashesOk(byHash, meta) && Timed(meta, uses) && k in dram
    requires DurableOk(codec, disk, log, nextFile, ssd)
    ensures k in meta && meta[k].bytes == |dram[k]|
    ensures var f, data := nextFile + 1, dram[k];
      var c, ss := W.CommitOf(codec, k, f, data), W.SpillSteps(codec, k, f, data);
      var d, m := W.Disk(disk.wal + Frame(codec, c), disk.files[f := data]), meta[k := meta[k].(tier := LocalSsd)];
      && d == W.DiskAfter(codec, disk, ss) && DurableOk(codec, d, log.Add(c), f, ssd[k := f])
      && (AllFit(codec, log.added + [c]) ==> W.CrashAtomic(codec, disk, ss) && W.Served(codec, d) == W.Served(codec, disk)[k := data])
      && TiersOk(dram - {k}, ssd[k := f], m, d.files) && HashesOk(byHash, m) && Timed(m, uses)
      && ContentsOf(dram - {k}, ssd[k := f], d.files) == ContentsOf(dram, ssd, disk.files)
      && TierBytes(m, CpuDram) + |data| == TierBytes(meta, CpuDram) && TierBytes(m, LocalSsd) == TierBytes(meta, LocalSsd) + |data|
  {
    hide CodecOk, AllFit, TiersOk, HashesOk, DurableOk, TierBytes, W.CrashAtomic, W.DiskAfter, W.Served, ContentsOf, Frame, SsdContents, Timed;
    hide W.SpillSteps, W.CommitOf;
    TierOf(dram, ssd, meta, disk.files, k);
    DurableFiles(codec, disk, log, nextFile, ssd);
    Spilled(dram, ssd, meta, disk.files, k, nextFile + 1);
    DurableSpilled(codec, disk, log, nextFile, ssd, k, dram[k]);
    Retiered(meta, k);
    HashMoved(byHash, meta, k);
    TimedMoved(meta, uses, k, meta[k].(tier := LocalSsd));
  }

  lemma {:induction false} DurableDropped(codec: Codec<W.Record>, disk: W.Disk, log: W.Log, nextFile: nat,
      ssd: map<BlockKey, nat>, k: BlockKey)
    requires CodecOk(codec) && DurableOk(codec, disk, log, nextFile, ssd) && k in ssd
    ensures var r := W.Tombstone(k);
      var ss := W.DropSteps(k, ssd[k]);
      var d := W.Disk(disk.wal + Frame(codec, r), disk.files - {ssd[k]});
      && d == W.DiskAfter(codec, disk, ss) && DurableOk(codec, d, log.Add(r), nextFile, ssd - {k})
      && (AllFit(codec, log.added + [r]) ==> W.CrashAtomic(codec, disk, ss) && W.Served(codec, d) == W.Served(codec, disk) - {k})
  {
    var r := W.Tombstone(k);
    hide CodecOk, AllFit, W.LiveIn, W.Kept, W.CrashAtomic, W.Verified, W.Served, Frame, Linked;
    LinkedGone(codec, W.LiveIn(codec, log), disk.files, ssd, k);
    W.DropAtomic(codec, disk, log, nextFile, k);
    W.TwoSteps(codec, disk, W.AppendRecord(r), W.DeleteFile(ssd[k]));
    W.LiveAdd(codec, log, r);
  }

  /** After a crash between operations exactly the spilled blocks are served. */
  lemma ServedIsSsd(codec: Codec<W.Record>, disk: W.Disk, log: W.Log, nextFile: nat, ssd: map<BlockKey, nat>)
    requires CodecOk(codec) && AllFit(codec, log.added) && DurableOk(codec, disk, log, nextFile, ssd)
    ensures W.Served(codec, disk) == SsdContents(ssd, disk.files)
  {
    W.JournalServes(codec, disk, log, nextFile);
    hide CodecOk, W.Live;
  }

  lemma HashRemoved(byHash: map<string, set<BlockKey>>, meta: Metas, k: BlockKey)
    requires HashesOk(byHash, meta)
    ensures HashesOk(Without(byHash, k, HashOf), meta - {k})
  {
    ReverseRemoved(byHash, meta.Keys, k, HashOf);
    assert (meta - {k}).Keys == meta.Keys - {k};
  }

  lemma HashAdded(byHash: map<string, set<BlockKey>>, meta: Metas, k: BlockKey, m: BlockMeta)
    requires HashesOk(byHash, meta)
    ensures HashesOk(With(byHash, k, HashOf), meta[k := m])
  {
    ReverseAdded(byHash, meta.Keys, k, HashOf);
    assert meta[k := m].Keys == meta.Keys + {k};
  }

  /** The blocks with a given content are those filed under it. */
  lemma HashFound(byHash: map<string, set<BlockKey>>, meta: Metas, h: string)
    requires HashesOk(byHash, meta)
    ensures forall k :: k in meta && k.blockHash == h <==> h in byHash && k in byHash[h]
  {
    assert forall k :: HashOf(k) == k.blockHash;
  }

  class LocalKvStore {
    const codec: Codec<W.Record>
    const dramCapacity: nat
    const ssdCapacity: nat
    var dram: map<BlockKey, seq<Byte>>
    /** The file of each spilled block. */
    var ssd: map<BlockKey, nat>
    var meta: Metas
    var byHash: map<string, set<BlockKey>>
    var dramBytes: nat
    var ssdBytes: nat
    var clock: nat
    var nextFile: nat
    var disk: W.Disk
    /** What the log held when opened, and the records appended since. */
    ghost var log: W.Log
    /** The blocks put and read since opening, in order. */
    ghost var uses: seq<BlockKey>

    ghost predicate Valid()
      reads this
    {
      && CodecOk(codec)
      && TiersOk(dram, ssd, meta, disk.files)
      && HashesOk(byHash, meta)
      && dramBytes == TierBytes(meta, CpuDram) && ssdBytes == TierBytes(meta, LocalSsd)
      && DurableOk(codec, disk, log, nextFile, ssd)
      && clock == |uses| && Timed(meta, uses)
    }

    /** Every record appended fits its frame: what the claims about crashes rest on. */
    ghost predicate Sized()
      reads this
    {
      AllFit(codec, log.added)
    }

    /** The bytes of every block. */
    ghost function Contents(): map<BlockKey, seq<Byte>>
      reads this
    {
      ContentsOf(dram, ssd, disk.files)
    }

    lemma SameKeys()
      requires Valid()
      ensures Contents().Keys == meta.Keys
    {
      hide CodecOk, TiersOk, HashesOk, DurableOk, TierBytes, ContentsOf;
      forall k ensures k in Contents() <==> k in meta { TierOf(dram, ssd, meta, disk.files, k); }
    }

    /** What would be served after a crash now. */
    ghost function Durable(): map<BlockKey, seq<Byte>>
      reads this
    {
      W.Served(codec, disk)
    }

    /** What would be served after a crash are the blocks not in memory. */
    lemma DurableRest()
      requires Valid() && Sized()
      ensures Durable() == Contents() - dram.Keys
    {
      hide CodecOk, AllFit, HashesOk, DurableOk, TierBytes, W.Served, Timed;
      ServedIsSsd(codec, disk, log, nextFile, ssd);
      OnlySpilled(dram, ssd, meta, disk.files);
    }

    /** A fresh store; block files left behind by another are ignored. */
    constructor (codec: Codec<W.Record>, files: map<nat, seq<Byte>>, dramCapacity: nat, ssdCapacity: nat)
      requires CodecOk(codec)
      ensures Valid() && Sized() && Contents() == map[] && Durable() == map[] && disk.files == files
      ensures this.codec == codec && this.dramCapacity == dramCapacity && this.ssdCapacity == ssdCapacity
      ensures log == W.Log([], []) && dram == map[] && ssd == map[] && meta == map[] && byHash == map[] && dramBytes == ssdBytes == nextFile == 0
      ensures clock == 0 && uses == []
    {
      this.codec, this.dramCapacity, this.ssdCapacity := codec, dramCapacity, ssdCapacity;
      dram, ssd, meta, byHash := map[], map[], map[], map[];
      dramBytes, ssdBytes, clock, nextFile := 0, 0, 0, 0;
      disk := W.Disk([], files);
      log := W.Log([], []);
      uses := [];
      new;
      NeverUsed(meta);
      hide W.Served, Timed, HashesOk, TierBytes, TiersOk, ContentsOf;
      ServedIsSsd(codec, disk, log, nextFile, ssd);
    }

    /** Take a block out; the file of a spilled one is deleted, with no tombstone. */
    method RemoveInternal(key: BlockKey) returns (ghost steps: seq<W.DiskStep>)
      requires Valid()
      modifies this`dram, this`ssd, this`meta, this`byHash, this`dramBytes, this`ssdBytes, this`disk
      ensures Valid() && Contents() == old(Contents()) - {key} && key !in meta
      ensures meta == old(meta) - {key} && dram == old(dram) - {key} && ssd == old(ssd) - {key}
      ensures disk == W.DiskAfter(codec, old(disk), steps) && steps == if key in old(ssd) then [W.DeleteFile(old(ssd)[key])] else []
      ensures Sized() ==> W.CrashAtomic(codec, old(disk), steps) && Durable() == old(Durable()) - {key}
    {
      hide CodecOk, AllFit, TiersOk, HashesOk, DurableOk, TierBytes, W.CrashAtomic, W.DiskAfter, W.Served, ContentsOf, SsdContents, Without, Timed;
      hide OneFileEach;
      steps := [];
      NoSteps(codec, disk);
      OutOfBoth(dram, ssd, key);
      if AllFit(codec, log.added) { ServedIsSsd(codec, disk, log, nextFile, ssd); }
      DurableFiles(codec, disk, log, nextFile, ssd);
      TierOf(dram, ssd, meta, disk.files, key);
      if key !in meta {
        MemoryRemoved(dram, ssd, meta, disk.files, key);
        return;
      }
      var m := meta[key];
      TierBytesRemove(meta, CpuDram, key);
      TierBytesRemove(meta, LocalSsd, key);
      HashRemoved(byHash, meta, key);
      TimedLess(meta, uses, key);
      if m.tier == LocalSsd {
        SpilledRemoved(dram, ssd, meta, disk.files, key);
        DurableRemoved(codec, disk, log, nextFile, ssd, key);
        steps := [W.DeleteFile(ssd[key])];
        disk := disk.(files := disk.files - {ssd[key]});
        ssd := ssd - {key};
        ssdBytes := SaturatingSub(ssdBytes, m.bytes);
      } else {
        MemoryRemoved(dram, ssd, meta, disk.files, key);
        dram := dram - {key};
        dramBytes := SaturatingSub(dramBytes, m.bytes);
      }
      meta := meta - {key};
      byHash := Without(byHash, key, HashOf);
    }

    /** Admit a block into memory, replacing what it held before. */
    method PutDram(key: BlockKey, data: seq<Byte>) returns (ghost steps: seq<W.DiskStep>)
      requires Valid()
      modifies this
      ensures Valid() && Contents() == old(Contents())[key := data] && log == old(log) && nextFile == old(nextFile)
      ensures disk == W.DiskAfter(codec, old(disk), steps) && steps == if key in old(ssd) then [W.DeleteFile(old(ssd)[key])] else []
      ensures Sized() ==> W.CrashAtomic(codec, old(disk), steps) && Durable() == old(Durable()) - {key}
      ensures meta == old(meta)[key := BlockMeta(CpuDram, |data|, old(clock) + 1)]
      ensures clock == old(clock) + 1 && uses == old(uses) + [key] && Latest(meta, key)
      ensures dram == old(dram)[key := data] && ssd == old(ssd) - {key}
    {
      hide CodecOk, AllFit, TiersOk, HashesOk, DurableOk, TierBytes, W.CrashAtomic, W.DiskAfter, W.Served, ContentsOf, With, Timed, Latest;
      steps := RemoveInternal(key);
      clock := clock + 1;
      var m := BlockMeta(CpuDram, |data|, clock);
      MemoryAdded(dram, ssd, meta, disk.files, key, data, clock);
      TierBytesSet(meta, CpuDram, key, m);
      TierBytesSet(meta, LocalSsd, key, m);
      HashAdded(byHash, meta, key, m);
      UsedNow(meta, uses, key, m);
      uses := uses + [key];
      dram := dram[key := data];
      dramBytes := dramBytes + |data|;
      meta := meta[key := m];
      byHash := With(byHash, key, HashOf);
    }

    /** Write the file of a block in memory, then commit it to the log. */
    method Spill(key: BlockKey)
      requires Valid() && key in dram
      modifies this`dram, this`ssd, this`meta, this`dramBytes, this`ssdBytes, this`nextFile, this`disk, this`log
      ensures Valid() && Contents() == old(Contents()) && nextFile == old(nextFile) + 1
      ensures dram == old(dram) - {key} && ssd == old(ssd)[key := nextFile]
      ensures key in old(meta) && meta == old(meta)[key := old(meta)[key].(tier := LocalSsd)]
      ensures log == old(log).Add(W.CommitOf(codec, key, nextFile, old(dram)[key]))
      ensures var ss := W.SpillSteps(codec, key, nextFile, old(dram)[key]);
        && disk == W.DiskAfter(codec, old(disk), ss)
        && (Sized() ==> W.CrashAtomic(codec, old(disk), ss) && Durable() == old(Durable())[key := old(dram)[key]])
    {
      hide CodecOk, AllFit, TiersOk, HashesOk, DurableOk, TierBytes, W.CrashAtomic, W.DiskAfter, W.Served, ContentsOf, Frame, Timed;
      hide W.SpillSteps, W.CommitOf;
      var data := dram[key];
      var file := nextFile + 1;
      var c := W.CommitOf(codec, key, file, data);
      SpillStep(codec, disk, log, nextFile, dram, ssd, meta, byHash, uses, key);
      dram := dram - {key};
      dramBytes := SaturatingSub(dramBytes, |data|);
      nextFile := file;
      disk := disk.(files := disk.files[file := data]);
      disk := disk.(wal := disk.wal + Frame(codec, c));
      log := log.Add(c);
      ssd := ssd[key := file];
      ssdBytes := ssdBytes + |data|;
      meta := meta[key := meta[key].(tier := LocalSsd)];
    }

    /** Spill a block, if its bytes are in memory. They stay readable throughout. */
    method DemoteToSsd(key: BlockKey) returns (ok: bool, ghost steps: seq<W.DiskStep>)
      requires Valid()
      modifies this`dram, this`ssd, this`meta, this`dramBytes, this`ssdBytes, this`nextFile, this`disk, this`log
      ensures Valid() && Contents() == old(Contents())
      ensures ok <==> key in old(dram)
      ensures dram == old(dram) - {key} && ssd == if ok then old(ssd)[key := nextFile] else old(ssd)
      ensures if ok then nextFile == old(nextFile) + 1 && steps == W.SpillSteps(codec, key, nextFile, old(dram)[key])
        else nextFile == old(nextFile) && steps == []
      ensures log == if ok then old(log).Add(W.CommitOf(codec, key, nextFile, old(dram)[key])) else old(log)
      ensures disk == W.DiskAfter(codec, old(disk), steps)
      ensures Sized() ==> W.CrashAtomic(codec, old(disk), steps) && (ok ==> Durable() == old(Durable())[key := old(dram)[key]])
      ensures if ok then key in old(meta) && meta == old(meta)[key := old(meta)[key].(tier := LocalSsd)] else meta == old(meta) && disk == old(disk)
    {
      hide Valid, Sized, Contents, Durable, W.CrashAtomic, W.DiskAfter, W.SpillSteps, W.CommitOf;
      steps, ok := [], key in dram;
      NoSteps(codec, disk);
      OutOfBoth(dram, ssd, key);
      if ok {
        Spill(key);
        steps := W.SpillSteps(codec, key, nextFile, old(dram)[key]);
      }
    }

    /** Drop a block from whichever tier holds it; a spilled one is tombstoned before its file goes. */
    method DropBlock(key: BlockKey) returns (ok: bool, ghost steps: seq<W.DiskStep>)
      requires Valid()
      modifies this`dram, this`ssd, this`meta, this`byHash, this`dramBytes, this`ssdBytes, this`nextFile, this`disk, this`log
      ensures Valid() && Contents() == old(Contents()) - {key} && meta == old(meta) - {key}
      ensures ok <==> key in old(meta)
      ensures dram == old(dram) - {key} && ssd == old(ssd) - {key} && nextFile == old(nextFile)
      ensures disk == W.DiskAfter(codec, old(disk), steps) && steps == if key in old(ssd) then W.DropSteps(key, old(ssd)[key]) else []
      ensures log == if key in old(ssd) then old(log).Add(W.Tombstone(key)) else old(log)
      ensures Sized() ==> W.CrashAtomic(codec, old(disk), steps) && Durable() == old(Durable()) - {key}
    {
      hide CodecOk, AllFit, TiersOk, HashesOk, DurableOk, TierBytes, W.CrashAtomic, W.DiskAfter, W.Served, ContentsOf;
      hide Frame, SsdContents, Without, Timed;
      hide W.DropSteps, OneFileEach;
      steps := [];
      NoSteps(codec, disk);
      OutOfBoth(dram, ssd, key);
      if AllFit(codec, log.added) { ServedIsSsd(codec, disk, log, nextFile, ssd); }
      DurableFiles(codec, disk, log, nextFile, ssd);
      TierOf(dram, ssd, meta, disk.files, key);
      if key !in meta {
        MemoryRemoved(dram, ssd, meta, disk.files, key);
        return false, [];
      }
      var m := meta[key];
      TierBytesRemove(meta, CpuDram, key);
      TierBytesRemove(meta, LocalSsd, key);
      HashRemoved(byHash, meta, key);
      TimedLess(meta, uses, key);
      if m.tier == LocalSsd {
        SpilledRemoved(dram, ssd, meta, disk.files, key);
        DurableDropped(codec, disk, log, nextFile, ssd, key);
        FitSnoc(codec, log.added, W.Tombstone(key));
        steps := W.DropSteps(key, ssd[key]);
        disk := disk.(wal := disk.wal + Frame(codec, W.Tombstone(key)));
        log := log.Add(W.Tombstone(key));
        disk := disk.(files := disk.files - {ssd[key]});
        ssd := ssd - {key};
        ssdBytes := SaturatingSub(ssdBytes, m.bytes);
      } else {
        MemoryRemoved(dram, ssd, meta, disk.files, key);
        dram := dram - {key};
        dramBytes := SaturatingSub(dramBytes, m.bytes);
      }
      meta := meta - {key};
      byHash := Without(byHash, key, HashOf);
      ok := true;
    }

    /** Serve a block's bytes; content resident only under another identity is refused. */
    method Get(key: BlockKey) returns (r: Fetched)
      requires Valid()
      modifies this`clock, this`meta, this`uses
      ensures Valid() && Contents() == old(Contents()) && meta.Keys == old(meta).Keys
      ensures if key in old(meta) then clock == old(clock) + 1 && meta == old(meta)[key := old(meta)[key].(lastAccess := clock)]
        else clock == old(clock) && meta == old(meta)
      ensures key in meta ==> uses == old(uses) + [key] && Latest(meta, key)
      ensures key !in meta ==> uses == old(uses)
      ensures key in Contents() ==> r == Bytes(Contents()[key])
      ensures key !in Contents() ==> r.Refused?
      ensures r.Refused? && r.error.Unsafe? <==> key !in Contents() && exists k :: k in meta && k.blockHash == key.blockHash && k.scope != key.scope
      ensures r.Refused? && r.error.Unsafe? ==>
        exists k :: k in meta && k.blockHash == key.blockHash && key.scope.ReuseViolation(k.scope) == Some(r.error.violation)
    {
      hide CodecOk, TiersOk, HashesOk, DurableOk, TierBytes, W.Served, ContentsOf, Timed, Latest;
      HashFound(byHash, meta, key.blockHash);
      TierOf(dram, ssd, meta, disk.files, key);
      if key in meta {
        var m := meta[key];
        Touched(dram, ssd, meta, disk.files, byHash, key, clock + 1);
        UsedNow(meta, uses, key, m.(lastAccess := clock + 1));
        uses := uses + [key];
        clock := clock + 1;
        meta := meta[key := m.(lastAccess := clock)];
        return Bytes(if m.tier == LocalSsd then disk.files[ssd[key]] else dram[key]);
      }
      if key.blockHash in byHash {
        var rest := byHash[key.blockHash];
        while rest != {}
          invariant rest <= byHash[key.blockHash]
          invariant forall k :: k in byHash[key.blockHash] - rest ==> k.scope == key.scope
        {
          var k :| k in rest;
          var v := key.scope.ReuseViolation(k.scope);
          if v.Some? {
            return Refused(Unsafe(v.value));
          }
          rest := rest - {k};
        }
      }
      r := Refused(NotFound);
    }

    /** Spill the coldest blocks until memory is within budget, then evict the coldest spilled ones until the disk is. */
    method EnforceCapacity() returns (evicted: seq<BlockKey>, ghost demoted: seq<BlockKey>, ghost groups: seq<seq<W.DiskStep>>)
      requires Valid()
      modifies this`dram, this`ssd, this`meta, this`byHash, this`dramBytes, this`ssdBytes, this`nextFile, this`disk, this`log
      ensures Valid() && dramBytes <= dramCapacity && ssdBytes <= ssdCapacity
      ensures Contents() == old(Contents()) - SetOf(evicted)
      ensures Enforced(old(meta), dramCapacity, ssdCapacity, demoted, evicted, meta)
      ensures disk == W.DiskAfterAll(codec, old(disk), groups) && log.Extends(old(log))
      ensures Sized() ==> W.AtomicRun(codec, old(disk), groups)
    {
      hide CodecOk, AllFit, TiersOk, HashesOk, DurableOk, TierBytes, W.Served, W.CrashAtomic, W.AtomicRun;
      hide Timed, W.DiskAfterAll, W.DiskAfter, ContentsOf, NoneIn, Coldest, Draining, Sunk;
      ghost var meta0 := meta;
      evicted, demoted, groups := [], [], [];
      NoGroups(codec, disk);
      NoneSunk(meta0, dramCapacity);
      while dramBytes > dramCapacity
        invariant Valid() && Contents() == old(Contents()) && meta == Sunk(meta0, SetOf(demoted))
        invariant Draining(meta0, CpuDram, dramCapacity, demoted) && TierBytes(meta, CpuDram) == TierBytes(meta0 - SetOf(demoted), CpuDram)
        invariant disk == W.DiskAfterAll(codec, old(disk), groups) && log.Extends(old(log))
        invariant Sized() ==> W.AtomicRun(codec, old(disk), groups)
        decreases dram.Keys
      {
        var victim := ColdestIn(meta, CpuDram);
        if victim.None? {
          NoneInNoBytes(meta, CpuDram);
          break;
        }
        TierOf(dram, ssd, meta, disk.files, victim.value);
        SinkMore(meta0, dramCapacity, demoted, victim.value);
        ghost var earlier := log;
        var ok, steps := DemoteToSsd(victim.value);
        FitPrefix(codec, earlier, log);
        demoted := demoted + [victim.value];
        W.RunSnoc(codec, old(disk), groups, steps);
        groups := groups + [steps];
      }
      assert old(Contents()) - SetOf(evicted) == old(Contents());
      ghost var meta1 := meta;
      assert meta1 - SetOf(evicted) == meta1;
      NoneDrained(meta1, LocalSsd, ssdCapacity);
      while ssdBytes > ssdCapacity
        invariant Valid() && Contents() == old(Contents()) - SetOf(evicted) && dramBytes <= dramCapacity
        invariant meta == meta1 - SetOf(evicted) && Draining(meta1, LocalSsd, ssdCapacity, evicted)
        invariant disk == W.DiskAfterAll(codec, old(disk), groups) && log.Extends(old(log))
        invariant Sized() ==> W.AtomicRun(codec, old(disk), groups)
        decreases meta.Keys
      {
        var victim := ColdestIn(meta, LocalSsd);
        if victim.None? {
          NoneInNoBytes(meta, LocalSsd);
          break;
        }
        ghost var was, before, earlier := meta, evicted, log;
        DrainMore(meta1, LocalSsd, ssdCapacity, evicted, victim.value);
        ColdestHere(meta, LocalSsd, victim.value);
        var ok, steps := DropBlock(victim.value);
        FitPrefix(codec, earlier, log);
        TierBytesRemove(was, CpuDram, victim.value);
        assert was - {victim.value} == meta1 - (SetOf(before) + {victim.value});
        W.RunSnoc(codec, old(disk), groups, steps);
        groups := groups + [steps];
        evicted := evicted + [victim.value];
        assert SetOf(evicted) == SetOf(before) + {victim.value};
      }
    }

    /** Admit a block, then keep both tiers within budget. */
    method Put(key: BlockKey, data: seq<Byte>)
        returns (tier: Tier, evicted: seq<BlockKey>, ghost demoted: seq<BlockKey>, ghost groups: seq<seq<W.DiskStep>>)
      requires Valid()
      modifies this
      ensures Valid() && dramBytes <= dramCapacity && ssdBytes <= ssdCapacity
      ensures Contents() == old(Contents())[key := data] - SetOf(evicted)
      ensures Enforced(old(meta)[key := BlockMeta(CpuDram, |data|, old(clock) + 1)], dramCapacity, ssdCapacity, demoted, evicted, meta)
      ensures clock == old(clock) + 1 && uses == old(uses) + [key]
      ensures key in meta <==> |data| <= dramCapacity || |data| <= ssdCapacity
      ensures key in meta ==> Latest(meta, key) && meta[key].tier == if |data| <= dramCapacity then CpuDram else LocalSsd
      ensures tier == if |data| <= dramCapacity || |data| > ssdCapacity then CpuDram else LocalSsd
      ensures disk == W.DiskAfterAll(codec, old(disk), groups) && log.Extends(old(log))
      ensures Sized() ==> W.AtomicRun(codec, old(disk), groups)
    {
      hide CodecOk, AllFit, TiersOk, HashesOk, DurableOk, TierBytes, W.Served, W.CrashAtomic, W.AtomicRun;
      hide Timed, Latest, W.DiskAfterAll, W.DiskAfter, ContentsOf, Enforced;
      ghost var d0 := disk;
      NoGroups(codec, disk);
      ghost var steps := PutDram(key, data);
      W.RunSnoc(codec, d0, [], steps);
      assert [] + [steps] == [steps];
      ghost var more;
      ghost var earlier := log;
      ghost var meta1 := meta;
      evicted, demoted, more := EnforceCapacity();
      LatestSettles(meta1, dramCapacity, ssdCapacity, demoted, evicted, meta, key);
      FitPrefix(codec, earlier, log);
      RunConcat(codec, d0, [steps], more);
      groups := [steps] + more;
      tier := if key in meta then meta[key].tier else CpuDram;
    }
  }

  /** Blocks as they are once some have moved to the SSD. */
  ghost function Sunk(meta: Metas, moved: set<BlockKey>): Metas {
    map k | k in meta :: if k in moved then meta[k].(tier := LocalSsd) else meta[k]
  }

  /** Capacity enforcement: DRAM drains to the SSD, and then the SSD drains away. */
  ghost predicate Enforced(was: Metas, dramCapacity: nat, ssdCapacity: nat, demoted: seq<BlockKey>, evicted: seq<BlockKey>, now: Metas) {
    && Drained(was, CpuDram, dramCapacity, demoted)
    && Drained(Sunk(was, SetOf(demoted)), LocalSsd, ssdCapacity, evicted)
    && now == Sunk(was, SetOf(demoted)) - SetOf(evicted)
  }

  /** Where the latest used block of the DRAM ends up: there if it fits, else on the SSD if it fits that, else nowhere. */
  lemma {:induction false} LatestSettles(was: Metas, dramCapacity: nat, ssdCapacity: nat, demoted: seq<BlockKey>, evicted: seq<BlockKey>,
      now: Metas, k: BlockKey)
    requires Enforced(was, dramCapacity, ssdCapacity, demoted, evicted, now) && Latest(was, k) && was[k].tier == CpuDram
    ensures k in now <==> was[k].bytes <= dramCapacity || was[k].bytes <= ssdCapacity
    ensures k in now ==> Latest(now, k) && now[k].tier == if was[k].bytes <= dramCapacity then CpuDram else LocalSsd
  {
    hide TierBytes, Draining;
    var mid := Sunk(was, SetOf(demoted));
    LatestGoesIff(was, CpuDram, dramCapacity, demoted, k);
    assert Latest(mid, k);
    if k in demoted {
      LatestGoesIff(mid, LocalSsd, ssdCapacity, evicted, k);
    } else if k in evicted {
      DrainedHere(mid, LocalSsd, ssdCapacity, evicted, k);
    }
  }

  lemma NoneDrained(meta: Metas, tier: Tier, budget: nat)
    ensures Draining(meta, tier, budget, [])
  {
  }

  lemma NoneSunk(meta: Metas, budget: nat)
    ensures Draining(meta, CpuDram, budget, []) && Sunk(meta, SetOf([])) == meta && meta - SetOf([]) == meta
  {
    hide TierBytes;
  }

  lemma {:induction false} SinkMore(meta: Metas, budget: nat, moved: seq<BlockKey>, k: BlockKey)
    requires Draining(meta, CpuDram, budget, moved)
    requires TierBytes(Sunk(meta, SetOf(moved)), CpuDram) == TierBytes(meta - SetOf(moved), CpuDram) > budget
    requires Coldest(Sunk(meta, SetOf(moved)), CpuDram, k)
    ensures Draining(meta, CpuDram, budget, moved + [k])
    ensures var now := Sunk(meta, SetOf(moved)); k in now && Sunk(meta, SetOf(moved + [k])) == now[k := now[k].(tier := LocalSsd)]
    ensures TierBytes(Sunk(meta, SetOf(moved + [k])), CpuDram) == TierBytes(meta - SetOf(moved + [k]), CpuDram)
  {
    hide TierBytes, Draining;
    var now := Sunk(meta, SetOf(moved));
    var left := meta - SetOf(moved);
    forall l | l in left ensures l in now && now[l] == left[l] { assert l in meta && l !in SetOf(moved); }
    assert now[k].tier != LocalSsd && k !in SetOf(moved) && k in left;
    assert Coldest(left, CpuDram, k);
    DrainMore(meta, CpuDram, budget, moved, k);
    var m := now[k].(tier := LocalSsd);
    assert Sunk(meta, SetOf(moved + [k])) == now[k := m];
    TierBytesSet(now, CpuDram, k, m);
    TierBytesRemove(now, CpuDram, k);
  }

  lemma TierOf(dram: map<BlockKey, seq<Byte>>, ssd: map<BlockKey, nat>, meta: Metas, files: map<nat, seq<Byte>>, k: BlockKey)
    requires TiersOk(dram, ssd, meta, files)
    ensures k in ssd <==> k in meta && meta[k].tier == LocalSsd
    ensures k in dram <==> k in meta && meta[k].tier == CpuDram
    ensures k in meta ==> meta[k].tier == LocalSsd || meta[k].tier == CpuDram
    ensures k in ssd ==> ssd[k] in files && meta[k].bytes == |files[ssd[k]]| && ContentsOf(dram, ssd, files)[k] == files[ssd[k]]
    ensures k in dram ==> meta[k].bytes == |dram[k]| && ContentsOf(dram, ssd, files)[k] == dram[k]
    ensures k in ContentsOf(dram, ssd, files) <==> k in meta
  {
  }

  lemma {:induction false} NoSteps(codec: Codec<W.Record>, d: W.Disk)
    ensures W.DiskAfter(codec, d, []) == d && W.CrashAtomic(codec, d, [])
  {
  }

  lemma {:induction false} Retiered(meta: Metas, k: BlockKey)
    requires k in meta && meta[k].tier == CpuDram
    ensures var n := meta[k := meta[k].(tier := LocalSsd)];
      TierBytes(n, CpuDram) + meta[k].bytes == TierBytes(meta, CpuDram) && TierBytes(n, LocalSsd) == TierBytes(meta, LocalSsd) + meta[k].bytes
  {
    hide TierBytes;
    TierBytesRemove(meta, CpuDram, k);
    TierBytesRemove(meta, LocalSsd, k);
    TierBytesSet(meta, CpuDram, k, meta[k].(tier := LocalSsd));
    TierBytesSet(meta, LocalSsd, k, meta[k].(tier := LocalSsd));
  }

  lemma HashMoved(byHash: map<string, set<BlockKey>>, meta: Metas, k: BlockKey)
    requires HashesOk(byHash, meta) && k in meta
    ensures HashesOk(byHash, meta[k := meta[k].(tier := LocalSsd)])
  {
    assert meta[k := meta[k].(tier := LocalSsd)].Keys == meta.Keys;
  }

  lemma FitPrefix(codec: Codec<W.Record>, was: W.Log, log: W.Log)
    requires log.Extends(was)
    ensures AllFit(codec, log.added) ==> AllFit(codec, was.added)
  {
    hide Fit;
    if AllFit(codec, log.added) {
      forall i | 0 <= i < |was.added| ensures Fit(codec, was.added[i]) { assert log.added[i] == was.added[i]; }
    }
  }

  lemma {:induction false} NoGroups(codec: Codec<W.Record>, d: W.Disk)
    ensures W.AtomicRun(codec, d, []) && W.DiskAfterAll(codec, d, []) == d
  {
  }

  lemma {:induction false} RunPrefix(codec: Codec<W.Record>, d: W.Disk, hs: seq<seq<W.DiskStep>>)
    requires W.AtomicRun(codec, d, hs) && hs != []
    ensures var n := |hs| - 1; W.AtomicRun(codec, d, hs[..n]) && W.CrashAtomic(codec, W.DiskAfterAll(codec, d, hs[..n]), hs[n])
  {
    hide W.CrashAtomic, W.DiskAfterAll;
    var n := |hs| - 1;
    forall i | 0 <= i < n ensures W.CrashAtomic(codec, W.DiskAfterAll(codec, d, hs[..n][..i]), hs[..n][i]) {
      assert hs[..n][..i] == hs[..i];
    }
  }

  lemma {:induction false} RunConcat(codec: Codec<W.Record>, d: W.Disk, gs: seq<seq<W.DiskStep>>, hs: seq<seq<W.DiskStep>>)
    ensures W.AtomicRun(codec, d, gs) && W.AtomicRun(codec, W.DiskAfterAll(codec, d, gs), hs) ==> W.AtomicRun(codec, d, gs + hs)
    ensures W.DiskAfterAll(codec, d, gs + hs) == W.DiskAfterAll(codec, W.DiskAfterAll(codec, d, gs), hs)
    decreases |hs|
  {
    hide W.CrashAtomic, W.DiskAfter, W.DiskAfterAll, W.AtomicRun;
    var m := W.DiskAfterAll(codec, d, gs);
    if hs == [] {
      assert gs + hs == gs;
      NoGroups(codec, m);
    } else {
      var n := |hs| - 1;
      if W.AtomicRun(codec, m, hs) { RunPrefix(codec, m, hs); }
      RunConcat(codec, d, gs, hs[..n]);
      assert gs + hs[..n] + [hs[n]] == gs + hs && hs[..n] + [hs[n]] == hs;
      W.RunSnoc(codec, m, hs[..n], hs[n]);
      W.RunSnoc(codec, d, gs + hs[..n], hs[n]);
    }
  }

  /** Reading a block only moves it up in the order of use. */
  lemma {:induction false} Touched(dram: map<BlockKey, seq<Byte>>, ssd: map<BlockKey, nat>, meta: Metas,
      files: map<nat, seq<Byte>>, byHash: map<string, set<BlockKey>>, k: BlockKey, now: nat)
    requires TiersOk(dram, ssd, meta, files) && HashesOk(byHash, meta) && k in meta
    ensures var n := meta[k := meta[k].(lastAccess := now)];
      && TiersOk(dram, ssd, n, files) && HashesOk(byHash, n)
      && TierBytes(n, CpuDram) == TierBytes(meta, CpuDram) && TierBytes(n, LocalSsd) == TierBytes(meta, LocalSsd)
  {
    hide TierBytes;
    var m := meta[k].(lastAccess := now);
    assert meta[k := m].Keys == meta.Keys;
    TierBytesSet(meta, CpuDram, k, m);
    TierBytesSet(meta, LocalSsd, k, m);
    TierBytesRemove(meta, CpuDram, k);
    TierBytesRemove(meta, LocalSsd, k);
  }

  // ---- recovery ----

  /** A commit whose file is there as committed puts the counter at `file` or above. */
  ghost predicate Reached(codec: Codec<W.Record>, live: map<BlockKey, W.Pointer>, files: map<nat, seq<Byte>>, file: nat) {
    file == 0 || exists k :: k in live && W.Verified(codec, files, live[k]) && file <= live[k].file + 1
  }

  /** The file counter recovery arrives at: one past the greatest file of a verified commit, or zero. */
  ghost predicate Counter(codec: Codec<W.Record>, live: map<BlockKey, W.Pointer>, files: map<nat, seq<Byte>>, n: nat) {
    Reached(codec, live, files, n) && forall k :: k in live && W.Verified(codec, files, live[k]) ==> live[k].file < n
  }

  lemma CounterBounds(codec: Codec<W.Record>, live: map<BlockKey, W.Pointer>, files: map<nat, seq<Byte>>, n: nat, file: nat)
    requires Counter(codec, live, files, n)
    ensures file <= n <==> Reached(codec, live, files, file)
  {
    hide W.Verified;
  }

  /**
    A disk a store can go on from: whole frames, no live commit's file beyond the counter
    recovery arrives at, and no file that two commits are verified by. Block files may be
    missing or damaged.
   */
  ghost predicate Resumable(codec: Codec<W.Record>, disk: W.Disk) {
    var live := W.Live(DecodeSkipping(codec, disk.wal));
    && Whole(codec, disk.wal)
    && (forall k :: k in live ==> Reached(codec, live, disk.files, live[k].file))
    && W.Unshared(codec, live, disk.files)
  }

  /** What the verification of live commits has admitted so far. */
  ghost predicate Admitted(codec: Codec<W.Record>, live: map<BlockKey, W.Pointer>, files: map<nat, seq<Byte>>,
      ssd: map<BlockKey, nat>, meta: Metas, nextFile: nat) {
    && (forall k :: k in ssd <==> k in live && W.Verified(codec, files, live[k]))
    && (forall k :: k in ssd ==> ssd[k] == live[k].file)
    && Counter(codec, live, files, nextFile)
    && meta.Keys == ssd.Keys && (forall k :: k in meta ==> meta[k] == BlockMeta(LocalSsd, live[k].len, 0))
  }

  lemma AdmitNext(codec: Codec<W.Record>, live: map<BlockKey, W.Pointer>, files: map<nat, seq<Byte>>,
      ssd: map<BlockKey, nat>, meta: Metas, nextFile: nat, rest: set<BlockKey>, k: BlockKey)
    requires Admitted(codec, live - rest, files, ssd, meta, nextFile) && k in rest && rest <= live.Keys
    ensures !W.Verified(codec, files, live[k]) ==> Admitted(codec, live - (rest - {k}), files, ssd, meta, nextFile)
    ensures W.Verified(codec, files, live[k]) ==>
      Admitted(codec, live - (rest - {k}), files, ssd[k := live[k].file], meta[k := BlockMeta(LocalSsd, live[k].len, 0)],
        NextCounter(nextFile, live[k].file))
  {
    hide W.Verified, Counter;
    assert live - (rest - {k}) == (live - rest)[k := live[k]];
    CounterNext(codec, live - rest, files, nextFile, k, live[k]);
  }

  function NextCounter(n: nat, file: nat): nat {
    if file + 1 <= n then n else file + 1
  }

  lemma CounterNext(codec: Codec<W.Record>, live: map<BlockKey, W.Pointer>, files: map<nat, seq<Byte>>, n: nat, k: BlockKey, p: W.Pointer)
    requires Counter(codec, live, files, n) && k !in live
    ensures Counter(codec, live[k := p], files, if W.Verified(codec, files, p) then NextCounter(n, p.file) else n)
  {
    hide W.Verified;
    var live' := live[k := p];
    assert live'[k] == p;
    if n > 0 {
      var l :| l in live && W.Verified(codec, files, live[l]) && n <= live[l].file + 1;
      assert l in live' && live'[l] == live[l];
    }
  }

  lemma {:induction false} AdmittedAll(codec: Codec<W.Record>, disk: W.Disk, ssd: map<BlockKey, nat>, meta: Metas, nextFile: nat)
    requires CodecOk(codec) && Admitted(codec, W.Live(DecodeSkipping(codec, disk.wal)), disk.files, ssd, meta, nextFile)
    ensures TiersOk(map[], ssd, meta, disk.files) && ContentsOf(map[], ssd, disk.files) == W.Served(codec, disk)
    ensures TierBytes(meta, CpuDram) == 0
  {
    hide CodecOk, W.Live, DecodeSkipping, Encode, TierBytes, Counter;
    NoneInNoBytes(meta, CpuDram);
    assert map[] + SsdContents(ssd, disk.files) == SsdContents(ssd, disk.files);
  }

  lemma {:induction false} AdmittedResumes(codec: Codec<W.Record>, disk: W.Disk, ssd: map<BlockKey, nat>, meta: Metas, nextFile: nat)
    requires Admitted(codec, W.Live(DecodeSkipping(codec, disk.wal)), disk.files, ssd, meta, nextFile)
    ensures DurableOk(codec, disk, W.Log(disk.wal, []), nextFile, ssd) <==> Resumable(codec, disk)
  {
    Opened(codec, disk.wal);
    hide W.Live, W.LiveIn, W.Kept, DecodeSkipping, Encode, Counter, Reached, W.Verified, Admitted;
    var live := W.Live(DecodeSkipping(codec, disk.wal));
    forall k | k in live || k in ssd
      ensures k in live && (live[k].file <= nextFile <==> Reached(codec, live, disk.files, live[k].file))
      ensures (k in ssd <==> W.Verified(codec, disk.files, live[k])) && (k in ssd ==> ssd[k] == live[k].file && ssd[k] in disk.files)
    {
      AdmittedAt(codec, live, disk.files, ssd, meta, nextFile, k);
    }
  }

  lemma {:induction false} Opened(codec: Codec<W.Record>, bytes: seq<Byte>)
    ensures W.LiveIn(codec, W.Log(bytes, [])) == W.Live(DecodeSkipping(codec, bytes))
    ensures W.Kept(codec, bytes, W.Log(bytes, [])) <==> Whole(codec, bytes)
  {
    hide DecodeSkipping;
    var records := DecodeSkipping(codec, bytes);
    assert records + [] == records && bytes + [] == bytes;
  }

  lemma AdmittedAt(codec: Codec<W.Record>, live: map<BlockKey, W.Pointer>, files: map<nat, seq<Byte>>,
      ssd: map<BlockKey, nat>, meta: Metas, nextFile: nat, k: BlockKey)
    requires Admitted(codec, live, files, ssd, meta, nextFile) && (k in live || k in ssd)
    ensures k in live && (live[k].file <= nextFile <==> Reached(codec, live, files, live[k].file))
    ensures (k in ssd <==> W.Verified(codec, files, live[k])) && (k in ssd ==> ssd[k] == live[k].file && ssd[k] in files)
  {
    hide Counter, Reached;
    CounterBounds(codec, live, files, nextFile, live[k].file);
  }

  /**
    When the disk of a working store can be gone on from: exactly when no live commit
    of a block that is no longer spilled names a file beyond those of the spilled ones.
   */
  lemma {:induction false} ResumesIff(codec: Codec<W.Record>, disk: W.Disk, log: W.Log, nextFile: nat, ssd: map<BlockKey, nat>)
    requires CodecOk(codec) && AllFit(codec, log.added) && DurableOk(codec, disk, log, nextFile, ssd)
    ensures Resumable(codec, disk) <==> forall k :: k in W.LiveIn(codec, log) && k !in ssd ==> Covered(W.LiveIn(codec, log)[k].file, ssd)
  {
    W.WholeLog(codec, disk.wal, log);
    var live := W.LiveIn(codec, log);
    hide CodecOk, AllFit, W.Live, DecodeSkipping, Encode, W.Verified;
    forall k | k in live ensures W.Verified(codec, disk.files, live[k]) <==> k in ssd {
      W.OtherFile(codec, disk.files, 0, live[k]);
    }
    forall k | k in live ensures Reached(codec, live, disk.files, live[k].file) <==> k in ssd || Covered(live[k].file, ssd) {
      if Covered(live[k].file, ssd) && live[k].file > 0 {
        var l :| l in ssd && live[k].file <= ssd[l] + 1;
        assert live[l].file == ssd[l];
      }
    }
  }

  /** A file that the counter is past again once the spilled blocks are recovered. */
  ghost predicate Covered(file: nat, ssd: map<BlockKey, nat>) {
    file == 0 || exists l :: l in ssd && file <= ssd[l] + 1
  }

  /** The live blocks whose file is there, as long as their last commit says and with the checksum it says; and the bytes of that file. */
  ghost predicate Restored(codec: Codec<W.Record>, disk: W.Disk, contents: map<BlockKey, seq<Byte>>) {
    var live := W.Live(DecodeSkipping(codec, disk.wal));
    && (forall k :: k in contents <==>
      k in live && live[k].file in disk.files && |disk.files[live[k].file]| == live[k].len && codec.crc(disk.files[live[k].file]) == live[k].crc)
    && (forall k :: k in contents ==> contents[k] == disk.files[live[k].file])
  }

  lemma {:induction false} ServedRestored(codec: Codec<W.Record>, disk: W.Disk)
    ensures Restored(codec, disk, W.Served(codec, disk))
  {
    hide W.Live, DecodeSkipping;
  }

  /**
    Reopen a store from its disk, whatever state a crash or damage left it in: only
    blocks whose last commit is verified by length and checksum are served.
   */
  method Recover(codec: Codec<W.Record>, disk: W.Disk, dramCapacity: nat, ssdCapacity: nat) returns (store: LocalKvStore)
    requires CodecOk(codec)
    ensures fresh(store) && store.codec == codec && store.disk == disk
    ensures store.dramCapacity == dramCapacity && store.ssdCapacity == ssdCapacity
    ensures store.Contents() == W.Served(codec, disk)
    ensures Restored(codec, disk, store.Contents())
    ensures store.clock == 0 && store.uses == [] && forall k :: k in store.meta ==> store.meta[k].lastAccess == 0
    ensures TiersOk(store.dram, store.ssd, store.meta, disk.files) && HashesOk(store.byHash, store.meta)
    ensures store.dramBytes == 0 && store.ssdBytes == TierBytes(store.meta, LocalSsd)
    ensures Counter(codec, W.Live(DecodeSkipping(codec, disk.wal)), disk.files, store.nextFile)
    ensures store.log == W.Log(disk.wal, []) && store.Sized() && (store.Valid() <==> Resumable(codec, disk))
  {
    hide CodecOk, TiersOk, HashesOk, DurableOk, TierBytes, W.Served, ContentsOf, Admitted, W.Verified, Resumable;
    hide Timed, Counter, With, DecodeSkipping, W.Live, AllFit, Restored;
    store := new LocalKvStore(codec, disk.files, dramCapacity, ssdCapacity);
    var live := W.ReplayLive(codec, disk.wal);
    var rest := live.Keys;
    NoneAdmitted(codec, live, disk.files);
    NoneHashed();
    while rest != {}
      invariant rest <= live.Keys && store.dram == map[] && store.dramBytes == 0
      invariant Admitted(codec, live - rest, disk.files, store.ssd, store.meta, store.nextFile)
      invariant HashesOk(store.byHash, store.meta) && store.ssdBytes == TierBytes(store.meta, LocalSsd)
      invariant store.meta.Keys <= live.Keys - rest && store.clock == 0 && store.uses == []
    {
      var k :| k in rest;
      var p := live[k];
      AdmitNext(codec, live, disk.files, store.ssd, store.meta, store.nextFile, rest, k);
      if W.Verified(codec, disk.files, p) {
        var m := BlockMeta(LocalSsd, p.len, 0);
        HashAdded(store.byHash, store.meta, k, m);
        TierBytesSet(store.meta, LocalSsd, k, m);
        store.byHash := With(store.byHash, k, HashOf);
        store.meta := store.meta[k := m];
        store.ssd := store.ssd[k := p.file];
        store.ssdBytes := store.ssdBytes + p.len;
        store.nextFile := NextCounter(store.nextFile, p.file);
      }
      rest := rest - {k};
    }
    assert live - rest == live;
    store.disk := disk;
    ServedRestored(codec, disk);
    store.log := W.Log(disk.wal, []);
    AdmittedAll(codec, disk, store.ssd, store.meta, store.nextFile);
    AdmittedResumes(codec, disk, store.ssd, store.meta, store.nextFile);
    AdmittedCounter(codec, live, disk.files, store.ssd, store.meta, store.nextFile);
  }

  lemma AdmittedCounter(codec: Codec<W.Record>, live: map<BlockKey, W.Pointer>, files: map<nat, seq<Byte>>,
      ssd: map<BlockKey, nat>, meta: Metas, nextFile: nat)
    requires Admitted(codec, live, files, ssd, meta, nextFile)
    ensures Counter(codec, live, files, nextFile) && Timed(meta, []) && forall k :: k in meta ==> meta[k].lastAccess == 0
  {
    NeverUsed(meta);
  }

  lemma NoneAdmitted(codec: Codec<W.Record>, live: map<BlockKey, W.Pointer>, files: map<nat, seq<Byte>>)
    ensures Admitted(codec, live - live.Keys, files, map[], map[], 0) && TierBytes(map[], LocalSsd) == 0
  {
  }

  lemma NoneHashed()
    ensures HashesOk(map[], map[])
  {
  }
}