/**
  The durable side of the block store: block files and a write-ahead log of
  commits and tombstones, with every state a crash may leave them in.
 */
module Wal {
  import opened Blocks
  import opened Frames
  import opened Segments

  datatype Record = Commit(key: BlockKey, file: nat, len: nat, crc: nat) | Tombstone(key: BlockKey)

  /** The last commit of a block: its file, length and checksum. */
  datatype Pointer = Pointer(file: nat, len: nat, crc: nat)

  datatype Disk = Disk(wal: seq<Byte>, files: map<nat, seq<Byte>>)

  /** What a log held when it was opened, and the records appended since. */
  datatype Log = Log(base: seq<Byte>, added: seq<Record>) {
    function Add(r: Record): Log {
      Log(base, added + [r])
    }

    predicate Extends(was: Log) {
      base == was.base && was.added <= added
    }
  }

  // ---- what recovery trusts ----

  function After(live: map<BlockKey, Pointer>, r: Record): map<BlockKey, Pointer> {
    match r
    case Commit(k, file, len, crc) => live[k := Pointer(file, len, crc)]
    case Tombstone(k) => live - {k}
  }

  /** Replaying records: the last one of a key wins. */
  function Live(records: seq<Record>): map<BlockKey, Pointer> {
    if records == [] then map[] else After(Live(records[..|records| - 1]), records[|records| - 1])
  }

  lemma {:induction false} LiveSnoc(records: seq<Record>, r: Record)
    ensures Live(records + [r]) == After(Live(records), r)
  {
    assert (records + [r])[..|records|] == records;
  }

  /** The file a pointer names is there with the length and checksum of the commit. */
  predicate Verified(codec: Codec<Record>, files: map<nat, seq<Byte>>, p: Pointer) {
    p.file in files && |files[p.file]| == p.len && codec.crc(files[p.file]) == p.crc
  }

  /** The blocks recovery serves, with their bytes. */
  function ServedBy(codec: Codec<Record>, live: map<BlockKey, Pointer>, files: map<nat, seq<Byte>>): map<BlockKey, seq<Byte>> {
    map k | k in live && Verified(codec, files, live[k]) :: files[live[k].file]
  }

  function Served(codec: Codec<Record>, d: Disk): map<BlockKey, seq<Byte>> {
    ServedBy(codec, Live(DecodeSkipping(codec, d.wal)), d.files)
  }

  // ---- disk steps and the states a crash may leave ----

  datatype DiskStep = WriteFile(id: nat, data: seq<Byte>) | AppendRecord(record: Record) | DeleteFile(id: nat)

  function Stepped(codec: Codec<Record>, d: Disk, s: DiskStep): Disk {
    match s
    case WriteFile(id, data) => d.(files := d.files[id := data])
    case AppendRecord(r) => d.(wal := d.wal + Frame(codec, r))
    case DeleteFile(id) => d.(files := d.files - {id})
  }

  function DiskAfter(codec: Codec<Record>, d: Disk, ss: seq<DiskStep>): Disk {
    if ss == [] then d else Stepped(codec, DiskAfter(codec, d, ss[..|ss| - 1]), ss[|ss| - 1])
  }

  /** `e` is what a crash in the middle of step `s` may leave: a file or a frame written in part. */
  ghost predicate CrashDuring(codec: Codec<Record>, d: Disk, s: DiskStep, e: Disk) {
    || e == d
    || match s
       case WriteFile(id, data) => exists n: nat :: n <= |data| && e == d.(files := d.files[id := data[..n]])
       case AppendRecord(r) => exists n: nat :: n <= |Frame(codec, r)| && e == d.(wal := d.wal + Frame(codec, r)[..n])
       case DeleteFile(id) => e == d.(files := d.files - {id})
  }

  /** Whenever the crash comes, recovery serves what it would have before the steps or what it would after. */
  ghost predicate CrashAtomic(codec: Codec<Record>, d: Disk, ss: seq<DiskStep>) {
    forall i, e :: 0 <= i < |ss| && CrashDuring(codec, DiskAfter(codec, d, ss[..i]), ss[i], e) ==>
      Served(codec, e) == Served(codec, d) || Served(codec, e) == Served(codec, DiskAfter(codec, d, ss))
  }

  // ---- the discipline that makes it so ----

  function RecordsOf(codec: Codec<Record>, log: Log): seq<Record> {
    DecodeSkipping(codec, log.base) + log.added
  }

  function LiveIn(codec: Codec<Record>, log: Log): map<BlockKey, Pointer> {
    Live(RecordsOf(codec, log))
  }

  /** The file was whole when opened, whatever its frames hold, and has the records appended since. */
  ghost predicate Kept(codec: Codec<Record>, bytes: seq<Byte>, log: Log) {
    Whole(codec, log.base) && bytes == log.base + Encode(codec, log.added)
  }

  lemma {:induction false} LiveAdd(codec: Codec<Record>, log: Log, r: Record)
    ensures LiveIn(codec, log.Add(r)) == After(LiveIn(codec, log), r)
  {
    LiveSnoc(RecordsOf(codec, log), r);
    assert RecordsOf(codec, log) + [r] == RecordsOf(codec, log.Add(r));
  }

  /** The log is whole, and its live commits name files as they should. */
  ghost predicate Journaled(codec: Codec<Record>, d: Disk, log: Log, nextFile: nat) {
    && Kept(codec, d.wal, log)
    && PointersOk(codec, LiveIn(codec, log), d.files, nextFile)
  }

  /** No live commit names a file yet to come, and no two name one file that is as both committed it. */
  ghost predicate PointersOk(codec: Codec<Record>, live: map<BlockKey, Pointer>, files: map<nat, seq<Byte>>, nextFile: nat) {
    && (forall k :: k in live ==> live[k].file <= nextFile)
    && Unshared(codec, live, files)
  }

  /** No two verified commits name one file. */
  ghost predicate Unshared(codec: Codec<Record>, live: map<BlockKey, Pointer>, files: map<nat, seq<Byte>>) {
    forall k, l :: k in live && l in live && k != l && Verified(codec, files, live[k]) && Verified(codec, files, live[l]) ==>
      live[k].file != live[l].file
  }

  lemma {:induction false} EncodeGrows(codec: Codec<Record>, records: seq<Record>, j: nat)
    requires j <= |records|
    ensures |Encode(codec, records[..j])| <= |Encode(codec, records)|
  {
    hide Frame;
    if j < |records| {
      var n := |records| - 1;
      EncodeGrows(codec, records[..n], j);
      assert records[..n][..j] == records[..j];
    } else {
      assert records[..j] == records;
    }
  }

  lemma {:induction false} PartialEncode(codec: Codec<Record>, records: seq<Record>, r: Record, n: nat)
    requires CodecOk(codec) && AllFit(codec, records + [r]) && n <= |Frame(codec, r)|
    ensures DecodeSkipping(codec, Encode(codec, records) + Frame(codec, r)[..n]) == if n < |Frame(codec, r)| then records else records + [r]
  {
    hide Frame, CodecOk, AllFit, DecodeSkipping, WholeFrames;
    var all := records + [r];
    assert all[..|records|] == records && all[|records|] == r && all[..|all|] == all;
    var bytes, cut := Encode(codec, all), |Encode(codec, records)| + n;
    assert bytes == Encode(codec, records) + Frame(codec, r);
    hide Encode;
    assert bytes[..cut] == Encode(codec, records) + Frame(codec, r)[..n];
    CutDecodes(codec, all, cut);
    WholeFramesEnd(codec, all, cut);
    var j := WholeFrames(codec, all, cut);
    TakeSnoc(records, r);
    if j < |records| { EncodeGrows(codec, records, j + 1); }
  }

  lemma TakeSnoc(records: seq<Record>, r: Record)
    ensures forall i :: 0 <= i <= |records| ==> (records + [r])[..i] == records[..i]
  {
  }

  lemma {:induction false} WholeLog(codec: Codec<Record>, bytes: seq<Byte>, log: Log)
    requires CodecOk(codec) && AllFit(codec, log.added) && Kept(codec, bytes, log)
    ensures DecodeSkipping(codec, bytes) == RecordsOf(codec, log) && Live(DecodeSkipping(codec, bytes)) == LiveIn(codec, log) && Whole(codec, bytes)
  {
    hide CodecOk, AllFit, DecodeSkipping, Encode, Whole;
    EncodedWhole(codec, log.added);
    WholeRest(codec, log.base, Encode(codec, log.added));
  }

  /** A frame written in part adds nothing to the log; a whole one adds its record. */
  lemma {:induction false} PartialAppend(codec: Codec<Record>, bytes: seq<Byte>, log: Log, r: Record, n: nat)
    requires CodecOk(codec) && AllFit(codec, log.added + [r]) && n <= |Frame(codec, r)| && Kept(codec, bytes, log)
    ensures var now := if n < |Frame(codec, r)| then log else log.Add(r);
      var read := DecodeSkipping(codec, bytes + Frame(codec, r)[..n]);
      read == RecordsOf(codec, now) && Live(read) == LiveIn(codec, now)
  {
    hide CodecOk, AllFit, DecodeSkipping, Encode, Whole, Frame;
    PartialEncode(codec, log.added, r, n);
    WholeRest(codec, log.base, Encode(codec, log.added) + Frame(codec, r)[..n]);
    assert bytes + Frame(codec, r)[..n] == log.base + (Encode(codec, log.added) + Frame(codec, r)[..n]);
  }

  lemma {:induction false} JournalServes(codec: Codec<Record>, d: Disk, log: Log, nextFile: nat)
    requires CodecOk(codec) && AllFit(codec, log.added) && Journaled(codec, d, log, nextFile)
    ensures Served(codec, d) == ServedBy(codec, LiveIn(codec, log), d.files)
    ensures forall k :: k in Served(codec, d) <==> k in LiveIn(codec, log) && Verified(codec, d.files, LiveIn(codec, log)[k])
  {
    hide CodecOk, DecodeSkipping, Encode, Whole, Live;
    WholeLog(codec, d.wal, log);
  }

  lemma {:induction false} TwoSteps(codec: Codec<Record>, d: Disk, a: DiskStep, b: DiskStep)
    ensures DiskAfter(codec, d, []) == d && DiskAfter(codec, d, [a]) == Stepped(codec, d, a)
    ensures DiskAfter(codec, d, [a, b]) == Stepped(codec, Stepped(codec, d, a), b)
    ensures [a, b][..0] == [] && [a, b][..1] == [a] && [a][..0] == []
  {
    assert [a, b][..1] == [a] && [a][..0] == [];
  }

  /** A crash while appending leaves the log as it was or with the record. */
  lemma {:induction false} CrashAppending(codec: Codec<Record>, d: Disk, log: Log, r: Record, e: Disk)
    requires CodecOk(codec) && AllFit(codec, log.added + [r]) && Kept(codec, d.wal, log) && CrashDuring(codec, d, AppendRecord(r), e)
    ensures e.files == d.files
    ensures
      || Served(codec, e) == ServedBy(codec, LiveIn(codec, log), d.files)
      || Served(codec, e) == ServedBy(codec, After(LiveIn(codec, log), r), d.files)
  {
    hide Frame, CodecOk, ServedBy, LiveIn, Kept, AllFit, Fit;
    FitSnoc(codec, log.added, r);
    WholeLog(codec, d.wal, log);
    if e != d {
      var n: nat :| n <= |Frame(codec, r)| && e == d.(wal := d.wal + Frame(codec, r)[..n]);
      PartialAppend(codec, d.wal, log, r, n);
      LiveAdd(codec, log, r);
    }
  }

  lemma {:induction false} Appended(codec: Codec<Record>, d: Disk, log: Log, r: Record)
    requires CodecOk(codec) && Kept(codec, d.wal, log)
    ensures Kept(codec, Stepped(codec, d, AppendRecord(r)).wal, log.Add(r))
    ensures LiveIn(codec, log.Add(r)) == After(LiveIn(codec, log), r)
    ensures AllFit(codec, log.added + [r]) ==>
      Served(codec, Stepped(codec, d, AppendRecord(r))) == ServedBy(codec, After(LiveIn(codec, log), r), d.files)
  {
    hide Frame, CodecOk, ServedBy, LiveIn, Whole, AllFit;
    assert (log.added + [r])[..|log.added|] == log.added;
    LiveAdd(codec, log, r);
    if AllFit(codec, log.added + [r]) { WholeLog(codec, Stepped(codec, d, AppendRecord(r)).wal, log.Add(r)); }
  }

  /** Writing a file no commit names, in part or whole, changes nothing recovery serves. */
  lemma NewFileUnseen(codec: Codec<Record>, live: map<BlockKey, Pointer>, files: map<nat, seq<Byte>>, nextFile: nat, f: nat, data: seq<Byte>)
    requires PointersOk(codec, live, files, nextFile) && f > nextFile
    ensures ServedBy(codec, live, files[f := data]) == ServedBy(codec, live, files) && PointersOk(codec, live, files[f := data], nextFile)
  {
  }

  function CommitOf(codec: Codec<Record>, k: BlockKey, f: nat, data: seq<Byte>): Record {
    Commit(k, f, |data|, codec.crc(data))
  }

  /** The steps that spill a block to a file. */
  function SpillSteps(codec: Codec<Record>, k: BlockKey, f: nat, data: seq<Byte>): seq<DiskStep> {
    [WriteFile(f, data), AppendRecord(CommitOf(codec, k, f, data))]
  }

  /** The steps that drop a spilled block. */
  function DropSteps(k: BlockKey, f: nat): seq<DiskStep> {
    [AppendRecord(Tombstone(k)), DeleteFile(f)]
  }

  /** Object first, then one commit: demoting a block is atomic under crashes, and publishes its bytes. */
  lemma {:induction false} CommitAtomic(codec: Codec<Record>, d: Disk, log: Log, nextFile: nat, k: BlockKey, data: seq<Byte>)
    requires CodecOk(codec) && Journaled(codec, d, log, nextFile)
    ensures var f := nextFile + 1;
      var c := CommitOf(codec, k, f, data);
      var ss := SpillSteps(codec, k, f, data);
      var e := DiskAfter(codec, d, ss);
      && Journaled(codec, e, log.Add(c), f) && e.files == d.files[f := data]
      && (AllFit(codec, log.added + [c]) ==> CrashAtomic(codec, d, ss) && Served(codec, e) == Served(codec, d)[k := data])
  {
    var f := nextFile + 1;
    var c := CommitOf(codec, k, f, data);
    var a, b := WriteFile(f, data), AppendRecord(c);
    var live := LiveIn(codec, log);
    hide Frame, CodecOk, LiveIn, Kept, AllFit, Fit;
    TwoSteps(codec, d, a, b);
    var m := Stepped(codec, d, a);
    var e := DiskAfter(codec, d, [a, b]);
    NewFileUnseen(codec, live, d.files, nextFile, f, data);
    Appended(codec, m, log, c);
    CommitPointers(codec, live, m.files, nextFile, c, data);
    FitSnoc(codec, log.added, c);
    if !AllFit(codec, log.added + [c]) { return; }
    assert Served(codec, d) == ServedBy(codec, live, d.files) by { WholeLog(codec, d.wal, log); }
    forall i, x | 0 <= i < 2 && CrashDuring(codec, DiskAfter(codec, d, [a, b][..i]), [a, b][i], x)
      ensures Served(codec, x) == Served(codec, d) || Served(codec, x) == Served(codec, e)
    {
      if i == 0 {
        FileCrash(codec, d, log, nextFile, f, data, x);
      } else {
        CrashAppending(codec, m, log, c, x);
      }
    }
  }

  lemma FileCrash(codec: Codec<Record>, d: Disk, log: Log, nextFile: nat, f: nat, data: seq<Byte>, e: Disk)
    requires CodecOk(codec) && AllFit(codec, log.added) && Journaled(codec, d, log, nextFile) && f > nextFile
    requires CrashDuring(codec, d, WriteFile(f, data), e)
    ensures Served(codec, e) == Served(codec, d)
  {
    hide CodecOk, LiveIn, Kept, ServedBy, PointersOk, AllFit;
    WholeLog(codec, d.wal, log);
    if e != d {
      var n: nat :| n <= |data| && e == d.(files := d.files[f := data[..n]]);
      NewFileUnseen(codec, LiveIn(codec, log), d.files, nextFile, f, data[..n]);
    }
  }

  lemma CommitPointers(codec: Codec<Record>, live: map<BlockKey, Pointer>, files: map<nat, seq<Byte>>, nextFile: nat, c: Record, data: seq<Byte>)
    requires PointersOk(codec, live, files, nextFile) && c.Commit? && c.file == nextFile + 1 && c.file in files && files[c.file] == data
    requires c.len == |data| && c.crc == codec.crc(data)
    ensures PointersOk(codec, After(live, c), files, c.file)
    ensures ServedBy(codec, After(live, c), files) == ServedBy(codec, live, files)[c.key := data]
  {
  }

  /** Tombstone first, then delete: dropping a block is atomic under crashes. */
  lemma {:induction false} DropAtomic(codec: Codec<Record>, d: Disk, log: Log, nextFile: nat, k: BlockKey)
    requires CodecOk(codec) && Journaled(codec, d, log, nextFile)
    requires k in LiveIn(codec, log) && Verified(codec, d.files, LiveIn(codec, log)[k])
    ensures var ss := DropSteps(k, LiveIn(codec, log)[k].file);
      var e := DiskAfter(codec, d, ss);
      && Journaled(codec, e, log.Add(Tombstone(k)), nextFile) && e.files == d.files - {LiveIn(codec, log)[k].file}
      && (AllFit(codec, log.added + [Tombstone(k)]) ==> CrashAtomic(codec, d, ss) && Served(codec, e) == Served(codec, d) - {k})
  {
    var live := LiveIn(codec, log);
    var f := live[k].file;
    var a, b := AppendRecord(Tombstone(k)), DeleteFile(f);
    hide Frame, CodecOk, LiveIn, Kept, AllFit, Fit;
    TwoSteps(codec, d, a, b);
    var m := Stepped(codec, d, a);
    var e := DiskAfter(codec, d, [a, b]);
    Appended(codec, d, log, Tombstone(k));
    DropPointers(codec, live, d.files, nextFile, k);
    if AllFit(codec, log.added + [Tombstone(k)]) { DropCrash(codec, d, log, nextFile, k); }
  }

  lemma {:induction false} DropCrash(codec: Codec<Record>, d: Disk, log: Log, nextFile: nat, k: BlockKey)
    requires CodecOk(codec) && Journaled(codec, d, log, nextFile) && AllFit(codec, log.added + [Tombstone(k)])
    requires k in LiveIn(codec, log) && Verified(codec, d.files, LiveIn(codec, log)[k])
    ensures var ss := DropSteps(k, LiveIn(codec, log)[k].file);
      CrashAtomic(codec, d, ss) && Served(codec, DiskAfter(codec, d, ss)) == Served(codec, d) - {k}
  {
    var live := LiveIn(codec, log);
    var f := live[k].file;
    var a, b := AppendRecord(Tombstone(k)), DeleteFile(f);
    hide Frame, CodecOk, LiveIn, Kept, AllFit, Fit, PointersOk, ServedBy;
    TwoSteps(codec, d, a, b);
    var m := Stepped(codec, d, a);
    var e := DiskAfter(codec, d, [a, b]);
    Appended(codec, d, log, Tombstone(k));
    DropPointers(codec, live, d.files, nextFile, k);
    FitSnoc(codec, log.added, Tombstone(k));
    assert Served(codec, d) == ServedBy(codec, live, d.files) by { WholeLog(codec, d.wal, log); }
    assert Served(codec, e) == ServedBy(codec, live - {k}, d.files - {f}) by {
      WholeLog(codec, e.wal, log.Add(Tombstone(k)));
    }
    forall i, x | 0 <= i < 2 && CrashDuring(codec, DiskAfter(codec, d, [a, b][..i]), [a, b][i], x)
      ensures Served(codec, x) == Served(codec, d) || Served(codec, x) == Served(codec, e)
    {
      if i == 0 {
        CrashAppending(codec, d, log, Tombstone(k), x);
      }
    }
  }

  lemma OtherFile(codec: Codec<Record>, files: map<nat, seq<Byte>>, f: nat, p: Pointer)
    ensures p.file != f ==> (Verified(codec, files - {f}, p) <==> Verified(codec, files, p))
    ensures p.file == f ==> !Verified(codec, files - {f}, p)
    ensures Verified(codec, files, p) ==> p.file in files
  {
  }

  /** Deleting the file of a verified commit unverifies that commit and no other. */
  lemma FileGone(codec: Codec<Record>, live: map<BlockKey, Pointer>, files: map<nat, seq<Byte>>, k: BlockKey)
    requires Unshared(codec, live, files) && k in live && Verified(codec, files, live[k])
    ensures forall l :: l in live ==> (Verified(codec, files - {live[k].file}, live[l]) <==> l != k && Verified(codec, files, live[l]))
  {
    hide Verified;
    forall l | l in live ensures Verified(codec, files - {live[k].file}, live[l]) <==> l != k && Verified(codec, files, live[l]) {
      OtherFile(codec, files, live[k].file, live[l]);
    }
  }

  lemma DropPointers(codec: Codec<Record>, live: map<BlockKey, Pointer>, files: map<nat, seq<Byte>>, nextFile: nat, k: BlockKey)
    requires PointersOk(codec, live, files, nextFile) && k in live && Verified(codec, files, live[k])
    ensures PointersOk(codec, live - {k}, files - {live[k].file}, nextFile) && PointersOk(codec, live, files - {live[k].file}, nextFile)
    ensures ServedBy(codec, live - {k}, files) == ServedBy(codec, live, files) - {k}
    ensures ServedBy(codec, live - {k}, files - {live[k].file}) == ServedBy(codec, live, files) - {k}
    ensures ServedBy(codec, live, files - {live[k].file}) == ServedBy(codec, live, files) - {k}
  {
    var f := live[k].file;
    FileGone(codec, live, files, k);
    hide Verified;
    ServedLess(codec, live, files, k);
    ServedElse(codec, live, files, files - {f}, k);
    ServedLess(codec, live, files - {f}, k);
  }

  lemma ServedLess(codec: Codec<Record>, live: map<BlockKey, Pointer>, files: map<nat, seq<Byte>>, k: BlockKey)
    ensures ServedBy(codec, live - {k}, files) == ServedBy(codec, live, files) - {k}
  {
    hide Verified;
    forall p ensures Verified(codec, files, p) ==> p.file in files { OtherFile(codec, files, 0, p); }
  }

  lemma ServedElse(codec: Codec<Record>, live: map<BlockKey, Pointer>, files: map<nat, seq<Byte>>, files': map<nat, seq<Byte>>, k: BlockKey)
    requires k in live && files' == files - {live[k].file}
    requires forall l :: l in live ==> (Verified(codec, files', live[l]) <==> l != k && Verified(codec, files, live[l]))
    ensures ServedBy(codec, live, files') == ServedBy(codec, live, files) - {k}
  {
    forall p
      ensures Verified(codec, files, p) ==> p.file in files
      ensures Verified(codec, files', p) ==> p.file in files' && files'[p.file] == files[p.file]
    {
    }
    hide Verified;
  }

  /** Overwriting a block deletes its file without a tombstone: atomic too, and then its old bytes are not served. */
  lemma {:induction false} OverwriteAtomic(codec: Codec<Record>, d: Disk, log: Log, nextFile: nat, k: BlockKey)
    requires CodecOk(codec) && Journaled(codec, d, log, nextFile)
    requires k in LiveIn(codec, log) && Verified(codec, d.files, LiveIn(codec, log)[k])
    ensures var ss := [DeleteFile(LiveIn(codec, log)[k].file)];
      var e := DiskAfter(codec, d, ss);
      && Journaled(codec, e, log, nextFile) && e.files == d.files - {LiveIn(codec, log)[k].file}
      && (AllFit(codec, log.added) ==> CrashAtomic(codec, d, ss) && Served(codec, e) == Served(codec, d) - {k})
  {
    var f := LiveIn(codec, log)[k].file;
    hide CodecOk, LiveIn, Kept, AllFit;
    TwoSteps(codec, d, DeleteFile(f), DeleteFile(f));
    DropPointers(codec, LiveIn(codec, log), d.files, nextFile, k);
    if AllFit(codec, log.added) { WholeLog(codec, d.wal, log); }
  }

  // ---- longer runs ----

  ghost function DiskAfterAll(codec: Codec<Record>, d: Disk, groups: seq<seq<DiskStep>>): Disk {
    if groups == [] then d else DiskAfter(codec, DiskAfterAll(codec, d, groups[..|groups| - 1]), groups[|groups| - 1])
  }

  /** A run of operations, each atomic under crashes where it happens. */
  ghost predicate AtomicRun(codec: Codec<Record>, d: Disk, groups: seq<seq<DiskStep>>) {
    forall i :: 0 <= i < |groups| ==> CrashAtomic(codec, DiskAfterAll(codec, d, groups[..i]), groups[i])
  }

  lemma {:induction false} RunSnoc(codec: Codec<Record>, d: Disk, groups: seq<seq<DiskStep>>, g: seq<DiskStep>)
    ensures AtomicRun(codec, d, groups) && CrashAtomic(codec, DiskAfterAll(codec, d, groups), g) ==> AtomicRun(codec, d, groups + [g])
    ensures DiskAfterAll(codec, d, groups + [g]) == DiskAfter(codec, DiskAfterAll(codec, d, groups), g)
  {
    hide CrashAtomic, DiskAfter;
    var all := groups + [g];
    assert all[..|groups|] == groups;
    forall i | 0 <= i < |all| && AtomicRun(codec, d, groups) && CrashAtomic(codec, DiskAfterAll(codec, d, groups), g)
      ensures CrashAtomic(codec, DiskAfterAll(codec, d, all[..i]), all[i])
    {
      if i < |groups| { assert all[..i] == groups[..i]; }
    }
  }

  /** Read the log of a store back: the last record of each key, up to the first torn or corrupt frame. */
  method ReplayLive(codec: Codec<Record>, bytes: seq<Byte>) returns (live: map<BlockKey, Pointer>)
    ensures live == Live(DecodeSkipping(codec, bytes))
  {
    hide FromLe, Live, After;
    live := map[];
    ghost var entries: seq<Record> := [];
    var offset := 0;
    assert bytes[0..] == bytes;
    NoneLive();
    while offset + 8 <= |bytes|
      invariant offset <= |bytes| && entries + DecodeSkipping(codec, bytes[offset..]) == DecodeSkipping(codec, bytes)
      invariant live == Live(entries)
      decreases |bytes| - offset
    {
      ghost var left := bytes[offset..];
      Window(bytes, offset, 0, 4);
      Window(bytes, offset, 4, 8);
      var len := FromLe(bytes[offset..offset + 4]);
      var crc := FromLe(bytes[offset + 4..offset + 8]);
      var start, end := offset + 8, offset + 8 + len;
      if end <= |bytes| { Window(bytes, offset, 8, 8 + len); }
      if end > |bytes| || codec.crc(bytes[start..end]) != crc {
        break;
      }
      match codec.dec(bytes[start..end]) {
        case Some(r) =>
          LiveSnoc(entries, r);
          live := After(live, r);
          entries := entries + [r];
        case None =>
      }
      offset := end;
    }
    assert entries == DecodeSkipping(codec, bytes);
  }

  lemma NoneLive()
    ensures Live([]) == map[]
  {
  }
}