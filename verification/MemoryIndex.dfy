/**
  The in-memory residency index: rows of records by block, with two reverse maps.
 */
module MemoryIndexes {
  import opened Blocks
  import opened DataPlanes
  import opened Indexes
  import opened MasterSpec
  import opened Segments

  type Rows = map<BlockKey, seq<Residency>>

  // ---- rows ----

  /** What a row keeps: records of other workers, of one worker, or of other places. */
  datatype Keep = OffWorker(worker: string) | OfWorker(worker: string) | OffPlace(worker: string, tier: Tier) {
    predicate Lets(r: Residency) {
      match this
      case OffWorker(w) => r.worker != w
      case OfWorker(w) => r.worker == w
      case OffPlace(w, t) => !(r.worker == w && r.tier == t)
    }
  }

  /** The records of a row that `keep` lets through, in order. */
  function Retain(row: seq<Residency>, keep: Keep): (out: seq<Residency>)
    ensures forall r :: r in out <==> r in row && keep.Lets(r)
    ensures |out| <= |row|
  {
    if row == [] then []
    else
      var n := |row| - 1;
      assert row == row[..n] + [row[n]];
      Retain(row[..n], keep) + if keep.Lets(row[n]) then [row[n]] else []
  }

  ghost predicate DistinctRow(row: seq<Residency>) {
    forall i, j :: 0 <= i < j < |row| ==> SlotOf(row[i]) != SlotOf(row[j])
  }

  ghost function RowSlots(row: seq<Residency>): set<Slot> {
    set r | r in row :: SlotOf(r)
  }

  lemma {:induction false} RetainDistinct(row: seq<Residency>, keep: Keep)
    requires DistinctRow(row)
    ensures DistinctRow(Retain(row, keep))
  {
    if row != [] {
      var n := |row| - 1;
      RetainDistinct(row[..n], keep);
      var out := Retain(row[..n], keep);
      forall i | 0 <= i < |out| ensures SlotOf(out[i]) != SlotOf(row[n]) {
        assert out[i] in row[..n];
      }
    }
  }

  /** A row splits into a worker's records and the others'. */
  lemma {:induction false} RetainSplit(row: seq<Residency>, worker: string)
    ensures |Retain(row, OffWorker(worker))| + |Retain(row, OfWorker(worker))| == |row|
  {
    if row != [] {
      var n := |row| - 1;
      RetainSplit(row[..n], worker);
    }
  }

  lemma {:induction false} RowSlotCount(row: seq<Residency>)
    requires DistinctRow(row)
    ensures |RowSlots(row)| == |row|
  {
    if row == [] {
      assert RowSlots(row) == {};
    } else {
      var n := |row| - 1;
      RowSlotCount(row[..n]);
      assert row == row[..n] + [row[n]];
      assert RowSlots(row) == RowSlots(row[..n]) + {SlotOf(row[n])};
      assert SlotOf(row[n]) !in RowSlots(row[..n]);
    }
  }

  // ---- rows stand for records ----

  ghost predicate RowOk(row: seq<Residency>, k: BlockKey, records: Records) {
    && DistinctRow(row)
    && (forall r :: r in row ==> r.key == k && SlotOf(r) in records && records[SlotOf(r)] == r)
    && (forall s :: s in records && s.key == k ==> records[s] in row)
  }

  /** A row for each block with records, never empty, and every record in its row. */
  ghost predicate RowsOk(rows: Rows, records: Records) {
    && Slotted(records)
    && (forall k :: k in rows ==> rows[k] != [] && RowOk(rows[k], k, records))
    && (forall s :: s in records ==> s.key in rows)
  }

  ghost function SlotsOf(records: Records, k: BlockKey, worker: string): set<Slot> {
    set s | s in records && s.key == k && s.worker == worker
  }

  /** Dropping a worker from one row drops exactly its slots of that block. */
  lemma RowWithout(rows: Rows, records: Records, k: BlockKey, worker: string)
    requires RowsOk(rows, records) && k in rows
    ensures var row := Retain(rows[k], OffWorker(worker));
      && RowsOk(if row == [] then rows - {k} else rows[k := row], records - SlotsOf(records, k, worker))
      && |rows[k]| - |row| == |SlotsOf(records, k, worker)|
  {
    var row, gone := Retain(rows[k], OffWorker(worker)), SlotsOf(records, k, worker);
    RowGone(rows, records, k, worker);
    KeptRow(rows[k], k, records, worker);
    hide RowsOk, RowOk, Retain;
    RowsLess(rows, records, k, row, gone);
  }

  lemma RowsLess(rows: Rows, records: Records, k: BlockKey, row: seq<Residency>, gone: set<Slot>)
    requires RowsOk(rows, records) && k in rows && RowOk(row, k, records - gone) && forall s :: s in gone ==> s.key == k
    ensures RowsOk(if row == [] then rows - {k} else rows[k := row], records - gone)
  {
    hide RowOk;
    var records' := records - gone;
    forall l | l in rows && l != k ensures RowOk(rows[l], l, records') { OtherRow(rows[l], l, records, gone, k); }
    var rows' := if row == [] then rows - {k} else rows[k := row];
    forall s | s in records' ensures s.key in rows' {
      if s.key == k { InRow(row, k, records', s); }
    }
  }

  lemma {:induction false} KeptRow(was: seq<Residency>, k: BlockKey, records: Records, worker: string)
    requires RowOk(was, k, records) && Slotted(records)
    ensures RowOk(Retain(was, OffWorker(worker)), k, records - SlotsOf(records, k, worker))
  {
    var row, records' := Retain(was, OffWorker(worker)), records - SlotsOf(records, k, worker);
    RetainDistinct(was, OffWorker(worker));
    hide Retain;
    forall s | s in records' && s.key == k ensures records'[s] in row { assert records[s] in was; }
  }

  lemma InRow(row: seq<Residency>, k: BlockKey, records: Records, s: Slot)
    requires RowOk(row, k, records) && s in records && s.key == k
    ensures row != []
  {
  }

  lemma OtherRow(row: seq<Residency>, l: BlockKey, records: Records, gone: set<Slot>, k: BlockKey)
    requires RowOk(row, l, records) && l != k && forall s :: s in gone ==> s.key == k
    ensures RowOk(row, l, records - gone)
  {
  }

  lemma RowGone(rows: Rows, records: Records, k: BlockKey, worker: string)
    requires RowsOk(rows, records) && k in rows
    ensures |rows[k]| - |Retain(rows[k], OffWorker(worker))| == |SlotsOf(records, k, worker)|
  {
    var out := Retain(rows[k], OfWorker(worker));
    RetainSplit(rows[k], worker);
    RetainDistinct(rows[k], OfWorker(worker));
    RowSlotCount(out);
    assert RowOk(rows[k], k, records);
    forall s ensures s in RowSlots(out) <==> s in SlotsOf(records, k, worker) {
      if s in SlotsOf(records, k, worker) { assert records[s] in rows[k] && records[s] in out && SlotOf(records[s]) == s; }
    }
    assert RowSlots(out) == SlotsOf(records, k, worker);
  }

  /** The row of a block after a record is put: the same place is replaced. */
  lemma RowPut(rows: Rows, records: Records, r: Residency)
    requires RowsOk(rows, records)
    ensures var row := Retain(if r.key in rows then rows[r.key] else [], OffPlace(r.worker, r.tier)) + [r];
      RowsOk(rows[r.key := row], records[SlotOf(r) := r])
  {
    var k := r.key;
    var was := if k in rows then rows[k] else [];
    hide RowOk, Retain;
    if k !in rows { NoRow(rows, records, k); }
    PutRow(was, k, records, r);
    RowSet(rows, records, r, Retain(was, OffPlace(r.worker, r.tier)) + [r]);
  }

  lemma RowSet(rows: Rows, records: Records, r: Residency, row: seq<Residency>)
    requires RowsOk(rows, records) && RowOk(row, r.key, records[SlotOf(r) := r]) && row != []
    ensures RowsOk(rows[r.key := row], records[SlotOf(r) := r])
  {
    hide RowOk;
    forall l | l in rows && l != r.key ensures RowOk(rows[l], l, records[SlotOf(r) := r]) { OtherRowPut(rows[l], l, records, r); }
  }

  lemma NoRow(rows: Rows, records: Records, k: BlockKey)
    requires RowsOk(rows, records) && k !in rows
    ensures RowOk([], k, records)
  {
  }

  lemma {:induction false} PutRow(was: seq<Residency>, k: BlockKey, records: Records, r: Residency)
    requires RowOk(was, k, records) && r.key == k && Slotted(records)
    ensures RowOk(Retain(was, OffPlace(r.worker, r.tier)) + [r], k, records[SlotOf(r) := r])
  {
    var keep := OffPlace(r.worker, r.tier);
    var kept, records' := Retain(was, keep), records[SlotOf(r) := r];
    RetainDistinct(was, keep);
    hide Retain;
    var row := kept + [r];
    forall i | 0 <= i < |kept| ensures SlotOf(kept[i]) != SlotOf(r) { assert kept[i] in kept; }
    forall s | s in records' && s.key == k ensures records'[s] in row {
      if s == SlotOf(r) { assert row[|kept|] == r; } else { assert records[s] in was && records[s] in kept; }
    }
  }

  lemma OtherRowPut(row: seq<Residency>, l: BlockKey, records: Records, r: Residency)
    requires RowOk(row, l, records) && l != r.key
    ensures RowOk(row, l, records[SlotOf(r) := r])
  {
  }

  // ---- collecting rows ----

  /** The records of the blocks `keys`, each once. */
  ghost predicate Collects(out: seq<Residency>, records: Records, keys: set<BlockKey>) {
    && DistinctRow(out)
    && (forall r :: r in out ==> r.key in keys && SlotOf(r) in records && records[SlotOf(r)] == r)
    && (forall s :: s in records && s.key in keys ==> records[s] in out)
  }

  lemma CollectRow(out: seq<Residency>, records: Records, keys: set<BlockKey>, row: seq<Residency>, k: BlockKey)
    requires Collects(out, records, keys) && RowOk(row, k, records) && k !in keys
    ensures Collects(out + row, records, keys + {k})
  {
    var all := out + row;
    forall i, j | 0 <= i < j < |all| ensures SlotOf(all[i]) != SlotOf(all[j]) {
      assert i < |out| ==> all[i] in out;
      assert j >= |out| ==> all[j] in row;
    }
  }

  lemma CollectedFilter(out: seq<Residency>, records: Records, keys: set<BlockKey>, keep: Slot -> bool)
    requires Collects(out, records, keys) && Slotted(records) && forall s :: s in records ==> (keep(s) <==> s.key in keys)
    ensures Filters(out, records, keep)
  {
    forall i | 0 <= i < |out| ensures SlotOf(out[i]) in records && records[SlotOf(out[i])] == out[i] && keep(SlotOf(out[i])) {
      assert out[i] in out;
    }
  }

  /** Concatenate the rows of some blocks. */
  method Collect(rows: Rows, ghost records: Records, keys: set<BlockKey>) returns (out: seq<Residency>)
    requires RowsOk(rows, records) && keys <= rows.Keys
    ensures Collects(out, records, keys)
  {
    hide Collects, RowOk;
    out := [];
    var rest := keys;
    NothingCollected(records);
    assert keys - rest == {};
    while rest != {}
      invariant rest <= keys && Collects(out, records, keys - rest)
    {
      var k :| k in rest;
      CollectRow(out, records, keys - rest, rows[k], k);
      assert keys - (rest - {k}) == keys - rest + {k};
      out := out + rows[k];
      rest := rest - {k};
    }
    assert keys - rest == keys;
  }

  lemma NothingCollected(records: Records)
    ensures Collects([], records, {})
  {
  }

  /** What every removal of a worker from the blocks `keys` takes. */
  ghost function WorkerIn(records: Records, keys: set<BlockKey>, worker: string): set<Slot> {
    set s | s in records && s.key in keys && s.worker == worker
  }

  /** Drop a worker from the rows of some blocks; blocks left without records go. */
  method DropFrom(rows0: Rows, ghost records: Records, keys: set<BlockKey>, worker: string) returns (rows: Rows, removed: nat, emptied: set<BlockKey>)
    requires RowsOk(rows0, records) && keys <= rows0.Keys
    ensures RowsOk(rows, records - WorkerIn(records, keys, worker)) && removed == |WorkerIn(records, keys, worker)|
    ensures rows.Keys == rows0.Keys - emptied && emptied <= rows0.Keys
  {
    hide RowsOk, WorkerIn;
    rows, removed, emptied := rows0, 0, {};
    var rest := keys;
    NoneDropped(records, keys, worker);
    while rest != {}
      invariant rest <= keys && rest <= rows.Keys && rows.Keys == rows0.Keys - emptied && emptied <= keys - rest
      invariant RowsOk(rows, records - WorkerIn(records, keys - rest, worker)) && removed == |WorkerIn(records, keys - rest, worker)|
    {
      var k :| k in rest;
      ghost var now := records - WorkerIn(records, keys - rest, worker);
      RowWithout(rows, now, k, worker);
      DroppedMore(records, keys - rest, k, worker);
      assert keys - rest + {k} == keys - (rest - {k});
      var row := Retain(rows[k], OffWorker(worker));
      removed := removed + (|rows[k]| - |row|);
      if row == [] {
        rows := rows - {k};
        emptied := emptied + {k};
      } else {
        rows := rows[k := row];
      }
      rest := rest - {k};
    }
    assert keys - rest == keys;
  }

  lemma NoneDropped(records: Records, keys: set<BlockKey>, worker: string)
    ensures WorkerIn(records, keys - keys, worker) == {} && records - {} == records
  {
  }

  lemma DroppedMore(records: Records, keys: set<BlockKey>, k: BlockKey, worker: string)
    requires k !in keys
    ensures var now := records - WorkerIn(records, keys, worker);
      && now - SlotsOf(now, k, worker) == records - WorkerIn(records, keys + {k}, worker)
      && |WorkerIn(records, keys + {k}, worker)| == |WorkerIn(records, keys, worker)| + |SlotsOf(now, k, worker)|
  {
    var now := records - WorkerIn(records, keys, worker);
    var a, b := WorkerIn(records, keys, worker), SlotsOf(now, k, worker);
    assert WorkerIn(records, keys + {k}, worker) == a + b && a !! b;
  }

  // ---- the index ----

  class MemoryIndex {
    var entries: Rows
    /** Blocks by scope and content hash. */
    var byHash: map<(Identity, string), set<BlockKey>>
    /** Blocks by content hash across scopes. */
    var byContentHash: map<string, set<BlockKey>>
    ghost var records: Records

    ghost predicate Valid()
      reads this
    {
      && RowsOk(entries, records)
      && ReverseOk(byHash, entries.Keys, ScopedHashOf) && ReverseOk(byContentHash, entries.Keys, HashOf)
    }

    constructor ()
      ensures Valid() && records == map[]
    {
      entries, byHash, byContentHash, records := map[], map[], map[], map[];
    }

    method Put(r: Residency)
      requires Valid()
      modifies this
      ensures Valid() && records == old(records)[SlotOf(r) := r]
    {
      hide RowsOk, ReverseOk, With;
      RowPut(entries, records, r);
      ReverseAdded(byHash, entries.Keys, r.key, ScopedHashOf);
      ReverseAdded(byContentHash, entries.Keys, r.key, HashOf);
      var row := Retain(if r.key in entries then entries[r.key] else [], OffPlace(r.worker, r.tier)) + [r];
      assert entries[r.key := row].Keys == entries.Keys + {r.key};
      entries := entries[r.key := row];
      byHash := With(byHash, r.key, ScopedHashOf);
      byContentHash := With(byContentHash, r.key, HashOf);
      records := records[SlotOf(r) := r];
    }

    method Locate(key: BlockKey) returns (out: seq<Residency>)
      requires Valid()
      ensures Filters(out, records, (s: Slot) => s.key == key)
    {
      out := if key in entries then entries[key] else [];
      var keep := (s: Slot) => s.key == key;
      forall i | 0 <= i < |out| ensures SlotOf(out[i]) in records && records[SlotOf(out[i])] == out[i] && keep(SlotOf(out[i])) {
        assert out[i] in out;
      }
    }

    method PrefixScan(scope: Identity, prefixHash: string) returns (out: seq<Residency>)
      requires Valid()
      ensures Filters(out, records, (s: Slot) => s.key.scope == scope && s.key.prefixHash == prefixHash)
    {
      hide Filters, Collects;
      var keys := set k | k in entries && scope.ReuseViolation(k.scope).None? && k.prefixHash == prefixHash;
      out := Collect(entries, records, keys);
      CollectedFilter(out, records, keys, (s: Slot) => s.key.scope == scope && s.key.prefixHash == prefixHash);
    }

    /** Content lookup through the reverse map: the same as filtering every record. */
    method ResidencyByContentHash(blockHash: string) returns (out: seq<Residency>)
      requires Valid()
      ensures Filters(out, records, (s: Slot) => s.key.blockHash == blockHash)
    {
      hide Filters, Collects;
      var keys := if blockHash in byContentHash then byContentHash[blockHash] else {};
      assert forall k :: HashOf(k) == k.blockHash;
      out := Collect(entries, records, keys);
      CollectedFilter(out, records, keys, (s: Slot) => s.key.blockHash == blockHash);
    }

    /** Remove a block's records on a worker through the reverse map: the same as filtering every record. */
    method RemoveBlock(scope: Identity, worker: string, blockHash: string) returns (removed: nat)
      requires Valid()
      modifies this
      ensures Valid() && records == old(records) - ContentOn(old(records), scope, worker, blockHash)
      ensures removed == |ContentOn(old(records), scope, worker, blockHash)|
    {
      hide RowsOk, Without;
      var tag := (scope, blockHash);
      var keys := if tag in byHash then byHash[tag] else {};
      assert forall k :: ScopedHashOf(k) == (k.scope, k.blockHash);
      assert keys <= entries.Keys;
      HashedContent(entries, records, keys, scope, worker, blockHash);
      var emptied;
      entries, removed, emptied := DropFrom(entries, records, keys, worker);
      records := records - WorkerIn(records, keys, worker);
      Forget(emptied, old(entries.Keys));
    }

    method ClearWorker(worker: string)
      requires Valid()
      modifies this
      ensures Valid() && records == old(records) - OnWorker(old(records), worker)
    {
      hide RowsOk, Without, ReverseOk;
      AllRows(entries, records, worker);
      var removed, emptied;
      entries, removed, emptied := DropFrom(entries, records, entries.Keys, worker);
      records := records - WorkerIn(records, old(entries.Keys), worker);
      Forget(emptied, old(entries.Keys));
    }

    /** Take blocks without records out of both reverse maps. */
    method Forget(emptied: set<BlockKey>, ghost keys: set<BlockKey>)
      requires ReverseOk(byHash, keys, ScopedHashOf) && ReverseOk(byContentHash, keys, HashOf)
      modifies this`byHash, this`byContentHash
      ensures ReverseOk(byHash, keys - emptied, ScopedHashOf) && ReverseOk(byContentHash, keys - emptied, HashOf)
    {
      hide ReverseOk, Without;
      var rest := emptied;
      assert keys - (emptied - rest) == keys;
      while rest != {}
        invariant rest <= emptied
        invariant ReverseOk(byHash, keys - (emptied - rest), ScopedHashOf) && ReverseOk(byContentHash, keys - (emptied - rest), HashOf)
      {
        var k :| k in rest;
        ReverseRemoved(byHash, keys - (emptied - rest), k, ScopedHashOf);
        ReverseRemoved(byContentHash, keys - (emptied - rest), k, HashOf);
        assert keys - (emptied - rest) - {k} == keys - (emptied - (rest - {k}));
        byHash := Without(byHash, k, ScopedHashOf);
        byContentHash := Without(byContentHash, k, HashOf);
        rest := rest - {k};
      }
      assert emptied - rest == emptied;
    }
  }

  lemma HashedContent(rows: Rows, records: Records, keys: set<BlockKey>, scope: Identity, worker: string, blockHash: string)
    requires RowsOk(rows, records) && forall k :: k in keys <==> k in rows && k.scope == scope && k.blockHash == blockHash
    ensures WorkerIn(records, keys, worker) == ContentOn(records, scope, worker, blockHash)
  {
    hide RowOk;
  }

  lemma AllRows(rows: Rows, records: Records, worker: string)
    requires RowsOk(rows, records)
    ensures WorkerIn(records, rows.Keys, worker) == OnWorker(records, worker)
  {
    hide RowOk;
  }
}
