/**
  The persistent residency index: primary records and a reverse index in one ordered
  key space, which together stand for a map from slots to residency records.
 */
module Indexes {
  import opened Blocks
  import opened DataPlanes
  import opened Frames
  import opened IndexKeys
  import opened MasterSpec
  import opened Segments
  import opened Sequences

  /** One place a block can be resident: a worker and a tier. */
  datatype Slot = Slot(key: BlockKey, worker: string, tier: Tier)

  function SlotOf(r: Residency): Slot {
    Slot(r.key, r.worker, r.tier)
  }

  type Records = map<Slot, Residency>

  ghost predicate Slotted(records: Records) {
    forall s :: s in records ==> SlotOf(records[s]) == s
  }

  /** The slots removal by content addresses: a full scan with a filter. */
  ghost function ContentOn(records: Records, scope: Identity, worker: string, blockHash: string): set<Slot> {
    set s | s in records && s.key.scope == scope && s.worker == worker && s.key.blockHash == blockHash
  }

  ghost function OnWorker(records: Records, worker: string): set<Slot> {
    set s | s in records && s.worker == worker
  }

  /** A list of records, each once, exactly those whose slot satisfies the filter. */
  ghost predicate Filters(out: seq<Residency>, records: Records, keep: Slot -> bool) {
    && (forall i :: 0 <= i < |out| ==> SlotOf(out[i]) in records && records[SlotOf(out[i])] == out[i] && keep(SlotOf(out[i])))
    && (forall i, j :: 0 <= i < j < |out| ==> out[i] != out[j])
    && (forall s :: s in records && keep(s) ==> records[s] in out)
  }

  // ---- the ordered key space ----

  datatype Value = Record(residency: Residency) | Pointer(primary: Bytes)

  type Db = map<Bytes, Value>

  ghost predicate Ascends(order: seq<Bytes>) {
    && (forall i, j :: 0 <= i < j < |order| ==> Below(order[i], order[j]))
    && (forall i, j :: 0 <= i < j < |order| ==> order[i] != order[j])
  }

  lemma {:induction false} InsertAscends(order: seq<Bytes>, p: nat, x: Bytes)
    requires Ascends(order) && p <= |order| && x !in order
    requires (forall i :: 0 <= i < p ==> Below(order[i], x)) && forall i :: p <= i < |order| ==> Below(x, order[i])
    ensures Ascends(InsertAt(order, p, x)) && forall k :: k in InsertAt(order, p, x) <==> k in order || k == x
  {
    hide InsertAt, Below;
    InsertAtMembers(order, p, x);
    var out := InsertAt(order, p, x);
    InsertAtIndex(order, p, x, 0);
    forall i, j | 0 <= i < j < |out| ensures Below(out[i], out[j]) && out[i] != out[j] {
      InsertAtIndex(order, p, x, i);
      InsertAtIndex(order, p, x, j);
    }
  }

  /** The keys from `prefix` on in dictionary order, as a database iterator yields them. */
  method IterateFrom(db: Db, prefix: Bytes) returns (order: seq<Bytes>)
    ensures Ascends(order) && forall k :: k in order <==> k in db && Below(prefix, k)
  {
    order := [];
    var rest := db.Keys;
    while rest != {}
      invariant rest <= db.Keys && Ascends(order)
      invariant forall k :: k in order <==> k in db && k !in rest && Below(prefix, k)
    {
      var x :| x in rest;
      if Below(prefix, x) {
        var p: nat := |order|;
        while p > 0 && !Below(order[p - 1], x)
          invariant p <= |order| && forall i :: p <= i < |order| ==> Below(x, order[i])
        {
          BelowTotal(order[p - 1], x);
          p := p - 1;
        }
        forall i | 0 <= i < p ensures Below(order[i], x) {
          if i < p - 1 { BelowTransitive(order[i], order[p - 1], x); }
        }
        InsertAscends(order, p, x);
        order := InsertAt(order, p, x);
      }
      rest := rest - {x};
    }
  }

  /** Seek to a prefix and read until a key lacks it: exactly the keys that have it. */
  method SeekPrefix(db: Db, prefix: Bytes) returns (hits: seq<Bytes>)
    ensures forall k :: k in hits <==> k in db && prefix <= k
    ensures forall i, j :: 0 <= i < j < |hits| ==> hits[i] != hits[j]
  {
    var order := IterateFrom(db, prefix);
    var n := 0;
    while n < |order| && prefix <= order[n]
      invariant n <= |order| && forall i :: 0 <= i < n ==> prefix <= order[i]
    {
      n := n + 1;
    }
    hits := order[..n];
    forall k | k in db && prefix <= k ensures k in hits {
      PrefixBelow(prefix, k);
      var j :| 0 <= j < |order| && order[j] == k;
      if n <= j {
        if n < j { Adjacent(prefix, order[n], k); }
      } else {
        assert hits[j] == k;
      }
    }
  }

  // ---- the persistent index ----

  /** Token counts are fixed by the rest of a key. */
  ghost predicate Counted(tokens: BlockKey -> nat, r: Residency) {
    r.key.tokenCount == tokens(r.key.(tokenCount := 0))
  }

  lemma SlotKey(tokens: BlockKey -> nat, r: Residency, q: Residency)
    requires Counted(tokens, r) && Counted(tokens, q) && SameSlot(r, q)
    ensures SlotOf(r) == SlotOf(q)
  {
    assert r.key.(tokenCount := 0) == q.key.(tokenCount := 0);
  }

  /** Both entries of a record are in the key space. */
  ghost predicate StoredIn(utf8: string -> Bytes, db: Db, r: Residency) {
    && PrimaryKey(utf8, r) in db && db[PrimaryKey(utf8, r)] == Record(r)
    && SecondaryKey(utf8, r) in db && db[SecondaryKey(utf8, r)] == Pointer(PrimaryKey(utf8, r))
  }

  ghost predicate EntryOf(utf8: string -> Bytes, b: Bytes, r: Residency) {
    b == PrimaryKey(utf8, r) || b == SecondaryKey(utf8, r)
  }

  ghost predicate RecordOk(tokens: BlockKey -> nat, s: Slot, r: Residency) {
    SlotOf(r) == s && RecordClean(r) && Counted(tokens, r)
  }

  /** The key space holds the two entries of every record and nothing else. */
  ghost predicate Holds(utf8: string -> Bytes, tokens: BlockKey -> nat, db: Db, records: Records) {
    && Utf8Ok(utf8)
    && (forall s :: s in records ==> RecordOk(tokens, s, records[s]) && StoredIn(utf8, db, records[s]))
    && (forall b :: b in db ==> Known(utf8, records, b))
  }

  /** An entry of one of the records. */
  ghost predicate Known(utf8: string -> Bytes, records: Records, b: Bytes) {
    exists s :: s in records && EntryOf(utf8, b, records[s])
  }

  lemma KnownSlot(utf8: string -> Bytes, records: Records, b: Bytes) returns (s: Slot)
    requires Known(utf8, records, b)
    ensures s in records && EntryOf(utf8, b, records[s])
  {
    s :| s in records && EntryOf(utf8, b, records[s]);
  }

  lemma KnownBy(utf8: string -> Bytes, records: Records, b: Bytes, s: Slot)
    requires s in records && EntryOf(utf8, b, records[s])
    ensures Known(utf8, records, b)
  {
  }

  /** Records of different slots share no entry. */
  lemma EntriesApart(utf8: string -> Bytes, tokens: BlockKey -> nat, s: Slot, r: Residency, t: Slot, q: Residency)
    requires Utf8Ok(utf8) && RecordOk(tokens, s, r) && RecordOk(tokens, t, q)
    ensures s != t ==> PrimaryKey(utf8, r) != PrimaryKey(utf8, q) && SecondaryKey(utf8, r) != SecondaryKey(utf8, q)
    ensures PrimaryKey(utf8, r) != SecondaryKey(utf8, q) && PrimaryKey(utf8, q) != SecondaryKey(utf8, r)
    ensures s == t ==> PrimaryKey(utf8, r) == PrimaryKey(utf8, q) && SecondaryKey(utf8, r) == SecondaryKey(utf8, q)
  {
    if s == t { assert r.key == q.key && r.worker == q.worker && r.tier == q.tier; }
    NamespacesApart(utf8, r, q);
    NamespacesApart(utf8, q, r);
    hide Utf8Ok, PrimaryKey, SecondaryKey, RecordClean;
    if PrimaryKey(utf8, r) == PrimaryKey(utf8, q) {
      PrimaryInjective(utf8, r, q);
      SlotKey(tokens, r, q);
    }
    if SecondaryKey(utf8, r) == SecondaryKey(utf8, q) {
      SecondaryInjective(utf8, r, q);
      SlotKey(tokens, r, q);
    }
  }

  ghost function PutEntries(utf8: string -> Bytes, db: Db, r: Residency): Db {
    db[PrimaryKey(utf8, r) := Record(r)][SecondaryKey(utf8, r) := Pointer(PrimaryKey(utf8, r))]
  }

  lemma HoldsPut(utf8: string -> Bytes, tokens: BlockKey -> nat, db: Db, records: Records, r: Residency)
    requires Holds(utf8, tokens, db, records) && RecordClean(r) && Counted(tokens, r)
    ensures Holds(utf8, tokens, PutEntries(utf8, db, r), records[SlotOf(r) := r])
  {
    hide Utf8Ok, PrimaryKey, SecondaryKey, RecordClean, Counted, Known;
    var db', records', slot := PutEntries(utf8, db, r), records[SlotOf(r) := r], SlotOf(r);
    EntriesApart(utf8, tokens, slot, r, slot, r);
    forall s | s in records && s != slot ensures StoredIn(utf8, db', records[s]) {
      EntriesApart(utf8, tokens, slot, r, s, records[s]);
    }
    forall b | b in db' ensures Known(utf8, records', b) {
      if EntryOf(utf8, b, r) {
        KnownBy(utf8, records', b, slot);
      } else {
        var s := KnownSlot(utf8, records, b);
        EntriesApart(utf8, tokens, slot, r, s, records[s]);
        KnownBy(utf8, records', b, s);
      }
    }
  }

  lemma HoldsRemove(utf8: string -> Bytes, tokens: BlockKey -> nat, db: Db, records: Records, s: Slot)
    requires Holds(utf8, tokens, db, records) && s in records
    ensures Holds(utf8, tokens, db - {PrimaryKey(utf8, records[s])} - {SecondaryKey(utf8, records[s])}, records - {s})
  {
    hide Utf8Ok, PrimaryKey, SecondaryKey, RecordOk, Known;
    var db', records' := db - {PrimaryKey(utf8, records[s])} - {SecondaryKey(utf8, records[s])}, records - {s};
    forall t | t in records' ensures StoredIn(utf8, db', records[t]) {
      EntriesApart(utf8, tokens, s, records[s], t, records[t]);
    }
    forall b | b in db' ensures Known(utf8, records', b) {
      var t := KnownSlot(utf8, records, b);
      KnownBy(utf8, records', b, t);
    }
  }

  /** Every primary entry is a record; a key with the primary tag is the primary entry of its slot. */
  lemma PrimaryEntry(utf8: string -> Bytes, tokens: BlockKey -> nat, db: Db, records: Records, b: Bytes) returns (s: Slot)
    requires Holds(utf8, tokens, db, records) && b in db && [PRIMARY] <= b
    ensures s in records && b == PrimaryKey(utf8, records[s]) && db[b] == Record(records[s])
  {
    hide Utf8Ok, PrimaryKey, SecondaryKey, RecordOk, Known;
    s := KnownSlot(utf8, records, b);
    NamespacesApart(utf8, records[s], records[s]);
  }

  lemma SecondaryEntry(utf8: string -> Bytes, tokens: BlockKey -> nat, db: Db, records: Records, b: Bytes) returns (s: Slot)
    requires Holds(utf8, tokens, db, records) && b in db && [SECONDARY] <= b
    ensures s in records && b == SecondaryKey(utf8, records[s]) && db[b] == Pointer(PrimaryKey(utf8, records[s]))
  {
    hide Utf8Ok, PrimaryKey, SecondaryKey, RecordOk, Known;
    s := KnownSlot(utf8, records, b);
    NamespacesApart(utf8, records[s], records[s]);
  }

  /** The slot filter a primary prefix stands for. */
  ghost predicate PrefixMeans(utf8: string -> Bytes, prefix: Bytes, records: Records, keep: Slot -> bool) {
    [PRIMARY] <= prefix && forall s :: s in records ==> (prefix <= PrimaryKey(utf8, records[s]) <==> keep(s))
  }

  /** A new database stands for no record. */
  lemma HoldsNone(utf8: string -> Bytes, tokens: BlockKey -> nat)
    requires Utf8Ok(utf8)
    ensures Holds(utf8, tokens, map[], map[])
  {
  }

  class RocksIndex {
    const utf8: string -> Bytes
    ghost const tokens: BlockKey -> nat
    var db: Db
    ghost var records: Records

    ghost predicate Valid()
      reads this
    {
      Holds(utf8, tokens, db, records)
    }

    /** Create a database: it has no record. */
    constructor Create(utf8: string -> Bytes, ghost tokens: BlockKey -> nat)
      requires Utf8Ok(utf8)
      ensures Valid() && db == map[] && records == map[] && this.utf8 == utf8 && this.tokens == tokens
    {
      HoldsNone(utf8, tokens);
      this.utf8, this.tokens, this.db, this.records := utf8, tokens, map[], map[];
    }

    /** Open a database written by an index before: the records in it are kept. */
    constructor (utf8: string -> Bytes, ghost tokens: BlockKey -> nat, db: Db, ghost records: Records)
      requires Utf8Ok(utf8) && Holds(utf8, tokens, db, records)
      ensures Valid() && this.db == db && this.records == records && this.utf8 == utf8 && this.tokens == tokens
    {
      this.utf8, this.tokens, this.db, this.records := utf8, tokens, db, records;
    }

    method Put(r: Residency)
      requires Valid() && RecordClean(r) && Counted(tokens, r)
      modifies this
      ensures Valid() && records == old(records)[SlotOf(r) := r]
    {
      hide Holds;
      HoldsPut(utf8, tokens, db, records, r);
      var primary := PrimaryKey(utf8, r);
      db := db[primary := Record(r)];
      db := db[SecondaryKey(utf8, r) := Pointer(primary)];
      records := records[SlotOf(r) := r];
    }

    /** Read every record under a primary prefix. */
    method ScanPrefix(prefix: Bytes, ghost keep: Slot -> bool) returns (out: seq<Residency>)
      requires Valid() && PrefixMeans(utf8, prefix, records, keep)
      ensures Filters(out, records, keep)
    {
      hide Holds, PrimaryKey, SecondaryKey;
      var hits := SeekPrefix(db, prefix);
      out := [];
      for i := 0 to |hits|
        invariant |out| == i
        invariant forall j :: 0 <= j < i ==> SlotOf(out[j]) in records && records[SlotOf(out[j])] == out[j] && hits[j] == PrimaryKey(utf8, out[j])
      {
        assert hits[i] in hits;
        ghost var s := PrimaryEntry(utf8, tokens, db, records, hits[i]);
        RecordSlot(utf8, tokens, db, records, s);
        out := out + [db[hits[i]].residency];
      }
      forall s | s in records && keep(s) ensures records[s] in out {
        RecordSlot(utf8, tokens, db, records, s);
        var i :| 0 <= i < |hits| && hits[i] == PrimaryKey(utf8, records[s]);
        SamePrimary(utf8, tokens, db, records, s, SlotOf(out[i]));
        assert out[i] == records[s];
      }
      forall i | 0 <= i < |out| ensures keep(SlotOf(out[i])) {
        assert hits[i] in hits;
      }
    }

    /** Where a block is resident. */
    method Locate(key: BlockKey) returns (out: seq<Residency>)
      requires Valid() && KeyClean(key) && key.tokenCount == tokens(key.(tokenCount := 0))
      ensures Filters(out, records, (s: Slot) => s.key == key)
    {
      hide Holds, PrimaryKey, LocatePrefix, Filters, KeyClean, PrefixMeans;
      LocateMeans(utf8, tokens, db, records, key);
      out := ScanPrefix(LocatePrefix(utf8, key), (s: Slot) => s.key == key);
    }

    /** What is resident in a scope under a prefix hash. */
    method PrefixScan(scope: Identity, prefixHash: string) returns (out: seq<Residency>)
      requires Valid() && ScopeClean(scope) && '\0' !in prefixHash
      ensures Filters(out, records, (s: Slot) => s.key.scope == scope && s.key.prefixHash == prefixHash)
    {
      hide Holds, PrimaryKey, ScanPrefixOf, Filters, ScopeClean, PrefixMeans;
      ScanMeans(utf8, tokens, db, records, scope, prefixHash);
      out := ScanPrefix(ScanPrefixOf(utf8, scope, prefixHash), (s: Slot) => s.key.scope == scope && s.key.prefixHash == prefixHash);
    }

    /** Remove a block's records on a worker by seeking the reverse index: the same as filtering every record. */
    method RemoveBlock(scope: Identity, worker: string, blockHash: string) returns (removed: nat)
      requires Valid() && ScopeClean(scope) && '\0' !in worker && '\0' !in blockHash
      modifies this
      ensures Valid() && records == old(records) - ContentOn(old(records), scope, worker, blockHash)
      ensures removed == |ContentOn(old(records), scope, worker, blockHash)|
    {
      hide Holds, PrimaryKey, SecondaryKey, RemovePrefix, ContentOn, ScopeClean;
      var hits := SeekPrefix(db, RemovePrefix(utf8, scope, worker, blockHash));
      ghost var slots := HitSlots(utf8, tokens, db, records, hits, scope, worker, blockHash);
      removed := 0;
      assert records - SlotSet(slots[..0]) == records;
      for i := 0 to |hits|
        invariant Valid() && records == old(records) - SlotSet(slots[..i]) && removed == i
        invariant forall j :: i <= j < |hits| ==> slots[j] in records && hits[j] == SecondaryKey(utf8, records[slots[j]])
      {
        ghost var s := slots[i];
        PointsAt(utf8, tokens, db, records, s);
        HoldsRemove(utf8, tokens, db, records, s);
        var primary := db[hits[i]].primary;
        db := db - {primary};
        db := db - {hits[i]};
        SlotSetSnoc(slots, i);
        records := records - {s};
        removed := removed + 1;
      }
      assert slots[..|hits|] == slots;
      SlotCount(slots);
    }

    /** Drop every record of a worker. */
    method ClearWorker(worker: string)
      requires Valid()
      modifies this
      ensures Valid() && records == old(records) - OnWorker(old(records), worker)
    {
      hide Holds, PrimaryKey, SecondaryKey, OnWorker, OnWorkerAmong;
      var hits := SeekPrefix(db, [PRIMARY]);
      ghost var slots := PrimarySlots(utf8, tokens, db, records, hits);
      NoneOn(records, slots, worker);
      for i := 0 to |hits|
        invariant Valid() && records == old(records) - OnWorkerAmong(slots[..i], worker)
        invariant forall j :: i <= j < |hits| ==> slots[j] in records && hits[j] == PrimaryKey(utf8, records[slots[j]])
      {
        ghost var s := slots[i];
        PrimaryRecord(utf8, tokens, db, records, s);
        AmongSnoc(slots, i, worker);
        var r := db[hits[i]].residency;
        if r.worker == worker {
          HoldsRemove(utf8, tokens, db, records, s);
          db := db - {hits[i]};
          db := db - {SecondaryKey(utf8, r)};
          records := records - {s};
          assert old(records) - OnWorkerAmong(slots[..i], worker) - {s} == old(records) - OnWorkerAmong(slots[..i + 1], worker);
        }
      }
      assert slots[..|hits|] == slots;
      AllOn(old(records), slots, worker);
    }
  }

  lemma LocateMeans(utf8: string -> Bytes, tokens: BlockKey -> nat, db: Db, records: Records, key: BlockKey)
    requires Holds(utf8, tokens, db, records) && KeyClean(key) && key.tokenCount == tokens(key.(tokenCount := 0))
    ensures PrefixMeans(utf8, LocatePrefix(utf8, key), records, (s: Slot) => s.key == key)
  {
    hide Utf8Ok, PrimaryKey, SecondaryKey, LocatePrefix, KeyClean, StoredIn, Known;
    PrefixTags(utf8, key, key.scope, "", "");
    forall s | s in records ensures LocatePrefix(utf8, key) <= PrimaryKey(utf8, records[s]) <==> s.key == key {
      LocateMatches(utf8, records[s], key);
      SameCounted(tokens, records[s], key);
    }
  }

  lemma ScanMeans(utf8: string -> Bytes, tokens: BlockKey -> nat, db: Db, records: Records, scope: Identity, prefixHash: string)
    requires Holds(utf8, tokens, db, records) && ScopeClean(scope) && '\0' !in prefixHash
    ensures PrefixMeans(utf8, ScanPrefixOf(utf8, scope, prefixHash), records, (s: Slot) => s.key.scope == scope && s.key.prefixHash == prefixHash)
  {
    hide Utf8Ok, PrimaryKey, SecondaryKey, ScanPrefixOf, KeyClean, StoredIn, ScopeClean, Known;
    PrefixTags(utf8, BlockKey(scope, "", "", 0, 0), scope, prefixHash, "");
    forall s | s in records
      ensures ScanPrefixOf(utf8, scope, prefixHash) <= PrimaryKey(utf8, records[s]) <==> s.key.scope == scope && s.key.prefixHash == prefixHash
    {
      ScanMatches(utf8, records[s], scope, prefixHash);
    }
  }

  lemma SameCounted(tokens: BlockKey -> nat, r: Residency, key: BlockKey)
    requires Counted(tokens, r) && key.tokenCount == tokens(key.(tokenCount := 0))
    ensures SameBlock(r.key, key) <==> r.key == key
  {
    if SameBlock(r.key, key) { assert r.key.(tokenCount := 0) == key.(tokenCount := 0); }
  }

  lemma RecordSlot(utf8: string -> Bytes, tokens: BlockKey -> nat, db: Db, records: Records, s: Slot)
    requires Holds(utf8, tokens, db, records) && s in records
    ensures SlotOf(records[s]) == s && PrimaryKey(utf8, records[s]) in db && SecondaryKey(utf8, records[s]) in db
  {
  }

  lemma SamePrimary(utf8: string -> Bytes, tokens: BlockKey -> nat, db: Db, records: Records, s: Slot, t: Slot)
    requires Holds(utf8, tokens, db, records) && s in records && t in records && PrimaryKey(utf8, records[s]) == PrimaryKey(utf8, records[t])
    ensures s == t
  {
    EntriesApart(utf8, tokens, s, records[s], t, records[t]);
  }

  ghost function SlotSet(slots: seq<Slot>): set<Slot> {
    set s | s in slots
  }

  lemma SlotSetSnoc(slots: seq<Slot>, i: nat)
    requires i < |slots|
    ensures SlotSet(slots[..i + 1]) == SlotSet(slots[..i]) + {slots[i]}
  {
    assert slots[..i + 1] == slots[..i] + [slots[i]];
  }

  lemma {:induction false} SlotCount(slots: seq<Slot>)
    requires forall i, j :: 0 <= i < j < |slots| ==> slots[i] != slots[j]
    ensures |SlotSet(slots)| == |slots|
  {
    if slots != [] {
      var n := |slots| - 1;
      SlotSetSnoc(slots, n);
      assert slots[..n + 1] == slots;
      assert slots[n] !in slots[..n];
      SlotCount(slots[..n]);
    }
  }

  lemma PointsAt(utf8: string -> Bytes, tokens: BlockKey -> nat, db: Db, records: Records, s: Slot)
    requires Holds(utf8, tokens, db, records) && s in records
    ensures SecondaryKey(utf8, records[s]) in db && db[SecondaryKey(utf8, records[s])] == Pointer(PrimaryKey(utf8, records[s]))
  {
  }

  lemma PrimaryRecord(utf8: string -> Bytes, tokens: BlockKey -> nat, db: Db, records: Records, s: Slot)
    requires Holds(utf8, tokens, db, records) && s in records
    ensures PrimaryKey(utf8, records[s]) in db && db[PrimaryKey(utf8, records[s])] == Record(records[s]) && records[s].worker == s.worker
  {
  }

  /** The hits of a removal seek are the reverse entries of exactly the slots a full scan would pick. */
  lemma HitSlots(utf8: string -> Bytes, tokens: BlockKey -> nat, db: Db, records: Records, hits: seq<Bytes>,
      scope: Identity, worker: string, blockHash: string) returns (slots: seq<Slot>)
    requires Holds(utf8, tokens, db, records) && ScopeClean(scope) && '\0' !in worker && '\0' !in blockHash
    requires forall k :: k in hits <==> k in db && RemovePrefix(utf8, scope, worker, blockHash) <= k
    requires forall i, j :: 0 <= i < j < |hits| ==> hits[i] != hits[j]
    ensures |slots| == |hits| && SlotSet(slots) == ContentOn(records, scope, worker, blockHash)
    ensures forall i, j :: 0 <= i < j < |slots| ==> slots[i] != slots[j]
    ensures forall i :: 0 <= i < |slots| ==> slots[i] in records && hits[i] == SecondaryKey(utf8, records[slots[i]])
  {
    hide Holds, SecondaryKey, PrimaryKey, RemovePrefix, ScopeClean;
    var prefix := RemovePrefix(utf8, scope, worker, blockHash);
    PrefixTags(utf8, BlockKey(scope, "", "", 0, 0), scope, blockHash, worker);
    slots := [];
    for i := 0 to |hits|
      invariant |slots| == i && forall j :: 0 <= j < i ==> slots[j] in records && hits[j] == SecondaryKey(utf8, records[slots[j]])
    {
      assert hits[i] in hits;
      var s := SecondaryEntry(utf8, tokens, db, records, hits[i]);
      slots := slots + [s];
    }
    forall s | s in records
      ensures prefix <= SecondaryKey(utf8, records[s]) <==> s.key.scope == scope && s.worker == worker && s.key.blockHash == blockHash
    {
      SlotClean(utf8, tokens, db, records, s);
      RemoveMatches(utf8, records[s], scope, worker, blockHash);
    }
    forall s ensures s in SlotSet(slots) <==> s in ContentOn(records, scope, worker, blockHash) {
      if s in slots {
        var i :| 0 <= i < |slots| && slots[i] == s;
        assert hits[i] in hits;
      }
      if s in ContentOn(records, scope, worker, blockHash) {
        PointsAt(utf8, tokens, db, records, s);
        var i :| 0 <= i < |hits| && hits[i] == SecondaryKey(utf8, records[s]);
        SameSecondary(utf8, tokens, db, records, s, slots[i]);
      }
    }
  }

  lemma SlotClean(utf8: string -> Bytes, tokens: BlockKey -> nat, db: Db, records: Records, s: Slot)
    requires Holds(utf8, tokens, db, records) && s in records
    ensures Utf8Ok(utf8) && RecordClean(records[s]) && SlotOf(records[s]) == s
  {
  }

  lemma SameSecondary(utf8: string -> Bytes, tokens: BlockKey -> nat, db: Db, records: Records, s: Slot, t: Slot)
    requires Holds(utf8, tokens, db, records) && s in records && t in records && SecondaryKey(utf8, records[s]) == SecondaryKey(utf8, records[t])
    ensures s == t
  {
    hide PrimaryKey, SecondaryKey, Utf8Ok, Known, StoredIn;
    EntriesApart(utf8, tokens, s, records[s], t, records[t]);
  }

  /** The primary entries list every slot once. */
  lemma PrimarySlots(utf8: string -> Bytes, tokens: BlockKey -> nat, db: Db, records: Records, hits: seq<Bytes>) returns (slots: seq<Slot>)
    requires Holds(utf8, tokens, db, records) && forall k :: k in hits <==> k in db && [PRIMARY] <= k
    requires forall i, j :: 0 <= i < j < |hits| ==> hits[i] != hits[j]
    ensures |slots| == |hits| && (forall s :: s in slots <==> s in records)
    ensures forall i, j :: 0 <= i < j < |slots| ==> slots[i] != slots[j]
    ensures forall i :: 0 <= i < |slots| ==> slots[i] in records && hits[i] == PrimaryKey(utf8, records[slots[i]])
  {
    hide Holds, SecondaryKey, PrimaryKey;
    slots := [];
    for i := 0 to |hits|
      invariant |slots| == i && forall j :: 0 <= j < i ==> slots[j] in records && hits[j] == PrimaryKey(utf8, records[slots[j]])
    {
      assert hits[i] in hits;
      var s := PrimaryEntry(utf8, tokens, db, records, hits[i]);
      slots := slots + [s];
    }
    forall s | s in records ensures s in slots {
      PrimaryRecord(utf8, tokens, db, records, s);
      NamespacesApart(utf8, records[s], records[s]);
      var i :| 0 <= i < |hits| && hits[i] == PrimaryKey(utf8, records[s]);
      SamePrimary(utf8, tokens, db, records, s, slots[i]);
    }
  }

  ghost function OnWorkerAmong(slots: seq<Slot>, worker: string): set<Slot> {
    set s | s in slots && s.worker == worker
  }

  lemma AmongSnoc(slots: seq<Slot>, i: nat, worker: string)
    requires i < |slots|
    ensures OnWorkerAmong(slots[..i + 1], worker) == OnWorkerAmong(slots[..i], worker) + if slots[i].worker == worker then {slots[i]} else {}
  {
    assert slots[..i + 1] == slots[..i] + [slots[i]];
  }

  lemma NoneOn(records: Records, slots: seq<Slot>, worker: string)
    ensures records - OnWorkerAmong(slots[..0], worker) == records
  {
  }

  lemma AllOn(records: Records, slots: seq<Slot>, worker: string)
    requires forall s :: s in slots <==> s in records
    ensures OnWorkerAmong(slots, worker) == OnWorker(records, worker)
  {
  }
}
