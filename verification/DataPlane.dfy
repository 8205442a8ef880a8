/**
  The tier machine over workers: blocks are placed, demoted HBM to DRAM to SSD
  and evicted within byte budgets, and the real bytes follow in per-worker pools.
 */
module DataPlanes {
  import opened Blocks
  import opened Frames
  import opened KvStores
  import opened MasterSpec
  import opened Segments
  import W = Wal
  import opened Words

  datatype Residency = Residency(key: BlockKey, worker: string, tier: Tier, bytes: nat, lastAccess: nat, refCount: nat, pinned: bool)

  datatype TierEntry = TierEntry(residency: Residency, lastAccess: nat)

  type Entries = map<BlockKey, TierEntry>

  datatype WorkerCache = WorkerCache(entries: Entries, clock: nat)

  datatype Config = Config(hbm: nat, dram: nat, ssd: nat)

  /** What a call changed: blocks now resident as stated, and blocks gone. */
  datatype Update = Update(resident: seq<Residency>, removed: seq<Residency>)

  function MetasOf(entries: Entries): Metas {
    map k | k in entries :: BlockMeta(entries[k].residency.tier, entries[k].residency.bytes, entries[k].lastAccess)
  }

  function Capacity(config: Config, tier: Tier): nat {
    match tier
    case Hbm => config.hbm
    case CpuDram => config.dram
    case LocalSsd => config.ssd
    case _ => 0
  }

  function LowerTier(tier: Tier): Option<Tier> {
    match tier
    case Hbm => Some(CpuDram)
    case CpuDram => Some(LocalSsd)
    case _ => None
  }

  /** A tier of a worker is within its budget. */
  ghost predicate Within(config: Config, entries: Entries, tier: Tier) {
    TierBytes(MetasOf(entries), tier) <= Capacity(config, tier)
  }

  /** Every entry is filed under its own key and worker. */
  ghost predicate Filed(entries: Entries, worker: string) {
    forall k :: k in entries ==> entries[k].residency.key == k && entries[k].residency.worker == worker
  }

  /** No entry was used after the worker's clock. */
  ghost predicate Dated(entries: Entries, clock: nat) {
    forall k :: k in entries ==> entries[k].lastAccess <= clock
  }

  // ---- exact differences ----

  ghost function KeysOf(rs: seq<Residency>): set<BlockKey> {
    set i | 0 <= i < |rs| :: rs[i].key
  }

  ghost function Residencies(entries: Entries): map<BlockKey, Residency> {
    map k | k in entries :: entries[k].residency
  }

  ghost predicate OneEach(rs: seq<Residency>) {
    forall i, j :: 0 <= i < j < |rs| ==> rs[i].key != rs[j].key
  }

  /** The blocks whose residency is not what it was, and those placed. */
  ghost function Changed(was: map<BlockKey, Residency>, placed: map<BlockKey, Residency>, now: map<BlockKey, Residency>): set<BlockKey> {
    set k | k in now && (k in placed || k !in was || was[k] != now[k])
  }

  /**
    An update is the exact difference: it removes just the blocks that were there or
    placed and are not now, and lists as resident just those placed or changed, each
    once, with their bytes.
   */
  ghost predicate Diff(was: map<BlockKey, Residency>, placed: map<BlockKey, Residency>, u: Update, now: map<BlockKey, Residency>) {
    var all := was + placed;
    && now.Keys <= all.Keys
    && OneEach(u.removed) && KeysOf(u.removed) == all.Keys - now.Keys
    && (forall i :: 0 <= i < |u.removed| ==> u.removed[i].key in all && u.removed[i].bytes == all[u.removed[i].key].bytes)
    && OneEach(u.resident) && KeysOf(u.resident) == Changed(was, placed, now)
    && (forall i :: 0 <= i < |u.resident| ==> u.resident[i].key in now && now[u.resident[i].key] == u.resident[i])
  }

  /** The residencies listed are those from before. */
  ghost predicate AsWas(was: map<BlockKey, Residency>, rs: seq<Residency>) {
    forall i :: 0 <= i < |rs| ==> rs[i].key in was && was[rs[i].key] == rs[i]
  }

  lemma RemovedDiff(was: map<BlockKey, Residency>, removed: seq<Residency>, now: map<BlockKey, Residency>)
    requires OneEach(removed) && AsWas(was, removed) && now == was - KeysOf(removed) && KeysOf(removed) <= was.Keys
    ensures Diff(was, map[], Update([], removed), now)
  {
    hide KeysOf;
    NoKeys();
    assert was + map[] == was && Changed(was, map[], now) == {};
  }

  lemma NoDiff()
    ensures Residencies(map[]) == map[] && AsWas(map[], []) && Diff(map[], map[], Update([], []), map[])
  {
    var none: map<BlockKey, Residency> := map[];
    assert none - KeysOf([]) == none;
    RemovedDiff(none, [], none);
  }

  /** A block has moved down the tiers. */
  ghost predicate Sank(above: Tier, below: Tier) {
    (above == Hbm && below == CpuDram) || (above == Hbm && below == LocalSsd) || (above == CpuDram && below == LocalSsd)
  }

  /**
    During a pass: entries outside `affected` are as they were, those in it but the
    placed one have moved down, and those gone are listed once each.
   */
  ghost predicate Tracked(was: Entries, now: Entries, placed: BlockKey, affected: set<BlockKey>, removed: seq<Residency>) {
    && (forall k :: k !in affected ==> (k in now <==> k in was) && (k in now ==> now[k] == was[k]))
    && KeysOf(removed) == was.Keys - now.Keys && KeysOf(removed) <= affected && now.Keys <= was.Keys && affected <= was.Keys
    && OneEach(removed)
    && (forall i :: 0 <= i < |removed| ==>
      && removed[i].tier == LocalSsd && removed[i].key in was
      && removed[i].bytes == was[removed[i].key].residency.bytes)
    && (forall k :: k in now && k in was ==> now[k].residency.bytes == was[k].residency.bytes)
    && (forall k :: k in affected && k in now && k != placed ==> Sank(was[k].residency.tier, now[k].residency.tier))
  }

  lemma Untouched(was: Entries, key: BlockKey)
    requires key in was
    ensures Tracked(was, was, key, {key}, [])
  {
  }

  lemma TrackDemoted(was: Entries, now: Entries, placed: BlockKey, affected: set<BlockKey>, removed: seq<Residency>, k: BlockKey, e: TierEntry)
    requires Tracked(was, now, placed, affected, removed) && k in now
    requires e.residency.bytes == now[k].residency.bytes && Sank(now[k].residency.tier, e.residency.tier)
    ensures Tracked(was, now[k := e], placed, affected + {k}, removed)
  {
    hide KeysOf;
    assert now[k := e].Keys == now.Keys;
  }

  lemma TrackEvicted(was: Entries, now: Entries, placed: BlockKey, affected: set<BlockKey>, removed: seq<Residency>, k: BlockKey, r: Residency)
    requires Tracked(was, now, placed, affected, removed) && k in now && r.key == k && r == now[k].residency && r.tier == LocalSsd
    ensures Tracked(was, now - {k}, placed, affected + {k}, removed + [r])
  {
    KeysSnoc(removed, r);
    assert k !in KeysOf(removed);
    forall i | 0 <= i < |removed| ensures removed[i].key != k { assert removed[i].key in KeysOf(removed); }
    hide KeysOf;
    assert (now - {k}).Keys == now.Keys - {k};
  }

  lemma OneMore(rs: seq<Residency>, r: Residency)
    requires OneEach(rs) && r.key !in KeysOf(rs)
    ensures OneEach(rs + [r])
  {
    forall i | 0 <= i < |rs| ensures rs[i].key != r.key { assert rs[i].key in KeysOf(rs); }
  }

  lemma KeysSnoc(rs: seq<Residency>, r: Residency)
    ensures KeysOf(rs + [r]) == KeysOf(rs) + {r.key}
  {
    var all := rs + [r];
    forall k | k in KeysOf(rs) ensures k in KeysOf(all) {
      var i :| 0 <= i < |rs| && rs[i].key == k;
      assert all[i].key == k;
    }
    assert all[|rs|].key == r.key;
  }

  // ---- tier sums ----

  /** The bytes of a tier, added up. */
  method SumTier(meta: Metas, tier: Tier) returns (n: nat)
    ensures n == TierBytes(meta, tier)
  {
    n := 0;
    var rest := meta;
    while rest != map[]
      invariant n + TierBytes(rest, tier) == TierBytes(meta, tier)
      decreases |rest|
    {
      var k :| k in rest;
      TierBytesRemove(rest, tier, k);
      if rest[k].tier == tier {
        n := n + rest[k].bytes;
      }
      rest := rest - {k};
    }
  }

  /** Changing one entry moves its bytes from one tier to another and no more. */
  lemma {:induction false} Moved(entries: Entries, k: BlockKey, e: TierEntry, tier: Tier)
    requires k in entries && e.residency.bytes == entries[k].residency.bytes && tier != e.residency.tier && tier != entries[k].residency.tier
    ensures TierBytes(MetasOf(entries[k := e]), tier) == TierBytes(MetasOf(entries), tier)
  {
    var m := BlockMeta(e.residency.tier, e.residency.bytes, e.lastAccess);
    assert MetasOf(entries[k := e]) == MetasOf(entries)[k := m];
    hide TierBytes;
    TierBytesSet(MetasOf(entries), tier, k, m);
    TierBytesRemove(MetasOf(entries), tier, k);
  }

  lemma {:induction false} Left(entries: Entries, k: BlockKey, tier: Tier)
    requires k in entries && tier != entries[k].residency.tier
    ensures TierBytes(MetasOf(entries - {k}), tier) == TierBytes(MetasOf(entries), tier)
  {
    assert MetasOf(entries - {k}) == MetasOf(entries) - {k};
    hide TierBytes;
    TierBytesRemove(MetasOf(entries), tier, k);
  }

  // ---- capacity ----

  /** Every block of a worker's byte pool has an entry; the pool itself has no budgets. */
  ghost predicate PoolOk(pool: LocalKvStore?, entries: Entries)
    reads pool
  {
    pool != null ==> pool.Valid() && pool.meta.Keys <= entries.Keys && pool.dramCapacity == pool.ssdCapacity == U64_MAX
  }

  /** The pool still has the bytes of every block but those gone, and in memory those of every block but the ones out of it. */
  twostate predicate BytesKept(pool: LocalKvStore?, new out: set<BlockKey>, new gone: set<BlockKey>)
    reads pool
  {
    pool != null ==> pool.Contents() == old(pool.Contents()) - gone && pool.dram == old(pool.dram) - out
  }

  /** The blocks whose bytes leave memory when a tier gives up `moved`: those that sink below it, or go. */
  ghost function OutOfMemory(tier: Tier, moved: set<BlockKey>): set<BlockKey> {
    if tier == Hbm then {} else moved
  }

  lemma OutMore(dram: map<BlockKey, seq<Byte>>, tier: Tier, moved: seq<BlockKey>, k: BlockKey)
    ensures dram - OutOfMemory(tier, SetOf(moved)) - OutOfMemory(tier, {k}) == dram - OutOfMemory(tier, SetOf(moved + [k]))
  {
    assert SetOf(moved + [k]) == SetOf(moved) + {k};
  }

  /** The entry of a block one tier down. */
  function Demoted(e: TierEntry, tier: Tier, worker: string, clock: nat): TierEntry {
    TierEntry(e.residency.(tier := tier, worker := worker), clock)
  }

  /** Keys in a tier, for termination. */
  ghost function InTier(entries: Entries, tier: Tier): set<BlockKey> {
    set k | k in entries && entries[k].residency.tier == tier
  }

  /** Entries once some of a tier have moved to the next one down, or gone if there is none. */
  ghost function Lowered(entries: Entries, moved: set<BlockKey>, next: Option<Tier>, worker: string, clock: nat): Entries {
    if next.None? then entries - moved
    else map k | k in entries :: if k in moved then Demoted(entries[k], next.value, worker, clock) else entries[k]
  }

  /** The blocks each tier gave up. */
  datatype Passes = Passes(hbm: seq<BlockKey>, dram: seq<BlockKey>, ssd: seq<BlockKey>)

  /** Capacity enforcement: HBM drains to DRAM, that to the SSD, and the SSD drains away. */
  ghost predicate Settled(config: Config, worker: string, clock: nat, was: Entries, p: Passes, now: Entries) {
    var e1 := Lowered(was, SetOf(p.hbm), Some(CpuDram), worker, clock);
    var e2 := Lowered(e1, SetOf(p.dram), Some(LocalSsd), worker, clock);
    && Drained(MetasOf(was), Hbm, config.hbm, p.hbm)
    && Drained(MetasOf(e1), CpuDram, config.dram, p.dram)
    && Drained(MetasOf(e2), LocalSsd, config.ssd, p.ssd)
    && now == Lowered(e2, SetOf(p.ssd), None, worker, clock)
  }

  lemma NoneLowered(entries: Entries, tier: Tier, budget: nat, next: Option<Tier>, worker: string, clock: nat)
    ensures Draining(MetasOf(entries), tier, budget, []) && Lowered(entries, SetOf([]), next, worker, clock) == entries
    ensures MetasOf(entries) - SetOf([]) == MetasOf(entries)
  {
    hide TierBytes, MetasOf;
  }

  lemma {:induction false} LowerMore(entries: Entries, tier: Tier, budget: nat, moved: seq<BlockKey>,
      next: Option<Tier>, worker: string, clock: nat, k: BlockKey)
    requires next != Some(tier) && Draining(MetasOf(entries), tier, budget, moved)
    requires var now := MetasOf(Lowered(entries, SetOf(moved), next, worker, clock));
      TierBytes(now, tier) == TierBytes(MetasOf(entries) - SetOf(moved), tier) > budget && Coldest(now, tier, k)
    ensures Draining(MetasOf(entries), tier, budget, moved + [k])
    ensures var now := Lowered(entries, SetOf(moved), next, worker, clock);
      k in now && Lowered(entries, SetOf(moved + [k]), next, worker, clock) ==
        if next.None? then now - {k} else now[k := Demoted(now[k], next.value, worker, clock)]
    ensures var now := MetasOf(Lowered(entries, SetOf(moved + [k]), next, worker, clock));
      TierBytes(now, tier) == TierBytes(MetasOf(entries) - SetOf(moved + [k]), tier)
  {
    hide TierBytes, Draining;
    var now, left := Lowered(entries, SetOf(moved), next, worker, clock), MetasOf(entries) - SetOf(moved);
    forall l | l in left ensures l in now && MetasOf(now)[l] == left[l] { assert l in entries && l !in SetOf(moved); }
    assert k !in SetOf(moved) && k in left;
    assert Coldest(left, tier, k);
    DrainMore(MetasOf(entries), tier, budget, moved, k);
    TierBytesRemove(MetasOf(now), tier, k);
    if next.None? {
      assert Lowered(entries, SetOf(moved + [k]), next, worker, clock) == now - {k};
      assert MetasOf(now - {k}) == MetasOf(now) - {k};
    } else {
      var e := Demoted(now[k], next.value, worker, clock);
      assert Lowered(entries, SetOf(moved + [k]), next, worker, clock) == now[k := e];
      var m := BlockMeta(e.residency.tier, e.residency.bytes, e.lastAccess);
      assert MetasOf(now[k := e]) == MetasOf(now)[k := m];
      TierBytesSet(MetasOf(now), tier, k, m);
    }
  }

  lemma TwoGone(c: map<BlockKey, seq<Byte>>, a: set<BlockKey>, b: set<BlockKey>, d: set<BlockKey>)
    requires a >= b >= d
    ensures c - (a - b) - (b - d) == c - (a - d)
  {
  }

  /** Move one block a tier down, or out of the lowest, and its bytes with it. */
  method LowerOne(tier: Tier, pool: LocalKvStore?, worker: string, clock: nat, entries0: Entries, ghost was: Entries,
      ghost placed: BlockKey, ghost affected: set<BlockKey>, removed0: seq<Residency>, victim: BlockKey)
      returns (entries: Entries, removed: seq<Residency>)
    requires (tier == Hbm || tier == CpuDram || tier == LocalSsd) && victim in entries0 && entries0[victim].residency.tier == tier
    requires Tracked(was, entries0, placed, affected, removed0) && Filed(entries0, worker) && PoolOk(pool, entries0)
    modifies pool
    ensures entries == if LowerTier(tier).None? then entries0 - {victim}
      else entries0[victim := Demoted(entries0[victim], LowerTier(tier).value, worker, clock)]
    ensures forall t :: t != tier && LowerTier(tier) != Some(t) ==> TierBytes(MetasOf(entries), t) == TierBytes(MetasOf(entries0), t)
    ensures Tracked(was, entries, placed, affected + {victim}, removed) && Filed(entries, worker) && PoolOk(pool, entries)
    ensures BytesKept(pool, OutOfMemory(tier, {victim}), entries0.Keys - entries.Keys)
  {
    hide TierBytes, Tracked, MetasOf, LocalKvStore.Valid, LocalKvStore.Contents, Filed;
    entries, removed := entries0, removed0;
    match LowerTier(tier) {
      case Some(next) =>
        var e := Demoted(entries[victim], next, worker, clock);
        forall t | t != tier && t != next ensures TierBytes(MetasOf(entries[victim := e]), t) == TierBytes(MetasOf(entries), t) {
          Moved(entries, victim, e, t);
        }
        TrackDemoted(was, entries, placed, affected, removed, victim, e);
        FiledDemoted(entries, worker, victim, next, clock);
        entries := entries[victim := e];
        if next == LocalSsd && pool != null {
          var _, _ := pool.DemoteToSsd(victim);
        }
      case None =>
        forall t | t != tier ensures TierBytes(MetasOf(entries - {victim}), t) == TierBytes(MetasOf(entries), t) {
          Left(entries, victim, t);
        }
        FiledEvicted(entries, worker, victim);
        TrackEvicted(was, entries, placed, affected, removed, victim, entries[victim].residency);
        removed := removed + [entries[victim].residency];
        entries := entries - {victim};
        if pool != null {
          var _, _ := pool.DropBlock(victim);
        }
    }
  }

  /** Bring one tier within its budget: demote its coldest blocks, or evict them from the last tier. */
  method Drain(config: Config, tier: Tier, pool: LocalKvStore?, worker: string, clock: nat, entries0: Entries,
      ghost was: Entries, ghost placed: BlockKey, affected0: set<BlockKey>, removed0: seq<Residency>)
      returns (entries: Entries, affected: set<BlockKey>, removed: seq<Residency>, ghost moved: seq<BlockKey>)
    requires tier == Hbm || tier == CpuDram || tier == LocalSsd
    requires Tracked(was, entries0, placed, affected0, removed0) && Filed(entries0, worker) && PoolOk(pool, entries0)
    modifies pool
    ensures Drained(MetasOf(entries0), tier, Capacity(config, tier), moved)
    ensures entries == Lowered(entries0, SetOf(moved), LowerTier(tier), worker, clock)
    ensures Within(config, entries, tier) && affected0 <= affected && entries.Keys <= entries0.Keys
    ensures forall t :: t != tier && LowerTier(tier) != Some(t) ==> TierBytes(MetasOf(entries), t) == TierBytes(MetasOf(entries0), t)
    ensures Tracked(was, entries, placed, affected, removed) && Filed(entries, worker) && PoolOk(pool, entries)
    ensures BytesKept(pool, OutOfMemory(tier, SetOf(moved)), entries0.Keys - entries.Keys)
  {
    hide TierBytes, Tracked, MetasOf, LocalKvStore.Valid, LocalKvStore.Contents, NoneIn, Filed, Capacity;
    hide Draining, Lowered, Coldest, OutOfMemory;
    entries, affected, removed, moved := entries0, affected0, removed0, [];
    NoneLowered(entries0, tier, Capacity(config, tier), LowerTier(tier), worker, clock);
    assert BytesKept(pool, OutOfMemory(tier, SetOf([])), entries0.Keys - entries.Keys) by { NothingOut(tier); }
    while true
      invariant Draining(MetasOf(entries0), tier, Capacity(config, tier), moved)
      invariant entries == Lowered(entries0, SetOf(moved), LowerTier(tier), worker, clock)
      invariant TierBytes(MetasOf(entries), tier) == TierBytes(MetasOf(entries0) - SetOf(moved), tier)
      invariant affected0 <= affected && entries.Keys <= entries0.Keys
      invariant forall t :: t != tier && LowerTier(tier) != Some(t) ==> TierBytes(MetasOf(entries), t) == TierBytes(MetasOf(entries0), t)
      invariant Tracked(was, entries, placed, affected, removed) && Filed(entries, worker) && PoolOk(pool, entries)
      invariant BytesKept(pool, OutOfMemory(tier, SetOf(moved)), entries0.Keys - entries.Keys)
      decreases InTier(entries, tier)
    {
      var sum := SumTier(MetasOf(entries), tier);
      if sum <= Capacity(config, tier) {
        break;
      }
      var coldest := ColdestIn(MetasOf(entries), tier);
      if coldest.None? {
        NoneInNoBytes(MetasOf(entries), tier);
        break;
      }
      var victim := coldest.value;
      ColdestHere(MetasOf(entries), tier, victim);
      MetaOf(entries, victim);
      LowerMore(entries0, tier, Capacity(config, tier), moved, LowerTier(tier), worker, clock, victim);
      ghost var earlier := moved;
      moved := moved + [victim];
      ghost var before := entries;
      entries, removed := LowerOne(tier, pool, worker, clock, entries, was, placed, affected, removed, victim);
      TwoGone(if pool == null then map[] else old(pool.Contents()), entries0.Keys, before.Keys, entries.Keys);
      OutMore(if pool == null then map[] else old(pool.dram), tier, earlier, victim);
      affected := affected + {victim};
      assert victim in InTier(before, tier) && victim !in InTier(entries, tier);
    }
  }

  lemma NothingOut(tier: Tier)
    ensures OutOfMemory(tier, SetOf([])) == {}
  {
  }

  lemma FiledDemoted(entries: Entries, worker: string, k: BlockKey, next: Tier, clock: nat)
    requires Filed(entries, worker) && k in entries
    ensures Filed(entries[k := Demoted(entries[k], next, worker, clock)], worker)
  {
  }

  lemma FiledEvicted(entries: Entries, worker: string, k: BlockKey)
    requires Filed(entries, worker) && k in entries
    ensures Filed(entries - {k}, worker) && entries[k].residency.key == k
  {
  }

  lemma MetaOf(entries: Entries, k: BlockKey)
    ensures k in MetasOf(entries) <==> k in entries
    ensures k in entries ==> MetasOf(entries)[k].tier == entries[k].residency.tier
    ensures k in entries ==> MetasOf(entries)[k].bytes == entries[k].residency.bytes && MetasOf(entries)[k].lastAccess == entries[k].lastAccess
  {
  }

  /** The residencies of the affected blocks that are still there, each once. */
  method Residents(entries: Entries, affected: set<BlockKey>) returns (rs: seq<Residency>)
    requires forall k :: k in entries ==> entries[k].residency.key == k
    ensures forall i :: 0 <= i < |rs| ==> rs[i].key in affected && rs[i].key in entries && entries[rs[i].key].residency == rs[i]
    ensures OneEach(rs) && KeysOf(rs) == affected * entries.Keys
  {
    rs := [];
    var rest := affected;
    while rest != {}
      invariant rest <= affected && OneEach(rs) && KeysOf(rs) == (affected - rest) * entries.Keys
      invariant forall i :: 0 <= i < |rs| ==> rs[i].key in affected && rs[i].key in entries && entries[rs[i].key].residency == rs[i]
    {
      var k :| k in rest;
      if k in entries {
        KeysSnoc(rs, entries[k].residency);
        OneMore(rs, entries[k].residency);
        rs := rs + [entries[k].residency];
      }
      rest := rest - {k};
    }
  }

  ghost predicate InBudget(config: Config, entries: Entries) {
    Within(config, entries, Hbm) && Within(config, entries, CpuDram) && Within(config, entries, LocalSsd)
  }

  /** Bring the tiers within budget from the top down; what leaves one lands in the next. */
  method Enforce(config: Config, pool: LocalKvStore?, worker: string, clock: nat, was: Entries, key: BlockKey)
      returns (entries: Entries, affected: set<BlockKey>, removed: seq<Residency>, ghost passes: Passes)
    requires key in was && Filed(was, worker) && PoolOk(pool, was)
    modifies pool
    ensures Settled(config, worker, clock, was, passes, entries)
    ensures InBudget(config, entries) && key in affected && entries.Keys <= was.Keys
    ensures Tracked(was, entries, key, affected, removed) && Filed(entries, worker) && PoolOk(pool, entries)
    ensures BytesKept(pool, SetOf(passes.dram) + SetOf(passes.ssd), was.Keys - entries.Keys)
  {
    hide TierBytes, Tracked, LocalKvStore.Valid, LocalKvStore.Contents, MetasOf, Filed, Drained, Lowered, SetOf;
    ghost var h, d, gone;
    Untouched(was, key);
    affected, removed := {key}, [];
    ghost var e1, e2;
    ghost var c0 := if pool == null then map[] else pool.Contents();
    entries, affected, removed, h := Drain(config, Hbm, pool, worker, clock, was, was, key, affected, removed);
    e1 := entries;
    ghost var c1 := if pool == null then map[] else pool.Contents();
    entries, affected, removed, d := Drain(config, CpuDram, pool, worker, clock, entries, was, key, affected, removed);
    e2 := entries;
    ghost var c2 := if pool == null then map[] else pool.Contents();
    assert pool != null ==> c2 == c1 - (e1.Keys - e2.Keys) && c1 == c0 - (was.Keys - e1.Keys);
    entries, affected, removed, gone := Drain(config, LocalSsd, pool, worker, clock, entries, was, key, affected, removed);
    passes := Passes(h, d, gone);
    ThreeGone(c0, was.Keys, e1.Keys, e2.Keys, entries.Keys);
    if pool != null { assert old(pool.dram) - {} - SetOf(d) - SetOf(gone) == old(pool.dram) - (SetOf(d) + SetOf(gone)); }
  }

  lemma ThreeGone(c: map<BlockKey, seq<Byte>>, a: set<BlockKey>, b: set<BlockKey>, d: set<BlockKey>, e: set<BlockKey>)
    requires a >= b >= d >= e
    ensures c - (a - b) - (b - d) - (d - e) == c - (a - e)
  {
  }

  /** What holds of a worker's cache: entries filed under their keys, in budget, none used after its clock. */
  ghost predicate CacheOk(config: Config, w: string, cache: WorkerCache) {
    Filed(cache.entries, w) && InBudget(config, cache.entries) && Dated(cache.entries, cache.clock)
  }

  /** A worker's entries with one more block, just used. */
  function Entered(entries: Entries, r: Residency, clock: nat): Entries {
    entries[r.key := TierEntry(r.(lastAccess := clock), clock)]
  }

  /** Place one block among a worker's entries and bring all tiers within budget. */
  method PlaceIn(config: Config, pool: LocalKvStore?, cache: WorkerCache, r: Residency) returns (next: WorkerCache, u: Update, ghost passes: Passes)
    requires CacheOk(config, r.worker, cache) && PoolOk(pool, cache.entries[r.key := TierEntry(r, 0)])
    modifies pool
    ensures CacheOk(config, r.worker, next) && PoolOk(pool, next.entries)
    ensures Diff(Residencies(cache.entries), map[r.key := r], u, Residencies(next.entries)) && next.clock == cache.clock + 1
    ensures Settled(config, r.worker, next.clock, Entered(cache.entries, r, next.clock), passes, next.entries)
    ensures next.entries.Keys <= cache.entries.Keys + {r.key} && Restamped(cache.entries, r, next.clock, passes, next.entries)
    ensures Drains(r.tier) ==> (Rests(next.entries, r.key, r.tier) <==> r.bytes <= Capacity(config, r.tier))
    ensures BytesKept(pool, SetOf(passes.dram) + SetOf(passes.ssd), cache.entries.Keys + {r.key} - next.entries.Keys)
  {
    hide TierBytes, Tracked, Diff, LocalKvStore.Valid, LocalKvStore.Contents, KeysOf, MetasOf, InBudget, Settled, SetOf, Restamped, Capacity;
    var clock := cache.clock + 1;
    var was := Entered(cache.entries, r, clock);
    assert was.Keys == cache.entries[r.key := TierEntry(r, 0)].Keys == cache.entries.Keys + {r.key};
    assert Filed(was, r.worker) && Dated(cache.entries, clock);
    hide Dated, Rests, Filed;
    var entries, affected, removed, p := Enforce(config, pool, r.worker, clock, was, r.key);
    FiledKeys(entries, r.worker);
    var resident := Residents(entries, affected);
    u := Update(resident, removed);
    hide OneEach;
    PlaceDiff(cache.entries, was, entries, affected, u, r);
    Restamps(config, r.worker, clock, cache.entries, r, p, entries);
    if Drains(r.tier) { PlacedStays(config, r.worker, clock, cache.entries, r, p, entries); }
    next, passes := WorkerCache(entries, clock), p;
  }

  /** A tier that capacity enforcement drains. */
  predicate Drains(tier: Tier) {
    tier == Hbm || tier == CpuDram || tier == LocalSsd
  }

  ghost predicate Rests(entries: Entries, k: BlockKey, tier: Tier) {
    k in entries && entries[k].residency.tier == tier
  }

  /**
    What a placement does to the entries that are still there: those that sank and the
    one placed are stamped now, with their new tier; all others are as they were.
   */
  ghost predicate Restamped(was: Entries, r: Residency, clock: nat, p: Passes, now: Entries) {
    forall k :: k in now ==>
      && (k == r.key || k in was)
      && (var o := if k == r.key then r.(lastAccess := clock) else was[k].residency;
          now[k].residency == o.(tier := now[k].residency.tier, worker := now[k].residency.worker))
      && (k == r.key || k in SetOf(p.hbm) || k in SetOf(p.dram) ==> now[k].lastAccess == clock)
      && (k in SetOf(p.dram) ==> now[k].residency.tier == LocalSsd)
      && (k in SetOf(p.hbm) && k !in SetOf(p.dram) ==> now[k].residency.tier == CpuDram)
      && (k !in SetOf(p.hbm) + SetOf(p.dram) ==>
        if k == r.key then now[k].residency == r.(lastAccess := clock) else now[k] == was[k])
  }

  lemma {:induction false} Restamps(config: Config, worker: string, clock: nat, was: Entries, r: Residency, p: Passes, now: Entries)
    requires Settled(config, worker, clock, Entered(was, r, clock), p, now) && Dated(was, clock)
    ensures Restamped(was, r, clock, p, now) && Dated(now, clock)
  {
    hide Drained, MetasOf, SetOf;
  }

  lemma FirstToGo(meta: Metas, tier: Tier, budget: nat, gone: seq<BlockKey>)
    requires Draining(meta, tier, budget, gone) && gone != []
    ensures TierBytes(meta - SetOf([]), tier) > budget
  {
    assert gone[..0] == [];
  }

  lemma {:induction false} NoneToGo(meta: Metas, tier: Tier, budget: nat, gone: seq<BlockKey>)
    requires Drained(meta, tier, budget, gone) && TierBytes(meta, tier) <= budget
    ensures gone == []
  {
    assert meta - SetOf([]) == meta;
    if gone != [] { FirstToGo(meta, tier, budget, gone); }
  }

  lemma {:induction false} EnteredBelow(entries: Entries, r: Residency, clock: nat, tier: Tier)
    requires r.tier != tier
    ensures TierBytes(MetasOf(Entered(entries, r, clock)), tier) <= TierBytes(MetasOf(entries), tier)
  {
    var m := BlockMeta(r.tier, r.bytes, clock);
    assert MetasOf(Entered(entries, r, clock)) == MetasOf(entries)[r.key := m];
    hide TierBytes;
    TierBytesSet(MetasOf(entries), tier, r.key, m);
    if r.key in entries { TierBytesRemove(MetasOf(entries), tier, r.key); }
  }

  lemma LoweredNone(entries: Entries, next: Option<Tier>, worker: string, clock: nat)
    ensures Lowered(entries, SetOf([]), next, worker, clock) == entries
  {
  }

  lemma EnteredLatest(was: Entries, r: Residency, clock: nat)
    requires clock > 0 && Dated(was, clock - 1)
    ensures var m := MetasOf(Entered(was, r, clock)); Latest(m, r.key) && m[r.key] == BlockMeta(r.tier, r.bytes, clock)
  {
  }

  /** The block just placed stays in its tier exactly when it alone fits that tier's budget. */
  lemma {:induction false} PlacedStays(config: Config, worker: string, clock: nat, was: Entries, r: Residency, p: Passes, now: Entries)
    requires Settled(config, worker, clock, Entered(was, r, clock), p, now) && InBudget(config, was) && clock > 0 && Dated(was, clock - 1)
    requires Drains(r.tier)
    ensures Rests(now, r.key, r.tier) <==> r.bytes <= Capacity(config, r.tier)
  {
    var e0 := Entered(was, r, clock);
    EnteredLatest(was, r, clock);
    hide MetasOf, Drained, TierBytes, SetOf, Entered;
    if r.tier != Hbm {
      EnteredBelow(was, r, clock, Hbm);
      NoneToGo(MetasOf(e0), Hbm, config.hbm, p.hbm);
      LoweredNone(e0, Some(CpuDram), worker, clock);
    }
    if r.tier == LocalSsd {
      EnteredBelow(was, r, clock, CpuDram);
      NoneToGo(MetasOf(e0), CpuDram, config.dram, p.dram);
      LoweredNone(e0, Some(LocalSsd), worker, clock);
    }
    PlacedAt(config, worker, clock, e0, r, p, now);
  }

  lemma {:induction false} PlacedAt(config: Config, worker: string, clock: nat, e0: Entries, r: Residency, p: Passes, now: Entries)
    requires Settled(config, worker, clock, e0, p, now) && Drains(r.tier)
    requires Latest(MetasOf(e0), r.key) && MetasOf(e0)[r.key] == BlockMeta(r.tier, r.bytes, clock)
    requires r.tier != Hbm ==> p.hbm == []
    requires r.tier == LocalSsd ==> p.dram == []
    ensures Rests(now, r.key, r.tier) <==> r.bytes <= Capacity(config, r.tier)
  {
    var k := r.key;
    var e1 := Lowered(e0, SetOf(p.hbm), Some(CpuDram), worker, clock);
    var e2 := Lowered(e1, SetOf(p.dram), Some(LocalSsd), worker, clock);
    LoweredNone(e0, Some(CpuDram), worker, clock);
    LoweredNone(e1, Some(LocalSsd), worker, clock);
    if r.tier == Hbm {
      LatestGoesIff(MetasOf(e0), Hbm, config.hbm, p.hbm, k);
    } else if r.tier == CpuDram {
      LatestGoesIff(MetasOf(e1), CpuDram, config.dram, p.dram, k);
    } else {
      LatestGoesIff(MetasOf(e2), LocalSsd, config.ssd, p.ssd, k);
    }
    assert k in e0 && e0[k].residency.tier == r.tier by { MetaOf(e0, k); }
    hide Latest;
    LoweredAt(e0, Hbm, config.hbm, p.hbm, Some(CpuDram), worker, clock, k);
    LoweredAt(e1, CpuDram, config.dram, p.dram, Some(LocalSsd), worker, clock, k);
    LoweredAt(e2, LocalSsd, config.ssd, p.ssd, None, worker, clock, k);
  }

  /** A pass takes a block from its own tier to the next, or not at all. */
  lemma LoweredAt(entries: Entries, tier: Tier, budget: nat, moved: seq<BlockKey>, next: Option<Tier>, worker: string, clock: nat, k: BlockKey)
    requires Draining(MetasOf(entries), tier, budget, moved) && k in entries
    ensures var now := Lowered(entries, SetOf(moved), next, worker, clock);
      if k !in moved then k in now && now[k] == entries[k]
      else entries[k].residency.tier == tier && (next.None? ==> k !in now) && (next.Some? ==> k in now && now[k].residency.tier == next.value)
  {
    hide Draining;
    if k in moved {
      DrainedHere(MetasOf(entries), tier, budget, moved, k);
      MetaOf(entries, k);
    }
    hide MetasOf;
  }

  lemma PlaceDiff(before: Entries, was: Entries, now: Entries, affected: set<BlockKey>, u: Update, r: Residency)
    requires r.key in was && was == before[r.key := was[r.key]] && was[r.key].residency.bytes == r.bytes
    requires Tracked(was, now, r.key, affected, u.removed) && r.key in affected
    requires OneEach(u.resident) && KeysOf(u.resident) == affected * now.Keys
    requires forall i :: 0 <= i < |u.resident| ==> u.resident[i].key in now && now[u.resident[i].key].residency == u.resident[i]
    ensures Diff(Residencies(before), map[r.key := r], u, Residencies(now))
  {
    hide KeysOf, OneEach;
    var before', now', placed := Residencies(before), Residencies(now), map[r.key := r];
    assert (before' + placed).Keys == was.Keys && now'.Keys == now.Keys;
    forall k ensures k in affected * now.Keys <==> k in Changed(before', placed, now') {
      if k in affected && k in now && k != r.key {
        assert before'[k] == was[k].residency && now'[k] != before'[k];
      }
    }
    assert affected * now.Keys == Changed(before', placed, now');
  }

  // ---- the data plane ----

  class StoreDataPlane {
    const config: Config
    const codec: Codec<W.Record>
    var workers: map<string, WorkerCache>
    var pools: map<string, LocalKvStore>

    ghost function PoolSet(): set<object>
      reads this
    {
      set w | w in pools :: pools[w]
    }

    ghost predicate PoolsApart()
      reads this
    {
      forall v, w :: v in pools && w in pools && v != w ==> pools[v] != pools[w]
    }

    /** What holds of a worker: its entries in budget, and no byte-pool block without an entry. */
    ghost predicate WorkerOk(w: string)
      reads this, PoolSet()
    {
      && (w in pools ==> w in workers && PoolOk(pools[w], workers[w].entries))
      && (w in workers ==> CacheOk(config, w, workers[w]))
    }

    ghost predicate Valid()
      reads this, PoolSet()
    {
      CodecOk(codec) && PoolsApart() && forall w :: w in pools || w in workers ==> WorkerOk(w)
    }

    constructor (config: Config, codec: Codec<W.Record>)
      requires CodecOk(codec)
      ensures Valid() && workers == map[] && pools == map[] && this.config == config && this.codec == codec
    {
      this.config, this.codec := config, codec;
      workers, pools := map[], map[];
    }

    function Cache(w: string): WorkerCache
      reads this
    {
      if w in workers then workers[w] else WorkerCache(map[], 0)
    }

    ghost function Resident(w: string): map<BlockKey, Residency>
      reads this
    {
      Residencies(Cache(w).entries)
    }

    /** The bytes a worker's pool has, and those of them in memory. */
    ghost function PoolBytes(w: string): map<BlockKey, seq<Byte>>
      reads this, PoolSet()
    {
      if w in pools then pools[w].Contents() else map[]
    }

    ghost function PoolMemory(w: string): map<BlockKey, seq<Byte>>
      reads this, PoolSet()
    {
      if w in pools then pools[w].dram else map[]
    }

    /** The pool of a worker once block `key` has an entry. */
    ghost predicate Placeable(w: string, key: BlockKey)
      reads this, PoolSet()
    {
      && CodecOk(codec) && PoolsApart()
      && (forall v :: (v in pools || v in workers) && v != w ==> WorkerOk(v))
      && (w in workers ==> CacheOk(config, w, workers[w]))
      && (w in pools ==> pools[w].Valid() && pools[w].meta.Keys <= Cache(w).entries.Keys + {key})
      && (w in pools ==> pools[w].dramCapacity == pools[w].ssdCapacity == U64_MAX)
    }

    /** Place a block: every tier of its worker ends within budget, and the update is the exact difference. */
    method Place(r: Residency) returns (u: Update, ghost passes: Passes)
      requires Placeable(r.worker, r.key)
      modifies this`workers, if r.worker in pools then {pools[r.worker]} else {}
      ensures Valid() && r.worker in workers && workers - {r.worker} == old(workers) - {r.worker}
      ensures Diff(old(Resident(r.worker)), map[r.key := r], u, Resident(r.worker))
      ensures var clock := old(Cache(r.worker)).clock + 1;
        workers[r.worker].clock == clock && Settled(config, r.worker, clock, Entered(old(Cache(r.worker)).entries, r, clock),
          passes, workers[r.worker].entries)
      ensures Restamped(old(Cache(r.worker)).entries, r, workers[r.worker].clock, passes, workers[r.worker].entries)
      ensures Drains(r.tier) ==> (Rests(workers[r.worker].entries, r.key, r.tier) <==> r.bytes <= Capacity(config, r.tier))
      ensures PoolBytes(r.worker) == old(PoolBytes(r.worker)) - (old(Cache(r.worker)).entries.Keys + {r.key} - workers[r.worker].entries.Keys)
      ensures PoolMemory(r.worker) == old(PoolMemory(r.worker)) - (SetOf(passes.dram) + SetOf(passes.ssd))
      ensures r.worker in pools && pools[r.worker].Sized() ==> pools[r.worker].Durable() == PoolBytes(r.worker) - PoolMemory(r.worker).Keys
    {
      hide CodecOk, InBudget, Filed, LocalKvStore.Valid, LocalKvStore.Contents, Diff, KeysOf, Residencies, Settled, SetOf, Restamped, Dated, Capacity;
      hide LocalKvStore.Durable, LocalKvStore.Sized;
      var pool: LocalKvStore? := if r.worker in pools then pools[r.worker] else null;
      var cache := Cache(r.worker);
      assert cache.entries[r.key := TierEntry(r, 0)].Keys == cache.entries.Keys + {r.key};
      assert CacheOk(config, r.worker, cache) by { NothingFiled(config, r.worker); }
      var next;
      next, u, passes := PlaceIn(config, pool, cache, r);
      workers := workers[r.worker := next];
      if pool != null && pool.Sized() { pool.DurableRest(); }
      forall w | w in pools || w in workers ensures WorkerOk(w) {
        if w != r.worker { assert old(WorkerOk(w)); }
      }
    }

    /** The byte pool of a worker, made on first use. */
    method EnsurePool(w: string)
      requires Valid()
      modifies this`pools
      ensures w in pools && pools - {w} == old(pools) - {w} && (if w in old(pools) then pools == old(pools) else fresh(pools[w]))
      ensures CodecOk(codec) && PoolsApart() && (forall v :: (v in pools || v in workers) && v != w ==> WorkerOk(v))
      ensures w in workers ==> CacheOk(config, w, workers[w])
      ensures pools[w].Valid() && pools[w].meta.Keys <= Cache(w).entries.Keys
      ensures pools[w].dramCapacity == pools[w].ssdCapacity == 0xFFFF_FFFF_FFFF_FFFF
      ensures PoolBytes(w) == old(PoolBytes(w)) && PoolMemory(w) == old(PoolMemory(w))
    {
      hide CodecOk, InBudget, Filed, Dated, LocalKvStore.Valid, LocalKvStore.Contents, LocalKvStore.Durable;
      if w !in pools {
        var pool := new LocalKvStore(codec, map[], U64_MAX, U64_MAX);
        pools := pools[w := pool];
        forall v | (v in pools || v in workers) && v != w ensures WorkerOk(v) {
          assert old(WorkerOk(v));
        }
        assert w in workers ==> old(WorkerOk(w));
      } else {
        assert WorkerOk(w);
      }
    }

    /** Put a block's bytes into the pool of a worker, ahead of placing it. */
    method Fill(w: string, key: BlockKey, data: seq<Byte>)
      requires w in pools && CodecOk(codec) && PoolsApart() && forall v :: (v in pools || v in workers) && v != w ==> WorkerOk(v)
      requires w in workers ==> CacheOk(config, w, workers[w])
      requires pools[w].Valid() && pools[w].meta.Keys <= Cache(w).entries.Keys
      requires pools[w].dramCapacity == pools[w].ssdCapacity == U64_MAX
      modifies pools[w]
      ensures Placeable(w, key) && pools[w].Contents() == old(pools[w].Contents())[key := data] && pools[w].dram == old(pools[w].dram)[key := data]
    {
      hide CodecOk, InBudget, Filed, LocalKvStore.Valid, LocalKvStore.Contents;
      var _ := pools[w].PutDram(key, data);
      forall v | (v in pools || v in workers) && v != w ensures WorkerOk(v) {
        assert old(WorkerOk(v));
      }
    }

    /** Store a block's bytes on a worker and place it in the memory tier. */
    method Put(w: string, key: BlockKey, data: seq<Byte>) returns (u: Update, ghost passes: Passes)
      requires Valid()
      modifies this, if w in pools then {pools[w]} else {}
      ensures Valid() && w in workers && w in pools && workers - {w} == old(workers) - {w} && pools - {w} == old(pools) - {w}
      ensures Diff(old(Resident(w)), map[key := Residency(key, w, CpuDram, |data|, 0, 0, false)], u, Resident(w))
      ensures var clock := old(Cache(w)).clock + 1;
        Settled(config, w, clock, Entered(old(Cache(w)).entries, Residency(key, w, CpuDram, |data|, 0, 0, false), clock), passes, workers[w].entries)
      ensures workers[w].clock == old(Cache(w)).clock + 1
      ensures Restamped(old(Cache(w)).entries, Residency(key, w, CpuDram, |data|, 0, 0, false), workers[w].clock, passes, workers[w].entries)
      ensures Rests(workers[w].entries, key, CpuDram) <==> |data| <= config.dram
      ensures PoolBytes(w) == old(PoolBytes(w))[key := data] - (old(Cache(w)).entries.Keys + {key} - workers[w].entries.Keys)
      ensures PoolMemory(w) == old(PoolMemory(w))[key := data] - (SetOf(passes.dram) + SetOf(passes.ssd))
      ensures pools[w].Sized() ==> pools[w].Durable() == PoolBytes(w) - PoolMemory(w).Keys
    {
      hide CodecOk, InBudget, Filed, LocalKvStore.Valid, LocalKvStore.Contents, Diff, KeysOf, Residencies, WorkerOk, PoolsApart, Settled, Entered;
      hide LocalKvStore.Durable, LocalKvStore.Sized, SetOf, Restamped, Rests, CacheOk;
      EnsurePool(w);
      Fill(w, key, data);
      u, passes := Place(Residency(key, w, CpuDram, |data|, 0, 0, false));
    }

    /** Serve a block's bytes from a worker's pool. */
    method Get(w: string, key: BlockKey) returns (r: Fetched)
      requires Valid()
      modifies if w in pools then {pools[w]} else {}
      ensures Valid()
      ensures w in pools && key in pools[w].Contents() ==> r == Bytes(pools[w].Contents()[key])
      ensures w !in pools || key !in pools[w].Contents() ==> r.Refused?
      ensures r.Refused? && r.error.Unsafe? <==>
        w in pools && key !in pools[w].Contents() && exists k :: k in pools[w].Contents() && k.blockHash == key.blockHash && k.scope != key.scope
      ensures w in pools ==> pools[w].Contents() == old(pools[w].Contents())
    {
      hide CodecOk, InBudget, Filed, LocalKvStore.Valid, LocalKvStore.Contents;
      if w !in pools {
        return Refused(NotFound);
      }
      assert WorkerOk(w);
      r := pools[w].Get(key);
      pools[w].SameKeys();
      forall v | v in pools || v in workers ensures WorkerOk(v) {
        assert old(WorkerOk(v));
      }
    }

    /** Forget a worker and its bytes. */
    method ClearWorker(w: string) returns (u: Update)
      requires Valid()
      modifies this
      ensures Valid() && workers == old(workers) - {w} && pools == old(pools) - {w}
      ensures u.resident == [] && Diff(old(Resident(w)), map[], u, map[]) && AsWas(old(Resident(w)), u.removed)
    {
      hide CodecOk, InBudget, Filed, LocalKvStore.Valid, Diff, KeysOf, OneEach;
      pools := pools - {w};
      if w !in workers {
        NoDiff();
        return Update([], []);
      }
      assert old(WorkerOk(w));
      var entries := workers[w].entries;
      FiledKeys(entries, w);
      var removed := Residents(entries, entries.Keys);
      AllRemoved(entries, removed);
      workers := workers - {w};
      u := Update([], removed);
      forall v | v in pools || v in workers ensures WorkerOk(v) {
        assert old(WorkerOk(v));
      }
    }

    /** Remove every block of a worker with this content under this identity, bytes included. */
    method RemoveBlock(scope: Identity, w: string, blockHash: string) returns (u: Update)
      requires Valid()
      modifies this`workers, if w in pools then {pools[w]} else {}
      ensures Valid() && workers - {w} == old(workers) - {w} && workers.Keys == old(workers).Keys && Cache(w).clock == old(Cache(w)).clock
      ensures Cache(w).entries == old(Cache(w)).entries - Matching(old(Cache(w)).entries.Keys, scope, blockHash)
      ensures Resident(w) == old(Resident(w)) - Matching(old(Resident(w)).Keys, scope, blockHash)
      ensures forall k :: k in Resident(w) <==> k in old(Resident(w)) && !(k.blockHash == blockHash && k.scope == scope)
      ensures u.resident == [] && Diff(old(Resident(w)), map[], u, Resident(w)) && AsWas(old(Resident(w)), u.removed)
      ensures w in pools ==> pools[w].Contents() == old(pools[w].Contents()) - Matching(old(Resident(w)).Keys, scope, blockHash)
    {
      hide CodecOk, InBudget, Filed, LocalKvStore.Valid, LocalKvStore.Contents, KeysOf, Diff, AsWas, OneEach, Matching, Residencies;
      NoKeys();
      MatchingLeft(Cache(w).entries, scope, blockHash);
      if w !in workers {
        assert w in pools ==> WorkerOk(w);
        NoDiff();
        return Update([], []);
      }
      assert WorkerOk(w);
      var entries0 := workers[w].entries;
      var keys := Matching(entries0.Keys, scope, blockHash);
      var pool: LocalKvStore? := if w in pools then pools[w] else null;
      var entries, removed := RemoveKeys(config, pool, w, entries0, keys);
      workers := workers[w := WorkerCache(entries, workers[w].clock)];
      RemovedDiff(Residencies(entries0), removed, Residencies(entries));
      u := Update([], removed);
      forall v | v in pools || v in workers ensures WorkerOk(v) {
        if v != w { assert old(WorkerOk(v)); }
      }
    }
  }

  lemma FiledKeys(entries: Entries, w: string)
    requires Filed(entries, w)
    ensures forall k :: k in entries ==> entries[k].residency.key == k
  {
  }

  lemma AllRemoved(entries: Entries, removed: seq<Residency>)
    requires OneEach(removed) && KeysOf(removed) == entries.Keys * entries.Keys
    requires forall i :: 0 <= i < |removed| ==> removed[i].key in entries && entries[removed[i].key].residency == removed[i]
    ensures AsWas(Residencies(entries), removed) && Diff(Residencies(entries), map[], Update([], removed), map[])
  {
    hide KeysOf, OneEach, Diff;
    assert Residencies(entries) - KeysOf(removed) == map[];
    RemovedDiff(Residencies(entries), removed, map[]);
  }

  lemma {:induction false} NothingFiled(config: Config, w: string)
    ensures CacheOk(config, w, WorkerCache(map[], 0))
  {
    assert MetasOf(map[]) == map[];
  }

  function Matching(keys: set<BlockKey>, scope: Identity, blockHash: string): set<BlockKey> {
    set k | k in keys && k.blockHash == blockHash && scope.ReuseViolation(k.scope).None?
  }

  lemma MatchingLeft(entries: Entries, scope: Identity, blockHash: string)
    ensures var keys := Matching(entries.Keys, scope, blockHash);
      && Residencies(entries - keys) == Residencies(entries) - keys && Residencies(entries).Keys == entries.Keys && keys <= entries.Keys
      && forall k :: k in Residencies(entries) - keys <==> k in Residencies(entries) && !(k.blockHash == blockHash && k.scope == scope)
    ensures Residencies(map[]) == map[]
  {
  }

  /** Remove `keys` from a worker's entries and byte pool. */
  method RemoveKeys(config: Config, pool: LocalKvStore?, w: string, entries0: Entries, keys: set<BlockKey>)
      returns (entries: Entries, removed: seq<Residency>)
    requires keys <= entries0.Keys && Filed(entries0, w) && InBudget(config, entries0) && PoolOk(pool, entries0)
    modifies pool
    ensures entries == entries0 - keys && Filed(entries, w) && InBudget(config, entries) && PoolOk(pool, entries)
    ensures KeysOf(removed) == keys && OneEach(removed) && AsWas(Residencies(entries0), removed) && BytesKept(pool, keys, keys)
  {
    hide InBudget, Filed, LocalKvStore.Valid, LocalKvStore.Contents, KeysOf;
    NoKeys();
    entries, removed := entries0, [];
    var rest := keys;
    assert entries0 - {} == entries0;
    while rest != {}
      invariant rest <= keys && entries == entries0 - (keys - rest)
      invariant Filed(entries, w) && InBudget(config, entries) && PoolOk(pool, entries)
      invariant KeysOf(removed) == keys - rest && OneEach(removed) && AsWas(Residencies(entries0), removed)
      invariant pool != null ==> pool.Contents() == old(pool.Contents()) - (keys - rest) && pool.dram == old(pool.dram) - (keys - rest)
    {
      var k :| k in rest;
      FiledLess(config, entries, w, k);
      KeysSnoc(removed, entries[k].residency);
      OneMore(removed, entries[k].residency);
      assert entries - {k} == entries0 - (keys - (rest - {k}));
      removed := removed + [entries[k].residency];
      entries := entries - {k};
      if pool != null {
        var _, _ := pool.DropBlock(k);
      }
      rest := rest - {k};
    }
    assert keys - rest == keys;
  }

  lemma NoKeys()
    ensures KeysOf([]) == {}
  {
  }

  lemma FiledLess(config: Config, entries: Entries, w: string, k: BlockKey)
    requires Filed(entries, w) && InBudget(config, entries) && k in entries
    ensures Filed(entries - {k}, w) && InBudget(config, entries - {k}) && entries[k].residency.key == k
  {
    hide TierBytes;
    assert MetasOf(entries - {k}) == MetasOf(entries) - {k};
    TierBytesRemove(MetasOf(entries), Hbm, k);
    TierBytesRemove(MetasOf(entries), CpuDram, k);
    TierBytesRemove(MetasOf(entries), LocalSsd, k);
  }
}