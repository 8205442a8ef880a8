/**
  KV blocks: their keys, the tiers they live in and the bytes a tier holds.
 */
module Blocks {
  import opened MasterSpec
  import opened Segments

  datatype BlockKey = BlockKey(scope: Identity, prefixHash: string, blockHash: string, blockIndex: nat, tokenCount: nat)

  datatype Tier = Hbm | RemoteHbm | CpuDram | LocalSsd | ObjectStore

  datatype BlockMeta = BlockMeta(tier: Tier, bytes: nat, lastAccess: nat)

  type Metas = map<BlockKey, BlockMeta>

  /** The bytes of the blocks in a tier. */
  ghost function TierBytes(meta: Metas, tier: Tier): nat {
    if meta == map[] then 0
    else
      var k :| k in meta;
      Share(meta[k], tier) + TierBytes(meta - {k}, tier)
  }

  ghost function Share(m: BlockMeta, tier: Tier): nat {
    if m.tier == tier then m.bytes else 0
  }

  lemma {:induction false} TierBytesRemove(meta: Metas, tier: Tier, k: BlockKey)
    requires k in meta
    ensures TierBytes(meta, tier) == Share(meta[k], tier) + TierBytes(meta - {k}, tier)
    decreases |meta|
  {
    hide Share;
    var m :| m in meta && TierBytes(meta, tier) == Share(meta[m], tier) + TierBytes(meta - {m}, tier);
    if m != k {
      TierBytesRemove(meta - {m}, tier, k);
      TierBytesRemove(meta - {k}, tier, m);
      assert meta - {m} - {k} == meta - {k} - {m};
    }
  }

  /** Entering or replacing one block. */
  lemma {:induction false} TierBytesSet(meta: Metas, tier: Tier, k: BlockKey, m: BlockMeta)
    ensures TierBytes(meta[k := m], tier) == TierBytes(meta - {k}, tier) + Share(m, tier)
    ensures k !in meta ==> meta - {k} == meta
  {
    hide TierBytes, Share;
    TierBytesRemove(meta[k := m], tier, k);
    assert meta[k := m] - {k} == meta - {k};
  }

  ghost predicate NoneIn(meta: Metas, tier: Tier) {
    forall k :: k in meta ==> meta[k].tier != tier
  }

  lemma {:induction false} NoneInNoBytes(meta: Metas, tier: Tier)
    requires NoneIn(meta, tier)
    ensures TierBytes(meta, tier) == 0
    decreases |meta|
  {
    if meta != map[] {
      var k :| k in meta;
      TierBytesRemove(meta, tier, k);
      NoneInNoBytes(meta - {k}, tier);
    }
  }

  /** A block of the tier used no later than any other of it. */
  ghost predicate Coldest(meta: Metas, tier: Tier, k: BlockKey) {
    k in meta && meta[k].tier == tier && forall l :: l in meta && meta[l].tier == tier ==> meta[k].lastAccess <= meta[l].lastAccess
  }

  /** The least recently used block of a tier. */
  method ColdestIn(meta: Metas, tier: Tier) returns (r: Option<BlockKey>)
    ensures r.None? <==> NoneIn(meta, tier)
    ensures r.Some? ==> Coldest(meta, tier, r.value)
  {
    r := None;
    var rest := meta.Keys;
    while rest != {}
      invariant rest <= meta.Keys
      invariant r.None? ==> forall k :: k in meta && k !in rest ==> meta[k].tier != tier
      invariant r.Some? ==> r.value in meta && meta[r.value].tier == tier
      invariant r.Some? ==> forall k :: k in meta && k !in rest && meta[k].tier == tier ==> meta[r.value].lastAccess <= meta[k].lastAccess
    {
      var k :| k in rest;
      if meta[k].tier == tier && (r.None? || meta[k].lastAccess < meta[r.value].lastAccess) {
        r := Some(k);
      }
      rest := rest - {k};
    }
  }

  // ---- order of use ----

  /** When a key was last used, counted from one; zero if it never was. */
  ghost function LastUse(uses: seq<BlockKey>, k: BlockKey): (n: nat)
    ensures n <= |uses|
  {
    if uses == [] then 0
    else if uses[|uses| - 1] == k then |uses|
    else LastUse(uses[..|uses| - 1], k)
  }

  /** Every block is stamped with its last use. */
  ghost predicate Timed(meta: Metas, uses: seq<BlockKey>) {
    forall k :: k in meta ==> meta[k].lastAccess == LastUse(uses, k)
  }

  /** A block just used, as it now is, is later used than every other. */
  ghost predicate Latest(meta: Metas, k: BlockKey) {
    k in meta && forall l :: l in meta && l != k ==> meta[l].lastAccess < meta[k].lastAccess
  }

  lemma {:induction false} UsedNow(meta: Metas, uses: seq<BlockKey>, k: BlockKey, m: BlockMeta)
    requires Timed(meta, uses) && m.lastAccess == |uses| + 1
    ensures Timed(meta[k := m], uses + [k]) && Latest(meta[k := m], k)
  {
    var now := meta[k := m];
    assert (uses + [k])[..|uses|] == uses;
    forall l | l in now ensures now[l].lastAccess == LastUse(uses + [k], l) && (l != k ==> now[l].lastAccess < m.lastAccess) {
      if l != k { assert LastUse(uses + [k], l) == LastUse(uses, l); }
    }
  }

  lemma TimedLess(meta: Metas, uses: seq<BlockKey>, k: BlockKey)
    requires Timed(meta, uses)
    ensures Timed(meta - {k}, uses)
  {
    hide LastUse;
  }

  lemma TimedMoved(meta: Metas, uses: seq<BlockKey>, k: BlockKey, m: BlockMeta)
    requires Timed(meta, uses) && k in meta && m.lastAccess == meta[k].lastAccess
    ensures Timed(meta[k := m], uses)
  {
    hide LastUse;
  }

  lemma NeverUsed(meta: Metas)
    ensures Timed(meta, []) <==> forall k :: k in meta ==> meta[k].lastAccess == 0
  {
    if forall k :: k in meta ==> meta[k].lastAccess == 0 {
      forall k | k in meta ensures meta[k].lastAccess == LastUse([], k) {
      }
    }
    if Timed(meta, []) {
      forall k | k in meta ensures meta[k].lastAccess == 0 {
        assert LastUse([], k) == 0;
      }
    }
  }

  ghost function SetOf(keys: seq<BlockKey>): set<BlockKey> {
    set k | k in keys
  }

  // ---- draining a tier ----

  /** Each block to go was the coldest of those left, and they were still over the budget. */
  ghost predicate Draining(meta: Metas, tier: Tier, budget: nat, gone: seq<BlockKey>) {
    forall i :: 0 <= i < |gone| ==> TierBytes(meta - SetOf(gone[..i]), tier) > budget && Coldest(meta - SetOf(gone[..i]), tier, gone[i])
  }

  /** The blocks a tier gives up to fit its budget: coldest first, and no more than it takes. */
  ghost predicate Drained(meta: Metas, tier: Tier, budget: nat, gone: seq<BlockKey>) {
    Draining(meta, tier, budget, gone) && TierBytes(meta - SetOf(gone), tier) <= budget
  }

  lemma {:induction false} DrainMore(meta: Metas, tier: Tier, budget: nat, gone: seq<BlockKey>, k: BlockKey)
    requires Draining(meta, tier, budget, gone)
    requires TierBytes(meta - SetOf(gone), tier) > budget && Coldest(meta - SetOf(gone), tier, k)
    ensures Draining(meta, tier, budget, gone + [k]) && SetOf(gone + [k]) == SetOf(gone) + {k} && k in meta && k !in SetOf(gone)
    ensures TierBytes(meta - SetOf(gone), tier) == meta[k].bytes + TierBytes(meta - SetOf(gone + [k]), tier)
  {
    hide TierBytes, Coldest, Draining;
    DrainingMore(meta, tier, budget, gone, k);
    var more := gone + [k];
    assert SetOf(more) == SetOf(gone) + {k};
    assert k in meta - SetOf(gone) && (meta - SetOf(gone))[k].tier == tier by { ColdestHere(meta - SetOf(gone), tier, k); }
    TierBytesRemove(meta - SetOf(gone), tier, k);
    assert meta - SetOf(gone) - {k} == meta - SetOf(more);
  }

  lemma {:induction false} DrainingMore(meta: Metas, tier: Tier, budget: nat, gone: seq<BlockKey>, k: BlockKey)
    requires Draining(meta, tier, budget, gone)
    requires TierBytes(meta - SetOf(gone), tier) > budget && Coldest(meta - SetOf(gone), tier, k)
    ensures Draining(meta, tier, budget, gone + [k])
  {
    hide TierBytes, Coldest, SetOf;
    var more := gone + [k];
    forall i | 0 <= i < |more| ensures TierBytes(meta - SetOf(more[..i]), tier) > budget && Coldest(meta - SetOf(more[..i]), tier, more[i]) {
      if i < |gone| { assert more[..i] == gone[..i]; } else { assert more[..i] == gone; }
    }
  }

  lemma ColdestHere(meta: Metas, tier: Tier, k: BlockKey)
    requires Coldest(meta, tier, k)
    ensures k in meta && meta[k].tier == tier
  {
  }

  /** The latest used block of a tier goes exactly when it alone is over the budget. */
  lemma {:induction false} LatestGoesIff(meta: Metas, tier: Tier, budget: nat, gone: seq<BlockKey>, k: BlockKey)
    requires Drained(meta, tier, budget, gone) && Latest(meta, k) && meta[k].tier == tier
    ensures k in gone <==> meta[k].bytes > budget
  {
    if k in gone {
      var i :| 0 <= i < |gone| && gone[i] == k;
      var left := meta - SetOf(gone[..i]);
      TierBytesRemove(left, tier, k);
      NoneInNoBytes(left - {k}, tier);
    } else {
      TierBytesRemove(meta - SetOf(gone), tier, k);
    }
  }

  /** Only blocks of the tier go. */
  lemma DrainedHere(meta: Metas, tier: Tier, budget: nat, gone: seq<BlockKey>, k: BlockKey)
    requires Draining(meta, tier, budget, gone) && k in gone
    ensures k in meta && meta[k].tier == tier
  {
    var i :| 0 <= i < |gone| && gone[i] == k;
    ColdestHere(meta - SetOf(gone[..i]), tier, k);
  }

  // ---- reverse maps ----

  /** Blocks by a tag of their keys: exactly the given ones, and no empty entry. */
  ghost predicate ReverseOk<H(!new)>(rev: map<H, set<BlockKey>>, keys: set<BlockKey>, tag: BlockKey -> H) {
    && (forall h, k :: h in rev && k in rev[h] ==> k in keys && tag(k) == h)
    && (forall k :: k in keys ==> tag(k) in rev && k in rev[tag(k)])
    && (forall h :: h in rev ==> rev[h] != {})
  }

  function Without<H(==)>(rev: map<H, set<BlockKey>>, k: BlockKey, tag: BlockKey -> H): map<H, set<BlockKey>> {
    if tag(k) !in rev then rev
    else if rev[tag(k)] - {k} == {} then rev - {tag(k)}
    else rev[tag(k) := rev[tag(k)] - {k}]
  }

  function With<H(==)>(rev: map<H, set<BlockKey>>, k: BlockKey, tag: BlockKey -> H): map<H, set<BlockKey>> {
    rev[tag(k) := (if tag(k) in rev then rev[tag(k)] else {}) + {k}]
  }

  lemma ReverseRemoved<H(!new)>(rev: map<H, set<BlockKey>>, keys: set<BlockKey>, k: BlockKey, tag: BlockKey -> H)
    requires ReverseOk(rev, keys, tag)
    ensures ReverseOk(Without(rev, k, tag), keys - {k}, tag)
  {
  }

  lemma ReverseAdded<H(!new)>(rev: map<H, set<BlockKey>>, keys: set<BlockKey>, k: BlockKey, tag: BlockKey -> H)
    requires ReverseOk(rev, keys, tag)
    ensures ReverseOk(With(rev, k, tag), keys + {k}, tag)
  {
  }

  function HashOf(k: BlockKey): string {
    k.blockHash
  }

  function ScopedHashOf(k: BlockKey): (Identity, string) {
    (k.scope, k.blockHash)
  }
}
