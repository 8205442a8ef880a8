/**
  The encoded keys of the persistent residency indexes: zero-separated fields
  under a namespace tag, and ordered seek-and-stop over them.
 */
module IndexKeys {
  import opened Blocks
  import opened DataPlanes
  import opened Frames
  import opened MasterSpec
  import opened Segments
  import opened Words

  type Bytes = seq<Byte>

  const PRIMARY: Byte := 1
  const SECONDARY: Byte := 2

  /** How text becomes bytes: one to one, and zero-free for zero-free text. */
  ghost predicate Utf8Ok(utf8: string -> Bytes) {
    && (forall s, t :: utf8(s) == utf8(t) ==> s == t)
    && (forall s :: '\0' !in s ==> 0 !in utf8(s))
    && utf8("") == []
  }

  /** Text is encoded character by character, the zero character as a zero byte. */
  ghost predicate Utf8Joins(utf8: string -> Bytes) {
    utf8("\0") == [0] && forall s, t :: utf8(s + t) == utf8(s) + utf8(t)
  }

  // ---- fields and prefixes ----

  function Field(a: Bytes, rest: Bytes): Bytes {
    a + [0] + rest
  }

  /** An encoded prefix matches exactly when its field is equal and the rest matches. */
  lemma FieldPrefix(a: Bytes, x: Bytes, b: Bytes, y: Bytes)
    requires 0 !in a && 0 !in b
    ensures Field(b, y) <= Field(a, x) <==> a == b && y <= x
  {
    var p, k := Field(b, y), Field(a, x);
    if p <= k {
      assert p[|b|] == 0 && k[|a|] == 0 && forall i :: 0 <= i < |p| ==> p[i] == k[i];
      assert (forall i :: 0 <= i < |a| ==> k[i] == a[i]) && forall i :: 0 <= i < |b| ==> p[i] == b[i];
      assert |a| == |b|;
      assert a == k[..|a|] == p[..|a|] == b;
      assert x == k[|a| + 1..] && y == p[|b| + 1..];
    }
  }

  lemma FixedPrefix(u: Bytes, x: Bytes, v: Bytes, y: Bytes)
    requires |u| == |v|
    ensures v + y <= u + x <==> u == v && y <= x
  {
    var p, k := v + y, u + x;
    if p <= k {
      assert u == k[..|u|] == p[..|u|] == v;
      assert x == k[|u|..] && y == p[|u|..];
    }
  }

  // ---- the keys ----

  function ToBe(n: nat): (bs: Bytes)
    ensures |bs| == 4
  {
    var le := ToLe(n);
    [le[3], le[2], le[1], le[0]]
  }

  lemma ToBeInjective(m: nat, n: nat)
    requires m < WORD && n < WORD && ToBe(m) == ToBe(n)
    ensures m == n
  {
    hide ToLe, FromLe;
    var a, b := ToLe(m), ToLe(n);
    assert a[0] == ToBe(m)[3] && a[1] == ToBe(m)[2] && a[2] == ToBe(m)[1] && a[3] == ToBe(m)[0];
    assert a == b;
    LeRoundTrip(m);
    LeRoundTrip(n);
    SmallMod(m);
    SmallMod(n);
  }

  function TierName(t: Tier): string {
    match t
    case Hbm => "hbm"
    case RemoteHbm => "remote_hbm"
    case CpuDram => "cpu_dram"
    case LocalSsd => "local_ssd"
    case ObjectStore => "object_store"
  }

  lemma TierNames(t: Tier, u: Tier)
    ensures '\0' !in TierName(t)
    ensures TierName(t) == TierName(u) ==> t == u
  {
    assert TierName(t)[0] == TierName(u)[0] ==> t == u;
  }

  function AdapterText(s: Identity): string {
    match s.adapter case None => "" case Some(a) => a
  }

  function EncScope(utf8: string -> Bytes, s: Identity, rest: Bytes): Bytes {
    Field(utf8(s.model), Field(utf8(s.tokenizer), Field(utf8(AdapterText(s)), Field(utf8(s.tenant), rest))))
  }

  function EncBlock(utf8: string -> Bytes, k: BlockKey, rest: Bytes): Bytes {
    Field(utf8(k.prefixHash), Field(utf8(k.blockHash), ToBe(k.blockIndex) + ([0] + rest)))
  }

  function PrimaryKey(utf8: string -> Bytes, r: Residency): Bytes {
    [PRIMARY] + EncScope(utf8, r.key.scope, EncBlock(utf8, r.key, Field(utf8(r.worker), utf8(TierName(r.tier)))))
  }

  function SecondaryKey(utf8: string -> Bytes, r: Residency): Bytes {
    [SECONDARY] + EncScope(utf8, r.key.scope, Field(utf8(r.key.blockHash),
      Field(utf8(r.worker), Field(utf8(TierName(r.tier)), Field(utf8(r.key.prefixHash), ToBe(r.key.blockIndex))))))
  }

  function LocatePrefix(utf8: string -> Bytes, k: BlockKey): Bytes {
    [PRIMARY] + EncScope(utf8, k.scope, EncBlock(utf8, k, []))
  }

  function ScanPrefixOf(utf8: string -> Bytes, scope: Identity, prefixHash: string): Bytes {
    [PRIMARY] + EncScope(utf8, scope, Field(utf8(prefixHash), []))
  }

  function RemovePrefix(utf8: string -> Bytes, scope: Identity, worker: string, blockHash: string): Bytes {
    [SECONDARY] + EncScope(utf8, scope, Field(utf8(blockHash), Field(utf8(worker), [])))
  }

  // ---- when fields can be told apart ----

  ghost predicate ZeroFree(s: Identity) {
    '\0' !in s.model && '\0' !in s.tokenizer && '\0' !in AdapterText(s) && '\0' !in s.tenant
  }

  /** Zero-free text, and no empty adapter name (which encodes like no adapter). */
  ghost predicate ScopeClean(s: Identity) {
    ZeroFree(s) && s.adapter != Some("")
  }

  /** Equal but for an absent and an empty adapter name. */
  ghost predicate SameText(s: Identity, t: Identity) {
    s.model == t.model && s.tokenizer == t.tokenizer && AdapterText(s) == AdapterText(t) && s.tenant == t.tenant
  }

  ghost predicate KeyClean(k: BlockKey) {
    ScopeClean(k.scope) && '\0' !in k.prefixHash && '\0' !in k.blockHash && k.blockIndex < WORD
  }

  ghost predicate RecordClean(r: Residency) {
    KeyClean(r.key) && '\0' !in r.worker
  }

  lemma TextPrefix(utf8: string -> Bytes, a: string, x: Bytes, b: string, y: Bytes)
    requires Utf8Ok(utf8) && '\0' !in a && '\0' !in b
    ensures Field(utf8(b), y) <= Field(utf8(a), x) <==> a == b && y <= x
  {
    FieldPrefix(utf8(a), x, utf8(b), y);
  }

  /** Of zero-free scopes one's encoding is a prefix of another's exactly when their texts are equal and the rest matches. */
  lemma ScopeTextPrefix(utf8: string -> Bytes, s: Identity, x: Bytes, t: Identity, y: Bytes)
    requires Utf8Ok(utf8) && ZeroFree(s) && ZeroFree(t)
    ensures EncScope(utf8, t, y) <= EncScope(utf8, s, x) <==> SameText(s, t) && y <= x
  {
    hide Utf8Ok, Field, AdapterText;
    var a, b := AdapterText(s), AdapterText(t);
    var x1, y1 := Field(utf8(s.tenant), x), Field(utf8(t.tenant), y);
    var x2, y2 := Field(utf8(a), x1), Field(utf8(b), y1);
    var x3, y3 := Field(utf8(s.tokenizer), x2), Field(utf8(t.tokenizer), y2);
    TextPrefix(utf8, s.tenant, x, t.tenant, y);
    TextPrefix(utf8, a, x1, b, y1);
    TextPrefix(utf8, s.tokenizer, x2, t.tokenizer, y2);
    TextPrefix(utf8, s.model, x3, t.model, y3);
  }

  /** With no empty adapter name either, exactly when the scopes are equal and the rest matches. */
  lemma ScopePrefix(utf8: string -> Bytes, s: Identity, x: Bytes, t: Identity, y: Bytes)
    requires Utf8Ok(utf8) && ScopeClean(s) && ScopeClean(t)
    ensures EncScope(utf8, t, y) <= EncScope(utf8, s, x) <==> s == t && y <= x
  {
    hide Utf8Ok, EncScope;
    ScopeTextPrefix(utf8, s, x, t, y);
  }

  /** One has no adapter and the other an empty name, and they differ in nothing else. */
  ghost predicate AdapterBlurred(s: Identity, t: Identity) {
    (s.adapter == None && t == s.(adapter := Some(""))) || (t.adapter == None && s == t.(adapter := Some("")))
  }

  /** Zero-free scopes are told apart exactly when they do not blur an absent and an empty adapter name. */
  lemma ScopesApartIff(utf8: string -> Bytes, s: Identity, t: Identity, rest: Bytes)
    requires Utf8Ok(utf8) && ZeroFree(s) && ZeroFree(t)
    ensures (EncScope(utf8, s, rest) == EncScope(utf8, t, rest) <==> s == t) <==> !AdapterBlurred(s, t)
  {
    hide Utf8Ok, EncScope;
    ScopeTextPrefix(utf8, s, rest, t, rest);
    ScopeTextPrefix(utf8, t, rest, s, rest);
  }

  /**
    A scope is told apart from every other exactly when no field has a zero character in
    it and the adapter has a name: no other scope, with zeros or without, encodes alike.
   */
  lemma ScopeAloneIff(utf8: string -> Bytes, s: Identity, rest: Bytes)
    requires Utf8Ok(utf8) && Utf8Joins(utf8)
    ensures (forall t :: EncScope(utf8, t, rest) == EncScope(utf8, s, rest) ==> t == s) <==> ZeroFree(s) && AdapterText(s) != ""
  {
    hide Utf8Ok, Utf8Joins, EncScope, ZeroFree;
    if ZeroFree(s) && AdapterText(s) != "" {
      forall t | EncScope(utf8, t, rest) == EncScope(utf8, s, rest) ensures t == s {
        AlikeZeroFree(utf8, s, t, rest);
        ScopeTextPrefix(utf8, s, rest, t, rest);
      }
    } else {
      var t := Lookalike(utf8, s, rest);
    }
  }

  /** Text has a zero byte exactly when it has a zero character. */
  lemma ZeroByteIff(utf8: string -> Bytes, x: string)
    requires Utf8Ok(utf8) && Utf8Joins(utf8)
    ensures Zeros(utf8(x)) == 0 <==> '\0' !in x
  {
    if '\0' in x {
      var a, b := AtZero(x);
      assert utf8(x) == utf8(a) + [0] + utf8(b);
    }
  }

  lemma AtZero(x: string) returns (a: string, b: string)
    requires '\0' in x
    ensures x == a + "\0" + b
  {
    var i :| 0 <= i < |x| && x[i] == '\0';
    a, b := x[..i], x[i + 1..];
  }

  /** What encodes like a zero-free scope is zero-free: it has no more zero bytes. */
  lemma AlikeZeroFree(utf8: string -> Bytes, s: Identity, t: Identity, rest: Bytes)
    requires Utf8Ok(utf8) && Utf8Joins(utf8) && ZeroFree(s) && EncScope(utf8, t, rest) == EncScope(utf8, s, rest)
    ensures ZeroFree(t)
  {
    hide Utf8Ok, Utf8Joins, EncScope, AdapterText, Zeros;
    ScopeZeros(utf8, s, rest);
    ScopeZeros(utf8, t, rest);
    FieldsZeroFree(utf8, s);
    FieldsZeroFree(utf8, t);
  }

  lemma FieldsZeroFree(utf8: string -> Bytes, s: Identity)
    requires Utf8Ok(utf8) && Utf8Joins(utf8)
    ensures ZeroFree(s) <==> Zeros(utf8(s.model)) + Zeros(utf8(s.tokenizer)) + Zeros(utf8(AdapterText(s))) + Zeros(utf8(s.tenant)) == 0
  {
    hide Utf8Ok, Utf8Joins, AdapterText, Zeros;
    ZeroByteIff(utf8, s.model);
    ZeroByteIff(utf8, s.tokenizer);
    ZeroByteIff(utf8, AdapterText(s));
    ZeroByteIff(utf8, s.tenant);
  }

  ghost function Zeros(bytes: Bytes): nat {
    multiset(bytes)[0]
  }

  lemma FieldZeros(a: Bytes, rest: Bytes)
    ensures Zeros(Field(a, rest)) == Zeros(a) + 1 + Zeros(rest)
  {
    assert Field(a, rest) == a + ([0] + rest);
  }

  lemma ScopeZeros(utf8: string -> Bytes, s: Identity, rest: Bytes)
    ensures Zeros(EncScope(utf8, s, rest)) ==
      Zeros(utf8(s.model)) + Zeros(utf8(s.tokenizer)) + Zeros(utf8(AdapterText(s))) + Zeros(utf8(s.tenant)) + 4 + Zeros(rest)
  {
    hide Field, Zeros, AdapterText;
    var d := Field(utf8(s.tenant), rest);
    var c := Field(utf8(AdapterText(s)), d);
    var b := Field(utf8(s.tokenizer), c);
    FieldZeros(utf8(s.tenant), rest);
    FieldZeros(utf8(AdapterText(s)), d);
    FieldZeros(utf8(s.tokenizer), c);
    FieldZeros(utf8(s.model), b);
  }

  /** A zero in one of two adjoining fields moves their border: they are read either way. */
  lemma BorderMoves(utf8: string -> Bytes, a: string, b: string, c: string, rest: Bytes)
    requires Utf8Joins(utf8)
    ensures Field(utf8(a + "\0" + b), Field(utf8(c), rest)) == Field(utf8(a), Field(utf8(b + "\0" + c), rest))
  {
    assert utf8(a + "\0" + b) == utf8(a) + [0] + utf8(b) && utf8(b + "\0" + c) == utf8(b) + [0] + utf8(c);
  }

  /** Another scope that encodes alike, for any with a zero in some field or without an adapter name. */
  lemma Lookalike(utf8: string -> Bytes, s: Identity, rest: Bytes) returns (t: Identity)
    requires Utf8Joins(utf8) && !(ZeroFree(s) && AdapterText(s) != "")
    ensures t != s && EncScope(utf8, t, rest) == EncScope(utf8, s, rest)
  {
    hide Utf8Joins, Field;
    var d := Field(utf8(s.tenant), rest);
    if AdapterText(s) == "" {
      t := s.(adapter := if s.adapter == None then Some("") else None);
    } else if '\0' in s.model {
      var a, b := AtZero(s.model);
      t := s.(model := a, tokenizer := b + "\0" + s.tokenizer);
      BorderMoves(utf8, a, b, s.tokenizer, Field(utf8(AdapterText(s)), d));
    } else if '\0' in s.tokenizer {
      var a, b := AtZero(s.tokenizer);
      t := s.(model := s.model + "\0" + a, tokenizer := b);
      BorderMoves(utf8, s.model, a, b, Field(utf8(AdapterText(s)), d));
    } else if '\0' in AdapterText(s) {
      var a, b := AtZero(AdapterText(s));
      t := s.(tokenizer := s.tokenizer + "\0" + a, adapter := Some(b));
      BorderMoves(utf8, s.tokenizer, a, b, d);
    } else {
      var a, b := AtZero(s.tenant);
      t := s.(adapter := Some(AdapterText(s) + "\0" + a), tenant := b);
      BorderMoves(utf8, AdapterText(s), a, b, rest);
    }
  }

  lemma BlockPrefix(utf8: string -> Bytes, k: BlockKey, x: Bytes, l: BlockKey, y: Bytes)
    requires Utf8Ok(utf8) && KeyClean(k) && KeyClean(l)
    ensures EncBlock(utf8, l, y) <= EncBlock(utf8, k, x) <==>
      k.prefixHash == l.prefixHash && k.blockHash == l.blockHash && k.blockIndex == l.blockIndex && y <= x
  {
    hide Utf8Ok, Field, ToBe, ScopeClean;
    var x1, y1 := ToBe(k.blockIndex) + ([0] + x), ToBe(l.blockIndex) + ([0] + y);
    TextPrefix(utf8, k.blockHash, x1, l.blockHash, y1);
    TextPrefix(utf8, k.prefixHash, Field(utf8(k.blockHash), x1), l.prefixHash, Field(utf8(l.blockHash), y1));
    FixedPrefix(ToBe(k.blockIndex), [0] + x, ToBe(l.blockIndex), [0] + y);
    FixedPrefix([0], x, [0], y);
    if ToBe(k.blockIndex) == ToBe(l.blockIndex) { ToBeInjective(k.blockIndex, l.blockIndex); }
  }

  /** The same block, up to the token count that keys do not carry. */
  ghost predicate SameBlock(k: BlockKey, l: BlockKey) {
    k.scope == l.scope && k.prefixHash == l.prefixHash && k.blockHash == l.blockHash && k.blockIndex == l.blockIndex
  }

  ghost predicate SameSlot(r: Residency, q: Residency) {
    SameBlock(r.key, q.key) && r.worker == q.worker && r.tier == q.tier
  }

  lemma TagPrefix(t: Byte, x: Bytes, u: Byte, y: Bytes)
    ensures [u] + y <= [t] + x <==> t == u && y <= x
  {
    FixedPrefix([t], x, [u], y);
    if t == u { assert [t] == [u]; }
    if [t] == [u] { assert [t][0] == [u][0]; }
  }

  /** The locate prefix matches exactly the records of the block. */
  lemma LocateMatches(utf8: string -> Bytes, r: Residency, k: BlockKey)
    requires Utf8Ok(utf8) && RecordClean(r) && KeyClean(k)
    ensures LocatePrefix(utf8, k) <= PrimaryKey(utf8, r) <==> SameBlock(r.key, k)
  {
    hide Utf8Ok, EncScope, EncBlock, ScopeClean;
    var x, y := EncBlock(utf8, r.key, Field(utf8(r.worker), utf8(TierName(r.tier)))), EncBlock(utf8, k, []);
    BlockPrefix(utf8, r.key, Field(utf8(r.worker), utf8(TierName(r.tier))), k, []);
    ScopePrefix(utf8, r.key.scope, x, k.scope, y);
    TagPrefix(PRIMARY, EncScope(utf8, r.key.scope, x), PRIMARY, EncScope(utf8, k.scope, y));
  }

  /** The scan prefix matches exactly the records of the scope under the prefix hash. */
  lemma ScanMatches(utf8: string -> Bytes, r: Residency, scope: Identity, prefixHash: string)
    requires Utf8Ok(utf8) && RecordClean(r) && ScopeClean(scope) && '\0' !in prefixHash
    ensures ScanPrefixOf(utf8, scope, prefixHash) <= PrimaryKey(utf8, r) <==> r.key.scope == scope && r.key.prefixHash == prefixHash
  {
    hide Utf8Ok, EncScope, Field, ScopeClean;
    var tail := Field(utf8(r.key.blockHash), ToBe(r.key.blockIndex) + ([0] + Field(utf8(r.worker), utf8(TierName(r.tier)))));
    var x, y := Field(utf8(r.key.prefixHash), tail), Field(utf8(prefixHash), []);
    TextPrefix(utf8, r.key.prefixHash, tail, prefixHash, []);
    ScopePrefix(utf8, r.key.scope, x, scope, y);
    TagPrefix(PRIMARY, EncScope(utf8, r.key.scope, x), PRIMARY, EncScope(utf8, scope, y));
  }

  /** The removal prefix matches exactly the records of the content on the worker within the scope. */
  lemma RemoveMatches(utf8: string -> Bytes, r: Residency, scope: Identity, worker: string, blockHash: string)
    requires Utf8Ok(utf8) && RecordClean(r) && ScopeClean(scope) && '\0' !in worker && '\0' !in blockHash
    ensures RemovePrefix(utf8, scope, worker, blockHash) <= SecondaryKey(utf8, r) <==>
      r.key.scope == scope && r.key.blockHash == blockHash && r.worker == worker
  {
    hide Utf8Ok, EncScope, Field, ScopeClean;
    var tail := Field(utf8(TierName(r.tier)), Field(utf8(r.key.prefixHash), ToBe(r.key.blockIndex)));
    var x1, y1 := Field(utf8(r.worker), tail), Field(utf8(worker), []);
    var x, y := Field(utf8(r.key.blockHash), x1), Field(utf8(blockHash), y1);
    TextPrefix(utf8, r.worker, tail, worker, []);
    TextPrefix(utf8, r.key.blockHash, x1, blockHash, y1);
    ScopePrefix(utf8, r.key.scope, x, scope, y);
    TagPrefix(SECONDARY, EncScope(utf8, r.key.scope, x), SECONDARY, EncScope(utf8, scope, y));
  }

  /** Records of blurred scopes share their entries: a put of one overwrites the other. */
  lemma BlurredShares(utf8: string -> Bytes, r: Residency)
    requires r.key.scope.adapter == None
    ensures var q := r.(key := r.key.(scope := r.key.scope.(adapter := Some(""))));
      !SameSlot(r, q) && PrimaryKey(utf8, r) == PrimaryKey(utf8, q) && SecondaryKey(utf8, r) == SecondaryKey(utf8, q)
  {
    hide Field, ToBe, TierName;
    var t := r.key.scope.(adapter := Some(""));
    forall rest: Bytes ensures EncScope(utf8, r.key.scope, rest) == EncScope(utf8, t, rest) {
    }
    hide EncScope;
  }

  /** Primary keys tell slots apart. */
  lemma PrimaryInjective(utf8: string -> Bytes, r: Residency, q: Residency)
    requires Utf8Ok(utf8) && RecordClean(r) && RecordClean(q) && PrimaryKey(utf8, r) == PrimaryKey(utf8, q)
    ensures SameSlot(r, q)
  {
    PrimaryPart(utf8, r, q);
    PrimaryPart(utf8, q, r);
    TierNames(r.tier, q.tier);
  }

  lemma PrimaryPart(utf8: string -> Bytes, r: Residency, q: Residency)
    requires Utf8Ok(utf8) && RecordClean(r) && RecordClean(q) && PrimaryKey(utf8, q) <= PrimaryKey(utf8, r)
    ensures SameBlock(r.key, q.key) && r.worker == q.worker && utf8(TierName(q.tier)) <= utf8(TierName(r.tier))
  {
    hide Utf8Ok, EncScope, EncBlock, Field, ScopeClean;
    var a, b := Field(utf8(r.worker), utf8(TierName(r.tier))), Field(utf8(q.worker), utf8(TierName(q.tier)));
    var x, y := EncBlock(utf8, r.key, a), EncBlock(utf8, q.key, b);
    TagPrefix(PRIMARY, EncScope(utf8, r.key.scope, x), PRIMARY, EncScope(utf8, q.key.scope, y));
    ScopePrefix(utf8, r.key.scope, x, q.key.scope, y);
    BlockPrefix(utf8, r.key, a, q.key, b);
    TextPrefix(utf8, r.worker, utf8(TierName(r.tier)), q.worker, utf8(TierName(q.tier)));
  }

  /** So do secondary keys. */
  lemma SecondaryInjective(utf8: string -> Bytes, r: Residency, q: Residency)
    requires Utf8Ok(utf8) && RecordClean(r) && RecordClean(q) && SecondaryKey(utf8, r) == SecondaryKey(utf8, q)
    ensures SameSlot(r, q)
  {
    TierNames(r.tier, q.tier);
    TierNames(q.tier, r.tier);
    hide Utf8Ok, EncScope, Field, ScopeClean, TierName, ToBe;
    var a3, b3 := ToBe(r.key.blockIndex), ToBe(q.key.blockIndex);
    var a2, b2 := Field(utf8(r.key.prefixHash), a3), Field(utf8(q.key.prefixHash), b3);
    var a1, b1 := Field(utf8(TierName(r.tier)), a2), Field(utf8(TierName(q.tier)), b2);
    var a0, b0 := Field(utf8(r.worker), a1), Field(utf8(q.worker), b1);
    var x, y := Field(utf8(r.key.blockHash), a0), Field(utf8(q.key.blockHash), b0);
    TagPrefix(SECONDARY, EncScope(utf8, r.key.scope, x), SECONDARY, EncScope(utf8, q.key.scope, y));
    ScopePrefix(utf8, r.key.scope, x, q.key.scope, y);
    TextPrefix(utf8, r.key.blockHash, a0, q.key.blockHash, b0);
    TextPrefix(utf8, r.worker, a1, q.worker, b1);
    TextPrefix(utf8, TierName(r.tier), a2, TierName(q.tier), b2);
    TextPrefix(utf8, r.key.prefixHash, a3, q.key.prefixHash, b3);
    ToBeInjective(r.key.blockIndex, q.key.blockIndex);
  }

  /** Namespaces never meet. */
  lemma NamespacesApart(utf8: string -> Bytes, r: Residency, q: Residency)
    ensures PrimaryKey(utf8, r) != SecondaryKey(utf8, q)
    ensures [PRIMARY] <= PrimaryKey(utf8, r) && !([PRIMARY] <= SecondaryKey(utf8, q))
    ensures [SECONDARY] <= SecondaryKey(utf8, q) && !([SECONDARY] <= PrimaryKey(utf8, r))
  {
    assert PrimaryKey(utf8, r)[0] == PRIMARY && SecondaryKey(utf8, q)[0] == SECONDARY;
  }

  lemma PrefixTags(utf8: string -> Bytes, k: BlockKey, scope: Identity, text: string, worker: string)
    ensures [PRIMARY] <= LocatePrefix(utf8, k) && [PRIMARY] <= ScanPrefixOf(utf8, scope, text)
    ensures [SECONDARY] <= RemovePrefix(utf8, scope, worker, text)
  {
  }

  // ---- ordered seek-and-stop ----

  /** Byte strings in dictionary order. */
  predicate Below(a: Bytes, b: Bytes) {
    a == [] || (b != [] && (a[0] < b[0] || (a[0] == b[0] && Below(a[1..], b[1..]))))
  }

  lemma {:induction false} BelowTotal(a: Bytes, b: Bytes)
    ensures Below(a, b) || Below(b, a)
  {
    if a != [] && b != [] { BelowTotal(a[1..], b[1..]); }
  }

  lemma {:induction false} BelowTransitive(a: Bytes, b: Bytes, c: Bytes)
    requires Below(a, b) && Below(b, c)
    ensures Below(a, c)
  {
    if a != [] && a[0] == b[0] == c[0] { BelowTransitive(a[1..], b[1..], c[1..]); }
  }

  lemma {:induction false} PrefixBelow(p: Bytes, k: Bytes)
    requires p <= k
    ensures Below(p, k)
  {
    if p != [] { PrefixBelow(p[1..], k[1..]); }
  }

  /** Keys with a common prefix are adjacent: nothing between the prefix and one of them lacks it. */
  lemma {:induction false} Adjacent(p: Bytes, k: Bytes, m: Bytes)
    requires Below(p, k) && Below(k, m) && p <= m
    ensures p <= k
  {
    if p != [] {
      assert m[0] == p[0];
      assert k[0] == p[0];
      Adjacent(p[1..], k[1..], m[1..]);
      assert k == [k[0]] + k[1..] && p == [p[0]] + p[1..];
    }
  }
}
