/**
  Eviction: which objects may go, in which order, and when a pass stops.
 */
module Eviction {
  import opened Fleets
  import opened MasterSpec
  import opened Segments
  import opened Sequences

  /** An object eviction may take: not hard-pinned and not leased. */
  predicate Evictable(o: ObjectMeta, clock: nat) {
    !o.hardPinned && o.leaseUntil <= clock
  }

  /** The eviction order: unpinned before soft-pinned, then least recently used. */
  predicate NoWarmer(o: ObjectMeta, p: ObjectMeta) {
    if o.softPinned == p.softPinned then o.lastAccess <= p.lastAccess else p.softPinned
  }

  /** A path of logged removals, each of an evictable object. */
  ghost predicate Evictions(s: State, cs: seq<Change>)
    decreases |cs|
  {
    cs != [] ==>
      && cs[0].Remove? && cs[0].key in s.objects && Evictable(s.objects[cs[0].key], s.clock)
      && Evictions(Apply(s, cs[0]), cs[1..])
  }

  lemma {:induction false} EvictionsPath(s: State, cs: seq<Change>)
    requires Evictions(s, cs)
    ensures Path(s, cs)
    ensures var t := Run(s, cs);
      && t.clock == s.clock && t.leaseTtl == s.leaseTtl && t.nextId == s.nextId && SameSegments(s.fleet, t.fleet)
      && t.objects.Keys <= s.objects.Keys && (forall k :: k in t.objects ==> t.objects[k] == s.objects[k])
      && (forall k :: k in s.objects && k !in t.objects ==> Evictable(s.objects[k], s.clock) && Remove(k) in cs)
    decreases |cs|
  {
    if cs != [] {
      var s1 := Apply(s, cs[0]);
      ReleaseSegments(s.fleet, BuffersOf(s.objects[cs[0].key].replicas));
      EvictionsPath(s1, cs[1..]);
      var t := Run(s1, cs[1..]);
      forall k | k in s.objects && k !in t.objects ensures Evictable(s.objects[k], s.clock) && Remove(k) in cs {
        if k == cs[0].key { assert cs[0] == Remove(k); } else { assert k in s1.objects; assert Remove(k) in cs[1..]; }
      }
    }
  }

  lemma {:induction false} EvictionsSnoc(s: State, cs: seq<Change>, k: string)
    requires Evictions(s, cs) && Path(s, cs)
    requires k in Run(s, cs).objects && Evictable(Run(s, cs).objects[k], Run(s, cs).clock)
    ensures Evictions(s, cs + [Remove(k)]) && Path(s, cs + [Remove(k)])
    ensures Run(s, cs + [Remove(k)]) == Apply(Run(s, cs), Remove(k))
    decreases |cs|
  {
    if cs == [] {
      assert cs + [Remove(k)] == [Remove(k)];
      assert Path(Apply(s, Remove(k)), [Remove(k)][1..]);
    } else {
      EvictionsSnoc(Apply(s, cs[0]), cs[1..], k);
      assert (cs + [Remove(k)])[1..] == cs[1..] + [Remove(k)];
    }
  }

  lemma {:induction false} EvictionsConcat(s: State, cs: seq<Change>, ds: seq<Change>)
    requires Evictions(s, cs) && Path(s, cs) && Evictions(Run(s, cs), ds)
    ensures Path(Run(s, cs), ds)
    ensures Evictions(s, cs + ds) && Path(s, cs + ds) && Run(s, cs + ds) == Run(Run(s, cs), ds)
    decreases |cs|
  {
    if cs == [] {
      assert cs + ds == ds;
      EvictionsPath(s, ds);
    } else {
      EvictionsConcat(Apply(s, cs[0]), cs[1..], ds);
      assert (cs + ds)[1..] == cs[1..] + ds;
    }
  }

  /** Whatever went was no warmer than any evictable object that stayed. */
  ghost predicate ColdestGone(s: State, t: State) {
    forall k, l :: k in s.objects && k !in t.objects && l in t.objects && Evictable(t.objects[l], t.clock) ==> NoWarmer(s.objects[k], t.objects[l])
  }

  /** In plain terms: no soft-pinned object went while an unpinned one stayed, and of equally pinned ones no later used one. */
  lemma ColdestMeans(s: State, t: State)
    ensures ColdestGone(s, t) <==>
      forall k, l :: k in s.objects && k !in t.objects && l in t.objects && !t.objects[l].hardPinned && t.objects[l].leaseUntil <= t.clock ==>
        && (s.objects[k].softPinned ==> t.objects[l].softPinned)
        && (s.objects[k].softPinned == t.objects[l].softPinned ==> s.objects[k].lastAccess <= t.objects[l].lastAccess)
  {
  }

  /** Two passes in a row also leave no colder evictable object behind. */
  lemma {:induction false} ColdestTwice(s: State, cs: seq<Change>, ds: seq<Change>)
    requires Evictions(s, cs) && Path(s, cs) && Evictions(Run(s, cs), ds) && Path(Run(s, cs), ds)
    requires ColdestGone(s, Run(s, cs)) && ColdestGone(Run(s, cs), Run(Run(s, cs), ds))
    ensures ColdestGone(s, Run(Run(s, cs), ds))
  {
    hide Evictions, NoWarmer;
    EvictionsPath(s, cs);
    EvictionsPath(Run(s, cs), ds);
  }

  ghost predicate NoneEvictable(s: State) {
    forall k :: k in s.objects ==> !Evictable(s.objects[k], s.clock)
  }

  /** A pass of evictions, coldest first, that ends at `limit` allocated bytes or with nobody left, and no sooner gone past it. */
  ghost predicate EvictedTo(s: State, cs: seq<Change>, limit: int) {
    && Evictions(s, cs) && Path(s, cs)
    && ColdestGone(s, Run(s, cs))
    && (AllocatedSum(Run(s, cs).fleet) <= limit || NoneEvictable(Run(s, cs)))
    && (forall i :: 0 <= i < |cs| ==> Path(s, cs[..i]) && AllocatedSum(Run(s, cs[..i]).fleet) > limit)
  }

  /** Objects under an active lease are as they were. */
  ghost predicate LeasesKept(s: State, t: State) {
    forall k :: k in s.objects && s.objects[k].leaseUntil > s.clock ==> k in t.objects && t.objects[k] == s.objects[k]
  }

  /** Hard-pinned objects other than `key` are as they were. */
  ghost predicate PinsKept(s: State, t: State, key: string) {
    forall k :: k in s.objects && s.objects[k].hardPinned && k != key ==> k in t.objects && t.objects[k] == s.objects[k]
  }

  // ---- the victims of a pass ----

  /** The evictable among `keys`, each once, coldest first. */
  ghost predicate VictimsAmong(objects: map<string, ObjectMeta>, clock: nat, keys: set<string>, victims: seq<string>) {
    && (forall i, j :: 0 <= i < j < |victims| ==> victims[i] != victims[j])
    && (forall i :: 0 <= i < |victims| ==> victims[i] in keys && victims[i] in objects && Evictable(objects[victims[i]], clock))
    && (forall k :: k in keys && k in objects && Evictable(objects[k], clock) ==> k in victims)
    && (forall i, j :: 0 <= i < j < |victims| ==> NoWarmer(objects[victims[i]], objects[victims[j]]))
  }

  ghost predicate Victims(s: State, victims: seq<string>) {
    VictimsAmong(s.objects, s.clock, s.objects.Keys, victims)
  }

  /** One more victim at its place in the order. */
  lemma InsertVictim(objects: map<string, ObjectMeta>, clock: nat, keys: set<string>, victims: seq<string>, k: string, p: nat)
    requires VictimsAmong(objects, clock, keys, victims) && k !in keys && k in objects && Evictable(objects[k], clock) && p <= |victims|
    requires p > 0 ==> NoWarmer(objects[victims[p - 1]], objects[k])
    requires forall j :: p <= j < |victims| ==> NoWarmer(objects[k], objects[victims[j]])
    ensures VictimsAmong(objects, clock, keys + {k}, InsertAt(victims, p, k))
  {
    hide InsertAt, Evictable;
    var vs := InsertAt(victims, p, k);
    InsertAtIndex(victims, p, k, 0);
    forall i | 0 <= i < |vs| ensures vs[i] in keys + {k} && vs[i] in objects && Evictable(objects[vs[i]], clock) {
      InsertAtIndex(victims, p, k, i);
    }
    forall i, j | 0 <= i < j < |vs| ensures vs[i] != vs[j] && NoWarmer(objects[vs[i]], objects[vs[j]]) {
      InsertAtIndex(victims, p, k, i);
      InsertAtIndex(victims, p, k, j);
      if i < p - 1 && j == p { assert NoWarmer(objects[victims[i]], objects[victims[p - 1]]); }
    }
    forall l | l in keys + {k} && l in objects && Evictable(objects[l], clock) ensures l in vs {
      InsertAtIndex(victims, p, k, p);
      if l != k {
        var i :| 0 <= i < |victims| && victims[i] == l;
        InsertAtIndex(victims, p, k, if i < p then i else i + 1);
      }
    }
  }

  ghost function Removals(keys: seq<string>): seq<Change> {
    if keys == [] then [] else Removals(keys[..|keys| - 1]) + [Remove(keys[|keys| - 1])]
  }

  lemma {:induction false} RemovalsAt(keys: seq<string>, i: nat)
    requires i <= |keys|
    ensures |Removals(keys)| == |keys| && Removals(keys)[..i] == Removals(keys[..i])
    ensures i < |keys| ==> Removals(keys)[i] == Remove(keys[i])
    decreases |keys|
  {
    if i < |keys| {
      var n := |keys| - 1;
      RemovalsAt(keys[..n], if i < n then i else n);
      assert keys[..n][..i] == keys[..i];
    } else {
      assert keys[..i] == keys;
      if keys != [] { RemovalsAt(keys[..i - 1], i - 1); }
      assert Removals(keys)[..i] == Removals(keys);
    }
  }

  ghost function KeySet(keys: seq<string>): set<string> {
    set k | k in keys
  }

  /** Evicting a run of the victims takes exactly those. */
  lemma {:induction false} VictimsGone(s: State, victims: seq<string>, i: nat)
    requires Victims(s, victims) && i <= |victims|
    ensures Evictions(s, Removals(victims[..i])) && Path(s, Removals(victims[..i]))
    ensures var t := Run(s, Removals(victims[..i])); t.clock == s.clock && t.objects == s.objects - KeySet(victims[..i])
  {
    hide Apply, Evictable, NoWarmer;
    if i == 0 {
      assert victims[..i] == [];
      assert s.objects - KeySet(victims[..0]) == s.objects;
    } else {
      VictimsGone(s, victims, i - 1);
      var before, v := victims[..i - 1], victims[i - 1];
      assert victims[..i][..i - 1] == before;
      var t := Run(s, Removals(before));
      TakeOne(s.objects, victims, i);
      EvictionsSnoc(s, Removals(before), v);
      RemoveApplied(t, v);
    }
  }

  lemma TakeOne(objects: map<string, ObjectMeta>, victims: seq<string>, i: nat)
    requires 0 < i <= |victims| && (forall j :: 0 <= j < i - 1 ==> victims[j] != victims[i - 1]) && victims[i - 1] in objects
    ensures var rest := objects - KeySet(victims[..i - 1]);
      victims[i - 1] in rest && rest - {victims[i - 1]} == objects - KeySet(victims[..i])
  {
    var before, v := victims[..i - 1], victims[i - 1];
    assert victims[..i] == before + [v];
    assert KeySet(victims[..i]) == KeySet(before) + {v};
  }

  lemma RemoveApplied(s: State, k: string)
    requires k in s.objects
    ensures Apply(s, Remove(k)).objects == s.objects - {k} && Apply(s, Remove(k)).clock == s.clock
  {
  }

  /** The victims before `i` are gone: those left are no colder. */
  lemma {:induction false} VictimsColdest(s: State, victims: seq<string>, i: nat)
    requires Victims(s, victims) && i <= |victims|
    requires Path(s, Removals(victims[..i]))
    ensures ColdestGone(s, Run(s, Removals(victims[..i])))
    ensures i == |victims| ==> NoneEvictable(Run(s, Removals(victims[..i])))
  {
    VictimsGone(s, victims, i);
    var t := Run(s, Removals(victims[..i]));
    forall c | 0 <= c < i ensures victims[c] !in t.objects { assert victims[..i][c] == victims[c]; }
    forall k, l | k in s.objects && k !in t.objects && l in t.objects && Evictable(t.objects[l], t.clock)
      ensures NoWarmer(s.objects[k], t.objects[l])
    {
      var a :| 0 <= a < i && victims[..i][a] == k;
      var b :| 0 <= b < |victims| && victims[b] == l;
      assert victims[a] == k;
    }
  }

  /** Leased and hard-pinned objects outlive every pass. */
  lemma {:induction false} EvictionsKeep(s: State, cs: seq<Change>, key: string)
    requires Evictions(s, cs) && Path(s, cs)
    ensures LeasesKept(s, Run(s, cs)) && PinsKept(s, Run(s, cs), key)
  {
    EvictionsPath(s, cs);
  }
}
