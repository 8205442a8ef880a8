/**
  The bounded endpoint cache: FIFO or SIEVE eviction, and a waiting list for
  evicted endpoints still in use.
 */
module Endpoints {
  import opened Segments
  import opened Sequences

  datatype Policy = Fifo | Sieve

  /** The index `d` places after `start`, going round. */
  function Around(start: nat, d: nat, n: nat): nat
    requires start < n && d <= n
  {
    if start + d < n then start + d else start + d - n
  }

  /** Bits cleared for the first `d` entries from `start` on. */
  ghost predicate Cleared(was: map<string, bool>, now: map<string, bool>, order: seq<string>, start: nat, d: nat)
    requires start < |order| && d <= |order|
  {
    && now.Keys == was.Keys
    && (forall e :: 0 <= e < d ==> order[Around(start, e, |order|)] in now && !now[order[Around(start, e, |order|)]])
    && (forall k :: k in was && k in now && (forall e :: 0 <= e < d ==> order[Around(start, e, |order|)] != k) ==> now[k] == was[k])
  }

  /** The first `d` entries from `start` on had their bits set. */
  ghost predicate AllSet(was: map<string, bool>, order: seq<string>, start: nat, d: nat)
    requires start < |order| && d <= |order|
  {
    forall e :: 0 <= e < d ==> order[Around(start, e, |order|)] in was && was[order[Around(start, e, |order|)]]
  }

  /** The first entry from the hand on whose bit is clear, or the hand's own if all are set. */
  ghost predicate Chosen(was: map<string, bool>, order: seq<string>, start: nat, d: nat)
    requires start < |order| && d <= |order|
  {
    && AllSet(was, order, start, d)
    && (d < |order| ==> order[Around(start, d, |order|)] in was && !was[order[Around(start, d, |order|)]])
  }

  function RemoveAt(order: seq<string>, i: nat): seq<string>
    requires i < |order|
  {
    order[..i] + order[i + 1..]
  }

  lemma RemoveAtMembers(order: seq<string>, i: nat)
    requires i < |order| && Distinct(order)
    ensures |RemoveAt(order, i)| == |order| - 1 && Distinct(RemoveAt(order, i)) && forall k :: k in RemoveAt(order, i) <==>
      k in order && k != order[i]
  {
    var out := RemoveAt(order, i);
    forall a, b | 0 <= a < b < |out| ensures out[a] != out[b] {
      assert out[a] == order[if a < i then a else a + 1] && out[b] == order[if b < i then b else b + 1];
    }
    forall k | k in order && k != order[i] ensures k in out {
      var a :| 0 <= a < |order| && order[a] == k;
      assert out[if a < i then a else a - 1] == k;
    }
    forall k | k in out ensures k in order && k != order[i] {
      var a :| 0 <= a < |out| && out[a] == k;
      assert k == order[if a < i then a else a + 1];
    }
  }

  /** Entries around a ring repeat only after a full turn. */
  lemma AroundApart(order: seq<string>, start: nat, d: nat, e: nat)
    requires Distinct(order) && start < |order| && e < d < |order|
    ensures order[Around(start, e, |order|)] != order[Around(start, d, |order|)]
  {
  }

  /** The bits after a sweep over `d` entries from `start` on. */
  ghost function Swept(was: map<string, bool>, order: seq<string>, start: nat, d: nat): map<string, bool>
    requires start < |order| && d <= |order|
  {
    map k | k in was :: was[k] && forall e :: 0 <= e < d ==> order[Around(start, e, |order|)] != k
  }

  lemma ClearedIsSwept(was: map<string, bool>, now: map<string, bool>, order: seq<string>, start: nat, d: nat)
    requires start < |order| && d <= |order| && Cleared(was, now, order, start, d)
    ensures now == Swept(was, order, start, d)
  {
    forall k | k in was ensures k in now && now[k] == Swept(was, order, start, d)[k] {
      if e :| 0 <= e < d && order[Around(start, e, |order|)] == k {}
    }
  }

  // ---- what has come and gone ----

  /** What was inserted is there or was evicted, each as often; first in, first out under that policy. */
  ghost predicate Told(policy: Policy, inserted: seq<string>, evicted: seq<string>, order: seq<string>) {
    multiset(inserted) == multiset(evicted) + multiset(order) && (policy == Fifo ==> inserted == evicted + order)
  }

  lemma ToldEvicted(policy: Policy, inserted: seq<string>, evicted: seq<string>, order: seq<string>, at: nat)
    requires Told(policy, inserted, evicted, order) && at < |order| && (policy == Fifo ==> at == 0)
    ensures Told(policy, inserted, evicted + [order[at]], RemoveAt(order, at))
  {
    assert order == order[..at] + [order[at]] + order[at + 1..];
    assert policy == Fifo ==> evicted + order == evicted + [order[0]] + order[1..];
  }

  lemma ToldAdded(policy: Policy, inserted: seq<string>, evicted: seq<string>, order: seq<string>, key: string)
    requires Told(policy, inserted, evicted, order)
    ensures Told(policy, inserted + [key], evicted, order + [key])
  {
    assert evicted + order + [key] == evicted + (order + [key]);
  }

  // ---- what a store is, as a value ----

  datatype Ring = Ring(conns: map<string, nat>, visited: map<string, bool>, order: seq<string>, hand: nat, waiting: seq<nat>)

  /** Where a scan starts: the hand, brought back to the front past the end. */
  function HandOf(r: Ring): nat {
    if r.hand < |r.order| then r.hand else 0
  }

  function Parked(waiting: seq<nat>, conn: nat, held: nat -> bool): seq<nat> {
    waiting + if held(conn) then [conn] else []
  }

  /** The entry to go: the oldest, or the first that a sweep of `d` entries from the hand finds unused. */
  ghost predicate Picks(policy: Policy, was: Ring, bits: map<string, bool>, hand: nat, at: nat, d: nat) {
    && at < |was.order|
    && match policy
       case Fifo => at == 0 && hand == was.hand && bits == was.visited
       case Sieve =>
         && d <= |was.order| && Chosen(was.visited, was.order, HandOf(was), d) && at == Around(HandOf(was), d, |was.order|)
         && hand == at && bits == Swept(was.visited, was.order, HandOf(was), d)
  }

  /** One entry goes, and waits if it is still in use. */
  ghost predicate Evicts(policy: Policy, was: Ring, now: Ring, held: nat -> bool, at: nat, d: nat) {
    && at < |was.order| && was.order[at] in was.conns
    && now.order == RemoveAt(was.order, at) && now.conns == was.conns - {was.order[at]}
    && now.waiting == Parked(was.waiting, was.conns[was.order[at]], held)
    && exists bits :: Picks(policy, was, bits, now.hand, at, d) && now.visited == bits - {was.order[at]}
  }

  /** A new entry, at the end of the order and not yet used. */
  function Added(r: Ring, key: string, conn: nat): Ring {
    r.(conns := r.conns[key := conn], visited := r.visited[key := false], order := r.order + [key])
  }

  /** A used entry that is neither alone in that nor under the hand has a second chance: it outlives the eviction. */
  lemma SecondChance(was: Ring, now: Ring, held: nat -> bool, at: nat, d: nat, i: nat)
    requires Evicts(Sieve, was, now, held, at, d) && Distinct(was.order) && i < |was.order|
    requires forall k :: k in was.visited <==> k in was.order
    ensures was.visited[was.order[i]] ==>
      (i == at <==> i == HandOf(was) && forall j :: 0 <= j < |was.order| ==> was.visited[was.order[j]])
  {
    var n, start := |was.order|, HandOf(was);
    if was.visited[was.order[i]] {
      if i == at {
        forall j | 0 <= j < n ensures was.visited[was.order[j]] {
          assert was.order[Around(start, if j >= start then j - start else j + n - start, n)] == was.order[j];
        }
      }
    }
  }

  /** The first unused entry at or after `from`, below `to`. */
  ghost predicate FirstUnused(r: Ring, from: nat, to: nat, at: nat) {
    && from <= at < to <= |r.order| && r.order[at] in r.visited && !r.visited[r.order[at]]
    && AllUsed(r, from, at)
  }

  ghost predicate AllUsed(r: Ring, from: nat, to: nat) {
    forall j :: from <= j < to && j < |r.order| ==> r.order[j] in r.visited && r.visited[r.order[j]]
  }

  /** The hand passed entry `j` on its way from `h` to `at`. */
  ghost predicate Passed(h: nat, at: nat, j: nat, all: bool) {
    all || if h <= at then h <= j < at else j >= h || j < at
  }

  /** How far along the ring from `h` entry `j` is. */
  function Steps(h: nat, j: nat, n: nat): (e: nat)
    requires h < n && j < n
    ensures e < n && Around(h, e, n) == j && (e == 0 <==> j == h)
  {
    if j >= h then j - h else j + n - h
  }

  /** SIEVE takes the first unused entry from the hand on, else from the front, else the hand's own. */
  lemma SieveTakes(was: Ring, now: Ring, held: nat -> bool, at: nat, d: nat)
    requires Evicts(Sieve, was, now, held, at, d)
    ensures now.hand == at
    ensures var h := if was.hand < |was.order| then was.hand else 0;
      || FirstUnused(was, h, |was.order|, at)
      || (AllUsed(was, h, |was.order|) && FirstUnused(was, 0, h, at))
      || (AllUsed(was, 0, |was.order|) && at == h)
  {
    hide Swept;
    var n, h := |was.order|, HandOf(was);
    forall j | 0 <= j < n && Steps(h, j, n) < d ensures was.order[j] in was.visited && was.visited[was.order[j]] {
      assert was.order[Around(h, Steps(h, j, n), n)] == was.order[j];
    }
  }

  /** It marks unused what it passed on the way and leaves every other mark. */
  lemma SieveMarks(was: Ring, now: Ring, held: nat -> bool, at: nat, d: nat, j: nat)
    requires Evicts(Sieve, was, now, held, at, d) && Distinct(was.order) && j < |was.order| && j != at
    requires was.order[j] in was.visited
    ensures was.order[j] in now.visited
    ensures var h := if was.hand < |was.order| then was.hand else 0;
      now.visited[was.order[j]] == (was.visited[was.order[j]] && !Passed(h, at, j, AllUsed(was, 0, |was.order|)))
  {
    var n, h := |was.order|, HandOf(was);
    assert was.order[at] != was.order[j];
    SweptAt(was.visited, was.order, h, d, j);
    SieveTakes(was, now, held, at, d);
    if d == n {
      assert was.order[Around(h, 0, n)] == was.order[h];
      assert AllUsed(was, 0, n);
    } else {
      assert !AllUsed(was, 0, n) by { assert was.order[at] in was.visited && !was.visited[was.order[at]]; }
    }
  }

  lemma SweptAt(was: map<string, bool>, order: seq<string>, start: nat, d: nat, j: nat)
    requires start < |order| && d <= |order| && j < |order| && Distinct(order) && order[j] in was
    ensures Swept(was, order, start, d)[order[j]] == (was[order[j]] && Steps(start, j, |order|) >= d)
  {
    var n := |order|;
    forall e | 0 <= e < d ensures order[Around(start, e, n)] == order[j] <==> e == Steps(start, j, n) {
    }
  }

  class EndpointStore {
    const maxSize: nat
    const policy: Policy
    /** Connections by peer; a connection is named by a number. */
    var conns: map<string, nat>
    var visited: map<string, bool>
    /** Insertion order, oldest first. */
    var order: seq<string>
    var hand: nat
    /** Evicted connections still in use. */
    var waiting: seq<nat>
    /** The keys inserted and the keys evicted so far, in order. */
    ghost var inserted: seq<string>
    ghost var evicted: seq<string>

    ghost function View(): Ring
      reads this
    {
      Ring(conns, visited, order, hand, waiting)
    }

    ghost predicate Valid()
      reads this
    {
      && maxSize > 0 && Distinct(order)
      && (forall k :: k in conns <==> k in order) && (forall k :: k in visited <==> k in order)
      && |order| <= maxSize
      && Told(policy, inserted, evicted, order)
    }

    constructor (maxSize: nat, policy: Policy)
      ensures Valid() && View() == Ring(map[], map[], [], 0, []) && inserted == evicted == [] && this.policy == policy
      ensures this.maxSize == if maxSize == 0 then 1 else maxSize
    {
      this.maxSize := if maxSize == 0 then 1 else maxSize;
      this.policy := policy;
      conns, visited, order, hand, waiting, inserted, evicted := map[], map[], [], 0, [], [], [];
    }

    ghost function HandAt(): nat
      reads this
    {
      HandOf(View())
    }

    /** SIEVE: from the hand, clear and skip used entries; take the first unused one. */
    method SieveVictim() returns (key: string, ghost d: nat)
      requires Valid() && order != []
      modifies this`visited, this`order, this`hand
      ensures d <= |old(order)| && Chosen(old(visited), old(order), old(HandAt()), d)
      ensures Cleared(old(visited), visited, old(order), old(HandAt()), d)
      ensures hand == Around(old(HandAt()), d, |old(order)|) && key == old(order)[hand] && order == RemoveAt(old(order), hand)
    {
      hide Cleared, AllSet, Distinct;
      ghost var start, n := HandAt(), |order|;
      d := 0;
      NothingCleared(visited, order, start);
      while true
        invariant order == old(order) && n == |order| && d <= n && start == old(HandAt())
        invariant HandAt() == Around(start, d, n)
        invariant Cleared(old(visited), visited, order, start, d) && AllSet(old(visited), order, start, d)
        decreases n - d
      {
        if hand >= |order| {
          hand := 0;
        }
        key := order[hand];
        Fresh(old(visited), visited, order, start, d);
        if visited[key] {
          ClearNext(old(visited), visited, order, start, d);
          visited := visited[key := false];
          hand := hand + 1;
          d := d + 1;
        } else {
          order := order[..hand] + order[hand + 1..];
          return;
        }
      }
    }

    /** Take the entry to go out of the order. */
    method Pick() returns (key: string, ghost at: nat, ghost d: nat)
      requires Valid() && order != []
      modifies this`visited, this`order, this`hand
      ensures Picks(policy, old(View()), visited, hand, at, d) && visited.Keys == old(visited).Keys
      ensures key == old(order)[at] && order == RemoveAt(old(order), at)
    {
      hide Chosen, Cleared, Distinct, RemoveAt, Swept, Told;
      at, d := 0, 0;
      match policy {
        case Fifo =>
          key := order[0];
          DropFirst(order);
          order := order[1..];
        case Sieve =>
          key, d := SieveVictim();
          at := hand;
          ClearedIsSwept(old(visited), visited, old(order), old(HandAt()), d);
          SameBits(old(visited), visited, old(order), old(HandAt()), d);
      }
    }

    /** Evict one entry; a connection still in use waits. */
    method EvictOne(held: nat -> bool) returns (key: string, ghost at: nat, ghost d: nat)
      requires Valid() && order != []
      modifies this
      ensures Valid() && |order| == |old(order)| - 1 && forall k :: k in order <==> k in old(order) && k != key
      ensures Evicts(policy, old(View()), View(), held, at, d) && key == old(order)[at]
      ensures conns == old(conns) - {key}
      ensures waiting == if held(old(conns)[key]) then old(waiting) + [old(conns)[key]] else old(waiting)
      ensures inserted == old(inserted) && evicted == old(evicted) + [key]
    {
      hide Picks, Distinct, RemoveAt, Told;
      key, at, d := Pick();
      PickedAt(policy, old(View()), visited, hand, at, d);
      RemoveAtMembers(old(order), at);
      ToldEvicted(policy, inserted, evicted, old(order), at);
      visited := visited - {key};
      var conn := conns[key];
      conns := conns - {key};
      if held(conn) {
        waiting := waiting + [conn];
      }
      evicted := evicted + [key];
    }

    /** Enter a new connection. */
    method Insert(key: string, conn: nat)
      requires Valid() && key !in conns && |order| < maxSize
      modifies this
      ensures Valid() && View() == Added(old(View()), key, conn)
      ensures inserted == old(inserted) + [key] && evicted == old(evicted)
    {
      hide Distinct, Told;
      conns := conns[key := conn];
      visited := visited[key := false];
      DistinctAdd(order, key);
      ToldAdded(policy, inserted, evicted, order, key);
      order := order + [key];
      inserted := inserted + [key];
    }

    /** The connection of a peer, made on a miss; a full cache evicts one first, any other keeps all it has. */
    method GetOrInsert(key: string, made: Option<nat>, held: nat -> bool) returns (r: Option<nat>, ghost mid: Ring, ghost at: nat, ghost d: nat)
      requires Valid()
      modifies this
      ensures Valid()
      ensures key in old(conns) ==> r == Some(old(conns)[key]) && View() == old(View()).(visited := old(visited)[key := true])
      ensures key !in old(conns) ==> r == made && (made.None? ==> View() == old(View()))
      ensures key !in old(conns) && made.Some? ==> View() == Added(mid, key, made.value)
      ensures key !in old(conns) && made.Some? ==>
        if |old(order)| < maxSize then mid == old(View()) else Evicts(policy, old(View()), mid, held, at, d)
      ensures key !in old(conns) && made.Some? ==> key in conns && conns[key] == made.value && key in visited && !visited[key]
      ensures key !in old(conns) && made.Some? ==> order != [] && order[|order| - 1] == key
      ensures inserted == old(inserted) + if key !in old(conns) && made.Some? then [key] else []
      ensures evicted == old(evicted) + if key !in old(conns) && made.Some? && |old(order)| == maxSize then [old(order)[at]] else []
    {
      hide Chosen, Distinct, Swept, RemoveAt, Told, Evicts;
      mid, at, d := View(), 0, 0;
      if key in conns {
        visited := visited[key := true];
        r := Some(conns[key]);
        return;
      }
      if made.None? {
        r := None;
        return;
      }
      SizeIs(conns.Keys, order);
      if |conns| >= maxSize {
        var gone;
        gone, at, d := EvictOne(held);
        mid := View();
      }
      Insert(key, made.value);
      r := made;
    }

    /** Let go of waiting connections no longer in use. */
    method Reclaim(held: nat -> bool)
      requires Valid()
      modifies this`waiting
      ensures Valid()
      ensures waiting == Retained(old(waiting), held)
    {
      var kept: seq<nat> := [];
      for i := 0 to |waiting|
        invariant waiting == old(waiting) && kept == Retained(waiting[..i], held)
      {
        assert waiting[..i + 1][..i] == waiting[..i];
        if held(waiting[i]) {
          kept := kept + [waiting[i]];
        }
      }
      assert waiting[..|waiting|] == waiting;
      waiting := kept;
    }
  }

  /** Those still held, in order. */
  ghost function Retained(waiting: seq<nat>, held: nat -> bool): seq<nat> {
    if waiting == [] then []
    else
      var n := |waiting| - 1;
      Retained(waiting[..n], held) + if held(waiting[n]) then [waiting[n]] else []
  }

  /** A held connection waits on as often as before, and one let go of not at all. */
  lemma {:induction false} RetainedCounts(waiting: seq<nat>, held: nat -> bool, c: nat)
    ensures multiset(Retained(waiting, held))[c] == if held(c) then multiset(waiting)[c] else 0
  {
    if waiting != [] {
      var n := |waiting| - 1;
      RetainedCounts(waiting[..n], held, c);
      assert waiting == waiting[..n] + [waiting[n]];
    }
  }

  lemma PickedAt(policy: Policy, was: Ring, bits: map<string, bool>, hand: nat, at: nat, d: nat)
    requires Picks(policy, was, bits, hand, at, d)
    ensures at < |was.order| && (policy == Fifo ==> at == 0)
  {
  }

  lemma DistinctAdd(order: seq<string>, key: string)
    requires Distinct(order) && key !in order
    ensures Distinct(order + [key])
  {
  }

  lemma DropFirst(order: seq<string>)
    requires order != []
    ensures RemoveAt(order, 0) == order[1..]
  {
  }

  lemma NothingCleared(was: map<string, bool>, order: seq<string>, start: nat)
    requires start < |order|
    ensures Cleared(was, was, order, start, 0) && AllSet(was, order, start, 0)
  {
  }

  /** The bit under the hand has not been cleared on this turn; after a full turn it has. */
  lemma Fresh(was: map<string, bool>, now: map<string, bool>, order: seq<string>, start: nat, d: nat)
    requires Distinct(order) && start < |order| && d <= |order| && Cleared(was, now, order, start, d) && order[Around(start, d, |order|)] in was
    ensures order[Around(start, d, |order|)] in now
    ensures now[order[Around(start, d, |order|)]] == (d < |order| && was[order[Around(start, d, |order|)]])
  {
    var n := |order|;
    if d < n {
      forall e | 0 <= e < d ensures order[Around(start, e, n)] != order[Around(start, d, n)] { AroundApart(order, start, d, e); }
    } else {
      assert order[Around(start, 0, n)] == order[Around(start, d, n)];
    }
  }

  lemma ClearNext(was: map<string, bool>, now: map<string, bool>, order: seq<string>, start: nat, d: nat)
    requires start < |order| && d < |order| && Cleared(was, now, order, start, d) && order[Around(start, d, |order|)] in was
    ensures Cleared(was, now[order[Around(start, d, |order|)] := false], order, start, d + 1)
    ensures AllSet(was, order, start, d) && was[order[Around(start, d, |order|)]] ==> AllSet(was, order, start, d + 1)
  {
    var n, key := |order|, order[Around(start, d, |order|)];
    var next := now[key := false];
    assert next.Keys == now.Keys;
    forall k | k in was && k in next && forall e :: 0 <= e < d + 1 ==> order[Around(start, e, n)] != k ensures next[k] == was[k] {
      assert order[Around(start, d, n)] != k;
    }
  }

  lemma SameBits(was: map<string, bool>, now: map<string, bool>, order: seq<string>, start: nat, d: nat)
    requires start < |order| && d <= |order| && Cleared(was, now, order, start, d)
    ensures now.Keys == was.Keys
  {
  }

  lemma {:induction false} SizeIs(keys: set<string>, order: seq<string>)
    requires Distinct(order) && forall k :: k in keys <==> k in order
    ensures |keys| == |order|
  {
    if order == [] {
      assert keys == {};
    } else {
      var n := |order| - 1;
      assert order == order[..n] + [order[n]];
      SizeIs(keys - {order[n]}, order[..n]);
    }
  }
}
