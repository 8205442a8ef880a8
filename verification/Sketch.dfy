/**
  The count-min sketch of key frequencies: its estimate of a key is the least count,
  saturated and aged, of the keys that share a counter with it, and so never below its
  own, and equal to it where some counter is its alone.
 */
module Sketches {

  const U8_MAX: nat := 255
  const DEFAULT_WIDTH: nat := 4096
  const DEFAULT_DEPTH: nat := 4

  function SaturatingInc(n: nat): nat {
    if n < U8_MAX then n + 1 else n
  }

  /** One key's count over a history of increments and agings. */
  datatype Event = Inc(key: string) | Decay

  /** A counter after an event, if the event's key is one it counts. */
  ghost function Counted(before: nat, e: Event, hit: bool): nat {
    match e
    case Inc(_) => if hit then SaturatingInc(before) else before
    case Decay => before / 2
  }

  ghost function Exact(history: seq<Event>, key: string): nat {
    if history == [] then 0
    else
      var n := |history| - 1;
      Counted(Exact(history[..n], key), history[n], history[n].Inc? && history[n].key == key)
  }

  type Hash = (string, nat) -> nat

  /** The same count of all keys that a row's hash takes to one column. */
  ghost function Cell(history: seq<Event>, hash: Hash, width: nat, row: nat, column: nat): nat
    requires width > 0
  {
    if history == [] then 0
    else
      var n := |history| - 1;
      Counted(Cell(history[..n], hash, width, row, column), history[n], history[n].Inc? && hash(history[n].key, row) % width == column)
  }

  lemma {:induction false} CellSnoc(history: seq<Event>, e: Event, hash: Hash, width: nat, row: nat, column: nat)
    requires width > 0
    ensures Cell(history + [e], hash, width, row, column) ==
      Counted(Cell(history, hash, width, row, column), e, e.Inc? && hash(e.key, row) % width == column)
  {
    assert (history + [e])[..|history|] == history;
  }

  /** No other key counted so far shares the key's counter in the row. */
  ghost predicate Alone(history: seq<Event>, hash: Hash, width: nat, row: nat, key: string)
    requires width > 0
  {
    forall i :: 0 <= i < |history| && history[i].Inc? && hash(history[i].key, row) % width == hash(key, row) % width ==> history[i].key == key
  }

  /** A key's counter is never below its own count, and equal to it where it is alone. */
  lemma {:induction false} CellCounts(history: seq<Event>, hash: Hash, width: nat, row: nat, key: string)
    requires width > 0
    ensures Exact(history, key) <= Cell(history, hash, width, row, hash(key, row) % width) <= U8_MAX
    ensures Alone(history, hash, width, row, key) ==> Exact(history, key) == Cell(history, hash, width, row, hash(key, row) % width)
  {
    if history != [] {
      var n := |history| - 1;
      CellCounts(history[..n], hash, width, row, key);
      if Alone(history, hash, width, row, key) {
        assert forall i :: 0 <= i < n ==> history[..n][i] == history[i];
      }
    }
  }

  /** How often a key was incremented. */
  ghost function Tally(history: seq<Event>, key: string): nat {
    multiset(history)[Inc(key)]
  }

  /** Up to an aging the count is the number of increments, capped at the counter's width. */
  lemma {:induction false} ExactIsTally(history: seq<Event>, key: string)
    requires Decay !in history
    ensures Exact(history, key) == if Tally(history, key) < U8_MAX then Tally(history, key) else U8_MAX
  {
    if history != [] {
      var n := |history| - 1;
      ExactIsTally(history[..n], key);
      assert history == history[..n] + [history[n]];
      assert history[n] in history;
    }
  }

  /** The increments since the last aging. */
  ghost function SinceDecay(history: seq<Event>): nat {
    if history == [] || history[|history| - 1] == Decay then 0 else SinceDecay(history[..|history| - 1]) + 1
  }

  lemma SinceDecayMore(history: seq<Event>, e: Event)
    ensures SinceDecay(history + [e]) == if e == Decay then 0 else SinceDecay(history) + 1
  {
    assert (history + [e])[..|history|] == history;
  }

  lemma NoCounters(width: nat, depth: nat)
    ensures width > 0 && depth > 0 ==> width * depth > 0
  {
  }

  class CountMinSketch {
    const width: nat
    const depth: nat
    const hash: Hash
    const table: array2<nat>
    var totalIncrements: nat
    /** Every increment and aging so far. */
    ghost var history: seq<Event>

    /** The counter of a key in a row. */
    function Column(key: string, row: nat): nat
      requires width > 0
    {
      hash(key, row) % width
    }

    ghost predicate Shaped() {
      width > 0 && depth > 0 && table.Length0 == depth && table.Length1 == width
    }

    /** Every counter is the aged count of the keys that hash to it; the increments since the last aging are counted. */
    ghost predicate Valid()
      reads this, table
    {
      Shaped() && totalIncrements == SinceDecay(history) && forall i, j :: 0 <= i < depth && 0 <= j < width ==>
        table[i, j] == Cell(history, hash, width, i, j)
    }

    /** The least count among the key's counters. */
    ghost predicate Estimates(events: seq<Event>, key: string, estimate: nat)
      requires width > 0
    {
      && (exists i :: 0 <= i < depth && estimate == Cell(events, hash, width, i, Column(key, i)))
      && (forall i :: 0 <= i < depth ==> estimate <= Cell(events, hash, width, i, Column(key, i)))
    }

    /** An estimate is at least the key's own count, and equal to it if in some row the key is alone. */
    lemma EstimateMeans(events: seq<Event>, key: string, estimate: nat)
      requires width > 0 && Estimates(events, key, estimate)
      ensures Exact(events, key) <= estimate <= U8_MAX
      ensures (exists i :: 0 <= i < depth && Alone(events, hash, width, i, key)) ==> estimate == Exact(events, key)
    {
      hide Exact, Cell, Alone;
      forall i | 0 <= i < depth
        ensures Exact(events, key) <= Cell(events, hash, width, i, Column(key, i)) <= U8_MAX
        ensures Alone(events, hash, width, i, key) ==> Exact(events, key) == Cell(events, hash, width, i, Column(key, i))
      {
        CellCounts(events, hash, width, i, key);
      }
    }

    constructor (width: nat, depth: nat, hash: Hash)
      ensures Valid() && fresh(table) && history == [] && this.hash == hash
      ensures this.width == (if width > 0 then width else DEFAULT_WIDTH) && this.depth == if depth > 0 then depth else DEFAULT_DEPTH
    {
      var w := if width > 0 then width else DEFAULT_WIDTH;
      var d := if depth > 0 then depth else DEFAULT_DEPTH;
      this.width, this.depth, this.hash := w, d, hash;
      table := new nat[d, w]((_, _) => 0);
      totalIncrements := 0;
      history := [];
    }

    method Count(key: string) returns (estimate: nat)
      requires Valid()
      ensures Estimates(history, key, estimate)
    {
      hide Cell;
      estimate := U8_MAX;
      for i := 0 to depth
        invariant forall j :: 0 <= j < i ==> estimate <= Cell(history, hash, width, j, Column(key, j))
        invariant if i == 0 then estimate == U8_MAX else exists j :: 0 <= j < i && estimate == Cell(history, hash, width, j, Column(key, j))
      {
        CellCounts(history, hash, width, i, key);
        var c := table[i, Column(key, i)];
        estimate := if c < estimate then c else estimate;
      }
    }

    /** Count one more occurrence of a key; age everything once enough have accumulated. */
    method Increment(key: string) returns (estimate: nat)
      requires Valid()
      modifies this, table
      ensures Valid() && totalIncrements < width * depth
      ensures Estimates(old(history) + [Inc(key)], key, estimate)
      ensures if old(totalIncrements) + 1 >= width * depth then history == old(history) + [Inc(key)] + [Decay] && totalIncrements == 0
        else history == old(history) + [Inc(key)] && totalIncrements == old(totalIncrements) + 1
    {
      hide Cell;
      estimate := U8_MAX;
      ghost var now := history + [Inc(key)];
      forall r, j | 0 <= r < depth && 0 <= j < width
        ensures Cell(now, hash, width, r, j) == if j == Column(key, r) then SaturatingInc(table[r, j]) else table[r, j]
      {
        CellSnoc(history, Inc(key), hash, width, r, j);
      }
      for i := 0 to depth
        invariant Shaped() && history == old(history) && totalIncrements == old(totalIncrements)
        invariant forall r, j :: 0 <= r < depth && 0 <= j < width ==> table[r, j] == if r < i then Cell(now, hash, width, r, j) else old(table[r, j])
        invariant forall j :: 0 <= j < i ==> estimate <= Cell(now, hash, width, j, Column(key, j))
        invariant if i == 0 then estimate == U8_MAX else exists j :: 0 <= j < i && estimate == Cell(now, hash, width, j, Column(key, j))
      {
        var c := Column(key, i);
        CellCounts(now, hash, width, i, key);
        table[i, c] := SaturatingInc(table[i, c]);
        estimate := if table[i, c] < estimate then table[i, c] else estimate;
      }
      SinceDecayMore(history, Inc(key));
      history := now;
      totalIncrements := totalIncrements + 1;
      if totalIncrements >= width * depth {
        NoCounters(width, depth);
        Age();
      }
    }

    /** Halve every counter. */
    method Age()
      requires Valid()
      modifies this, table
      ensures Valid() && history == old(history) + [Decay] && totalIncrements == 0
      ensures forall r, j :: 0 <= r < depth && 0 <= j < width ==> table[r, j] == old(table[r, j]) / 2
    {
      hide Cell;
      for i := 0 to depth
        invariant Shaped() && history == old(history)
        invariant forall r, j :: 0 <= r < depth && 0 <= j < width ==> table[r, j] == if r < i then old(table[r, j]) / 2 else old(table[r, j])
      {
        for c := 0 to width
          invariant Shaped() && history == old(history)
          invariant forall r, j :: 0 <= r < depth && 0 <= j < width ==>
            table[r, j] == if r < i || (r == i && j < c) then old(table[r, j]) / 2 else old(table[r, j])
        {
          table[i, c] := table[i, c] / 2;
        }
      }
      forall r, j | 0 <= r < depth && 0 <= j < width
        ensures Cell(history + [Decay], hash, width, r, j) == Cell(history, hash, width, r, j) / 2
      {
        CellSnoc(history, Decay, hash, width, r, j);
      }
      SinceDecayMore(history, Decay);
      history := history + [Decay];
      totalIncrements := 0;
    }
  }
}
