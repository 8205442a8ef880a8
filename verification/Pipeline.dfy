/**
  The layer-wise transfer pipeline: layers move with a bounded number in flight,
  land in any order, and are announced strictly in order.
 */
module Pipelines {
  import opened Segments

  datatype Slice = Slice(layer: nat, offset: nat, len: nat)

  ghost function Sum(sizes: seq<nat>): nat {
    if sizes == [] then 0 else Sum(sizes[..|sizes| - 1]) + sizes[|sizes| - 1]
  }

  /** One slice per layer, at its layer boundary. */
  method LayerSlices(sizes: seq<nat>) returns (out: seq<Slice>)
    ensures |out| == |sizes| && forall i :: 0 <= i < |out| ==> out[i] == Slice(i, Sum(sizes[..i]), sizes[i])
  {
    out := [];
    var off := 0;
    for i := 0 to |sizes|
      invariant |out| == i && off == Sum(sizes[..i])
      invariant forall j :: 0 <= j < i ==> out[j] == Slice(j, Sum(sizes[..j]), sizes[j])
    {
      out := out + [Slice(i, off, sizes[i])];
      assert sizes[..i + 1][..i] == sizes[..i];
      off := off + sizes[i];
    }
  }

  /** The slices tile the blob: each byte of it lies in exactly one layer's slice. */
  lemma {:induction false} SlicesTile(sizes: seq<nat>, b: nat) returns (i: nat)
    requires b < Sum(sizes)
    ensures i < |sizes| && Sum(sizes[..i]) <= b < Sum(sizes[..i]) + sizes[i]
    ensures forall j :: 0 <= j < |sizes| && Sum(sizes[..j]) <= b < Sum(sizes[..j]) + sizes[j] ==> j == i
  {
    var n := |sizes| - 1;
    if Sum(sizes[..n]) <= b {
      i := n;
    } else {
      i := SlicesTile(sizes[..n], b);
      assert sizes[..n][..i] == sizes[..i];
    }
    forall j | 0 <= j < |sizes| && Sum(sizes[..j]) <= b < Sum(sizes[..j]) + sizes[j] ensures j == i {
      if j < i { SumGrows(sizes, j, i); } else if i < j { SumGrows(sizes, i, j); }
    }
  }

  lemma {:induction false} SumGrows(sizes: seq<nat>, i: nat, j: nat)
    requires i < j <= |sizes|
    ensures Sum(sizes[..i]) + sizes[i] <= Sum(sizes[..j])
  {
    assert sizes[..j][..j - 1] == sizes[..j - 1];
    if i < j - 1 { SumGrows(sizes, i, j - 1); }
  }

  // ---- the run ----

  datatype Moved = Landed | Failed(error: string)

  ghost function UpTo(n: nat): seq<nat> {
    seq(n, i => i)
  }

  lemma UpToNext(n: nat)
    ensures UpTo(n) + [n] == UpTo(n + 1)
  {
  }

  // ---- traces ----

  /** What happens during a run: a transfer starts, one completes, a layer is announced. */
  datatype Event = Launch(layer: nat) | Complete(layer: nat) | Notify(layer: nat)

  /** Where a run is: the layer to start next, those in flight, those landed but not announced, those announced, the first failure. */
  datatype Pipe = Pipe(next: nat, flying: set<nat>, landed: set<nat>, watermark: nat, error: Option<string>)

  ghost function Happened(p: Pipe, e: Event, result: nat -> Moved): Pipe {
    match e
    case Launch(i) => p.(next := i + 1, flying := p.flying + {i})
    case Notify(i) => p.(watermark := i + 1, landed := p.landed - {i})
    case Complete(i) =>
      match result(i)
      case Landed => p.(flying := p.flying - {i}, landed := p.landed + {i})
      case Failed(e) => p.(flying := p.flying - {i}, error := if p.error.None? then Some(e) else p.error)
  }

  ghost function PipeAfter(trace: seq<Event>, result: nat -> Moved): Pipe {
    if trace == [] then Pipe(0, {}, {}, 0, None)
    else Happened(PipeAfter(trace[..|trace| - 1], result), trace[|trace| - 1], result)
  }

  /**
    What may happen next: while nothing has failed, layers start in order and within the
    bound, landed ones are announced in order at once, and the pipe is kept full; after
    a failure only what is in flight completes.
   */
  ghost predicate Allowed(p: Pipe, e: Event, n: nat, max: nat) {
    match e
    case Launch(i) => p.error.None? && i == p.next < n && |p.flying| < max && p.watermark !in p.landed
    case Notify(i) => p.error.None? && i == p.watermark && i in p.landed
    case Complete(i) => i in p.flying && (p.error.None? ==> p.watermark !in p.landed && (p.next == n || |p.flying| == max))
  }

  ghost predicate Legal(trace: seq<Event>, n: nat, max: nat, result: nat -> Moved) {
    forall k :: 0 <= k < |trace| ==> Allowed(PipeAfter(trace[..k], result), trace[k], n, max)
  }

  lemma {:induction false} OneMore(trace: seq<Event>, e: Event, n: nat, max: nat, result: nat -> Moved)
    requires Legal(trace, n, max, result) && Allowed(PipeAfter(trace, result), e, n, max)
    ensures Legal(trace + [e], n, max, result) && PipeAfter(trace + [e], result) == Happened(PipeAfter(trace, result), e, result)
  {
    hide Allowed, Happened, PipeAfter;
    var all := trace + [e];
    assert all[..|trace|] == trace;
    forall k | 0 <= k < |all| ensures Allowed(PipeAfter(all[..k], result), all[k], n, max) {
      if k < |trace| { assert all[..k] == trace[..k]; }
    }
    assert PipeAfter(all, result) == Happened(PipeAfter(trace, result), e, result) by { LastEvent(trace, e, result); }
  }

  lemma {:induction false} LastEvent(trace: seq<Event>, e: Event, result: nat -> Moved)
    ensures PipeAfter(trace + [e], result) == Happened(PipeAfter(trace, result), e, result)
  {
    assert (trace + [e])[..|trace|] == trace;
  }

  /** Never more in flight than the bound, at any point of a run. */
  lemma {:induction false} FlightBound(trace: seq<Event>, n: nat, max: nat, result: nat -> Moved, k: nat)
    requires Legal(trace, n, max, result) && k <= |trace|
    ensures |PipeAfter(trace[..k], result).flying| <= max
  {
    if k > 0 {
      FlightBound(trace, n, max, result, k - 1);
      assert trace[..k][..k - 1] == trace[..k - 1];
      assert Allowed(PipeAfter(trace[..k - 1], result), trace[k - 1], n, max);
    }
  }

  /** What a run knows of a layer: it is in flight if it started and has not completed, and landed only if it did complete so. */
  ghost predicate Recorded(trace: seq<Event>, result: nat -> Moved, i: nat) {
    var p := PipeAfter(trace, result);
    && (i in p.flying ==> Launch(i) in trace)
    && (i in p.landed || i < p.watermark ==> Complete(i) in trace && result(i).Landed?)
    && (i < p.next ==> Launch(i) in trace)
  }

  lemma {:induction false} RecordedAt(trace: seq<Event>, n: nat, max: nat, result: nat -> Moved, k: nat, i: nat)
    requires Legal(trace, n, max, result) && k <= |trace|
    ensures Recorded(trace[..k], result, i)
  {
    if k == 0 {
      assert trace[..k] == [];
    } else {
      hide Recorded, Allowed, PipeAfter;
      RecordedAt(trace, n, max, result, k - 1, i);
      assert trace[..k] == trace[..k - 1] + [trace[k - 1]];
      assert Allowed(PipeAfter(trace[..k - 1], result), trace[k - 1], n, max);
      RecordedMore(trace[..k - 1], trace[k - 1], n, max, result, i);
    }
  }

  lemma {:induction false} RecordedMore(trace: seq<Event>, e: Event, n: nat, max: nat, result: nat -> Moved, i: nat)
    requires Recorded(trace, result, i) && Allowed(PipeAfter(trace, result), e, n, max)
    ensures Recorded(trace + [e], result, i)
  {
    LastEvent(trace, e, result);
    hide PipeAfter;
    var all := trace + [e];
    assert all[|trace|] == e && forall f :: f in trace ==> f in all;
  }

  /** A layer is announced only when it and all before it have landed. */
  lemma {:induction false} NotifiedInOrder(trace: seq<Event>, n: nat, max: nat, result: nat -> Moved, k: nat, i: nat)
    requires Legal(trace, n, max, result) && k < |trace| && trace[k].Notify? && i <= trace[k].layer
    ensures Complete(i) in trace[..k] && result(i).Landed?
  {
    hide PipeAfter;
    RecordedAt(trace, n, max, result, k, i);
    assert Allowed(PipeAfter(trace[..k], result), trace[k], n, max);
  }

  /** The layers announced, in order. */
  ghost function Notified(trace: seq<Event>): seq<nat> {
    if trace == [] then []
    else
      var e := trace[|trace| - 1];
      Notified(trace[..|trace| - 1]) + if e.Notify? then [e.layer] else []
  }

  lemma {:induction false} NotifiedMore(trace: seq<Event>, e: Event)
    ensures Notified(trace + [e]) == Notified(trace) + if e.Notify? then [e.layer] else []
  {
    assert (trace + [e])[..|trace|] == trace;
  }

  /** A trace that has come as far as the fields of a run say. */
  ghost predicate Traced(trace: seq<Event>, n: nat, max: nat, result: nat -> Moved, p: Pipe, notified: seq<nat>) {
    Legal(trace, n, max, result) && PipeAfter(trace, result) == p && Notified(trace) == notified
  }

  lemma {:induction false} TracedMore(trace: seq<Event>, e: Event, n: nat, max: nat, result: nat -> Moved, p: Pipe, notified: seq<nat>)
    requires Traced(trace, n, max, result, p, notified) && Allowed(p, e, n, max)
    ensures Traced(trace + [e], n, max, result, Happened(p, e, result), notified + if e.Notify? then [e.layer] else [])
  {
    hide Legal, Allowed, Happened, PipeAfter, Notified;
    OneMore(trace, e, n, max, result);
    NotifiedMore(trace, e);
  }

  lemma {:induction false} NothingTraced(n: nat, max: nat, result: nat -> Moved)
    ensures Traced([], n, max, result, Pipe(0, {}, {}, 0, None), [])
  {
  }

  // ---- where layers are ----

  /** Where every launched layer is: in flight, announced, landed early, or failed. */
  ghost predicate Placed(result: nat -> Moved, next: nat, flying: set<nat>, watermark: nat, done: set<nat>) {
    && watermark <= next
    && (forall i :: i in flying ==> watermark <= i < next && i !in done)
    && (forall i :: i in done ==> watermark <= i < next && result(i).Landed?)
    && (forall i :: 0 <= i < watermark ==> result(i).Landed?)
    && (forall i :: 0 <= i < next ==> i in flying || i < watermark || i in done || result(i).Failed?)
  }

  lemma Lands(result: nat -> Moved, next: nat, flying: set<nat>, watermark: nat, done: set<nat>, i: nat)
    requires Placed(result, next, flying, watermark, done) && i in flying
    ensures i < next
    ensures result(i).Landed? ==> Placed(result, next, flying - {i}, watermark, done + {i})
    ensures result(i).Failed? ==> Placed(result, next, flying - {i}, watermark, done)
  {
  }

  lemma Launches(result: nat -> Moved, next: nat, flying: set<nat>, watermark: nat, done: set<nat>)
    requires Placed(result, next, flying, watermark, done)
    ensures next !in flying && Placed(result, next + 1, flying + {next}, watermark, done)
  {
  }

  /** No layer failed so far: whatever is not in flight has landed. */
  ghost predicate Healthy(result: nat -> Moved, next: nat, flying: set<nat>) {
    forall i :: 0 <= i < next && i !in flying ==> result(i).Landed?
  }

  /** Announce every layer that has landed together with all before it. */
  method Announce(ghost result: nat -> Moved, ghost n: nat, ghost max: nat, ghost trace0: seq<Event>, ghost next: nat, ghost flying: set<nat>,
      done0: set<nat>, watermark0: nat, notified0: seq<nat>)
      returns (done: set<nat>, watermark: nat, notified: seq<nat>, ghost trace: seq<Event>)
    requires Placed(result, next, flying, watermark0, done0) && notified0 == UpTo(watermark0)
    requires Traced(trace0, n, max, result, Pipe(next, flying, done0, watermark0, None), notified0)
    ensures Placed(result, next, flying, watermark, done) && notified == UpTo(watermark) && watermark !in done
    ensures Traced(trace, n, max, result, Pipe(next, flying, done, watermark, None), notified)
  {
    hide Traced;
    done, watermark, notified, trace := done0, watermark0, notified0, trace0;
    while watermark in done
      invariant Placed(result, next, flying, watermark, done) && notified == UpTo(watermark)
      invariant Traced(trace, n, max, result, Pipe(next, flying, done, watermark, None), notified)
      decreases done
    {
      TracedMore(trace, Notify(watermark), n, max, result, Pipe(next, flying, done, watermark, None), notified);
      trace := trace + [Notify(watermark)];
      done := done - {watermark};
      UpToNext(watermark);
      notified := notified + [watermark];
      watermark := watermark + 1;
    }
  }

  /** One transfer has completed: record it, and announce what is now in order. */
  method Join(result: nat -> Moved, ghost n: nat, ghost max: nat, ghost trace0: seq<Event>, ghost next: nat, ghost flying: set<nat>, i: nat,
      done0: set<nat>, watermark0: nat, notified0: seq<nat>, error0: Option<string>)
      returns (done: set<nat>, watermark: nat, notified: seq<nat>, error: Option<string>, ghost trace: seq<Event>)
    requires Placed(result, next, flying, watermark0, done0) && notified0 == UpTo(watermark0) && i in flying
    requires error0.None? ==> watermark0 !in done0 && Healthy(result, next, flying) && (next == n || |flying| == max)
    requires Traced(trace0, n, max, result, Pipe(next, flying, done0, watermark0, error0), notified0)
    ensures i < next && Placed(result, next, flying - {i}, watermark, done) && notified == UpTo(watermark)
    ensures error.None? ==> error0.None? && watermark !in done && Healthy(result, next, flying - {i})
    ensures error.Some? ==> if error0.Some? then error == error0 else result(i) == Failed(error.value)
    ensures Traced(trace, n, max, result, Pipe(next, flying - {i}, done, watermark, error), notified)
  {
    hide UpTo, Placed, Healthy, Traced;
    done, watermark, notified, error := done0, watermark0, notified0, error0;
    Lands(result, next, flying, watermark, done, i);
    StillHealthy(result, next, flying, i);
    TracedMore(trace0, Complete(i), n, max, result, Pipe(next, flying, done, watermark, error), notified);
    trace := trace0 + [Complete(i)];
    assert notified + [] == notified;
    match result(i) {
      case Landed =>
        done := done + {i};
        if error.None? {
          done, watermark, notified, trace := Announce(result, n, max, trace, next, flying - {i}, done, watermark, notified);
        }
      case Failed(e) =>
        if error.None? {
          error := Some(e);
        }
    }
  }

  /** The whole outcome of a run. */
  ghost predicate Outcome(sizes: seq<nat>, result: nat -> Moved, error: Option<string>, notified: seq<nat>, launched: seq<Slice>) {
    && (error.None? <==> forall i :: 0 <= i < |sizes| ==> result(i).Landed?)
    && (error.Some? ==> exists i :: 0 <= i < |launched| && result(i) == Failed(error.value))
    && |launched| <= |sizes| && (forall i :: 0 <= i < |launched| ==> launched[i] == Slice(i, Sum(sizes[..i]), sizes[i]))
    && |notified| <= |launched| && notified == UpTo(|notified|)
    && (forall i, j :: 0 <= i < |launched| && result(i).Failed? && j in notified ==> j < i)
    && (error.None? ==> |launched| == |sizes| && |notified| == |sizes|)
  }

  lemma Finished(sizes: seq<nat>, layers: seq<Slice>, result: nat -> Moved, next: nat, watermark: nat, done: set<nat>, error: Option<string>)
    requires |layers| == |sizes| && forall i :: 0 <= i < |layers| ==> layers[i] == Slice(i, Sum(sizes[..i]), sizes[i])
    requires Placed(result, next, {}, watermark, done) && next <= |sizes|
    requires error.None? ==> next == |sizes| && watermark !in done && Healthy(result, next, {})
    requires error.Some? ==> exists i :: 0 <= i < next && result(i) == Failed(error.value)
    ensures Outcome(sizes, result, error, UpTo(watermark), layers[..next])
  {
    hide Sum;
  }

  /**
    Move every layer with at most `maxInflight` in flight. Any layer in flight may
    complete next, with the result `result` gives it.
   */
  method RunLayersWithNotify(sizes: seq<nat>, maxInflight: nat, result: nat -> Moved)
      returns (error: Option<string>, notified: seq<nat>, launched: seq<Slice>, ghost trace: seq<Event>)
    ensures Outcome(sizes, result, error, notified, launched)
    ensures var max := if maxInflight == 0 then 1 else maxInflight;
      && Legal(trace, |sizes|, max, result) && Notified(trace) == notified
      && var p := PipeAfter(trace, result); p.flying == {} && p.error == error && p.next == |launched| && p.watermark == |notified|
  {
    hide Sum, UpTo, Placed, Outcome, Healthy, Traced;
    var layers := LayerSlices(sizes);
    var n := |layers|;
    var max := if maxInflight == 0 then 1 else maxInflight;
    var next: nat, flying: set<nat>;
    next, flying, trace := Prime(n, max, result);
    error, notified := None, [];
    NothingMoved(result);
    var done: set<nat> := {};
    var watermark: nat := 0;
    ghost var culprit: nat := 0;
    while flying != {}
      invariant Placed(result, next, flying, watermark, done)
      invariant next <= n && |flying| <= max
      invariant notified == UpTo(watermark) && Traced(trace, n, max, result, Pipe(next, flying, done, watermark, error), notified)
      invariant error.None? ==> watermark !in done && Healthy(result, next, flying) && (next == n || |flying| == max)
      invariant error.Some? ==> 0 <= culprit < next && result(culprit) == Failed(error.value)
      decreases |flying| + (n - next)
    {
      var i: nat :| i in flying;
      if error.None? { culprit := i; }
      done, watermark, notified, error, trace := Join(result, n, max, trace, next, flying, i, done, watermark, notified, error);
      flying := flying - {i};
      if error.None? && next < n {
        Launches(result, next, flying, watermark, done);
        Healthier(result, next, flying);
        TracedMore(trace, Launch(next), n, max, result, Pipe(next, flying, done, watermark, error), notified);
        assert notified + [] == notified;
        trace := trace + [Launch(next)];
        flying := flying + {next};
        next := next + 1;
      }
    }
    launched := layers[..next];
    Finished(sizes, layers, result, next, watermark, done, error);
    TraceEnds(trace, n, max, result, Pipe(next, flying, done, watermark, error), notified);
  }

  lemma TraceEnds(trace: seq<Event>, n: nat, max: nat, result: nat -> Moved, p: Pipe, notified: seq<nat>)
    requires Traced(trace, n, max, result, p, notified) && notified == UpTo(p.watermark)
    ensures Legal(trace, n, max, result) && PipeAfter(trace, result) == p && Notified(trace) == notified && |notified| == p.watermark
  {
  }

  /** Launch the first layers, as many as may be in flight. */
  method Prime(n: nat, max: nat, ghost result: nat -> Moved) returns (next: nat, flying: set<nat>, ghost trace: seq<Event>)
    requires max > 0
    ensures next == (if n < max then n else max) && |flying| == next && forall i :: i in flying <==> 0 <= i < next
    ensures Placed(result, next, flying, 0, {}) && Healthy(result, next, flying)
    ensures Traced(trace, n, max, result, Pipe(next, flying, {}, 0, None), [])
  {
    hide Placed, Healthy, Traced;
    NothingMoved(result);
    NothingTraced(n, max, result);
    next, flying, trace := 0, {}, [];
    while next < n && |flying| < max
      invariant next <= n && |flying| == next <= max && forall i :: i in flying <==> 0 <= i < next
      invariant Placed(result, next, flying, 0, {}) && Healthy(result, next, flying)
      invariant Traced(trace, n, max, result, Pipe(next, flying, {}, 0, None), [])
    {
      Launches(result, next, flying, 0, {});
      Healthier(result, next, flying);
      ghost var none: seq<nat> := [];
      TracedMore(trace, Launch(next), n, max, result, Pipe(next, flying, {}, 0, None), none);
      assert none + [] == none;
      trace := trace + [Launch(next)];
      flying := flying + {next};
      next := next + 1;
    }
  }

  lemma NothingMoved(result: nat -> Moved)
    ensures Placed(result, 0, {}, 0, {}) && Healthy(result, 0, {}) && UpTo(0) == []
  {
  }

  lemma Healthier(result: nat -> Moved, next: nat, flying: set<nat>)
    requires Healthy(result, next, flying)
    ensures Healthy(result, next + 1, flying + {next})
  {
  }

  lemma StillHealthy(result: nat -> Moved, next: nat, flying: set<nat>, i: nat)
    ensures Healthy(result, next, flying) && result(i).Landed? ==> Healthy(result, next, flying - {i})
  {
  }
}
