/**
  The master's lock order: the segment lock, then one shard or all shards in
  ascending order, then the op-log. Threads that follow it never deadlock.
 */
module LockOrder {

  datatype Lock = SegmentLock | ShardLock(index: nat) | OpLogLock | LeafLock(name: nat)

  datatype Action = Acquire(lock: Lock) | Release(lock: Lock)

  /** A thread: what it has left to do, and the locks it holds. */
  datatype Thread = Thread(todo: seq<Action>, held: set<Lock>)

  type System = seq<Thread>

  /** The order locks are taken in: segments, shards by index, then the op-log and the leaves. */
  ghost predicate Before(a: Lock, b: Lock) {
    match (a, b)
    case (SegmentLock, _) => !b.SegmentLock?
    case (ShardLock(i), ShardLock(j)) => i < j
    case (ShardLock(_), OpLogLock) => true
    case (ShardLock(_), LeafLock(_)) => true
    case (_, _) => false
  }

  lemma BeforeTransitive(a: Lock, b: Lock, c: Lock)
    requires Before(a, b) && Before(b, c)
    ensures Before(a, c) && a != c
  {
  }

  /** A program that takes each lock only above all it holds, releases only what it holds, and ends holding nothing. */
  ghost predicate Disciplined(todo: seq<Action>, held: set<Lock>)
    decreases |todo|
  {
    if todo == [] then held == {}
    else
      match todo[0]
      case Acquire(l) => (forall m :: m in held ==> Before(m, l)) && Disciplined(todo[1..], held + {l})
      case Release(l) => l in held && Disciplined(todo[1..], held - {l})
  }

  ghost predicate Ok(s: System) {
    && (forall i :: 0 <= i < |s| ==> Disciplined(s[i].todo, s[i].held))
    && (forall i, j :: 0 <= i < j < |s| ==> s[i].held !! s[j].held)
  }

  ghost predicate Taken(s: System, l: Lock) {
    exists i :: 0 <= i < |s| && l in s[i].held
  }

  /** Thread `i` can take its next action now. */
  ghost predicate CanStep(s: System, i: nat) {
    && i < |s| && s[i].todo != []
    && (s[i].todo[0].Acquire? ==> !Taken(s, s[i].todo[0].lock))
  }

  ghost function Step(s: System, i: nat): System
    requires CanStep(s, i)
  {
    var t := s[i];
    s[i := Thread(t.todo[1..], match t.todo[0] case Acquire(l) => t.held + {l} case Release(l) => t.held - {l})]
  }

  /** Every step keeps the discipline and mutual exclusion. */
  lemma StepOk(s: System, i: nat)
    requires Ok(s) && CanStep(s, i)
    ensures Ok(Step(s, i))
  {
    var u := Step(s, i);
    assert Disciplined(s[i].todo, s[i].held);
    forall j, k | 0 <= j < k < |u| ensures u[j].held !! u[k].held {
      if j == i && s[i].todo[0].Acquire? { assert s[i].todo[0].lock !in s[k].held; }
      if k == i && s[i].todo[0].Acquire? { assert s[i].todo[0].lock !in s[j].held; }
    }
  }

  /** Some lock among those waited for is not before any other waited for. */
  lemma {:induction false} Topmost(s: System, waiting: set<nat>) returns (i: nat)
    requires waiting != {} && forall j :: j in waiting ==> j < |s| && s[j].todo != []
    ensures i in waiting && forall j :: j in waiting ==> !Before(s[i].todo[0].lock, s[j].todo[0].lock)
    decreases |waiting|
  {
    i :| i in waiting;
    var rest := waiting - {i};
    if rest == {} {
      assert waiting == {i};
    } else {
      var k := Topmost(s, rest);
      var a, b := s[i].todo[0].lock, s[k].todo[0].lock;
      if Before(a, b) {
        forall j | j in waiting ensures !Before(b, s[j].todo[0].lock) {
          if j == i && Before(b, a) { BeforeTransitive(a, b, a); }
        }
        i := k;
      } else {
        forall j | j in waiting ensures !Before(a, s[j].todo[0].lock) {
          if j != i && Before(a, s[j].todo[0].lock) { Above(a, b, s[j].todo[0].lock); }
        }
      }
    }
  }

  /** Locks that are not ordered are equals: what is above one is above the other. */
  lemma Above(a: Lock, b: Lock, c: Lock)
    requires Before(a, c) && !Before(a, b)
    ensures Before(b, c)
  {
  }

  /** While a thread has something to do, some thread can do its next action: no deadlock. */
  lemma NoDeadlock(s: System) returns (i: nat)
    requires Ok(s) && exists j :: 0 <= j < |s| && s[j].todo != []
    ensures CanStep(s, i)
  {
    var waiting := set j: nat | j < |s| && s[j].todo != [];
    var some :| 0 <= some < |s| && s[some].todo != [];
    assert some in waiting;
    i := Topmost(s, waiting);
    assert Disciplined(s[i].todo, s[i].held);
    if s[i].todo[0].Acquire? && Taken(s, s[i].todo[0].lock) {
      var l := s[i].todo[0].lock;
      var k :| 0 <= k < |s| && l in s[k].held;
      assert Disciplined(s[k].todo, s[k].held);
      assert k in waiting;
      i := k;
    }
  }

  // ---- runs ----

  /** The system after some schedule of steps. */
  ghost predicate Schedule(s: System, schedule: seq<nat>)
    decreases |schedule|
  {
    schedule != [] ==> CanStep(s, schedule[0]) && Schedule(Step(s, schedule[0]), schedule[1..])
  }

  ghost function Reached(s: System, schedule: seq<nat>): System
    requires Schedule(s, schedule)
    decreases |schedule|
  {
    if schedule == [] then s else Reached(Step(s, schedule[0]), schedule[1..])
  }

  lemma {:induction false} ReachedOk(s: System, schedule: seq<nat>)
    requires Ok(s) && Schedule(s, schedule)
    ensures Ok(Reached(s, schedule))
    decreases |schedule|
  {
    if schedule != [] {
      StepOk(s, schedule[0]);
      ReachedOk(Step(s, schedule[0]), schedule[1..]);
    }
  }

  // ---- the programs of the master's operations ----

  /** What an operation does between taking and giving back the segment lock, or on its own. */
  datatype Section = OneShard(index: nat) | AllShards | LogOp | Leaf(name: nat)

  /** An operation: sections on their own, or sections under the segment lock. */
  datatype Part = Plain(section: Section) | UnderSegments(body: seq<Section>)

  ghost function TakeAll(from: nat, n: nat): seq<Action>
    requires from <= n
    decreases n - from
  {
    if from == n then [] else [Acquire(ShardLock(from))] + TakeAll(from + 1, n)
  }

  ghost function DropAll(from: nat, n: nat): seq<Action>
    requires from <= n
    decreases n - from
  {
    if from == n then [] else [Release(ShardLock(from))] + DropAll(from + 1, n)
  }

  ghost function Lines(s: Section, n: nat): seq<Action> {
    match s
    case OneShard(i) => [Acquire(ShardLock(i)), Release(ShardLock(i))]
    case AllShards => TakeAll(0, n) + DropAll(0, n)
    case LogOp => [Acquire(OpLogLock), Release(OpLogLock)]
    case Leaf(m) => [Acquire(LeafLock(m)), Release(LeafLock(m))]
  }

  ghost function BodyLines(body: seq<Section>, n: nat): seq<Action> {
    if body == [] then [] else Lines(body[0], n) + BodyLines(body[1..], n)
  }

  ghost function PartLines(p: Part, n: nat): seq<Action> {
    match p
    case Plain(s) => Lines(s, n)
    case UnderSegments(body) => [Acquire(SegmentLock)] + BodyLines(body, n) + [Release(SegmentLock)]
  }

  ghost function Program(parts: seq<Part>, n: nat): seq<Action> {
    if parts == [] then [] else PartLines(parts[0], n) + Program(parts[1..], n)
  }

  ghost function Shards(from: nat, to: nat): set<Lock> {
    set i: nat {:trigger ShardLock(i)} | from <= i < to :: ShardLock(i)
  }

  lemma {:induction false} TakeOk(l: Lock, held: set<Lock>, rest: seq<Action>)
    requires (forall m :: m in held ==> Before(m, l)) && Disciplined(rest, held + {l})
    ensures Disciplined([Acquire(l)] + rest, held)
  {
    assert ([Acquire(l)] + rest)[1..] == rest;
  }

  lemma {:induction false} GiveOk(l: Lock, held: set<Lock>, rest: seq<Action>)
    requires l in held && Disciplined(rest, held - {l})
    ensures Disciplined([Release(l)] + rest, held)
  {
    assert ([Release(l)] + rest)[1..] == rest;
  }

  lemma Assoc(a: seq<Action>, b: seq<Action>, c: seq<Action>)
    ensures a + b + c == a + (b + c)
  {
  }

  lemma {:induction false} PairOk(l: Lock, held: set<Lock>, rest: seq<Action>)
    requires l !in held && (forall m :: m in held ==> Before(m, l)) && Disciplined(rest, held)
    ensures Disciplined([Acquire(l), Release(l)] + rest, held)
  {
    assert held + {l} - {l} == held;
    assert [Acquire(l), Release(l)] + rest == [Acquire(l)] + ([Release(l)] + rest);
    hide Disciplined;
    GiveOk(l, held + {l}, rest);
    TakeOk(l, held, [Release(l)] + rest);
  }

  /** Running `xs` from `held` gives back what it took and leaves the rest of the program disciplined. */
  lemma {:induction false} TakeAllOk(from: nat, n: nat, base: set<Lock>, rest: seq<Action>)
    requires from <= n && base <= {SegmentLock} && Disciplined(rest, base + Shards(0, n))
    ensures Disciplined(TakeAll(from, n) + rest, base + Shards(0, from))
    decreases n - from
  {
    if from == n {
      assert TakeAll(from, n) + rest == rest;
    } else {
      var held := base + Shards(0, from);
      TakeAllOk(from + 1, n, base, rest);
      assert held + {ShardLock(from)} == base + Shards(0, from + 1);
      hide Disciplined;
      TakeOk(ShardLock(from), held, TakeAll(from + 1, n) + rest);
      assert TakeAll(from, n) + rest == [Acquire(ShardLock(from))] + (TakeAll(from + 1, n) + rest);
    }
  }

  lemma {:induction false} DropAllOk(from: nat, n: nat, base: set<Lock>, rest: seq<Action>)
    requires from <= n && base <= {SegmentLock} && Disciplined(rest, base)
    ensures Disciplined(DropAll(from, n) + rest, base + Shards(from, n))
    decreases n - from
  {
    if from == n {
      assert DropAll(from, n) + rest == rest;
      assert base + Shards(from, n) == base;
    } else {
      DropAllOk(from + 1, n, base, rest);
      assert base + Shards(from, n) - {ShardLock(from)} == base + Shards(from + 1, n);
      assert ShardLock(from) in Shards(from, n);
      hide Disciplined;
      GiveOk(ShardLock(from), base + Shards(from, n), DropAll(from + 1, n) + rest);
      assert DropAll(from, n) + rest == [Release(ShardLock(from))] + (DropAll(from + 1, n) + rest);
    }
  }

  lemma {:induction false} LinesOk(s: Section, n: nat, base: set<Lock>, rest: seq<Action>)
    requires base <= {SegmentLock} && Disciplined(rest, base)
    ensures Disciplined(Lines(s, n) + rest, base)
  {
    hide Disciplined, TakeAll, DropAll;
    match s
    case OneShard(i) => PairOk(ShardLock(i), base, rest);
    case LogOp => PairOk(OpLogLock, base, rest);
    case Leaf(m) => PairOk(LeafLock(m), base, rest);
    case AllShards =>
      DropAllOk(0, n, base, rest);
      TakeAllOk(0, n, base, DropAll(0, n) + rest);
      assert base + Shards(0, 0) == base;
      Assoc(TakeAll(0, n), DropAll(0, n), rest);
  }

  lemma {:induction false} BodyOk(body: seq<Section>, n: nat, base: set<Lock>, rest: seq<Action>)
    requires base <= {SegmentLock} && Disciplined(rest, base)
    ensures Disciplined(BodyLines(body, n) + rest, base)
  {
    if body == [] {
      assert BodyLines(body, n) + rest == rest;
    } else {
      hide Disciplined, Lines;
      BodyOk(body[1..], n, base, rest);
      LinesOk(body[0], n, base, BodyLines(body[1..], n) + rest);
      Assoc(Lines(body[0], n), BodyLines(body[1..], n), rest);
    }
  }

  /** Every sequence of master operations is a disciplined program. */
  lemma {:induction false} ProgramOk(parts: seq<Part>, n: nat)
    ensures Disciplined(Program(parts, n), {})
  {
    if parts != [] {
      hide Disciplined, Lines, BodyLines;
      ProgramOk(parts[1..], n);
      var rest := Program(parts[1..], n);
      match parts[0]
      case Plain(s) => LinesOk(s, n, {}, rest);
      case UnderSegments(body) => UnderOk(body, n, rest);
    }
  }

  lemma {:induction false} UnderOk(body: seq<Section>, n: nat, rest: seq<Action>)
    requires Disciplined(rest, {})
    ensures Disciplined([Acquire(SegmentLock)] + BodyLines(body, n) + [Release(SegmentLock)] + rest, {})
  {
    hide Disciplined, BodyLines;
    var a, b, c := [Acquire(SegmentLock)], BodyLines(body, n), [Release(SegmentLock)];
    assert {SegmentLock} - {SegmentLock} == {} && {} + {SegmentLock} == {SegmentLock};
    GiveOk(SegmentLock, {SegmentLock}, rest);
    BodyOk(body, n, {SegmentLock}, c + rest);
    TakeOk(SegmentLock, {}, b + (c + rest));
    Assoc(a + b, c, rest);
    Assoc(a, b, c + rest);
  }

  /** Threads running master operations under any schedule: some unfinished thread can always go on. */
  lemma MasterNeverDeadlocks(programs: seq<seq<Part>>, n: nat, schedule: seq<nat>) returns (i: nat)
    requires Schedule(Start(programs, n), schedule)
    requires exists j :: 0 <= j < |Reached(Start(programs, n), schedule)| && Reached(Start(programs, n), schedule)[j].todo != []
    ensures CanStep(Reached(Start(programs, n), schedule), i)
  {
    var s := Start(programs, n);
    forall j | 0 <= j < |s| ensures Disciplined(s[j].todo, s[j].held) { ProgramOk(programs[j], n); }
    ReachedOk(s, schedule);
    i := NoDeadlock(Reached(s, schedule));
  }

  ghost function Start(programs: seq<seq<Part>>, n: nat): (s: System)
    ensures |s| == |programs|
  {
    seq(|programs|, i requires 0 <= i < |programs| => Thread(Program(programs[i], n), {}))
  }
}
