/**
  A mounted segment as a value: the byte ranges its allocator has handed out.
 */
module Segments {

  datatype Option<+T> = None | Some(value: T)

  function SaturatingSub(a: nat, b: nat): nat {
    if b <= a then a - b else 0
  }

  /** A buffer in a segment: where an object's bytes live. */
  datatype Buffer = Buffer(segment: string, offset: nat, size: nat)

  /** One range handed out: the size asked for and the bytes set aside for it. */
  datatype Hold = Hold(size: nat, extent: nat)

  datatype Segment = Segment(name: string, capacity: nat, holds: map<nat, Hold>) {

    /** Ranges lie inside the segment and no two overlap. */
    ghost predicate Valid() {
      && (forall o :: o in holds ==> 0 < holds[o].size <= holds[o].extent && o + holds[o].extent <= capacity)
      && (forall o, o' :: o in holds && o' in holds && o < o' ==> o + holds[o].extent <= o')
    }

    /** Nothing handed out overlaps `[lo, hi)`. */
    ghost predicate Free(lo: nat, hi: nat) {
      forall o :: o in holds ==> o + holds[o].extent <= lo || hi <= o
    }

    ghost function Allocated(): nat {
      SizeSum(holds)
    }
  }

  /** Where the gaps between some holds start: at the front or where one ends, and where none starts. */
  ghost function Gaps(holds: map<nat, Hold>, capacity: nat): set<nat> {
    set x | x in {0} + HoldEnds(holds) && x < capacity && x !in holds
  }

  ghost function HoldEnds(holds: map<nat, Hold>): set<nat> {
    set o | o in holds :: o + holds[o].extent
  }

  /** There is at most one gap behind each hold, and one in front. */
  lemma GapsBound(holds: map<nat, Hold>, capacity: nat)
    ensures |Gaps(holds, capacity)| <= |holds| + 1
  {
    EndsBound(holds);
    SubsetSize(Gaps(holds, capacity), {0} + HoldEnds(holds));
  }

  lemma {:induction false} EndsBound(holds: map<nat, Hold>)
    ensures |HoldEnds(holds)| <= |holds|
    decreases |holds|
  {
    if holds == map[] {
      assert HoldEnds(holds) == {};
    } else {
      var o :| o in holds;
      EndsLess(holds, o);
      hide HoldEnds;
      EndsBound(holds - {o});
    }
  }

  lemma EndsLess(holds: map<nat, Hold>, o: nat)
    requires o in holds
    ensures HoldEnds(holds) == HoldEnds(holds - {o}) + {o + holds[o].extent}
  {
    var less := holds - {o};
    forall x | x in HoldEnds(holds) ensures x in HoldEnds(less) || x == o + holds[o].extent {
      var p :| p in holds && p + holds[p].extent == x;
      assert p != o ==> p in less && less[p] == holds[p];
    }
    forall x | x in HoldEnds(less) ensures x in HoldEnds(holds) {
      var p :| p in less && p + less[p].extent == x;
      assert p in holds;
    }
  }

  lemma {:induction false} SubsetSize<T>(a: set<T>, b: set<T>)
    requires a <= b
    ensures |a| <= |b|
  {
    if a != {} {
      var x :| x in a;
      SubsetSize(a - {x}, b - {x});
    }
  }

  /** The bytes asked for over all holds. */
  ghost function SizeSum(holds: map<nat, Hold>): nat {
    if holds == map[] then 0
    else
      var o :| o in holds;
      holds[o].size + SizeSum(holds - {o})
  }

  /** The sum may be taken starting with any hold. */
  lemma {:induction false} SizeSumRemove(holds: map<nat, Hold>, o: nat)
    requires o in holds
    ensures SizeSum(holds) == holds[o].size + SizeSum(holds - {o})
    decreases |holds|
  {
    var p :| p in holds && SizeSum(holds) == holds[p].size + SizeSum(holds - {p});
    if p != o {
      SizeSumRemove(holds - {p}, o);
      SizeSumRemove(holds - {o}, p);
      assert holds - {p} - {o} == holds - {o} - {p};
    }
  }

  lemma {:induction false} SizeSumAdd(holds: map<nat, Hold>, o: nat, h: Hold)
    requires o !in holds
    ensures SizeSum(holds[o := h]) == SizeSum(holds) + h.size
  {
    SizeSumRemove(holds[o := h], o);
    assert holds[o := h] - {o} == holds;
  }
}
