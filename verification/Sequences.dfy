/**
  Sequences without repetition, and inserting into them as the sorts of this project do.
 */
module Sequences {

  ghost predicate Distinct<T(!new)>(s: seq<T>) {
    forall i, j :: 0 <= i < j < |s| ==> s[i] != s[j]
  }

  function InsertAt<T>(order: seq<T>, p: nat, x: T): seq<T>
    requires p <= |order|
  {
    order[..p] + [x] + order[p..]
  }

  lemma InsertAtIndex<T>(order: seq<T>, p: nat, x: T, i: nat)
    requires p <= |order| && i <= |order|
    ensures |InsertAt(order, p, x)| == |order| + 1
    ensures InsertAt(order, p, x)[i] == if i < p then order[i] else if i == p then x else order[i - 1]
  {
  }

  lemma InsertAtMembers<T>(order: seq<T>, p: nat, x: T)
    requires p <= |order|
    ensures forall k :: k in InsertAt(order, p, x) <==> k in order || k == x
  {
    assert order == order[..p] + order[p..];
  }
}
