/** The pigeonhole principle for the numbers below `n`. */
module Counting {
  import Recency

  ghost function Below(n: nat): (s: set<nat>)
    ensures |s| == n
    ensures forall i: nat :: i in s <==> i < n
  {
    if n == 0 then {} else Below(n - 1) + {n - 1}
  }

  lemma {:induction false} SizeOfSubset(a: set<nat>, b: set<nat>)
    requires a <= b
    ensures |a| <= |b|
  {
    if x: nat :| x in a {
      SizeOfSubset(a - {x}, b - {x});
    }
  }

  lemma {:induction false} SizeOfListed(order: seq<nat>)
    requires Recency.NoRepeats(order)
    ensures |set i: nat | i in order| == |order|
  {
    if order != [] {
      var front, last := order[..|order| - 1], order[|order| - 1];
      SizeOfListed(front);
      assert order == front + [last];
      assert (set i: nat | i in order) == (set i: nat | i in front) + {last};
    }
  }

  /** `n` different numbers below `n` are all of them. */
  lemma AllListed(order: seq<nat>, n: nat, i: nat)
    requires |order| == n && Recency.NoRepeats(order)
    requires forall p :: 0 <= p < n ==> order[p] < n
    requires i < n
    ensures i in order
  {
    SizeOfListed(order);
    var listed := set j: nat | j in order;
    if i !in order {
      SizeOfSubset(listed, Below(n) - {i});
    }
  }

  ghost function Position(order: seq<nat>, i: nat): (p: nat)
    requires i in order
    ensures p < |order| && order[p] == i
  {
    var p :| 0 <= p < |order| && order[p] == i;
    p
  }
}
