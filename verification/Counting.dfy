/** Counting distinct integers. */
module Counting {
  import opened Sorting

  lemma {:induction false} DistinctWithin(vs: seq<int>, r: set<int>)
    requires Distinct(vs) && forall i | 0 <= i < |vs| :: vs[i] in r
    ensures |vs| <= |r|
    decreases |vs|
  {
    if |vs| > 0 {
      assert |r - {vs[0]}| == |r| - 1;
      DistinctWithin(vs[1..], r - {vs[0]});
    }
  }

  ghost function Range(n: nat): (r: set<int>)
    ensures |r| == n
    ensures forall i :: i in r <==> 0 <= i < n
  {
    if n == 0 then {} else Range(n - 1) + {n - 1}
  }

  // As many distinct nodes as there are visit every node.
  lemma AllVisited(vs: seq<int>, n: nat, d: int)
    requires Distinct(vs) && (forall i | 0 <= i < |vs| :: 0 <= vs[i] < n) && n <= |vs| && 0 <= d < n
    ensures exists i :: 0 <= i < |vs| && vs[i] == d
  {
    var r := Range(n);
    assert |r - {d}| == n - 1;
    if forall i | 0 <= i < |vs| :: vs[i] != d {
      DistinctWithin(vs, r - {d});
    }
  }
}
