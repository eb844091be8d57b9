/** The priority queue of the wave engines: heapq over (-energy, node, steps, path). */
module Heap {

  // A queued label; path lists edge types, compared as a tuple.
  datatype Item = Item(energy: real, node: int, steps: nat, path: seq<int>)

  predicate PathLess(a: seq<int>, b: seq<int>) {
    if |b| == 0 then false
    else if |a| == 0 then true
    else if a[0] != b[0] then a[0] < b[0]
    else PathLess(a[1..], b[1..])
  }

  /** Paths compare as tuples: after the common part, one ends or has the smaller type. */
  lemma {:induction false} PathLessIff(a: seq<int>, b: seq<int>)
    ensures PathLess(a, b) <==> exists k | 0 <= k <= |a| && k <= |b| :: a[..k] == b[..k] && SmallerAt(a, b, k)
    decreases |a|
  {
    if |a| > 0 && |b| > 0 && a[0] == b[0] {
      PathLessIff(a[1..], b[1..]);
      if k :| 0 <= k <= |a[1..]| && k <= |b[1..]| && a[1..][..k] == b[1..][..k] && SmallerAt(a[1..], b[1..], k) {
        assert a[..k + 1] == [a[0]] + a[1..][..k] && b[..k + 1] == [b[0]] + b[1..][..k];
        assert SmallerAt(a, b, k + 1);
      }
      if k :| 0 <= k <= |a| && k <= |b| && a[..k] == b[..k] && SmallerAt(a, b, k) {
        assert a[1..][..k - 1] == a[..k][1..] && b[1..][..k - 1] == b[..k][1..];
        assert SmallerAt(a[1..], b[1..], k - 1);
      }
    } else {
      assert a[..0] == b[..0];
      assert SmallerAt(a, b, 0) <==> PathLess(a, b);
      if k :| 0 <= k <= |a| && k <= |b| && a[..k] == b[..k] && SmallerAt(a, b, k) {
        SamePrefix(a, b, k);
      }
    }
  }

  ghost predicate SmallerAt(a: seq<int>, b: seq<int>, k: nat)
    requires k <= |a| && k <= |b|
  {
    k < |b| && (k == |a| || a[k] < b[k])
  }

  lemma SamePrefix(a: seq<int>, b: seq<int>, k: nat)
    requires k <= |a| && k <= |b| && a[..k] == b[..k]
    ensures k > 0 ==> a[0] == b[0]
  {
    if k > 0 { assert a[..k][0] == b[..k][0]; }
  }

  predicate Before(a: Item, b: Item) {
    if a.energy != b.energy then a.energy > b.energy
    else if a.node != b.node then a.node < b.node
    else if a.steps != b.steps then a.steps < b.steps
    else PathLess(a.path, b.path)
  }

  lemma {:induction false} PathLessTransitive(a: seq<int>, b: seq<int>, c: seq<int>)
    requires PathLess(a, b) && PathLess(b, c)
    ensures PathLess(a, c)
    decreases |a|
  {
    if |a| > 0 && a[0] == b[0] == c[0] { PathLessTransitive(a[1..], b[1..], c[1..]); }
  }

  lemma BeforeTransitive(a: Item, b: Item, c: Item)
    requires Before(a, b) && Before(b, c)
    ensures Before(a, c)
  {
    hide PathLess;
    if PathLess(a.path, b.path) && PathLess(b.path, c.path) { PathLessTransitive(a.path, b.path, c.path); }
  }

  // Where the next item to pop stands: nothing in the queue comes before it.
  function Front(q: seq<Item>): (i: nat)
    requires |q| > 0
    ensures i < |q|
    ensures forall j | 0 <= j < |q| :: !Before(q[j], q[i]) && q[j].energy <= q[i].energy
    ensures forall j | 0 <= j < |q| && q[j].energy == q[i].energy :: q[i].node <= q[j].node
    ensures forall j | 0 <= j < |q| && q[j].energy == q[i].energy && q[j].node == q[i].node :: q[i].steps <= q[j].steps
    ensures forall j | 0 <= j < |q| && q[j].energy == q[i].energy && q[j].node == q[i].node && q[j].steps == q[i].steps ::
              !PathLess(q[j].path, q[i].path)
  {
    hide PathLess;
    if |q| == 1 then
      Irreflexive(q[0]);
      0
    else
      var last := |q| - 1;
      var i := Front(q[..last]);
      Irreflexive(q[last]);
      assert forall j | 0 <= j < last :: q[..last][j] == q[j];
      if Before(q[last], q[i]) then
        FrontMoves(q, i);
        last
      else i
  }

  lemma FrontMoves(q: seq<Item>, i: nat)
    requires i < |q| - 1 && Before(q[|q| - 1], q[i])
    requires forall j | 0 <= j < |q| - 1 :: !Before(q[j], q[i])
    ensures forall j | 0 <= j < |q| - 1 :: !Before(q[j], q[|q| - 1])
  {
    forall j | 0 <= j < |q| - 1 ensures !Before(q[j], q[|q| - 1]) {
      if Before(q[j], q[|q| - 1]) { BeforeTransitive(q[j], q[|q| - 1], q[i]); }
    }
  }

  lemma {:induction false} PathLessIrreflexive(a: seq<int>)
    ensures !PathLess(a, a)
  {
    if |a| > 0 { PathLessIrreflexive(a[1..]); }
  }

  lemma Irreflexive(a: Item)
    ensures !Before(a, a)
  {
    PathLessIrreflexive(a.path);
  }

  function Rest(q: seq<Item>): (r: seq<Item>)
    requires |q| > 0
    ensures |r| == |q| - 1
    ensures forall x :: x in r ==> x in q
    ensures forall x :: x in q ==> x in r || x == q[Front(q)]
  {
    q[..Front(q)] + q[Front(q) + 1..]
  }
}
