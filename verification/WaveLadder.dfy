/** The graphs on which a step bound in between fails: a strong long path hides a weak short one
    that still had steps left. */
module WaveLadder {
  import opened Heap
  import opened Wave
  import opened WaveEngine

  // Nodes 0 to m + 1 in a row of full-strength arcs; two weak short cuts from 0 to m, the better
  // one by no more than the tolerance; and a blocking loop at node n - 1.
  const HALF: real := 0.5

  function Along(u: int): Arc {
    Arc(u + 1, 5, 1.0)
  }

  function Weaker(m: nat): Arc {
    Arc(m, 5, HALF)
  }

  function Better(m: nat, eps: real): Arc {
    Arc(m, 5, HALF + eps)
  }

  function Loop(v: int): Arc {
    Arc(v, IS_NOT_EDGE, 1.0)
  }

  function RowHops(k: nat): (hops: seq<Hop>)
    ensures |hops| == k
  {
    seq(k, i requires 0 <= i < k => Hop(i + 1, Along(i + 1)))
  }

  function LadderHops(n: nat, m: nat, eps: real): seq<Hop> {
    [Hop(0, Along(0)), Hop(0, Weaker(m)), Hop(0, Better(m, eps))] + RowHops(m) + [Hop(n - 1, Loop(n - 1))]
  }

  ghost predicate Bounds(n: nat, m: nat, eps: real) {
    2 <= m && m + 2 <= n && 0.0 <= eps < HALF
  }

  lemma LadderIsAddable(n: nat, m: nat, eps: real)
    requires Bounds(n, m, eps)
    ensures Addable(LadderHops(n, m, eps))
  {
  }

  ghost function Ladder(n: nat, m: nat, eps: real): Graph
    requires Bounds(n, m, eps)
  {
    LadderIsAddable(n, m, eps);
    Built(LadderHops(n, m, eps))
  }

  function Query(m: nat, eps: real): Config {
    Config(0, {5}, 0.0, 1, m, 1.0, map[5 := 1.0], eps)
  }

  // The walk that is lost.
  function Hidden(m: nat, eps: real): seq<Hop> {
    [Hop(0, Better(m, eps)), Hop(m, Along(m))]
  }

  // ----- what add_edge builds of it -----

  lemma {:induction false} ArcsFromAppend(a: seq<Hop>, b: seq<Hop>, u: int)
    ensures ArcsFrom(a + b, u) == ArcsFrom(a, u) + ArcsFrom(b, u)
    decreases |b|
  {
    if |b| == 0 {
      assert a + b == a;
    } else {
      var init, h := b[..|b| - 1], b[|b| - 1];
      assert b == init + [h] && a + b == (a + init) + [h];
      ArcsFromAppend(a, init, u);
      ArcsFromSnoc(a + init, h, u);
      ArcsFromSnoc(init, h, u);
    }
  }

  lemma {:induction false} RowArcs(k: nat, u: int)
    ensures ArcsFrom(RowHops(k), u) == if 1 <= u <= k then [Along(u)] else []
    decreases k
  {
    if k > 0 {
      RowArcs(k - 1, u);
      assert RowHops(k) == RowHops(k - 1) + [Hop(k, Along(k))];
      ArcsFromSnoc(RowHops(k - 1), Hop(k, Along(k)), u);
    }
  }

  lemma ThreeArcs(a: Hop, b: Hop, c: Hop, u: int)
    requires a.src == b.src == c.src == 0
    ensures ArcsFrom([a, b, c], u) == if u == 0 then [a.arc, b.arc, c.arc] else []
  {
    assert [a, b, c] == [] + [a] + [b] + [c];
    ArcsFromSnoc([], a, u);
    ArcsFromSnoc([] + [a], b, u);
    ArcsFromSnoc([] + [a] + [b], c, u);
  }

  lemma LastArc(h: Hop, u: int)
    ensures ArcsFrom([h], u) == if u == h.src then [h.arc] else []
  {
    assert [h] == [] + [h];
    ArcsFromSnoc([], h, u);
  }

  function RungArcs(n: nat, m: nat, eps: real, u: int): seq<Arc> {
    if u == 0 then [Along(0), Weaker(m), Better(m, eps)]
    else if 1 <= u <= m then [Along(u)]
    else if u == n - 1 then [Loop(n - 1)] else []
  }

  lemma LadderHopArcs(n: nat, m: nat, eps: real, u: int)
    requires Bounds(n, m, eps)
    ensures ArcsFrom(LadderHops(n, m, eps), u) == RungArcs(n, m, eps, u)
  {
    var a, b, c := Hop(0, Along(0)), Hop(0, Weaker(m)), Hop(0, Better(m, eps));
    var last := Hop(n - 1, Loop(n - 1));
    ThreeArcs(a, b, c, u);
    RowArcs(m, u);
    LastArc(last, u);
    hide ArcsFrom, RowHops, Along, Weaker, Better, Loop;
    ArcsFromAppend([a, b, c], RowHops(m), u);
    ArcsFromAppend([a, b, c] + RowHops(m), [last], u);
  }

  lemma LadderArcs(n: nat, m: nat, eps: real, u: int)
    requires Bounds(n, m, eps)
    ensures Arcs(Ladder(n, m, eps), u) == RungArcs(n, m, eps, u)
  {
    LadderIsAddable(n, m, eps);
    LadderHopArcs(n, m, eps, u);
    hide Arcs, WellFormed, ArcsFrom, LadderHops, RungArcs, Addable, Bounds;
    BuiltIsWellFormed(LadderHops(n, m, eps));
  }

  lemma LadderBlocks(n: nat, m: nat, eps: real, u: int)
    requires Bounds(n, m, eps) && u != n - 1
    ensures BlockedFrom(Ladder(n, m, eps), u) == {}
  {
    var g := Ladder(n, m, eps);
    LadderIsAddable(n, m, eps);
    BuiltIsWellFormed(LadderHops(n, m, eps));
    LadderArcs(n, m, eps, u);
    hide Ladder, Arcs, BlockedFrom;
    forall v ensures v !in BlockedFrom(g, u) {
      assert forall i | 0 <= i < |Arcs(g, u)| :: Arcs(g, u)[i].kind == 5;
    }
  }

  lemma {:induction false} NodesBelow(hops: seq<Hop>, n: nat)
    requires Addable(hops) && forall i | 0 <= i < |hops| :: hops[i].src < n && hops[i].arc.dst < n
    ensures Built(hops).nodeCount <= n
    decreases |hops|
  {
    if |hops| > 0 { NodesBelow(hops[..|hops| - 1], n); }
  }

  lemma LadderNodes(n: nat, m: nat, eps: real)
    requires Bounds(n, m, eps)
    ensures Ladder(n, m, eps).nodeCount == n
  {
    LadderIsAddable(n, m, eps);
    NodesBelow(LadderHops(n, m, eps), n);
  }

  lemma LadderCarries(m: nat, eps: real, energy: real, u: int)
    ensures Factor(Query(m, eps), Along(u)) == 1.0
    ensures Factor(Query(m, eps), Weaker(m)) == HALF && Factor(Query(m, eps), Better(m, eps)) == HALF + eps
    ensures Carried(Query(m, eps), energy, Along(u)) == energy
    ensures Carried(Query(m, eps), 1.0, Weaker(m)) == HALF && Carried(Query(m, eps), 1.0, Better(m, eps)) == HALF + eps
  {
  }

  lemma LadderUsable(n: nat, m: nat, eps: real, u: int, v: int)
    requires Bounds(n, m, eps) && u != n - 1
    ensures Usable(Ladder(n, m, eps), Query(m, eps), u, Along(v))
    ensures Usable(Ladder(n, m, eps), Query(m, eps), u, Weaker(m))
    ensures Usable(Ladder(n, m, eps), Query(m, eps), u, Better(m, eps))
  {
    LadderBlocks(n, m, eps, u);
    hide Ladder, BlockedFrom;
  }

  // ----- the search on it -----

  // Item of node k when reached along the row, and the one the short cuts leave at node m.
  predicate Strong(x: Item, k: int) {
    x.energy == 1.0 && x.node == k && x.steps == k
  }

  predicate Weak(x: Item, m: int) {
    x.energy == HALF && x.node == m && x.steps == 1
  }

  // The row has been labelled up to k, the short cut waits behind it.
  ghost predicate OnTheRow(m: nat, s: Search, k: nat) {
    && 1 <= k <= m && |s.queue| == 2
    && ((Strong(s.queue[0], k) && Weak(s.queue[1], m)) || (Weak(s.queue[0], m) && Strong(s.queue[1], k)))
    && (forall v | v in s.best :: (0 <= v <= k || v == m) && s.best[v].energy <= 1.0)
    && m in s.best && s.best[m].energy == if k == m then 1.0 else HALF
  }

  // The row is done: what is still queued is stale or has no steps left.
  ghost predicate RowDone(m: nat, s: Search) {
    && (forall x | x in s.queue :: m <= x.steps || Weak(x, m))
    && (forall v | v in s.best :: 0 <= v <= m)
    && m in s.best && s.best[m].energy == 1.0
  }

  lemma FirstTurn(n: nat, m: nat, eps: real)
    requires Bounds(n, m, eps)
    ensures OnTheRow(m, Visit(Ladder(n, m, eps), Query(m, eps), Begin(Query(m, eps))), 1)
  {
    var g, cfg := Ladder(n, m, eps), Query(m, eps);
    var s := Begin(cfg);
    var item := s.queue[0];
    var popped := Search(s.best, []);
    assert Rest(s.queue) == [];
    LadderArcs(n, m, eps, 0);
    LadderCarries(m, eps, 1.0, 0);
    LadderUsable(n, m, eps, 0, 0);
    hide Usable, Carried, Arcs, Ladder;
    var arcs := Arcs(g, 0);
    var s1 := Relax(g, cfg, item, Along(0), popped);
    var s2 := Relax(g, cfg, item, Weaker(m), s1);
    assert Relax(g, cfg, item, Better(m, eps), s2) == s2;
    ThreeRelaxed(g, cfg, item, Along(0), Weaker(m), Better(m, eps), popped);
  }

  lemma ThreeRelaxed(g: Graph, cfg: Config, item: Item, a: Arc, b: Arc, c: Arc, s: Search)
    ensures RelaxAll(g, cfg, item, [a, b, c], s) == Relax(g, cfg, item, c, Relax(g, cfg, item, b, Relax(g, cfg, item, a, s)))
  {
    hide Relax;
    assert [a, b, c][..2] == [a, b] && [a, b][..1] == [a] && [a][..0] == [];
    assert RelaxAll(g, cfg, item, [a], s) == Relax(g, cfg, item, a, s);
  }

  lemma RowAdvances(n: nat, m: nat, eps: real, s: Search, k: nat)
    requires Bounds(n, m, eps) && OnTheRow(m, s, k) && k < m
    ensures OnTheRow(m, Visit(Ladder(n, m, eps), Query(m, eps), s), k + 1)
  {
    var g, cfg := Ladder(n, m, eps), Query(m, eps);
    var f := Front(s.queue);
    var item := s.queue[f];
    assert Strong(item, k);
    var popped := s.(queue := Rest(s.queue));
    assert popped.queue == [s.queue[1 - f]];
    LadderArcs(n, m, eps, k);
    LadderCarries(m, eps, 1.0, k);
    LadderUsable(n, m, eps, k, k);
    hide Usable, Carried, Arcs, Front, Rest, Ladder;
    assert [Along(k)][..0] == [];
    assert RelaxAll(g, cfg, item, [], popped) == popped;
    assert RelaxAll(g, cfg, item, Arcs(g, k), popped) == Relax(g, cfg, item, Along(k), popped);
  }

  lemma RowStaysDone(n: nat, m: nat, eps: real, s: Search)
    requires Bounds(n, m, eps) && RowDone(m, s) && |s.queue| > 0
    ensures RowDone(m, Visit(Ladder(n, m, eps), Query(m, eps), s))
  {
    hide RelaxAll, Ladder;
  }

  lemma {:induction false} LadderEnds(n: nat, m: nat, eps: real, s: Search, k: nat)
    requires Bounds(n, m, eps) && WellFormed(Ladder(n, m, eps)) && (OnTheRow(m, s, k) || RowDone(m, s))
    ensures RowDone(m, Explore(Ladder(n, m, eps), Query(m, eps), s))
    decreases Weight(Ladder(n, m, eps), Query(m, eps), s.queue)
  {
    hide WellFormed, Ladder, Query, Visit, Weight;
    var g, cfg := Ladder(n, m, eps), Query(m, eps);
    if |s.queue| > 0 {
      VisitDescends(g, cfg, s);
      if OnTheRow(m, s, k) && k < m {
        RowAdvances(n, m, eps, s, k);
        LadderEnds(n, m, eps, Visit(g, cfg, s), k + 1);
      } else {
        RowStaysDone(n, m, eps, s);
        LadderEnds(n, m, eps, Visit(g, cfg, s), k);
      }
    }
  }

  lemma HopsAllowed(n: nat, m: nat, eps: real)
    requires Bounds(n, m, eps)
    ensures Allowed(Ladder(n, m, eps), Query(m, eps), Hop(0, Better(m, eps)))
    ensures Allowed(Ladder(n, m, eps), Query(m, eps), Hop(m, Along(m)))
  {
    LadderArcs(n, m, eps, 0);
    LadderArcs(n, m, eps, m);
    LadderUsable(n, m, eps, 0, 0);
    LadderUsable(n, m, eps, m, m);
    hide Usable, Arcs, Ladder;
    assert Arcs(Ladder(n, m, eps), 0)[2] == Better(m, eps) && Arcs(Ladder(n, m, eps), m)[0] == Along(m);
  }

  lemma HiddenWalk(n: nat, m: nat, eps: real)
    requires Bounds(n, m, eps)
    ensures var g, cfg, w := Ladder(n, m, eps), Query(m, eps), Hidden(m, eps);
      Walk(g, cfg, w) && StaysAbove(cfg, w) && End(cfg, w) == m + 1 && Energy(cfg, w) == HALF + eps
  {
    var g, cfg, w := Ladder(n, m, eps), Query(m, eps), Hidden(m, eps);
    var first, last := Hop(0, Better(m, eps)), Hop(m, Along(m));
    HopsAllowed(n, m, eps);
    LadderCarries(m, eps, HALF + eps, m);
    hide Allowed, Carried, Factor, Ladder;
    assert [] + [first] == [first] && w == [first] + [last];
    WalkSnoc(g, cfg, [], first);
    WalkSnoc(g, cfg, [first], last);
  }

  /** The wave never labels the end of the hidden walk. */
  lemma HiddenIsLost(n: nat, m: nat, eps: real)
    requires Bounds(n, m, eps)
    ensures WellFormed(Ladder(n, m, eps)) && m + 1 !in Outcome(Ladder(n, m, eps), Query(m, eps))
  {
    LadderIsAddable(n, m, eps);
    BuiltIsWellFormed(LadderHops(n, m, eps));
    FirstTurn(n, m, eps);
    var g, cfg := Ladder(n, m, eps), Query(m, eps);
    hide WellFormed, Visit, Weight, Ladder;
    VisitDescends(g, cfg, Begin(cfg));
    LadderEnds(n, m, eps, Visit(g, cfg, Begin(cfg)), 1);
  }
}
