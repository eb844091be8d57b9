/** The imperative side of wave.py: the graph that add_edge builds, and the loop over the heap. */
module WaveEngine {
  import opened Common
  import opened Heap
  import opened Wave
  import opened Sorting
  import opened Ranking

  datatype GraphError = NegativeNode | WeightOutOfRange

  class TypedGraph {
    var adj: map<int, seq<Arc>>
    var blockedTargets: map<int, set<int>>
    var nodeCount: nat
    var edgeCount: nat
    ghost var added: seq<Hop>

    ghost function View(): Graph
      reads this
    {
      Graph(adj, blockedTargets, nodeCount, edgeCount)
    }

    // The graph is what its edges build, in order of arrival.
    ghost predicate Valid()
      reads this
    {
      Addable(added) && View() == Built(added)
    }

    // Hence well formed, with the added edges source by source in its adjacency lists.
    lemma ValidIsWellFormed()
      requires Valid()
      ensures WellFormed(View()) && edgeCount == |added|
      ensures forall u :: Arcs(View(), u) == ArcsFrom(added, u)
    {
      BuiltIsWellFormed(added);
    }

    constructor ()
      ensures Valid() && added == []
    {
      adj, blockedTargets, nodeCount, edgeCount := map[], map[], 0, 0;
      added := [];
    }

    method AddEdge(src: int, dst: int, kind: int, weight: real) returns (r: Result<(), GraphError>)
      requires Valid()
      modifies this
      ensures Valid()
      ensures r.Ok? <==> 0 <= src && 0 <= dst && 0.0 <= weight <= 1.0
      ensures r.Ok? ==> added == old(added) + [Hop(src, Arc(dst, kind, weight))]
      ensures r.Ok? ==> nodeCount == Max(old(nodeCount), Max(src + 1, dst + 1))
      ensures r.Err? ==> added == old(added) && View() == old(View())
    {
      if src < 0 || dst < 0 {
        return Err(NegativeNode);
      }
      if !(0.0 <= weight <= 1.0) {
        return Err(WeightOutOfRange);
      }
      hide WellFormed, Built, ArcsFrom, WithArc, Arcs, Addable;
      var a := Arc(dst, kind, weight);
      ghost var g, hops := View(), added;
      BuiltSnoc(hops, Hop(src, a));
      WithArcIs(g, src, a);
      nodeCount := Max(nodeCount, Max(src + 1, dst + 1));
      edgeCount := edgeCount + 1;
      adj := adj[src := (if src in adj then adj[src] else []) + [a]];
      if kind == IS_NOT_EDGE {
        blockedTargets := blockedTargets[src := (if src in blockedTargets then blockedTargets[src] else {}) + {dst}];
      }
      added := hops + [Hop(src, a)];
      assert View() == WithArc(g, src, a);
      return Ok(());
    }
  }

  // The arcs of one source among a list of edges.
  ghost function ArcsFrom(hops: seq<Hop>, u: int): seq<Arc> {
    if |hops| == 0 then []
    else ArcsFrom(hops[..|hops| - 1], u) + if hops[|hops| - 1].src == u then [hops[|hops| - 1].arc] else []
  }

  lemma ArcsFromSnoc(hops: seq<Hop>, h: Hop, u: int)
    ensures ArcsFrom(hops + [h], u) == ArcsFrom(hops, u) + if h.src == u then [h.arc] else []
  {
    assert (hops + [h])[..|hops|] == hops;
  }

  function WithArc(g: Graph, src: int, a: Arc): Graph
    requires 0 <= src && 0 <= a.dst
  {
    Graph(
      g.adj[src := Arcs(g, src) + [a]],
      if a.kind == IS_NOT_EDGE then g.blocked[src := BlockedFrom(g, src) + {a.dst}] else g.blocked,
      Max(g.nodeCount, Max(src + 1, a.dst + 1)),
      g.edgeCount + 1)
  }

  // Edges that add_edge accepts, and the graph it builds of them.
  predicate Acceptable(h: Hop) {
    0 <= h.src && 0 <= h.arc.dst && 0.0 <= h.arc.weight <= 1.0
  }

  ghost predicate Addable(hops: seq<Hop>) {
    forall i | 0 <= i < |hops| :: Acceptable(hops[i])
  }

  ghost function Built(hops: seq<Hop>): Graph
    requires Addable(hops)
  {
    if |hops| == 0 then Graph(map[], map[], 0, 0)
    else WithArc(Built(hops[..|hops| - 1]), hops[|hops| - 1].src, hops[|hops| - 1].arc)
  }

  lemma {:induction false} BuiltArcs(hops: seq<Hop>, u: int)
    requires Addable(hops)
    ensures Arcs(Built(hops), u) == ArcsFrom(hops, u)
    decreases |hops|
  {
    if |hops| > 0 {
      var init, h := hops[..|hops| - 1], hops[|hops| - 1];
      BuiltArcs(init, u);
      assert Arcs(Built(hops), u) == Arcs(Built(init), u) + if h.src == u then [h.arc] else [];
    }
  }

  /** Such a graph is well formed, and its adjacency lists are the edges in order of arrival. */
  lemma {:induction false} BuiltIsWellFormed(hops: seq<Hop>)
    requires Addable(hops)
    ensures WellFormed(Built(hops)) && Built(hops).edgeCount == |hops|
    ensures forall u :: Arcs(Built(hops), u) == ArcsFrom(hops, u)
    decreases |hops|
  {
    forall u ensures Arcs(Built(hops), u) == ArcsFrom(hops, u) {
      BuiltArcs(hops, u);
    }
    if |hops| > 0 {
      var init, h := hops[..|hops| - 1], hops[|hops| - 1];
      BuiltIsWellFormed(init);
      hide WellFormed, ArcsFrom, Arcs;
      assert Acceptable(h);
      AddedWellFormed(Built(init), h.src, h.arc);
    }
  }

  lemma BuiltSnoc(hops: seq<Hop>, h: Hop)
    requires Addable(hops) && Acceptable(h)
    ensures Addable(hops + [h]) && Built(hops + [h]) == WithArc(Built(hops), h.src, h.arc)
  {
    assert (hops + [h])[..|hops|] == hops;
  }

  lemma WithArcIs(g: Graph, src: int, a: Arc)
    requires 0 <= src && 0 <= a.dst
    ensures WithArc(g, src, a) == Graph(
      g.adj[src := (if src in g.adj then g.adj[src] else []) + [a]],
      if a.kind == IS_NOT_EDGE then g.blocked[src := (if src in g.blocked then g.blocked[src] else {}) + {a.dst}] else g.blocked,
      Max(g.nodeCount, Max(src + 1, a.dst + 1)),
      g.edgeCount + 1)
  {
  }

  lemma AddedWellFormed(g: Graph, src: int, a: Arc)
    requires WellFormed(g) && 0 <= src && 0 <= a.dst && 0.0 <= a.weight <= 1.0
    ensures WellFormed(WithArc(g, src, a))
  {
    var g' := WithArc(g, src, a);
    forall u, v ensures v in BlockedFrom(g', u) <==> exists i | 0 <= i < |Arcs(g', u)| ::
          Arcs(g', u)[i].dst == v && Arcs(g', u)[i].kind == IS_NOT_EDGE
    {
      AddedBlocks(g, src, a, u, v);
    }
  }

  lemma AddedBlocks(g: Graph, src: int, a: Arc, u: int, v: int)
    requires WellFormed(g) && 0 <= src && 0 <= a.dst
    ensures var g' := WithArc(g, src, a);
      v in BlockedFrom(g', u) <==> exists i | 0 <= i < |Arcs(g', u)| ::
        Arcs(g', u)[i].dst == v && Arcs(g', u)[i].kind == IS_NOT_EDGE
  {
    var g' := WithArc(g, src, a);
    if u == src {
      var arcs, arcs' := Arcs(g, u), Arcs(g', u);
      assert arcs' == arcs + [a];
      if v in BlockedFrom(g, u) {
        var i :| 0 <= i < |arcs| && arcs[i].dst == v && arcs[i].kind == IS_NOT_EDGE;
        assert arcs'[i] == arcs[i];
      }
      if a.kind == IS_NOT_EDGE && v == a.dst { assert arcs'[|arcs|] == a; }
      if i :| 0 <= i < |arcs'| && arcs'[i].dst == v && arcs'[i].kind == IS_NOT_EDGE {
        if i < |arcs| { assert arcs[i] == arcs'[i]; }
      }
    } else {
      assert Arcs(g', u) == Arcs(g, u) && BlockedFrom(g', u) == BlockedFrom(g, u);
    }
  }

  datatype ConfigError = BadTopK | BadMaxSteps | BadThreshold | BadRigor

  // The rows of the labels at or above the threshold, with scores as they are reported.
  ghost predicate RowsOf(m: map<int, Row>, best: map<int, Label>, threshold: real, score: real -> real) {
    && (forall v :: v in m <==> v in best && threshold <= best[v].energy)
    && forall v | v in m :: m[v] == Row(v, score(best[v].energy), best[v].steps, best[v].path)
  }

  /** The wave query. `score` is the rounding applied to reported energies. */
  method WaveActivation(g: Graph, cfg: Config, score: real -> real) returns (r: Result<seq<Row>, ConfigError>)
    requires WellFormed(g)
    ensures r.Ok? <==> 0 < cfg.topK && 0 <= cfg.maxSteps && 0.0 <= cfg.threshold && 0.0 < cfg.rigor
    ensures r.Ok? ==> exists m, s :: RowsOf(m, Outcome(g, cfg), cfg.threshold, score) && IsRanked(s, m)
                                     && r.value == Cut(s, cfg.topK)
  {
    hide WellFormed, Outcome;
    if cfg.topK <= 0 {
      return Err(BadTopK);
    }
    if cfg.maxSteps < 0 {
      return Err(BadMaxSteps);
    }
    if cfg.threshold < 0.0 {
      return Err(BadThreshold);
    }
    if cfg.rigor <= 0.0 {
      return Err(BadRigor);
    }
    var best := Propagate(g, cfg);
    var rows;
    ghost var m;
    rows, m := Rows(best, cfg.threshold, score);
    r := Ok(Cut(rows, cfg.topK));
    assert RowsOf(m, Outcome(g, cfg), cfg.threshold, score);
  }

  // The rows of the labels looked at so far.
  ghost predicate Gathered(m: map<int, Row>, best: map<int, Label>, threshold: real, score: real -> real, done: seq<int>) {
    && (forall v :: v in m <==> v in done && v in best && threshold <= best[v].energy)
    && forall v | v in m :: m[v] == Row(v, score(best[v].energy), best[v].steps, best[v].path)
  }

  lemma GatherNext(m: map<int, Row>, best: map<int, Label>, threshold: real, score: real -> real, done: seq<int>, v: int)
    requires Gathered(m, best, threshold, score, done) && v in best && v !in done
    ensures var row := Row(v, score(best[v].energy), best[v].steps, best[v].path);
      Gathered(if best[v].energy >= threshold then m[v := row] else m, best, threshold, score, done + [v])
    ensures v !in m
  {
  }

  // Rows listed in the order of their nodes.
  ghost predicate Listed(m: map<int, Row>, kept: seq<int>, rows: seq<Row>) {
    && Distinct(kept) && (forall v :: v in kept <==> v in m)
    && |rows| == |kept| && forall j | 0 <= j < |kept| :: kept[j] in m && rows[j] == m[kept[j]]
  }

  lemma ListNext(m: map<int, Row>, kept: seq<int>, rows: seq<Row>, v: int, row: Row)
    requires Listed(m, kept, rows) && v !in m
    ensures Listed(m[v := row], kept + [v], rows + [row])
  {
  }

  // The rows at or above the threshold, ranked.
  method Rows(best: map<int, Label>, threshold: real, score: real -> real) returns (rows: seq<Row>, ghost table: map<int, Row>)
    ensures RowsOf(table, best, threshold, score) && IsRanked(rows, table)
  {
    var nodes := Enumerate(best.Keys);
    table := map[];
    ghost var kept: seq<int> := [];
    rows := [];
    for i := 0 to |nodes|
      invariant Gathered(table, best, threshold, score, nodes[..i]) && Listed(table, kept, rows)
    {
      hide Gathered, Listed;
      var v := nodes[i];
      assert nodes[..i + 1] == nodes[..i] + [v] && v !in nodes[..i];
      GatherNext(table, best, threshold, score, nodes[..i], v);
      if best[v].energy >= threshold {
        var row := Row(v, score(best[v].energy), best[v].steps, best[v].path);
        ListNext(table, kept, rows, v, row);
        table, kept, rows := table[v := row], kept + [v], rows + [row];
      }
    }
    assert nodes[..|nodes|] == nodes;
    SortedValues(table, kept, rows);
    rows := Sort(rows, RowLe);
  }

  // The loop over the heap.
  method Propagate(g: Graph, cfg: Config) returns (best: map<int, Label>)
    requires WellFormed(g)
    ensures best == Outcome(g, cfg)
  {
    hide WellFormed, Visit, Weight, Relax, RelaxAll;
    best := map[cfg.seed := Label(1.0, 0, [])];
    var queue := [Item(1.0, cfg.seed, 0, [])];
    while |queue| > 0
      invariant Explore(g, cfg, Search(best, queue)) == Explore(g, cfg, Begin(cfg))
      decreases Weight(g, cfg, queue)
    {
      ghost var s := Search(best, queue);
      VisitDescends(g, cfg, s);
      VisitCases(g, cfg, s);
      var item := queue[Front(queue)];
      queue := Rest(queue);
      var current := if item.node in best then best[item.node].energy else 0.0;
      if item.energy + cfg.eps >= current && item.steps < cfg.maxSteps {
        ghost var popped := Search(best, queue);
        var arcs := Arcs(g, item.node);
        RelaxNone(g, cfg, item, popped);
        for i := 0 to |arcs|
          invariant Search(best, queue) == RelaxAll(g, cfg, item, arcs[..i], popped)
        {
          RelaxMore(g, cfg, item, arcs, i, popped);
          best, queue := RelaxArc(g, cfg, item, arcs[i], best, queue);
        }
        assert arcs[..|arcs|] == arcs;
      }
    }
  }

  method RelaxArc(g: Graph, cfg: Config, item: Item, a: Arc, best: map<int, Label>, queue: seq<Item>)
    returns (best': map<int, Label>, queue': seq<Item>)
    ensures Search(best', queue') == Relax(g, cfg, item, a, Search(best, queue))
  {
    best', queue' := best, queue;
    if a.kind == IS_NOT_EDGE {
      return;
    }
    if a.kind !in cfg.mask {
      return;
    }
    if a.dst in BlockedFrom(g, item.node) {
      return;
    }
    hide Carried;
    var next := Carried(cfg, item.energy, a);
    if next < cfg.threshold {
      return;
    }
    var known := if a.dst in best then best[a.dst].energy else -1.0;
    if next > known + cfg.eps {
      var path := item.path + [a.kind];
      best' := best[a.dst := Label(next, item.steps + 1, path)];
      queue' := queue + [Item(next, a.dst, item.steps + 1, path)];
    }
  }

  lemma VisitCases(g: Graph, cfg: Config, s: Search)
    requires |s.queue| > 0
    ensures var item := s.queue[Front(s.queue)]; var popped := s.(queue := Rest(s.queue));
      Visit(g, cfg, s) ==
        if item.energy + cfg.eps < BestEnergy(s, item.node, 0.0) || item.steps >= cfg.maxSteps then popped
        else RelaxAll(g, cfg, item, Arcs(g, item.node), popped)
  {
    hide RelaxAll, Rest, Front;
  }

  lemma RelaxNone(g: Graph, cfg: Config, item: Item, s: Search)
    ensures RelaxAll(g, cfg, item, [], s) == s
  {
  }

  lemma RelaxMore(g: Graph, cfg: Config, item: Item, arcs: seq<Arc>, i: nat, s: Search)
    requires i < |arcs|
    ensures RelaxAll(g, cfg, item, arcs[..i + 1], s) == Relax(g, cfg, item, arcs[i], RelaxAll(g, cfg, item, arcs[..i], s))
  {
    hide Relax;
    assert arcs[..i + 1][..i] == arcs[..i];
  }
}
