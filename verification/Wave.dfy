/** The typed wave of wave.py: propagation of energy over typed edges, as a function of the
    graph and the configuration, and the walks it is about. Energies are reals; EPS stands
    for the comparison tolerance. */
module Wave {
  import opened Heap

  const IS_NOT_EDGE := 10

  // One adjacency entry: target, edge type, weight.
  datatype Arc = Arc(dst: int, kind: int, weight: real)

  datatype Graph = Graph(adj: map<int, seq<Arc>>, blocked: map<int, set<int>>, nodeCount: nat, edgeCount: nat)

  function Arcs(g: Graph, u: int): seq<Arc> {
    if u in g.adj then g.adj[u] else []
  }

  function BlockedFrom(g: Graph, u: int): set<int> {
    if u in g.blocked then g.blocked[u] else {}
  }

  // What add_edge keeps: ids in range, weights in [0,1], blocked targets are those of the
  // IS_NOT edges, and no node has more arcs than the graph has edges.
  ghost predicate WellFormed(g: Graph) {
    && (forall u | u in g.adj :: 0 <= u < g.nodeCount && |g.adj[u]| <= g.edgeCount)
    && (forall u, i | u in g.adj && 0 <= i < |g.adj[u]| ::
          0 <= g.adj[u][i].dst < g.nodeCount && 0.0 <= g.adj[u][i].weight <= 1.0)
    && (forall u, v :: v in BlockedFrom(g, u) <==> exists i | 0 <= i < |Arcs(g, u)| ::
          Arcs(g, u)[i].dst == v && Arcs(g, u)[i].kind == IS_NOT_EDGE)
  }

  datatype Config = Config(
    seed: int, mask: set<int>, threshold: real, topK: int, maxSteps: int, rigor: real,
    attenuation: map<int, real>, eps: real)

  function Factor(cfg: Config, a: Arc): real {
    (if a.kind in cfg.attenuation then cfg.attenuation[a.kind] else 0.0) * a.weight * cfg.rigor
  }

  // The energy left after carrying it over an arc.
  function Carried(cfg: Config, energy: real, a: Arc): real {
    energy * Factor(cfg, a)
  }

  // ----- the engine -----

  // The best label of a node so far, and the queue of labels still to expand.
  datatype Label = Label(energy: real, steps: nat, path: seq<int>)

  datatype Search = Search(best: map<int, Label>, queue: seq<Item>)

  function Begin(cfg: Config): Search {
    Search(map[cfg.seed := Label(1.0, 0, [])], [Item(1.0, cfg.seed, 0, [])])
  }

  function BestEnergy(s: Search, v: int, default: real): real {
    if v in s.best then s.best[v].energy else default
  }

  // The filters an arc passes before its energy is looked at.
  predicate Usable(g: Graph, cfg: Config, u: int, a: Arc) {
    a.kind != IS_NOT_EDGE && a.kind in cfg.mask && a.dst !in BlockedFrom(g, u)
  }

  function Relax(g: Graph, cfg: Config, item: Item, a: Arc, s: Search): Search {
    if !Usable(g, cfg, item.node, a) then s
    else
      var next := Carried(cfg, item.energy, a);
      if next < cfg.threshold then s
      else if next > BestEnergy(s, a.dst, -1.0) + cfg.eps then
        var path := item.path + [a.kind];
        Search(s.best[a.dst := Label(next, item.steps + 1, path)],
               s.queue + [Item(next, a.dst, item.steps + 1, path)])
      else s
  }

  function RelaxAll(g: Graph, cfg: Config, item: Item, arcs: seq<Arc>, s: Search): Search {
    if |arcs| == 0 then s
    else Relax(g, cfg, item, arcs[|arcs| - 1], RelaxAll(g, cfg, item, arcs[..|arcs| - 1], s))
  }

  // One turn of the loop: pop, skip a stale or exhausted label, otherwise relax its arcs.
  function Visit(g: Graph, cfg: Config, s: Search): Search
    requires |s.queue| > 0
  {
    var item := s.queue[Front(s.queue)];
    var popped := s.(queue := Rest(s.queue));
    if item.energy + cfg.eps < BestEnergy(s, item.node, 0.0) then popped
    else if item.steps >= cfg.maxSteps then popped
    else RelaxAll(g, cfg, item, Arcs(g, item.node), popped)
  }

  // ----- termination: a label at depth k weighs (edges + 1)^(maxSteps - k) -----

  function Power(b: nat, k: nat): (p: nat)
    ensures b > 0 ==> p > 0
  {
    if k == 0 then 1 else b * Power(b, k - 1)
  }

  function ItemWeight(g: Graph, cfg: Config, steps: nat): (w: nat)
    ensures w > 0
  {
    Power(g.edgeCount + 1, if steps <= cfg.maxSteps then cfg.maxSteps - steps else 0)
  }

  function Weight(g: Graph, cfg: Config, q: seq<Item>): nat {
    if |q| == 0 then 0 else Weight(g, cfg, q[..|q| - 1]) + ItemWeight(g, cfg, q[|q| - 1].steps)
  }

  lemma WeightSnoc(g: Graph, cfg: Config, q: seq<Item>, x: Item)
    ensures Weight(g, cfg, q + [x]) == Weight(g, cfg, q) + ItemWeight(g, cfg, x.steps)
  {
    assert (q + [x])[..|q|] == q;
  }

  lemma {:induction false} WeightRemove(g: Graph, cfg: Config, q: seq<Item>, i: nat)
    requires i < |q|
    ensures Weight(g, cfg, q) == Weight(g, cfg, q[..i] + q[i + 1..]) + ItemWeight(g, cfg, q[i].steps)
    decreases |q|
  {
    hide ItemWeight;
    var init, x := q[..|q| - 1], q[|q| - 1];
    if i == |q| - 1 {
      assert q[..i] + q[i + 1..] == init;
    } else {
      WeightRemove(g, cfg, init, i);
      WeightSnoc(g, cfg, init[..i] + init[i + 1..], x);
      assert q[..i] == init[..i] && q[i + 1..] == init[i + 1..] + [x];
      assert q[..i] + (init[i + 1..] + [x]) == init[..i] + init[i + 1..] + [x];
    }
  }

  lemma {:induction false} RelaxAllWeight(g: Graph, cfg: Config, item: Item, arcs: seq<Arc>, s: Search)
    ensures Weight(g, cfg, RelaxAll(g, cfg, item, arcs, s).queue)
      <= Weight(g, cfg, s.queue) + |arcs| * ItemWeight(g, cfg, item.steps + 1)
    decreases |arcs|
  {
    hide ItemWeight, Carried, Usable, Weight;
    var w := ItemWeight(g, cfg, item.steps + 1);
    if |arcs| > 0 {
      var init, a := arcs[..|arcs| - 1], arcs[|arcs| - 1];
      RelaxAllWeight(g, cfg, item, init, s);
      var mid := RelaxAll(g, cfg, item, init, s);
      RelaxWeight(g, cfg, item, a, mid);
      assert |arcs| * w == |init| * w + w;
    } else {
      assert |arcs| * w == 0;
    }
  }

  lemma RelaxWeight(g: Graph, cfg: Config, item: Item, a: Arc, s: Search)
    ensures Weight(g, cfg, Relax(g, cfg, item, a, s).queue)
      <= Weight(g, cfg, s.queue) + ItemWeight(g, cfg, item.steps + 1)
  {
    hide Carried, Usable;
    var next := Carried(cfg, item.energy, a);
    var x := Item(next, a.dst, item.steps + 1, item.path + [a.kind]);
    WeightSnoc(g, cfg, s.queue, x);
    var s' := Relax(g, cfg, item, a, s);
    assert s' == s || s'.queue == s.queue + [x];
  }

  /** Every turn of the loop lowers the queue's weight, whatever the energies are. */
  lemma VisitDescends(g: Graph, cfg: Config, s: Search)
    requires WellFormed(g) && |s.queue| > 0
    ensures Weight(g, cfg, Visit(g, cfg, s).queue) < Weight(g, cfg, s.queue)
  {
    hide Weight, RelaxAll;
    var item := s.queue[Front(s.queue)];
    var popped := s.(queue := Rest(s.queue));
    WeightRemove(g, cfg, s.queue, Front(s.queue));
    if item.steps < cfg.maxSteps {
      var arcs := Arcs(g, item.node);
      RelaxAllWeight(g, cfg, item, arcs, popped);
      var w := Power(g.edgeCount + 1, cfg.maxSteps - item.steps - 1);
      assert ItemWeight(g, cfg, item.steps) == (g.edgeCount + 1) * w == g.edgeCount * w + w;
      assert |arcs| * w <= g.edgeCount * w by { Monotone(|arcs|, g.edgeCount, w); }
    }
  }

  lemma Monotone(a: nat, b: nat, w: nat)
    requires a <= b
    ensures a * w <= b * w
  {
  }

  /** The whole search. */
  ghost function Explore(g: Graph, cfg: Config, s: Search): Search
    requires WellFormed(g)
    decreases Weight(g, cfg, s.queue)
  {
    if |s.queue| == 0 then s
    else
      VisitDescends(g, cfg, s);
      Explore(g, cfg, Visit(g, cfg, s))
  }

  ghost function Outcome(g: Graph, cfg: Config): map<int, Label>
    requires WellFormed(g)
  {
    Explore(g, cfg, Begin(cfg)).best
  }

  // ----- walks -----

  // A hop leaves a node along one of its arcs.
  datatype Hop = Hop(src: int, arc: Arc)

  ghost predicate Allowed(g: Graph, cfg: Config, h: Hop) {
    h.arc in Arcs(g, h.src) && Usable(g, cfg, h.src, h.arc)
  }

  function End(cfg: Config, w: seq<Hop>): int {
    if |w| == 0 then cfg.seed else w[|w| - 1].arc.dst
  }

  ghost predicate Walk(g: Graph, cfg: Config, w: seq<Hop>) {
    |w| > 0 ==>
      var init, h := w[..|w| - 1], w[|w| - 1];
      Walk(g, cfg, init) && h.src == End(cfg, init) && Allowed(g, cfg, h)
  }

  function Energy(cfg: Config, w: seq<Hop>): real {
    if |w| == 0 then 1.0 else Carried(cfg, Energy(cfg, w[..|w| - 1]), w[|w| - 1].arc)
  }

  function Kinds(w: seq<Hop>): seq<int> {
    if |w| == 0 then [] else Kinds(w[..|w| - 1]) + [w[|w| - 1].arc.kind]
  }

  // Every non-empty prefix keeps at least the threshold energy.
  ghost predicate StaysAbove(cfg: Config, w: seq<Hop>) {
    |w| > 0 ==> StaysAbove(cfg, w[..|w| - 1]) && cfg.threshold <= Energy(cfg, w)
  }

  lemma WalkSnoc(g: Graph, cfg: Config, w: seq<Hop>, h: Hop)
    ensures Walk(g, cfg, w + [h]) <==> Walk(g, cfg, w) && h.src == End(cfg, w) && Allowed(g, cfg, h)
    ensures End(cfg, w + [h]) == h.arc.dst
    ensures Energy(cfg, w + [h]) == Carried(cfg, Energy(cfg, w), h.arc)
    ensures Kinds(w + [h]) == Kinds(w) + [h.arc.kind]
    ensures StaysAbove(cfg, w + [h]) <==> StaysAbove(cfg, w) && cfg.threshold <= Energy(cfg, w + [h])
  {
    hide Carried, Allowed;
    assert (w + [h])[..|w|] == w;
  }

  // ----- soundness -----

  // A label is backed by an actual allowed walk: same end, energy, length and edge types.
  ghost predicate Backs(g: Graph, cfg: Config, w: seq<Hop>, node: int, l: Label) {
    && Walk(g, cfg, w) && StaysAbove(cfg, w)
    && End(cfg, w) == node && Energy(cfg, w) == l.energy && |w| == l.steps && Kinds(w) == l.path
    && (|w| == 0 || |w| <= cfg.maxSteps)
  }

  ghost predicate Justified(g: Graph, cfg: Config, node: int, l: Label) {
    exists w :: Backs(g, cfg, w, node, l)
  }

  function LabelOf(item: Item): Label {
    Label(item.energy, item.steps, item.path)
  }

  ghost predicate Sound(g: Graph, cfg: Config, s: Search) {
    && (forall v | v in s.best :: Justified(g, cfg, v, s.best[v]))
    && (forall x | x in s.queue :: Justified(g, cfg, x.node, LabelOf(x)))
  }

  lemma RelaxSound(g: Graph, cfg: Config, item: Item, a: Arc, s: Search)
    requires Sound(g, cfg, s) && Justified(g, cfg, item.node, LabelOf(item))
    requires a in Arcs(g, item.node) && item.steps < cfg.maxSteps
    ensures Sound(g, cfg, Relax(g, cfg, item, a, s))
  {
    hide Walk, Energy, Kinds, StaysAbove, Carried, Usable, Arcs;
    var s' := Relax(g, cfg, item, a, s);
    if s' != s {
      hide Justified;
      var next := Carried(cfg, item.energy, a);
      var x := Item(next, a.dst, item.steps + 1, item.path + [a.kind]);
      HopJustified(g, cfg, item, a);
      assert LabelOf(x) == Label(next, item.steps + 1, item.path + [a.kind]);
      assert s' == Search(s.best[a.dst := LabelOf(x)], s.queue + [x]);
    }
  }

  lemma HopJustified(g: Graph, cfg: Config, item: Item, a: Arc)
    requires Justified(g, cfg, item.node, LabelOf(item))
    requires a in Arcs(g, item.node) && Usable(g, cfg, item.node, a) && item.steps < cfg.maxSteps
    requires cfg.threshold <= Carried(cfg, item.energy, a)
    ensures Justified(g, cfg, a.dst, Label(Carried(cfg, item.energy, a), item.steps + 1, item.path + [a.kind]))
  {
    hide Walk, Energy, Kinds, StaysAbove, Carried, Usable, Arcs;
    var w :| Backs(g, cfg, w, item.node, LabelOf(item));
    WalkSnoc(g, cfg, w, Hop(item.node, a));
    assert Backs(g, cfg, w + [Hop(item.node, a)], a.dst,
                 Label(Carried(cfg, item.energy, a), item.steps + 1, item.path + [a.kind]));
  }

  lemma {:induction false} RelaxAllSound(g: Graph, cfg: Config, item: Item, arcs: seq<Arc>, s: Search)
    requires Sound(g, cfg, s) && Justified(g, cfg, item.node, LabelOf(item))
    requires (forall a | a in arcs :: a in Arcs(g, item.node)) && item.steps < cfg.maxSteps
    ensures Sound(g, cfg, RelaxAll(g, cfg, item, arcs, s))
    decreases |arcs|
  {
    hide Sound, Justified, Relax, Arcs;
    if |arcs| > 0 {
      RelaxAllSound(g, cfg, item, arcs[..|arcs| - 1], s);
      RelaxSound(g, cfg, item, arcs[|arcs| - 1], RelaxAll(g, cfg, item, arcs[..|arcs| - 1], s));
    }
  }

  lemma VisitSound(g: Graph, cfg: Config, s: Search)
    requires Sound(g, cfg, s) && |s.queue| > 0
    ensures Sound(g, cfg, Visit(g, cfg, s))
  {
    hide Justified, RelaxAll, Arcs;
    var item := s.queue[Front(s.queue)];
    var popped := s.(queue := Rest(s.queue));
    if item.steps < cfg.maxSteps {
      RelaxAllSound(g, cfg, item, Arcs(g, item.node), popped);
    }
  }

  lemma {:induction false} ExploreSound(g: Graph, cfg: Config, s: Search)
    requires WellFormed(g) && Sound(g, cfg, s)
    ensures Sound(g, cfg, Explore(g, cfg, s))
    decreases Weight(g, cfg, s.queue)
  {
    hide WellFormed, Sound, Visit;
    if |s.queue| > 0 {
      VisitDescends(g, cfg, s);
      VisitSound(g, cfg, s);
      ExploreSound(g, cfg, Visit(g, cfg, s));
    }
  }

  /** Soundness for any rigor and any tolerance: every reported label is the energy, length
      and edge types of an actual walk of allowed hops that stays above the threshold. */
  lemma WaveSound(g: Graph, cfg: Config)
    requires WellFormed(g)
    ensures forall v | v in Outcome(g, cfg) :: Justified(g, cfg, v, Outcome(g, cfg)[v])
  {
    hide WellFormed, Visit;
    assert Backs(g, cfg, [], cfg.seed, Label(1.0, 0, []));
    ExploreSound(g, cfg, Begin(cfg));
  }
}
