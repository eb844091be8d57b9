/** When the wave of wave.py is optimal: for factors in [0,1] and a step bound that reaches
    every node, each label is within the accumulated tolerance of every walk to its node,
    hence the exact maximum when the tolerance is zero. */
module WaveOptimality {
  import opened Heap
  import opened Wave
  import opened Counting

  // Factors never amplify, and the step bound lets a path visit every node. (A tolerance of 1
  // or more would hide unlabelled nodes, whose energy counts as -1; the source uses 1e-15.)
  ghost predicate Tame(g: Graph, cfg: Config) {
    && 0.0 <= cfg.eps < 1.0
    && g.nodeCount - 1 <= cfg.maxSteps
    && forall u, a | a in Arcs(g, u) && Usable(g, cfg, u, a) :: 0.0 <= Factor(cfg, a) <= 1.0
  }

  // ----- walks under tame factors -----

  lemma CarriedFalls(cfg: Config, energy: real, a: Arc)
    requires 0.0 <= energy && 0.0 <= Factor(cfg, a) <= 1.0
    ensures 0.0 <= Carried(cfg, energy, a) <= energy
  {
    hide Factor;
    var f := Factor(cfg, a);
    assert Carried(cfg, energy, a) == energy * f;
    hide Carried;
    Scaling(energy, f);
  }

  lemma Scaling(e: real, f: real)
    requires 0.0 <= e && 0.0 <= f <= 1.0
    ensures 0.0 <= e * f <= e
  {
  }

  lemma {:induction false} EnergyNonNegative(g: Graph, cfg: Config, w: seq<Hop>)
    requires Tame(g, cfg) && Walk(g, cfg, w)
    ensures 0.0 <= Energy(cfg, w)
    decreases |w|
  {
    hide Factor, Carried, Usable, Arcs;
    if |w| > 0 {
      EnergyNonNegative(g, cfg, w[..|w| - 1]);
      CarriedFalls(cfg, Energy(cfg, w[..|w| - 1]), w[|w| - 1].arc);
    }
  }

  lemma {:induction false} EnergyFalls(g: Graph, cfg: Config, w: seq<Hop>, i: nat)
    requires Tame(g, cfg) && Walk(g, cfg, w) && i <= |w|
    ensures Energy(cfg, w) <= Energy(cfg, w[..i])
    decreases |w|
  {
    hide Factor, Carried, Usable, Arcs;
    if i == |w| {
      assert w[..i] == w;
    } else {
      var init := w[..|w| - 1];
      EnergyFalls(g, cfg, init, i);
      assert init[..i] == w[..i];
      EnergyNonNegative(g, cfg, init);
      CarriedFalls(cfg, Energy(cfg, init), w[|w| - 1].arc);
    }
  }

  // ----- the invariant -----

  // Every prefix of w ends at a labelled node whose label is at least as good.
  ghost predicate Traced(cfg: Config, best: map<int, Label>, w: seq<Hop>) {
    forall i | 0 <= i <= |w| :: End(cfg, w[..i]) in best && Energy(cfg, w[..i]) <= best[End(cfg, w[..i])].energy
  }

  ghost predicate Simple(cfg: Config, w: seq<Hop>) {
    forall i, j | 0 <= i < j <= |w| :: End(cfg, w[..i]) != End(cfg, w[..j])
  }

  ghost predicate Tracks(g: Graph, cfg: Config, best: map<int, Label>, x: Item, w: seq<Hop>) {
    Backs(g, cfg, w, x.node, LabelOf(x)) && Traced(cfg, best, w) && Simple(cfg, w)
  }

  ghost predicate Tracked(g: Graph, cfg: Config, best: map<int, Label>, x: Item) {
    exists w :: Tracks(g, cfg, best, x, w)
  }

  ghost predicate Pending(s: Search, v: int)
    requires v in s.best
  {
    exists x :: x in s.queue && x.node == v && x.energy == s.best[v].energy
  }

  ghost predicate ArcClosed(g: Graph, cfg: Config, best: map<int, Label>, v: int, a: Arc)
    requires v in best
  {
    var next := Carried(cfg, best[v].energy, a);
    Usable(g, cfg, v, a) && cfg.threshold <= next ==> a.dst in best && next <= best[a.dst].energy + cfg.eps
  }

  ghost predicate Closed(g: Graph, cfg: Config, best: map<int, Label>, v: int)
    requires v in best
  {
    forall a | a in Arcs(g, v) :: ArcClosed(g, cfg, best, v, a)
  }

  ghost predicate Settling(g: Graph, cfg: Config, s: Search, v: int)
    requires v in s.best
  {
    Pending(s, v) || Closed(g, cfg, s.best, v)
  }

  ghost predicate QueueTracked(g: Graph, cfg: Config, s: Search) {
    forall x | x in s.queue :: Tracked(g, cfg, s.best, x)
  }

  ghost predicate Inv(g: Graph, cfg: Config, s: Search) {
    && QueueTracked(g, cfg, s)
    && (forall v | v in s.best :: Settling(g, cfg, s, v))
    && cfg.seed in s.best && 1.0 <= s.best[cfg.seed].energy
  }

  ghost predicate Grows(s: map<int, Label>, s': map<int, Label>) {
    forall v | v in s :: v in s' && s[v].energy <= s'[v].energy
  }

  // ----- relaxing one arc -----

  lemma TracedGrows(g: Graph, cfg: Config, b: map<int, Label>, b': map<int, Label>, x: Item)
    requires Tracked(g, cfg, b, x) && Grows(b, b')
    ensures Tracked(g, cfg, b', x)
  {
    hide Backs, Simple;
    var w :| Tracks(g, cfg, b, x, w);
    assert Tracks(g, cfg, b', x, w);
  }

  // What relaxing an arc does: nothing, or a strict improvement of its target.
  ghost predicate Improves(g: Graph, cfg: Config, item: Item, a: Arc, s: Search, s': Search, x: Item) {
    && Usable(g, cfg, item.node, a)
    && x == Item(Carried(cfg, item.energy, a), a.dst, item.steps + 1, item.path + [a.kind])
    && cfg.threshold <= x.energy && BestEnergy(s, a.dst, -1.0) + cfg.eps < x.energy
    && s' == Search(s.best[a.dst := LabelOf(x)], s.queue + [x])
  }

  lemma RelaxCases(g: Graph, cfg: Config, item: Item, a: Arc, s: Search) returns (x: Item)
    ensures var s' := Relax(g, cfg, item, a, s);
      || Improves(g, cfg, item, a, s, s', x)
      || (&& s' == s
          && (Usable(g, cfg, item.node, a) && cfg.threshold <= Carried(cfg, item.energy, a) ==>
                Carried(cfg, item.energy, a) <= BestEnergy(s, a.dst, -1.0) + cfg.eps))
  {
    hide Carried, Usable;
    x := Item(Carried(cfg, item.energy, a), a.dst, item.steps + 1, item.path + [a.kind]);
    assert LabelOf(x) == Label(x.energy, item.steps + 1, item.path + [a.kind]);
  }

  // An improved target is a node the path has not visited.
  lemma TargetIsNew(g: Graph, cfg: Config, item: Item, a: Arc, s: Search, s': Search, x: Item, w: seq<Hop>)
    requires Tame(g, cfg) && Tracks(g, cfg, s.best, item, w)
    requires a in Arcs(g, item.node) && Improves(g, cfg, item, a, s, s', x)
    ensures forall i | 0 <= i <= |w| :: End(cfg, w[..i]) != a.dst
  {
    hide Carried, Usable, Factor, Arcs, Walk, Energy, End, StaysAbove, Kinds, Simple;
    EnergyNonNegative(g, cfg, w);
    CarriedFalls(cfg, item.energy, a);
    forall i | 0 <= i <= |w| ensures End(cfg, w[..i]) != a.dst {
      EnergyFalls(g, cfg, w, i);
    }
  }

  lemma TrackExtends(g: Graph, cfg: Config, item: Item, a: Arc, s: Search, s': Search, x: Item)
    requires Tame(g, cfg) && Tracked(g, cfg, s.best, item) && item.steps < cfg.maxSteps
    requires a in Arcs(g, item.node) && Improves(g, cfg, item, a, s, s', x)
    ensures Tracked(g, cfg, s'.best, x)
    ensures a.dst != item.node
  {
    var w :| Tracks(g, cfg, s.best, item, w);
    TargetIsNew(g, cfg, item, a, s, s', x, w);
    hide Carried, Usable, Factor, Arcs, Walk, Energy, End, StaysAbove, Kinds, Tame;
    assert w[..|w|] == w;
    var h := Hop(item.node, a);
    var w' := w + [h];
    WalkSnoc(g, cfg, w, h);
    assert w'[..|w'|] == w';
    assert forall i | 0 <= i <= |w| :: w'[..i] == w[..i];
    assert Backs(g, cfg, w', x.node, LabelOf(x));
    assert Tracks(g, cfg, s'.best, x, w');
  }

  lemma ImproveGrows(g: Graph, cfg: Config, item: Item, a: Arc, s: Search, s': Search, x: Item)
    requires 0.0 <= cfg.eps && Improves(g, cfg, item, a, s, s', x)
    ensures Grows(s.best, s'.best)
  {
    hide Carried, Usable;
  }

  lemma SettlingKept(g: Graph, cfg: Config, s: Search, s': Search, v: int)
    requires v in s.best && Settling(g, cfg, s, v) && Grows(s.best, s'.best)
    requires s'.best[v] == s.best[v] && forall y | y in s.queue :: y in s'.queue
    ensures Settling(g, cfg, s', v)
  {
    hide Carried, Usable, Arcs;
    if Pending(s, v) {
      var x :| x in s.queue && x.node == v && x.energy == s.best[v].energy;
      assert x in s'.queue;
    }
  }

  // ----- relaxing all arcs of a node -----

  // While u is being expanded from item: everyone else is settling, u's label stands, and if
  // item carries u's label, the arcs done so far are closed.
  ghost predicate Expanding(g: Graph, cfg: Config, item: Item, s: Search, done: seq<Arc>) {
    && QueueTracked(g, cfg, s)
    && Tracked(g, cfg, s.best, item)
    && (forall v | v in s.best && v != item.node :: Settling(g, cfg, s, v))
    && cfg.seed in s.best && 1.0 <= s.best[cfg.seed].energy
    && item.node in s.best
    && (s.best[item.node].energy == item.energy || Settling(g, cfg, s, item.node))
    && (s.best[item.node].energy == item.energy ==>
          forall a | a in done :: ArcClosed(g, cfg, s.best, item.node, a))
  }

  lemma ArcsClosedGrow(g: Graph, cfg: Config, b: map<int, Label>, b': map<int, Label>, v: int, done: seq<Arc>)
    requires v in b && Grows(b, b') && b'[v] == b[v]
    requires forall a | a in done :: ArcClosed(g, cfg, b, v, a)
    ensures forall a | a in done :: ArcClosed(g, cfg, b', v, a)
  {
    hide Carried, Usable;
  }

  lemma ExpandArc(g: Graph, cfg: Config, item: Item, s: Search, done: seq<Arc>, a: Arc)
    requires Tame(g, cfg) && item.steps < cfg.maxSteps && a in Arcs(g, item.node)
    requires Expanding(g, cfg, item, s, done)
    ensures Expanding(g, cfg, item, Relax(g, cfg, item, a, s), done + [a])
    ensures Relax(g, cfg, item, a, s).best[item.node] == s.best[item.node]
  {
    hide Carried, Usable, Factor, Arcs, Tame, Relax, Tracked, Settling;
    var x := RelaxCases(g, cfg, item, a, s);
    var s' := Relax(g, cfg, item, a, s);
    CarriedNonNegative(g, cfg, item, a, s);
    if Improves(g, cfg, item, a, s, s', x) {
      TameEps(g, cfg);
      ImproveGrows(g, cfg, item, a, s, s', x);
      TrackExtends(g, cfg, item, a, s, s', x);
      TracedGrows(g, cfg, s.best, s'.best, item);
      forall y | y in s'.queue ensures Tracked(g, cfg, s'.best, y) {
        if y in s.queue { TracedGrows(g, cfg, s.best, s'.best, y); }
      }
      ImprovedSettles(g, cfg, item, a, s, s', x);
      forall v | v in s'.best && v != a.dst && (v != item.node || s.best[v].energy != item.energy)
        ensures Settling(g, cfg, s', v)
      {
        SettlingKept(g, cfg, s, s', v);
      }
      if s.best[item.node].energy == item.energy {
        ArcsClosedGrow(g, cfg, s.best, s'.best, item.node, done);
      }
    }
  }

  lemma CarriedNonNegative(g: Graph, cfg: Config, item: Item, a: Arc, s: Search)
    requires Tame(g, cfg) && Tracked(g, cfg, s.best, item) && a in Arcs(g, item.node)
    ensures 0.0 <= cfg.eps < 1.0
    ensures Usable(g, cfg, item.node, a) ==> 0.0 <= Carried(cfg, item.energy, a)
  {
    hide Carried, Usable, Factor, Arcs, Walk, Kinds, StaysAbove, Traced, Simple;
    var w :| Tracks(g, cfg, s.best, item, w);
    EnergyNonNegative(g, cfg, w);
    if Usable(g, cfg, item.node, a) { CarriedFalls(cfg, item.energy, a); }
  }

  lemma TameEps(g: Graph, cfg: Config)
    requires Tame(g, cfg)
    ensures 0.0 <= cfg.eps < 1.0
  {
  }

  lemma ImprovedSettles(g: Graph, cfg: Config, item: Item, a: Arc, s: Search, s': Search, x: Item)
    requires Improves(g, cfg, item, a, s, s', x)
    ensures Settling(g, cfg, s', a.dst)
  {
    hide Carried, Usable, Closed;
    assert x in s'.queue;
    assert Pending(s', a.dst);
  }

  lemma {:induction false} ExpandAll(g: Graph, cfg: Config, item: Item, s: Search, arcs: seq<Arc>)
    requires Tame(g, cfg) && item.steps < cfg.maxSteps && forall a | a in arcs :: a in Arcs(g, item.node)
    requires Expanding(g, cfg, item, s, [])
    ensures Expanding(g, cfg, item, RelaxAll(g, cfg, item, arcs, s), arcs)
    decreases |arcs|
  {
    hide Tame, Expanding, Relax, Arcs;
    if |arcs| > 0 {
      var init := arcs[..|arcs| - 1];
      ExpandAll(g, cfg, item, s, init);
      ExpandArc(g, cfg, item, RelaxAll(g, cfg, item, init, s), init, arcs[|arcs| - 1]);
      assert init + [arcs[|arcs| - 1]] == arcs;
    }
  }

  // ----- one turn of the loop -----

  // Popping an item that is not its node's label leaves that node settling.
  lemma PopKeeps(g: Graph, cfg: Config, s: Search, v: int)
    requires |s.queue| > 0 && v in s.best && Settling(g, cfg, s, v)
    requires var x := s.queue[Front(s.queue)]; x.node != v || x.energy != s.best[v].energy
    ensures Settling(g, cfg, s.(queue := Rest(s.queue)), v)
  {
    hide Carried, Usable, Arcs, Closed;
    var popped := s.(queue := Rest(s.queue));
    if Pending(s, v) {
      var y :| y in s.queue && y.node == v && y.energy == s.best[v].energy;
      assert y in popped.queue;
    }
  }

  lemma PoppedExpands(g: Graph, cfg: Config, s: Search)
    requires Inv(g, cfg, s) && |s.queue| > 0
    ensures Expanding(g, cfg, s.queue[Front(s.queue)], s.(queue := Rest(s.queue)), [])
  {
    hide Settling, Tracks;
    var x := s.queue[Front(s.queue)];
    var popped := s.(queue := Rest(s.queue));
    assert x in s.queue && Tracked(g, cfg, s.best, x);
    TrackedInBest(g, cfg, s.best, x);
    forall v | v in s.best && (v != x.node || x.energy != s.best[v].energy) ensures Settling(g, cfg, popped, v) {
      PopKeeps(g, cfg, s, v);
    }
  }

  lemma TrackedInBest(g: Graph, cfg: Config, best: map<int, Label>, x: Item)
    requires Tracked(g, cfg, best, x)
    ensures x.node in best && x.energy <= best[x.node].energy
  {
    hide Walk, Energy, Kinds, StaysAbove, Simple;
    var w :| Tracks(g, cfg, best, x, w);
    assert w[..|w|] == w;
  }

  lemma ExpandedSettles(g: Graph, cfg: Config, item: Item, s: Search)
    requires Expanding(g, cfg, item, s, Arcs(g, item.node))
    ensures Inv(g, cfg, s)
  {
    hide Tracked, ArcClosed, Pending;
    forall v | v in s.best ensures Settling(g, cfg, s, v) {
      if v == item.node && s.best[v].energy == item.energy {
        assert Closed(g, cfg, s.best, v);
      }
    }
  }

  // ----- labels at the step bound -----

  function Visited(cfg: Config, w: seq<Hop>): (vs: seq<int>)
    ensures |vs| == |w| + 1
  {
    seq(|w| + 1, i requires 0 <= i <= |w| => End(cfg, w[..i]))
  }

  lemma WalkPrefix(g: Graph, cfg: Config, w: seq<Hop>, i: nat)
    requires Walk(g, cfg, w) && i <= |w|
    ensures Walk(g, cfg, w[..i])
    decreases |w|
  {
    hide Allowed;
    if i == |w| {
      assert w[..i] == w;
    } else {
      WalkPrefix(g, cfg, w[..|w| - 1], i);
      assert w[..|w| - 1][..i] == w[..i];
    }
  }

  // Nodes of a walk are nodes of the graph, provided the last one has an arc.
  lemma VisitedInRange(g: Graph, cfg: Config, w: seq<Hop>, i: nat)
    requires WellFormed(g) && Walk(g, cfg, w) && i <= |w| && End(cfg, w) in g.adj
    ensures 0 <= End(cfg, w[..i]) < g.nodeCount
  {
    hide Usable;
    if i < |w| {
      WalkPrefix(g, cfg, w, i + 1);
      assert w[..i + 1][..i] == w[..i];
      assert w[..i + 1][i].src in g.adj;
    } else {
      assert w[..i] == w;
    }
  }

  // A label that used up the step bound has nothing left to improve.
  lemma ExhaustedIsClosed(g: Graph, cfg: Config, best: map<int, Label>, x: Item)
    requires WellFormed(g) && Tame(g, cfg) && Tracked(g, cfg, best, x) && cfg.maxSteps <= x.steps
    requires x.node in best && best[x.node].energy == x.energy
    ensures Closed(g, cfg, best, x.node)
  {
    var w :| Tracks(g, cfg, best, x, w);
    forall a | a in Arcs(g, x.node) ensures ArcClosed(g, cfg, best, x.node, a) {
      if Usable(g, cfg, x.node, a) {
        ExhaustedArc(g, cfg, best, x, w, a);
      }
    }
  }

  lemma ArcInRange(g: Graph, u: int, a: Arc)
    requires WellFormed(g) && a in Arcs(g, u)
    ensures u in g.adj && 0 <= a.dst < g.nodeCount
  {
    var i :| 0 <= i < |g.adj[u]| && g.adj[u][i] == a;
  }

  lemma ExhaustedArc(g: Graph, cfg: Config, best: map<int, Label>, x: Item, w: seq<Hop>, a: Arc)
    requires WellFormed(g) && Tame(g, cfg) && Tracks(g, cfg, best, x, w) && cfg.maxSteps <= x.steps
    requires a in Arcs(g, x.node) && Usable(g, cfg, x.node, a)
    ensures a.dst in best && Carried(cfg, x.energy, a) <= best[a.dst].energy
  {
    ArcInRange(g, x.node, a);
    hide Carried, Usable, Factor, Arcs, Walk, Energy, End, StaysAbove, Kinds, WellFormed;
    var vs := Visited(cfg, w);
    forall i | 0 <= i < |vs| ensures 0 <= vs[i] < g.nodeCount {
      VisitedInRange(g, cfg, w, i);
    }
    AllVisited(vs, g.nodeCount, a.dst);
    var i :| 0 <= i < |vs| && vs[i] == a.dst;
    EnergyFalls(g, cfg, w, i);
    EnergyNonNegative(g, cfg, w);
    CarriedFalls(cfg, x.energy, a);
  }

  lemma VisitKeeps(g: Graph, cfg: Config, s: Search)
    requires WellFormed(g) && Tame(g, cfg) && Inv(g, cfg, s) && |s.queue| > 0
    ensures Inv(g, cfg, Visit(g, cfg, s))
  {
    hide WellFormed, Tame, Tracked, Settling, ArcClosed, RelaxAll, Front, Rest;
    var item := s.queue[Front(s.queue)];
    var popped := s.(queue := Rest(s.queue));
    PoppedExpands(g, cfg, s);
    TameEps(g, cfg);
    if item.energy + cfg.eps < BestEnergy(s, item.node, 0.0) {
      assert Visit(g, cfg, s) == popped;
    } else if item.steps >= cfg.maxSteps {
      assert Visit(g, cfg, s) == popped;
      if s.best[item.node].energy == item.energy {
        ExhaustedIsClosed(g, cfg, s.best, item);
        ClosedSettles(g, cfg, popped, item.node);
      }
    } else {
      hide Arcs;
      ExpandAll(g, cfg, item, popped, Arcs(g, item.node));
      ExpandedSettles(g, cfg, item, RelaxAll(g, cfg, item, Arcs(g, item.node), popped));
    }
  }

  lemma ClosedSettles(g: Graph, cfg: Config, s: Search, v: int)
    requires v in s.best && Closed(g, cfg, s.best, v)
    ensures Settling(g, cfg, s, v)
  {
    hide Closed;
  }

  lemma {:induction false} ExploreKeeps(g: Graph, cfg: Config, s: Search)
    requires WellFormed(g) && Tame(g, cfg) && Inv(g, cfg, s)
    ensures Inv(g, cfg, Explore(g, cfg, s)) && Explore(g, cfg, s).queue == []
    decreases Weight(g, cfg, s.queue)
  {
    hide WellFormed, Tame, Inv, Visit;
    if |s.queue| > 0 {
      VisitDescends(g, cfg, s);
      VisitKeeps(g, cfg, s);
      ExploreKeeps(g, cfg, Visit(g, cfg, s));
    }
  }

  lemma BeginKeeps(g: Graph, cfg: Config)
    ensures Inv(g, cfg, Begin(cfg))
  {
    var s := Begin(cfg);
    var x := s.queue[0];
    var w: seq<Hop> := [];
    assert w[..0] == w;
    assert Backs(g, cfg, w, cfg.seed, Label(1.0, 0, []));
    assert Tracks(g, cfg, s.best, x, w);
    assert x in s.queue;
    assert Pending(s, cfg.seed);
  }

  // ----- the theorems -----

  // Every node labelled, and every label settled for good.
  ghost predicate Saturated(g: Graph, cfg: Config, best: map<int, Label>) {
    && (forall v | v in best :: Closed(g, cfg, best, v))
    && cfg.seed in best && 1.0 <= best[cfg.seed].energy
  }

  lemma OutcomeSaturated(g: Graph, cfg: Config)
    requires WellFormed(g) && Tame(g, cfg)
    ensures Saturated(g, cfg, Outcome(g, cfg))
  {
    hide WellFormed, Tame, Explore, Closed, Begin, QueueTracked;
    BeginKeeps(g, cfg);
    ExploreKeeps(g, cfg, Begin(cfg));
    var s := Explore(g, cfg, Begin(cfg));
    forall v | v in s.best ensures Closed(g, cfg, s.best, v) {
      assert Settling(g, cfg, s, v);
    }
  }

  /** Near-optimality for every tolerance: a walk of k hops whose energy is at least
      threshold + k * eps ends at a labelled node, and the label loses at most k * eps to it. */
  lemma {:induction false} WalkDominated(g: Graph, cfg: Config, best: map<int, Label>, w: seq<Hop>)
    requires Tame(g, cfg) && Saturated(g, cfg, best) && Walk(g, cfg, w)
    requires |w| == 0 || cfg.threshold + |w| as real * cfg.eps <= Energy(cfg, w)
    ensures End(cfg, w) in best
    ensures Energy(cfg, w) <= best[End(cfg, w)].energy + |w| as real * cfg.eps
    decreases |w|
  {
    hide Carried, Usable, Factor, Arcs, Closed, Tame, Energy;
    if |w| > 0 {
      var init, h := w[..|w| - 1], w[|w| - 1];
      EnergyFalls(g, cfg, w, |init|);
      EnergyNonNegative(g, cfg, init);
      TameEps(g, cfg);
      StepSlack(|init|, cfg.eps);
      WalkSnoc(g, cfg, init, h);
      assert w == init + [h];
      WalkDominated(g, cfg, best, init);
      HopDominated(g, cfg, best, h, Energy(cfg, init), |init| as real * cfg.eps);
    } else {
      EmptyWalk(cfg, w);
    }
  }

  lemma EmptyWalk(cfg: Config, w: seq<Hop>)
    requires |w| == 0
    ensures Energy(cfg, w) == 1.0 && |w| as real * cfg.eps == 0.0
  {
  }

  lemma StepSlack(k: nat, eps: real)
    requires 0.0 <= eps
    ensures (k + 1) as real * eps == k as real * eps + eps
    ensures 0.0 <= k as real * eps
  {
  }

  lemma HopDominated(g: Graph, cfg: Config, best: map<int, Label>, h: Hop, energy: real, slack: real)
    requires Tame(g, cfg) && Saturated(g, cfg, best) && Allowed(g, cfg, h)
    requires h.src in best && 0.0 <= energy <= best[h.src].energy + slack && 0.0 <= slack
    requires cfg.threshold + slack + cfg.eps <= Carried(cfg, energy, h.arc)
    ensures h.arc.dst in best
    ensures Carried(cfg, energy, h.arc) <= best[h.arc.dst].energy + slack + cfg.eps
  {
    var f := Factor(cfg, h.arc);
    assert 0.0 <= f <= 1.0;
    Spread(energy, best[h.src].energy, slack, f);
    hide Factor;
    assert ArcClosed(g, cfg, best, h.src, h.arc);
  }

  lemma Spread(e: real, b: real, slack: real, f: real)
    requires e <= b + slack && 0.0 <= slack && 0.0 <= f <= 1.0
    ensures e * f <= b * f + slack
  {
    assert (b + slack - e) * f >= 0.0;
    assert slack * f <= slack;
  }

  /** The heap wave is optimal. With tame factors and a step bound of at least nodeCount - 1,
      every walk with energy clear of the threshold by its tolerance is matched to within that
      tolerance; with none, the labels are exactly the best energies over all walks that stay
      above the threshold, and every such walk's end is labelled. */
  lemma WaveOptimal(g: Graph, cfg: Config, w: seq<Hop>)
    requires WellFormed(g) && Tame(g, cfg) && Walk(g, cfg, w)
    ensures |w| == 0 || cfg.threshold + |w| as real * cfg.eps <= Energy(cfg, w) ==>
      && End(cfg, w) in Outcome(g, cfg)
      && Energy(cfg, w) <= Outcome(g, cfg)[End(cfg, w)].energy + |w| as real * cfg.eps
    ensures cfg.eps == 0.0 && StaysAbove(cfg, w) ==>
      && End(cfg, w) in Outcome(g, cfg)
      && Energy(cfg, w) <= Outcome(g, cfg)[End(cfg, w)].energy
  {
    hide WellFormed, Tame, Outcome, Saturated, Walk, Energy, End;
    OutcomeSaturated(g, cfg);
    if |w| == 0 || cfg.threshold + |w| as real * cfg.eps <= Energy(cfg, w) {
      WalkDominated(g, cfg, Outcome(g, cfg), w);
    }
    assert cfg.eps == 0.0 ==> |w| as real * cfg.eps == 0.0;
  }

  /** With no tolerance, the labels are the maximum energies exactly: node by node, a node is
      labelled just when some walk reaches it above the threshold, and its label is attained
      by such a walk and bounds every one of them. */
  lemma WaveIsMaximum(g: Graph, cfg: Config, v: int)
    requires WellFormed(g) && Tame(g, cfg) && cfg.eps == 0.0
    ensures v in Outcome(g, cfg) <==> exists w :: Walk(g, cfg, w) && StaysAbove(cfg, w) && End(cfg, w) == v
    ensures v in Outcome(g, cfg) ==>
      && (exists w :: Walk(g, cfg, w) && StaysAbove(cfg, w) && End(cfg, w) == v
                      && Energy(cfg, w) == Outcome(g, cfg)[v].energy)
      && (forall w | Walk(g, cfg, w) && StaysAbove(cfg, w) && End(cfg, w) == v ::
            Energy(cfg, w) <= Outcome(g, cfg)[v].energy)
  {
    hide WellFormed, Tame, Outcome, Walk, Energy, End, StaysAbove, Kinds;
    WaveSound(g, cfg);
    if v in Outcome(g, cfg) {
      assert Justified(g, cfg, v, Outcome(g, cfg)[v]);
      var w :| Backs(g, cfg, w, v, Outcome(g, cfg)[v]);
    }
    forall w | Walk(g, cfg, w) && StaysAbove(cfg, w) && End(cfg, w) == v
      ensures v in Outcome(g, cfg) && Energy(cfg, w) <= Outcome(g, cfg)[v].energy
    {
      WaveOptimal(g, cfg, w);
    }
  }
}
