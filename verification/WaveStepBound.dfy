/** Which step bounds leave the wave optimal, on all the graphs that add_edge builds. A bound of at
    most one, or one that lets a path visit every node, always does, and a tolerance of a half or
    more forgives everything; every other bound fails on some graph of that many nodes. */
module WaveStepBound {
  import opened Heap
  import opened Wave
  import opened WaveEngine
  import opened WaveOptimality
  import opened WaveLadder

  // The configurations a query accepts.
  predicate Accepted(cfg: Config) {
    0 < cfg.topK && 0 <= cfg.maxSteps && 0.0 <= cfg.threshold && 0.0 < cfg.rigor
  }

  // No usable arc amplifies.
  ghost predicate Damped(g: Graph, cfg: Config) {
    forall u, a | a in Arcs(g, u) && Usable(g, cfg, u, a) :: 0.0 <= Factor(cfg, a) <= 1.0
  }

  // A walk within the bound that stays at or above the threshold, and clear of it by one
  // tolerance a hop; with no tolerance the last conjunct says nothing new.
  ghost predicate Within(g: Graph, cfg: Config, w: seq<Hop>) {
    && Walk(g, cfg, w) && |w| <= cfg.maxSteps && StaysAbove(cfg, w)
    && (|w| == 0 || cfg.threshold + |w| as real * cfg.eps <= Energy(cfg, w))
  }

  // The end of the walk is labelled, losing at most one tolerance a hop.
  ghost predicate Answered(cfg: Config, best: map<int, Label>, w: seq<Hop>) {
    End(cfg, w) in best && Energy(cfg, w) <= best[End(cfg, w)].energy + |w| as real * cfg.eps
  }

  ghost predicate Optimal(g: Graph, cfg: Config)
    requires WellFormed(g)
  {
    forall w | Within(g, cfg, w) :: Answered(cfg, Outcome(g, cfg), w)
  }

  // On every graph of n nodes that add_edge builds, and every accepted query on it.
  ghost predicate AlwaysOptimal(n: nat, m: int, eps: real) {
    forall hops, cfg | Addable(hops) && Built(hops).nodeCount == n && Damped(Built(hops), cfg)
                       && Accepted(cfg) && cfg.maxSteps == m && cfg.eps == eps ::
      WellFormed(Built(hops)) && Optimal(Built(hops), cfg)
  }

  // ----- labels only grow -----

  lemma RelaxGrows(g: Graph, cfg: Config, item: Item, a: Arc, s: Search)
    requires 0.0 <= cfg.eps
    ensures Grows(s.best, Relax(g, cfg, item, a, s).best)
  {
    hide Carried, Usable, Relax;
    var x := RelaxCases(g, cfg, item, a, s);
  }

  lemma {:induction false} RelaxAllGrows(g: Graph, cfg: Config, item: Item, arcs: seq<Arc>, s: Search)
    requires 0.0 <= cfg.eps
    ensures Grows(s.best, RelaxAll(g, cfg, item, arcs, s).best)
    decreases |arcs|
  {
    hide Relax;
    if |arcs| > 0 {
      RelaxAllGrows(g, cfg, item, arcs[..|arcs| - 1], s);
      RelaxGrows(g, cfg, item, arcs[|arcs| - 1], RelaxAll(g, cfg, item, arcs[..|arcs| - 1], s));
    }
  }

  lemma {:induction false} ExploreGrows(g: Graph, cfg: Config, s: Search)
    requires WellFormed(g) && 0.0 <= cfg.eps
    ensures Grows(s.best, Explore(g, cfg, s).best)
    decreases Weight(g, cfg, s.queue)
  {
    hide WellFormed, RelaxAll, Front, Rest;
    if |s.queue| > 0 {
      var item := s.queue[Front(s.queue)];
      RelaxAllGrows(g, cfg, item, Arcs(g, item.node), s.(queue := Rest(s.queue)));
      VisitDescends(g, cfg, s);
      hide Weight;
      ExploreGrows(g, cfg, Visit(g, cfg, s));
    }
  }

  // Expanding a node keeps what is queued.
  lemma {:induction false} RelaxAllKeepsQueue(g: Graph, cfg: Config, item: Item, arcs: seq<Arc>, s: Search)
    ensures forall x | x in s.queue :: x in RelaxAll(g, cfg, item, arcs, s).queue
    decreases |arcs|
  {
    hide Carried, Usable;
    if |arcs| > 0 { RelaxAllKeepsQueue(g, cfg, item, arcs[..|arcs| - 1], s); }
  }

  // ----- at most one hop -----

  // The arc is answered for the energy carried over it.
  ghost predicate Reached(g: Graph, cfg: Config, item: Item, best: map<int, Label>, a: Arc) {
    Usable(g, cfg, item.node, a) && cfg.threshold + cfg.eps <= Carried(cfg, item.energy, a) ==>
      a.dst in best && Carried(cfg, item.energy, a) <= best[a.dst].energy + cfg.eps
  }

  lemma {:induction false} RelaxAllReaches(g: Graph, cfg: Config, item: Item, arcs: seq<Arc>, s: Search)
    requires 0.0 <= cfg.eps && 0.0 <= cfg.threshold
    ensures forall a | a in arcs :: Reached(g, cfg, item, RelaxAll(g, cfg, item, arcs, s).best, a)
    decreases |arcs|
  {
    hide Relax, Carried, Usable;
    if |arcs| > 0 {
      var init, last := arcs[..|arcs| - 1], arcs[|arcs| - 1];
      var mid := RelaxAll(g, cfg, item, init, s);
      RelaxAllReaches(g, cfg, item, init, s);
      RelaxGrows(g, cfg, item, last, mid);
      var x := RelaxCases(g, cfg, item, last, mid);
      forall a | a in arcs ensures Reached(g, cfg, item, RelaxAll(g, cfg, item, arcs, s).best, a) {
        if a in init { assert Reached(g, cfg, item, mid.best, a); }
      }
    }
  }

  // The search after its first turn, when it may take a step at all.
  function Started(g: Graph, cfg: Config): Search {
    RelaxAll(g, cfg, Item(1.0, cfg.seed, 0, []), Arcs(g, cfg.seed), Search(Begin(cfg).best, []))
  }

  lemma FirstVisit(g: Graph, cfg: Config)
    requires WellFormed(g) && 0.0 <= cfg.eps && 0 < cfg.maxSteps
    ensures Visit(g, cfg, Begin(cfg)) == Started(g, cfg)
    ensures Explore(g, cfg, Begin(cfg)) == Explore(g, cfg, Started(g, cfg))
  {
    hide WellFormed, RelaxAll, Arcs, Weight;
    assert Rest(Begin(cfg).queue) == [];
    VisitDescends(g, cfg, Begin(cfg));
  }

  lemma FewHops(g: Graph, cfg: Config, w: seq<Hop>)
    requires WellFormed(g) && 0.0 <= cfg.eps && 0.0 <= cfg.threshold
    requires |w| <= 1 && Within(g, cfg, w)
    ensures Answered(cfg, Outcome(g, cfg), w)
  {
    hide WellFormed, Carried, Usable, RelaxAll, Relax, Arcs;
    ExploreGrows(g, cfg, Begin(cfg));
    assert cfg.seed in Begin(cfg).best;
    if |w| == 1 {
      var a := w[0].arc;
      assert w == [] + [w[0]];
      WalkSnoc(g, cfg, [], w[0]);
      assert Usable(g, cfg, cfg.seed, a) && a in Arcs(g, cfg.seed) && Energy(cfg, w) == Carried(cfg, 1.0, a);
      var item := Item(1.0, cfg.seed, 0, []);
      RelaxAllReaches(g, cfg, item, Arcs(g, cfg.seed), Search(Begin(cfg).best, []));
      assert Reached(g, cfg, item, Started(g, cfg).best, a);
      FirstVisit(g, cfg);
      ExploreGrows(g, cfg, Started(g, cfg));
      assert 1 as real * cfg.eps == cfg.eps;
    } else {
      assert 0 as real * cfg.eps == 0.0;
    }
  }

  // ----- a tolerance of a half or more -----

  lemma {:induction false} DampedEnergy(g: Graph, cfg: Config, w: seq<Hop>)
    requires Damped(g, cfg) && Walk(g, cfg, w)
    ensures 0.0 <= Energy(cfg, w) <= 1.0
    decreases |w|
  {
    hide Factor, Carried, Usable, Arcs;
    if |w| > 0 {
      DampedEnergy(g, cfg, w[..|w| - 1]);
      CarriedFalls(cfg, Energy(cfg, w[..|w| - 1]), w[|w| - 1].arc);
    }
  }

  // Energies stay between zero and one.
  ghost predicate Mild(s: Search) {
    && (forall v | v in s.best :: 0.0 <= s.best[v].energy <= 1.0)
    && forall x | x in s.queue :: 0.0 <= x.energy <= 1.0
  }

  lemma {:induction false} RelaxAllMild(g: Graph, cfg: Config, item: Item, arcs: seq<Arc>, s: Search)
    requires Damped(g, cfg) && Mild(s) && 0.0 <= item.energy <= 1.0 && forall a | a in arcs :: a in Arcs(g, item.node)
    ensures Mild(RelaxAll(g, cfg, item, arcs, s))
    decreases |arcs|
  {
    hide Carried, Usable, Arcs, Factor;
    if |arcs| > 0 {
      var init, last := arcs[..|arcs| - 1], arcs[|arcs| - 1];
      RelaxAllMild(g, cfg, item, init, s);
      if Usable(g, cfg, item.node, last) { CarriedFalls(cfg, item.energy, last); }
    }
  }

  // The node is labelled, or an item at u that still has steps left will label it.
  ghost predicate Waiting(s: Search, u: int, v: int) {
    v in s.best || exists x :: x in s.queue && x.node == u && x.energy >= HALF && x.steps <= 1
  }

  lemma VisitWaits(g: Graph, cfg: Config, s: Search, u: int, a: Arc)
    requires Damped(g, cfg) && cfg.eps == HALF && cfg.threshold == 0.0 && 2 <= cfg.maxSteps
    requires a in Arcs(g, u) && Usable(g, cfg, u, a) && Factor(cfg, a) == 1.0
    requires Mild(s) && Waiting(s, u, a.dst) && |s.queue| > 0
    ensures Mild(Visit(g, cfg, s)) && Waiting(Visit(g, cfg, s), u, a.dst)
  {
    hide RelaxAll, Usable, Arcs, Factor, Front, Rest, Damped;
    FrontIn(s.queue);
    var item := s.queue[Front(s.queue)];
    var popped := s.(queue := Rest(s.queue));
    var arcs := Arcs(g, item.node);
    RelaxAllMild(g, cfg, item, arcs, popped);
    RelaxAllKeepsQueue(g, cfg, item, arcs, popped);
    RelaxAllGrows(g, cfg, item, arcs, popped);
    if a.dst !in s.best {
      var x :| x in s.queue && x.node == u && x.energy >= HALF && x.steps <= 1;
      if x == item {
        RelaxAllReaches(g, cfg, item, arcs, popped);
        assert Reached(g, cfg, item, RelaxAll(g, cfg, item, arcs, popped).best, a);
        assert Carried(cfg, item.energy, a) == item.energy;
      } else {
        assert x in popped.queue;
      }
    }
  }

  lemma FrontIn(q: seq<Item>)
    requires |q| > 0
    ensures q[Front(q)] in q
    ensures forall x | x in Rest(q) :: x in q
    ensures forall x | x in q :: x in Rest(q) || x == q[Front(q)]
  {
  }

  lemma {:induction false} ExploreWaits(g: Graph, cfg: Config, s: Search, u: int, a: Arc)
    requires WellFormed(g) && Damped(g, cfg) && cfg.eps == HALF && cfg.threshold == 0.0 && 2 <= cfg.maxSteps
    requires a in Arcs(g, u) && Usable(g, cfg, u, a) && Factor(cfg, a) == 1.0
    requires Mild(s) && Waiting(s, u, a.dst)
    ensures a.dst in Explore(g, cfg, s).best && 0.0 <= Explore(g, cfg, s).best[a.dst].energy
    decreases Weight(g, cfg, s.queue)
  {
    hide WellFormed, Damped, Usable, Arcs, Factor, Visit;
    if |s.queue| > 0 {
      VisitDescends(g, cfg, s);
      VisitWaits(g, cfg, s, u, a);
      ExploreWaits(g, cfg, Visit(g, cfg, s), u, a);
    }
  }

  // A node the first turn labels is queued with that label.
  lemma {:induction false} FreshQueued(g: Graph, cfg: Config, item: Item, arcs: seq<Arc>, s: Search)
    requires s.queue == []
    ensures var s' := RelaxAll(g, cfg, item, arcs, s);
      forall v | v in s'.best && v !in s.best :: Labelled(s', v, item.steps + 1)
    decreases |arcs|
  {
    hide Carried, Usable, Relax;
    if |arcs| > 0 {
      var init, last := arcs[..|arcs| - 1], arcs[|arcs| - 1];
      var mid := RelaxAll(g, cfg, item, init, s);
      FreshQueued(g, cfg, item, init, s);
      var x := RelaxCases(g, cfg, item, last, mid);
      var s' := RelaxAll(g, cfg, item, arcs, s);
      forall v | v in s'.best && v !in s.best ensures Labelled(s', v, item.steps + 1) {
        if s' == mid || v != last.dst {
          assert Labelled(mid, v, item.steps + 1);
          var y :| y in mid.queue && y.node == v && y.energy == mid.best[v].energy && y.steps == item.steps + 1;
          assert y in s'.queue;
        } else {
          assert x in s'.queue;
        }
      }
    }
  }

  ghost predicate Labelled(s: Search, v: int, steps: nat)
    requires v in s.best
  {
    exists x :: x in s.queue && x.node == v && x.energy == s.best[v].energy && x.steps == steps
  }

  // Two factors of at most one that multiply to one are one.
  lemma BothOne(f: real, h: real)
    requires 0.0 <= f <= 1.0 && 0.0 <= h <= 1.0 && 1.0 <= f * h
    ensures f == 1.0 && h == 1.0
  {
    assert f * h <= f && f * h <= h;
  }

  lemma TwoHops(g: Graph, cfg: Config, w: seq<Hop>)
    requires WellFormed(g) && Damped(g, cfg) && cfg.eps == HALF && cfg.threshold == 0.0 && 2 <= cfg.maxSteps
    requires |w| == 2 && Walk(g, cfg, w) && 1.0 <= Energy(cfg, w)
    ensures Answered(cfg, Outcome(g, cfg), w)
  {
    hide WellFormed, Usable, Arcs, Factor, RelaxAll, Explore, Damped;
    var a, b := w[0].arc, w[1].arc;
    TwoHopsAre(g, cfg, w);
    var item := Item(1.0, cfg.seed, 0, []);
    var popped := Search(Begin(cfg).best, []);
    var s := Started(g, cfg);
    RelaxAllMild(g, cfg, item, Arcs(g, cfg.seed), popped);
    RelaxAllReaches(g, cfg, item, Arcs(g, cfg.seed), popped);
    FreshQueued(g, cfg, item, Arcs(g, cfg.seed), popped);
    assert Reached(g, cfg, item, s.best, a);
    FirstVisit(g, cfg);
    if a.dst == cfg.seed {
      assert Reached(g, cfg, item, s.best, b);
      assert Waiting(s, a.dst, b.dst);
    } else {
      assert Labelled(s, a.dst, 1);
      assert Waiting(s, a.dst, b.dst);
    }
    ExploreWaits(g, cfg, s, a.dst, b);
    DampedEnergy(g, cfg, w);
  }

  lemma TwoHopsAre(g: Graph, cfg: Config, w: seq<Hop>)
    requires Damped(g, cfg) && |w| == 2 && Walk(g, cfg, w) && 1.0 <= Energy(cfg, w)
    ensures var a, b := w[0].arc, w[1].arc;
      && a in Arcs(g, cfg.seed) && Usable(g, cfg, cfg.seed, a) && Factor(cfg, a) == 1.0
      && b in Arcs(g, a.dst) && Usable(g, cfg, a.dst, b) && Factor(cfg, b) == 1.0
      && End(cfg, w) == b.dst && Energy(cfg, w) <= 1.0
    ensures Carried(cfg, 1.0, w[0].arc) == 1.0 && Carried(cfg, 1.0, w[1].arc) == 1.0
  {
    DampedEnergy(g, cfg, w);
    hide Usable, Arcs, Factor;
    assert w == [w[0]] + [w[1]] && [w[0]] == [] + [w[0]];
    WalkSnoc(g, cfg, [], w[0]);
    WalkSnoc(g, cfg, [w[0]], w[1]);
    BothOne(Factor(cfg, w[0].arc), Factor(cfg, w[1].arc));
  }

  lemma WideTolerance(g: Graph, cfg: Config, w: seq<Hop>)
    requires WellFormed(g) && Damped(g, cfg) && Accepted(cfg) && HALF <= cfg.eps && Within(g, cfg, w)
    ensures Answered(cfg, Outcome(g, cfg), w)
  {
    DampedEnergy(g, cfg, w);
    hide WellFormed, Damped, Outcome, Walk, Energy, End, StaysAbove, Answered;
    if |w| <= 1 {
      FewHops(g, cfg, w);
    } else {
      AtMostTwo(|w|, cfg.eps, cfg.threshold);
      TwoHops(g, cfg, w);
    }
  }

  lemma AtMostTwo(k: nat, eps: real, threshold: real)
    requires 2 <= k && HALF <= eps && 0.0 <= threshold && threshold + k as real * eps <= 1.0
    ensures k == 2 && eps == HALF && threshold == 0.0
    ensures k as real * eps == 1.0
  {
    var r := k as real;
    assert (r - 2.0) * eps >= 0.0;
    assert r * eps == (r - 2.0) * eps + 2.0 * eps;
    assert k > 2 ==> r >= 3.0;
    assert r >= 3.0 ==> r * eps >= 3.0 * eps;
  }

  // ----- enough steps -----

  lemma DampedIsTame(g: Graph, cfg: Config)
    requires Damped(g, cfg) && 0.0 <= cfg.eps < 1.0 && g.nodeCount - 1 <= cfg.maxSteps
    ensures Tame(g, cfg)
  {
    hide Factor, Usable, Arcs;
  }

  lemma ManySteps(g: Graph, cfg: Config, w: seq<Hop>)
    requires WellFormed(g) && Tame(g, cfg) && Within(g, cfg, w)
    ensures Answered(cfg, Outcome(g, cfg), w)
  {
    hide WellFormed, Tame, Outcome, Walk, Energy, End, StaysAbove;
    WaveOptimal(g, cfg, w);
  }

  /** On any well-formed graph each of the three conditions is enough. */
  lemma BoundSuffices(g: Graph, cfg: Config)
    requires WellFormed(g) && Damped(g, cfg) && Accepted(cfg) && 0.0 <= cfg.eps
    requires cfg.maxSteps <= 1 || g.nodeCount - 1 <= cfg.maxSteps || HALF <= cfg.eps
    ensures Optimal(g, cfg)
  {
    if cfg.eps < HALF && cfg.maxSteps > 1 { DampedIsTame(g, cfg); }
    hide WellFormed, Damped, Tame, Outcome, Answered, Walk, StaysAbove, Energy;
    forall w | Within(g, cfg, w) ensures Answered(cfg, Outcome(g, cfg), w) {
      if HALF <= cfg.eps {
        WideTolerance(g, cfg, w);
      } else if cfg.maxSteps <= 1 {
        FewHops(g, cfg, w);
      } else {
        ManySteps(g, cfg, w);
      }
    }
  }

  // ----- the theorem -----

  lemma LadderIsDamped(n: nat, m: nat, eps: real)
    requires Bounds(n, m, eps)
    ensures Damped(Ladder(n, m, eps), Query(m, eps))
  {
    var g, cfg := Ladder(n, m, eps), Query(m, eps);
    forall u, a | a in Arcs(g, u) && Usable(g, cfg, u, a) ensures 0.0 <= Factor(cfg, a) <= 1.0 {
      LadderArcs(n, m, eps, u);
      LadderCarries(m, eps, 1.0, u);
    }
  }

  /** With a bound of at least two that is below the number of nodes minus one, and a tolerance below
      a half, add_edge builds a graph on which a two-hop walk well above the threshold ends at a node
      that the wave never labels. */
  lemma BindingBoundHidesWalks(n: nat, m: nat, eps: real)
    requires Bounds(n, m, eps)
    ensures Addable(LadderHops(n, m, eps)) && Ladder(n, m, eps) == Built(LadderHops(n, m, eps))
    ensures var g, cfg := Ladder(n, m, eps), Query(m, eps);
      && WellFormed(g) && g.nodeCount == n && Damped(g, cfg) && Accepted(cfg)
      && Within(g, cfg, Hidden(m, eps)) && |Hidden(m, eps)| == 2
      && End(cfg, Hidden(m, eps)) !in Outcome(g, cfg)
  {
    LadderIsAddable(n, m, eps);
    LadderNodes(n, m, eps);
    LadderIsDamped(n, m, eps);
    HiddenWalk(n, m, eps);
    HiddenIsLost(n, m, eps);
    hide WellFormed, Damped, Walk, StaysAbove, End, Energy, Outcome, Addable;
    assert 2 as real * eps <= HALF + eps;
  }

  /** Exactly which step bounds keep the wave optimal on every graph of n nodes, for every tolerance:
      at most one step, or enough steps to visit every node, unless the tolerance is so wide that
      nothing can be lost. */
  lemma StepBoundIff(n: nat, m: int, eps: real)
    requires 0.0 <= eps
    ensures AlwaysOptimal(n, m, eps) <==> m <= 1 || n - 1 <= m || HALF <= eps
  {
    if m <= 1 || n - 1 <= m || HALF <= eps {
      hide Damped, Optimal, WellFormed, Built;
      forall hops, cfg | Addable(hops) && Built(hops).nodeCount == n && Damped(Built(hops), cfg)
                         && Accepted(cfg) && cfg.maxSteps == m && cfg.eps == eps
        ensures WellFormed(Built(hops)) && Optimal(Built(hops), cfg)
      {
        BuiltIsWellFormed(hops);
        BoundSuffices(Built(hops), cfg);
      }
    } else {
      BindingBoundHidesWalks(n, m, eps);
      var g, cfg := Ladder(n, m, eps), Query(m, eps);
      hide Damped, WellFormed, Built, Outcome, Within;
      assert !Answered(cfg, Outcome(g, cfg), Hidden(m, eps));
      assert !Optimal(g, cfg);
    }
  }
}
