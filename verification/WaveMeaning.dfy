/** What the wave answers, said of the list of edges that were added and without the engine's filters:
    which hops count, what a walk's energy is, and which labels come out. */
module WaveMeaning {
  import opened Common
  import opened Wave
  import opened WaveEngine
  import opened WaveOptimality

  // An edge that was added, of a kind in the mask, other than IS_NOT, whose target no IS_NOT edge from the
  // same source names.
  ghost predicate Permitted(edges: seq<Hop>, cfg: Config, h: Hop) {
    && h in edges && h.arc.kind in cfg.mask && h.arc.kind != 10
    && forall e | e in edges :: !(e.src == h.src && e.arc.dst == h.arc.dst && e.arc.kind == 10)
  }

  // Permitted hops, each leaving the node the one before it reached, the first leaving the seed.
  ghost predicate Path(edges: seq<Hop>, cfg: Config, w: seq<Hop>) {
    forall i | 0 <= i < |w| :: Continues(edges, cfg, w, i)
  }

  ghost predicate Continues(edges: seq<Hop>, cfg: Config, w: seq<Hop>, i: nat)
    requires i < |w|
  {
    Permitted(edges, cfg, w[i]) && w[i].src == if i == 0 then cfg.seed else w[i - 1].arc.dst
  }

  // What a hop leaves of the energy: nothing for a kind without attenuation.
  function Share(cfg: Config, h: Hop): real {
    if h.arc.kind in cfg.attenuation then cfg.attenuation[h.arc.kind] * h.arc.weight * cfg.rigor else 0.0
  }

  // What the hops of a walk leave of one unit.
  function Left(cfg: Config, w: seq<Hop>): real {
    if |w| == 0 then 1.0 else Share(cfg, w[0]) * Left(cfg, w[1..])
  }

  ghost predicate Above(cfg: Config, w: seq<Hop>) {
    forall i | 0 < i <= |w| :: cfg.threshold <= Left(cfg, w[..i])
  }

  // ----- the edges of a built graph -----

  lemma {:induction false} ArcOfEdge(edges: seq<Hop>, u: int, a: Arc)
    ensures a in ArcsFrom(edges, u) <==> Hop(u, a) in edges
  {
    if |edges| > 0 {
      var init, h := edges[..|edges| - 1], edges[|edges| - 1];
      ArcOfEdge(init, u, a);
      assert edges == init + [h];
      assert h == Hop(h.src, h.arc);
    }
  }

  lemma BlockedIs(edges: seq<Hop>, u: int, v: int)
    requires Addable(edges)
    ensures v in BlockedFrom(Built(edges), u) <==> exists e :: e in edges && e.src == u && e.arc.dst == v && e.arc.kind == 10
  {
    var arcs := Arcs(Built(edges), u);
    BuiltIsWellFormed(edges);
    assert arcs == ArcsFrom(edges, u);
    hide BlockedFrom, Built, Arcs, ArcsFrom, Addable;
    if i :| 0 <= i < |arcs| && arcs[i].dst == v && arcs[i].kind == IS_NOT_EDGE {
      ArcOfEdge(edges, u, arcs[i]);
      assert Hop(u, arcs[i]) in edges;
    }
    if e :| e in edges && e.src == u && e.arc.dst == v && e.arc.kind == 10 {
      assert e == Hop(u, e.arc);
      ArcOfEdge(edges, u, e.arc);
      var i :| 0 <= i < |arcs| && arcs[i] == e.arc;
    }
  }

  /** The filters let through exactly the permitted hops. */
  lemma AllowedIsPermitted(edges: seq<Hop>, cfg: Config, h: Hop)
    requires Addable(edges)
    ensures Allowed(Built(edges), cfg, h) <==> Permitted(edges, cfg, h)
  {
    BuiltIsWellFormed(edges);
    ArcOfEdge(edges, h.src, h.arc);
    BlockedIs(edges, h.src, h.arc.dst);
    assert h == Hop(h.src, h.arc);
    hide BlockedFrom, Built, Arcs, ArcsFrom, Addable;
  }

  // ----- walks and energies -----

  /** So a walk of the search is a chain of permitted hops from the seed. */
  lemma {:induction false} WalkIsPath(edges: seq<Hop>, cfg: Config, w: seq<Hop>)
    requires Addable(edges)
    ensures Walk(Built(edges), cfg, w) <==> Path(edges, cfg, w)
    decreases |w|
  {
    hide Built, Allowed, Permitted, Addable;
    if |w| > 0 {
      var init, h := w[..|w| - 1], w[|w| - 1];
      WalkIsPath(edges, cfg, init);
      AllowedIsPermitted(edges, cfg, h);
      assert w == init + [h];
      PathSnoc(edges, cfg, init, h);
    }
  }

  lemma PathSnoc(edges: seq<Hop>, cfg: Config, w: seq<Hop>, h: Hop)
    ensures Path(edges, cfg, w + [h]) <==> Path(edges, cfg, w) && Permitted(edges, cfg, h) && h.src == End(cfg, w)
  {
    hide Permitted;
    var w' := w + [h];
    assert w'[|w|] == h && (|w| > 0 ==> w'[|w| - 1] == w[|w| - 1]);
    forall i | 0 <= i < |w| ensures Continues(edges, cfg, w', i) <==> Continues(edges, cfg, w, i) {}
    assert Continues(edges, cfg, w', |w|) <==> Permitted(edges, cfg, h) && h.src == End(cfg, w);
  }

  lemma {:induction false} LeftSnoc(cfg: Config, w: seq<Hop>, h: Hop)
    ensures Left(cfg, w + [h]) == Left(cfg, w) * Share(cfg, h)
  {
    hide Share;
    if |w| == 0 {
      assert w + [h] == [h] && [h][1..] == [];
      assert Left(cfg, [h]) == Share(cfg, h) * Left(cfg, []);
    } else {
      assert (w + [h])[1..] == w[1..] + [h];
      LeftSnoc(cfg, w[1..], h);
      Regroup(Share(cfg, w[0]), Left(cfg, w[1..]), Share(cfg, h));
    }
  }

  lemma Regroup(a: real, b: real, c: real)
    ensures a * (b * c) == a * b * c
  {
  }

  lemma FactorIsShare(cfg: Config, h: Hop)
    ensures Factor(cfg, h.arc) == Share(cfg, h)
  {
  }

  /** The energy of a walk is the product of what its hops leave. */
  lemma {:induction false} EnergyIsLeft(cfg: Config, w: seq<Hop>)
    ensures Energy(cfg, w) == Left(cfg, w)
    decreases |w|
  {
    hide Share, Factor;
    if |w| > 0 {
      var init, h := w[..|w| - 1], w[|w| - 1];
      EnergyIsLeft(cfg, init);
      FactorIsShare(cfg, h);
      assert w == init + [h];
      LeftSnoc(cfg, init, h);
    }
  }

  lemma {:induction false} StaysAboveIsAbove(cfg: Config, w: seq<Hop>)
    ensures StaysAbove(cfg, w) <==> Above(cfg, w)
    decreases |w|
  {
    hide Energy, Left;
    if |w| > 0 {
      var init := w[..|w| - 1];
      StaysAboveIsAbove(cfg, init);
      EnergyIsLeft(cfg, w);
      assert w[..|w|] == w;
      assert forall i | 0 < i <= |init| :: init[..i] == w[..i];
    }
  }

  /** A label's path spells the kinds of its hops in order. */
  lemma {:induction false} KindsAre(w: seq<Hop>)
    ensures |Kinds(w)| == |w| && forall i | 0 <= i < |w| :: Kinds(w)[i] == w[i].arc.kind
    decreases |w|
  {
    if |w| > 0 { KindsAre(w[..|w| - 1]); }
  }

  lemma {:induction false} NodesBelow(edges: seq<Hop>, m: int)
    requires Addable(edges) && forall e | e in edges :: e.src <= m && e.arc.dst <= m
    ensures Built(edges).nodeCount - 1 <= Max(m, -1)
    decreases |edges|
  {
    if |edges| > 0 {
      var init, h := edges[..|edges| - 1], edges[|edges| - 1];
      NodesBelow(init, m);
      assert h in edges && Acceptable(h);
      WithArcIs(Built(init), h.src, h.arc);
    }
  }

  // ----- what comes out -----

  // A path from the seed to v that stays above the threshold.
  ghost predicate Reaches(edges: seq<Hop>, cfg: Config, w: seq<Hop>, v: int) {
    Path(edges, cfg, w) && Above(cfg, w) && v == if |w| == 0 then cfg.seed else w[|w| - 1].arc.dst
  }

  lemma ReachesIs(edges: seq<Hop>, cfg: Config, w: seq<Hop>, v: int)
    requires Addable(edges)
    ensures Reaches(edges, cfg, w, v) <==> Walk(Built(edges), cfg, w) && StaysAbove(cfg, w) && End(cfg, w) == v
  {
    hide Built, Walk, StaysAbove, Path, Above, Addable;
    WalkIsPath(edges, cfg, w);
    StaysAboveIsAbove(cfg, w);
  }

  /** Every label reports the energy, the length and the kinds of such a path. */
  lemma LabelsAreReached(edges: seq<Hop>, cfg: Config, v: int)
    requires Addable(edges) && WellFormed(Built(edges)) && v in Outcome(Built(edges), cfg)
    ensures exists w: seq<Hop> :: Reaches(edges, cfg, w, v) && var l := Outcome(Built(edges), cfg)[v];
      && l.energy == Left(cfg, w) && l.steps == |w| && |w| <= Max(cfg.maxSteps, 0)
      && |l.path| == |w| && forall i | 0 <= i < |w| :: l.path[i] == w[i].arc.kind
  {
    hide Built, Addable, Outcome, WellFormed, Walk, StaysAbove, Energy, Left, Kinds, Reaches;
    WaveSound(Built(edges), cfg);
    assert Justified(Built(edges), cfg, v, Outcome(Built(edges), cfg)[v]);
    var w :| Backs(Built(edges), cfg, w, v, Outcome(Built(edges), cfg)[v]);
    ReachesIs(edges, cfg, w, v);
    EnergyIsLeft(cfg, w);
    KindsAre(w);
  }

  // No permitted hop amplifies, and the step bound is at least every node.
  ghost predicate Gentle(edges: seq<Hop>, cfg: Config) {
    && (forall h | Permitted(edges, cfg, h) :: 0.0 <= Share(cfg, h) <= 1.0)
    && 0 <= cfg.maxSteps && forall e | e in edges :: e.src <= cfg.maxSteps && e.arc.dst <= cfg.maxSteps
  }

  lemma GentleIsTame(edges: seq<Hop>, cfg: Config)
    requires Addable(edges) && Gentle(edges, cfg) && 0.0 <= cfg.eps < 1.0
    ensures WellFormed(Built(edges)) && Tame(Built(edges), cfg)
  {
    BuiltIsWellFormed(edges);
    NodesBelow(edges, cfg.maxSteps);
    hide Built, Addable, Permitted, WellFormed, Share, Factor, Usable, Arcs;
    var g := Built(edges);
    forall u, a | a in Arcs(g, u) && Usable(g, cfg, u, a) ensures 0.0 <= Factor(cfg, a) <= 1.0 {
      AllowedIsPermitted(edges, cfg, Hop(u, a));
      FactorIsShare(cfg, Hop(u, a));
    }
  }

  /** And without a tolerance exactly the reached nodes are labelled, each with the greatest energy of any path
      that reaches it. */
  lemma LabelsAreGreatest(edges: seq<Hop>, cfg: Config, v: int)
    requires Addable(edges) && Gentle(edges, cfg) && cfg.eps == 0.0
    ensures WellFormed(Built(edges))
    ensures v in Outcome(Built(edges), cfg) <==> exists w :: Reaches(edges, cfg, w, v)
    ensures v in Outcome(Built(edges), cfg) ==>
      && (exists w :: Reaches(edges, cfg, w, v) && Left(cfg, w) == Outcome(Built(edges), cfg)[v].energy)
      && (forall w | Reaches(edges, cfg, w, v) :: Left(cfg, w) <= Outcome(Built(edges), cfg)[v].energy)
  {
    GentleIsTame(edges, cfg);
    hide Built, Addable, Gentle, Tame, Outcome, WellFormed, Walk, StaysAbove, Energy, End, Left, Reaches;
    WaveIsMaximum(Built(edges), cfg, v);
    forall w ensures Energy(cfg, w) == Left(cfg, w)
      && (Reaches(edges, cfg, w, v) <==> Walk(Built(edges), cfg, w) && StaysAbove(cfg, w) && End(cfg, w) == v)
    {
      ReachesIs(edges, cfg, w, v);
      EnergyIsLeft(cfg, w);
    }
  }
}
