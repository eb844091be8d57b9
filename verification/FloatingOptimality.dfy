/** When the exporter of floating_subgraph.py settles the best nodes: with factors in [0,1] and a
    step bound that reaches every node, each settled energy is the best over all followed trails,
    and nothing left out beats a settled node. */
module FloatingOptimality {
  import opened Common
  import opened Sorting
  import opened Counting
  import opened Heap
  import opened FloatingWalk

  // Factors in [0,1].
  ghost predicate Damped(s: Snapshot) {
    Tame(s) && forall v, i | 0 <= i < |s.edges(v)| :: 0.0 <= s.edges(v)[i].weight
  }

  // Enough steps to visit every node.
  predicate Enough(s: Snapshot, p: Params) {
    s.count - 1 <= p.maxSteps
  }

  ghost predicate Reaching(s: Snapshot, p: Params) {
    Damped(s) && Enough(s, p)
  }

  // Something queued at the node is at least as good.
  ghost predicate Queued(st: State, u: int, energy: real) {
    exists x :: x in st.heap && x.node == u && x.energy >= energy
  }

  ghost predicate Held(st: State, u: int, energy: real) {
    if u in st.best then st.best[u] >= energy else Queued(st, u, energy)
  }

  // Every edge that a settled node's energy follows is answered at its far end.
  ghost predicate ClosedAt(s: Snapshot, p: Params, st: State, v: int)
    requires s.count > 0
  {
    v in st.best && forall e | e in s.edges(v) && Follows(s, p, st.best[v], e) ::
      Held(st, Normal(s, e.dst), Hop(s, st.best[v], e))
  }

  // The node was expanded, or the step limit cannot matter.
  predicate MayStep(s: Snapshot, p: Params, st: State, v: int) {
    Enough(s, p) || (v in st.depth && st.depth[v] < p.maxSteps)
  }

  // ... for all such nodes but perhaps the one being expanded. A queued item is no deeper than
  // there are settled nodes, and the root is settled at depth zero.
  ghost predicate Leading(s: Snapshot, p: Params, st: State, open: Option<int>)
    requires s.count > 0
  {
    && (forall v | v in st.best && Some(v) != open && MayStep(s, p, st, v) :: ClosedAt(s, p, st, v))
    && (s.round(1.0 * p.rigor) >= p.threshold ==> Held(st, Normal(s, p.root), s.round(1.0 * p.rigor)))
    && (forall x | x in st.heap :: x.steps <= |st.selected|)
    && (Normal(s, p.root) in st.best ==> Normal(s, p.root) in st.depth && st.depth[Normal(s, p.root)] == 0)
  }

  lemma InitialLeads(s: Snapshot, p: Params)
    requires s.count > 0
    ensures Leading(s, p, Initial(s, p), None)
  {
    hide Follows, Normal;
    var st := Initial(s, p);
    assert st.heap[0] in st.heap;
  }

  // What stays queued when the front, being settled already or too weak, is skipped.
  lemma HeldAfterSkip(p: Params, st: State, u: int, energy: real)
    requires |st.heap| > 0 && Held(st, u, energy) && energy >= p.threshold
    requires var x := st.heap[Front(st.heap)]; x.energy < p.threshold || x.node in st.best
    ensures Held(Popped(st), u, energy)
  {
    FrontAndRest(st.heap);
    hide Front, Rest;
    if u !in st.best {
      var x :| x in st.heap && x.node == u && x.energy >= energy;
      assert x in Popped(st).heap;
    }
  }

  lemma SkipLeads(s: Snapshot, p: Params, st: State)
    requires s.count > 0 && Leading(s, p, st, None) && |st.heap| > 0
    requires var x := st.heap[Front(st.heap)]; x.energy < p.threshold || x.node in st.best
    ensures Leading(s, p, Popped(st), None)
  {
    FrontAndRest(st.heap);
    hide Front, Rest, Hop, Normal, Held;
    var st' := Popped(st);
    forall v | v in st'.best && MayStep(s, p, st', v) ensures ClosedAt(s, p, st', v) {
      assert ClosedAt(s, p, st, v);
      forall e | e in s.edges(v) && Follows(s, p, st.best[v], e) ensures Held(st', Normal(s, e.dst), Hop(s, st.best[v], e)) {
        HeldAfterSkip(p, st, Normal(s, e.dst), Hop(s, st.best[v], e));
      }
    }
    if s.round(1.0 * p.rigor) >= p.threshold { HeldAfterSkip(p, st, Normal(s, p.root), s.round(1.0 * p.rigor)); }
  }

  // The front is the best of its node, so settling it answers whatever was queued there.
  lemma HeldAfterSettle(st: State, u: int, energy: real)
    requires |st.heap| > 0 && Held(st, u, energy)
    requires st.heap[Front(st.heap)].node !in st.best
    ensures Held(Settle(Popped(st), st.heap[Front(st.heap)]), u, energy)
  {
    FrontAndRest(st.heap);
    hide Front, Rest;
    var st' := Settle(Popped(st), st.heap[Front(st.heap)]);
    if u !in st.best {
      var x :| x in st.heap && x.node == u && x.energy >= energy;
      assert u !in st'.best ==> x in st'.heap;
    }
  }

  lemma SettleLeads(s: Snapshot, p: Params, st: State)
    requires s.count > 0 && Leading(s, p, st, None) && |st.heap| > 0
    requires var x := st.heap[Front(st.heap)]; x.node !in st.best && (x.node == Normal(s, p.root) ==> x.steps == 0)
    ensures var x := st.heap[Front(st.heap)]; var st' := Settle(Popped(st), x);
      Leading(s, p, st', Some(x.node)) && x.steps < |st'.selected|
  {
    FrontAndRest(st.heap);
    hide Front, Rest, Hop, Normal, Held, Follows;
    var x := st.heap[Front(st.heap)];
    var st' := Settle(Popped(st), x);
    forall v | v in st'.best && v != x.node && MayStep(s, p, st', v) ensures ClosedAt(s, p, st', v) {
      assert ClosedAt(s, p, st, v);
      forall e | e in s.edges(v) && Follows(s, p, st.best[v], e) ensures Held(st', Normal(s, e.dst), Hop(s, st.best[v], e)) {
        HeldAfterSettle(st, Normal(s, e.dst), Hop(s, st.best[v], e));
      }
    }
    if s.round(1.0 * p.rigor) >= p.threshold { HeldAfterSettle(st, Normal(s, p.root), s.round(1.0 * p.rigor)); }
  }

  lemma HeldAfterPush(s: Snapshot, st: State, x: Item, e: Edge, u: int, energy: real)
    requires s.count > 0 && Held(st, u, energy)
    ensures Held(Push(s, st, x, e), u, energy)
  {
    hide Hop, Normal, KeyOf;
    if u !in st.best {
      var y :| y in st.heap && y.node == u && y.energy >= energy;
      assert y in Push(s, st, x, e).heap;
    }
  }

  lemma PushLeads(s: Snapshot, p: Params, st: State, x: Item, e: Edge)
    requires s.count > 0 && Leading(s, p, st, Some(x.node)) && x.steps < |st.selected|
    requires Hop(s, x.energy, e) <= x.energy && forall v | v in st.best :: x.energy <= st.best[v]
    ensures Leading(s, p, Push(s, st, x, e), Some(x.node))
    ensures Held(Push(s, st, x, e), Normal(s, e.dst), Hop(s, x.energy, e))
  {
    hide Hop, Normal, Follows, KeyOf, Held;
    var st' := Push(s, st, x, e);
    forall v | v in st'.best && v != x.node && MayStep(s, p, st', v) ensures ClosedAt(s, p, st', v) {
      assert ClosedAt(s, p, st, v);
      forall d | d in s.edges(v) && Follows(s, p, st.best[v], d) ensures Held(st', Normal(s, d.dst), Hop(s, st.best[v], d)) {
        HeldAfterPush(s, st, x, e, Normal(s, d.dst), Hop(s, st.best[v], d));
      }
    }
    if s.round(1.0 * p.rigor) >= p.threshold {
      HeldAfterPush(s, st, x, e, Normal(s, p.root), s.round(1.0 * p.rigor));
    }
    PushedIsHeld(s, st, x, e);
  }

  lemma PushedIsHeld(s: Snapshot, st: State, x: Item, e: Edge)
    requires s.count > 0 && Hop(s, x.energy, e) <= x.energy && forall v | v in st.best :: x.energy <= st.best[v]
    ensures Held(Push(s, st, x, e), Normal(s, e.dst), Hop(s, x.energy, e))
  {
    hide Hop, Normal, KeyOf;
    var st' := Push(s, st, x, e);
    var pushed := st'.heap[|st.heap|];
    assert pushed in st'.heap;
  }

  lemma NowLeads(s: Snapshot, p: Params, st: State, v: int)
    requires s.count > 0 && Leading(s, p, st, Some(v)) && (MayStep(s, p, st, v) ==> ClosedAt(s, p, st, v))
    ensures Leading(s, p, st, None)
  {
    hide ClosedAt, Held, MayStep;
  }

  // A node settled at a limit that reaches every node is the last one: all are settled, none worse.
  lemma LimitLeads(s: Snapshot, p: Params, st: State, x: Item)
    requires s.Valid() && Damped(s) && p.threshold >= 0.0 && x.energy >= p.threshold
    requires Leading(s, p, st, Some(x.node)) && p.maxSteps <= x.steps < |st.selected|
    requires x.node in st.depth && st.depth[x.node] == x.steps
    requires Distinct(st.selected) && forall i | 0 <= i < |st.selected| :: 0 <= st.selected[i] < s.count && st.selected[i] in st.best
    requires x.node in st.best && st.best[x.node] == x.energy && s.round(x.energy) == x.energy
    requires forall v | v in st.best :: x.energy <= st.best[v]
    ensures Leading(s, p, st, None)
  {
    hide Hop, Leading, Follows;
    forall e | e in s.edges(x.node) && Enough(s, p) ensures Held(st, Normal(s, e.dst), Hop(s, x.energy, e)) {
      var i :| 0 <= i < |s.edges(x.node)| && s.edges(x.node)[i] == e;
      TameHop(s, x.energy, e);
      AllVisited(st.selected, s.count, Normal(s, e.dst));
    }
    NowLeads(s, p, st, x.node);
  }

  // ----- the theorems -----

  // A trail of followed edges, all its energies at or above the threshold.
  ghost predicate Followed(s: Snapshot, p: Params, trail: seq<Edge>)
    requires s.count > 0
  {
    if |trail| == 0 then s.round(1.0 * p.rigor) >= p.threshold
    else
      var before, e := trail[..|trail| - 1], trail[|trail| - 1];
      Followed(s, p, before) && e in s.edges(End(s, p, before)) && Follows(s, p, Energy(s, p, before), e)
  }

  lemma {:induction false} FollowedEnergy(s: Snapshot, p: Params, trail: seq<Edge>)
    requires s.Valid() && Followed(s, p, trail)
    ensures Energy(s, p, trail) >= p.threshold && s.round(Energy(s, p, trail)) == Energy(s, p, trail)
  {
    hide End;
  }

  lemma HopGrows(s: Snapshot, a: real, b: real, e: Edge)
    requires Tame(s) && a <= b && 0.0 <= e.weight
    ensures Hop(s, a, e) <= Hop(s, b, e)
  {
    var f := s.attenuation(e.kind);
    ScaledTwice(a, b, f, e.weight);
    assert s.round(a * f * e.weight) <= s.round(b * f * e.weight);
  }

  lemma ScaledTwice(a: real, b: real, f: real, w: real)
    requires a <= b && 0.0 <= f && 0.0 <= w
    ensures a * f * w <= b * f * w
  {
    Scaled(a, b, f);
    var x, y := a * f, b * f;
    assert x <= y;
    Scaled(x, y, w);
  }

  lemma Scaled(a: real, b: real, f: real)
    requires a <= b && 0.0 <= f
    ensures a * f <= b * f
  {
    assert (b - a) * f >= 0.0;
  }

  // What the walk has found so far of a trail: its end is settled no worse, or something queued
  // is no worse.
  ghost predicate Matched(s: Snapshot, p: Params, st: State, trail: seq<Edge>)
    requires s.count > 0
  {
    var u := End(s, p, trail);
    if u in st.best then Energy(s, p, trail) <= st.best[u]
    else exists x :: x in st.heap && x.energy >= Energy(s, p, trail)
  }

  /** Every followed trail, of any length, is matched when the step bound reaches every node; so is
      every trail within a bound of at most one. */
  lemma {:induction false} TrailMatched(s: Snapshot, p: Params, st: State, trail: seq<Edge>)
    requires s.Valid() && Damped(s) && p.threshold >= 0.0 && (Enough(s, p) || |trail| <= p.maxSteps <= 1)
    requires Leading(s, p, st, None) && Falling(st) && Followed(s, p, trail)
    ensures Matched(s, p, st, trail)
    decreases |trail|
  {
    hide Hop, Follows, Tame, End, Normal;
    if |trail| == 0 {
      EmptyTrail(s, p, trail);
    } else {
      var before, e := trail[..|trail| - 1], trail[|trail| - 1];
      TrailMatched(s, p, st, before);
      if |before| == 0 { EmptyTrail(s, p, before); }
      HopMatched(s, p, st, before, e);
      assert trail == before + [e];
    }
  }

  lemma EmptyTrail(s: Snapshot, p: Params, trail: seq<Edge>)
    requires s.count > 0 && |trail| == 0
    ensures End(s, p, trail) == Normal(s, p.root) && Energy(s, p, trail) == s.round(1.0 * p.rigor)
  {
  }

  lemma HopMatched(s: Snapshot, p: Params, st: State, before: seq<Edge>, e: Edge)
    requires s.Valid() && Damped(s) && p.threshold >= 0.0
    requires End(s, p, before) in st.best ==> MayStep(s, p, st, End(s, p, before))
    requires Leading(s, p, st, None) && Falling(st) && Followed(s, p, before) && Matched(s, p, st, before)
    requires e in s.edges(End(s, p, before)) && Follows(s, p, Energy(s, p, before), e)
    ensures Matched(s, p, st, before + [e])
  {
    var v, a := End(s, p, before), Energy(s, p, before);
    var i :| 0 <= i < |s.edges(v)| && s.edges(v)[i] == e;
    FollowedEnergy(s, p, before);
    TameHop(s, a, e);
    assert (before + [e])[..|before|] == before;
    assert Energy(s, p, before + [e]) == Hop(s, a, e) && End(s, p, before + [e]) == Normal(s, e.dst);
    if v in st.best {
      HopGrows(s, a, st.best[v], e);
      hide Hop, Normal, End, Energy, Falling;
      assert ClosedAt(s, p, st, v);
      assert Held(st, Normal(s, e.dst), Hop(s, st.best[v], e));
    }
  }

  lemma {:induction false} TrailFollowed(s: Snapshot, p: Params, best: map<int, real>, traversed: map<Key, Edge>, trail: seq<Edge>)
    requires s.count > 0 && Trail(s, p, best, traversed, trail) && s.round(1.0 * p.rigor) >= p.threshold
    ensures Followed(s, p, trail)
    decreases |trail|
  {
    hide Follows, End, Energy;
    if |trail| > 0 {
      var before := trail[..|trail| - 1];
      assert HopOk(s, p, best, traversed, trail[..|trail| - 1], trail[|trail| - 1]);
      forall i | 0 <= i < |before| ensures HopOk(s, p, best, traversed, before[..i], before[i]) {
        assert HopOk(s, p, best, traversed, trail[..i], trail[i]);
        assert before[..i] == trail[..i];
      }
      TrailFollowed(s, p, best, traversed, before);
    }
  }

  // What the walk leaves: each settled energy is the maximum over all followed trails to its node,
  // and a node left out is left out because the quota was met by nodes at least as good.
  ghost predicate TopBest(s: Snapshot, p: Params, st: State)
    requires s.count > 0
  {
    && (forall v | v in st.best :: exists trail :: Followed(s, p, trail) && End(s, p, trail) == v && Energy(s, p, trail) == st.best[v])
    && (forall trail | Followed(s, p, trail) :: Ranked(s, p, st, trail))
  }

  ghost predicate Ranked(s: Snapshot, p: Params, st: State, trail: seq<Edge>)
    requires s.count > 0
  {
    var u, energy := End(s, p, trail), Energy(s, p, trail);
    if u in st.best then energy <= st.best[u]
    else |st.selected| == p.topK && forall v | v in st.best :: energy <= st.best[v]
  }

  /** The settled nodes are the top_k best, with their best energies. */
  lemma WalkIsBest(s: Snapshot, p: Params, st: State)
    requires s.Valid() && Reaching(s, p) && p.threshold >= 0.0
    requires Inv(s, p, st) && Leading(s, p, st, None) && Falling(st)
    requires |st.selected| == p.topK || st.heap == []
    requires s.round(1.0 * p.rigor) < p.threshold ==> st.best == map[]
    ensures TopBest(s, p, st)
  {
    hide Inv, Leading, Damped, Enough, Followed, Energy, End, Follows;
    forall v | v in st.best
      ensures exists trail :: Followed(s, p, trail) && End(s, p, trail) == v && Energy(s, p, trail) == st.best[v]
    {
      var trail := BestTrail(s, p, st, v);
      TrailFollowed(s, p, st.best, st.traversed, trail);
    }
    forall trail | Followed(s, p, trail) ensures Ranked(s, p, st, trail) {
      TrailMatched(s, p, st, trail);
    }
  }

  // The same over the trails within the step bound.
  ghost predicate BestWithin(s: Snapshot, p: Params, st: State)
    requires s.count > 0
  {
    && (forall v | v in st.best :: exists trail :: Followed(s, p, trail) && |trail| <= p.maxSteps
                                                   && End(s, p, trail) == v && Energy(s, p, trail) == st.best[v])
    && (forall trail | Followed(s, p, trail) && |trail| <= p.maxSteps :: Ranked(s, p, st, trail))
  }

  lemma WalkIsBestWithin(s: Snapshot, p: Params, st: State)
    requires s.Valid() && Damped(s) && p.threshold >= 0.0 && (Enough(s, p) || p.maxSteps <= 1)
    requires Inv(s, p, st) && Leading(s, p, st, None) && Falling(st)
    requires |st.selected| == p.topK || st.heap == []
    requires s.round(1.0 * p.rigor) < p.threshold ==> st.best == map[]
    ensures BestWithin(s, p, st)
  {
    hide Inv, Leading, Damped, Enough, Followed, Energy, End, Follows;
    forall v | v in st.best
      ensures exists trail :: Followed(s, p, trail) && |trail| <= p.maxSteps && End(s, p, trail) == v && Energy(s, p, trail) == st.best[v]
    {
      var trail := BestTrail(s, p, st, v);
      TrailFollowed(s, p, st.best, st.traversed, trail);
    }
    forall trail | Followed(s, p, trail) && |trail| <= p.maxSteps ensures Ranked(s, p, st, trail) {
      TrailMatched(s, p, st, trail);
    }
  }

  lemma BestTrail(s: Snapshot, p: Params, st: State, v: int) returns (trail: seq<Edge>)
    requires s.count > 0 && Inv(s, p, st) && v in st.best
    ensures Trail(s, p, st.best, st.traversed, trail) && End(s, p, trail) == v && Energy(s, p, trail) == st.best[v]
  {
    hide Energy, Trail, End, Covered, EdgeOk, ItemOk;
    assert SettledOk(s, p, st, v);
    trail :| Trail(s, p, st.best, st.traversed, trail) && End(s, p, trail) == v && Energy(s, p, trail) == st.best[v]
      && |trail| == st.depth[v] && Kinds(trail) == st.paths[v];
  }

  lemma SettledInRange(s: Snapshot, p: Params, st: State)
    requires s.count > 0 && Inv(s, p, st)
    ensures forall v | v in st.best :: 0 <= v < s.count
  {
    hide Inv, Energy, Trail;
    forall v | v in st.best ensures 0 <= v < s.count {
      var trail := BestTrail(s, p, st, v);
    }
  }
}
