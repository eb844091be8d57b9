/** What the walk of floating_subgraph.py keeps at every turn, and so leaves at its end. */
module FloatingRuns {
  import opened Common
  import opened Heap
  import opened FloatingWalk
  import opened FloatingOptimality

  // The root's own energy is below the threshold.
  predicate Low(s: Snapshot, p: Params) {
    s.round(1.0 * p.rigor) < p.threshold
  }

  // Nothing has happened yet, or nothing can, or the root is settled.
  ghost predicate Rooted(s: Snapshot, p: Params, st: State)
    requires s.count > 0
  {
    && (st == Initial(s, p) || Low(s, p) || Normal(s, p.root) in st.best)
    && (Low(s, p) ==> st.best == map[] && forall x | x in st.heap :: x.energy < p.threshold)
  }

  ghost predicate Kept(s: Snapshot, p: Params, st: State)
    requires s.count > 0
  {
    && Inv(s, p, st) && |st.selected| <= p.topK && ExpandedBut(s, p, st, None) && Rooted(s, p, st)
    && (Tame(s) ==> Falling(st)) && (Damped(s) ==> Leading(s, p, st, None))
  }

  lemma DampedIsTame(s: Snapshot)
    ensures Damped(s) ==> Tame(s)
  {
    hide Tame;
  }

  // ----- expanding a settled node -----

  // A node just settled from item x, and the edges done so far.
  ghost predicate Expanding(s: Snapshot, p: Params, st: State, x: Item, done: seq<Edge>)
    requires s.count > 0
  {
    && Inv(s, p, st) && ItemOk(s, p, st, x) && ExpandedBut(s, p, st, Some(x.node))
    && x.node in st.best && st.best[x.node] == x.energy && x.node in st.depth && st.depth[x.node] == x.steps
    && (forall e | e in done && Follows(s, p, x.energy, e) :: KeyOf(s, e) in st.traversed)
    && (Tame(s) ==> Falling(st) && forall v | v in st.best :: x.energy <= st.best[v])
    && (Damped(s) ==> Leading(s, p, st, Some(x.node)) && x.steps < |st.selected|)
    && (Damped(s) ==> forall e | e in done && Follows(s, p, x.energy, e) :: Held(st, Normal(s, e.dst), Hop(s, x.energy, e)))
  }

  lemma EdgeFacts(s: Snapshot, v: int, e: Edge)
    requires e in s.edges(v)
    ensures Tame(s) ==> e.weight <= 1.0
  {
    var i :| 0 <= i < |s.edges(v)| && s.edges(v)[i] == e;
  }

  lemma PushOne(s: Snapshot, p: Params, st: State, x: Item, done: seq<Edge>, e: Edge)
    requires s.Valid() && Expanding(s, p, st, x, done) && e in s.edges(x.node) && Follows(s, p, x.energy, e)
    requires x.steps < p.maxSteps && x.energy >= p.threshold >= 0.0
    ensures Expanding(s, p, Push(s, st, x, e), x, done + [e])
  {
    hide Inv, ItemOk, Falling, Follows, Hop, Tame, KeyOf, ExpandedBut, Leading, Damped, Held, Normal;
    var st' := Push(s, st, x, e);
    PushKeeps(s, p, st, x, e);
    PushExpands(s, p, st, x, e);
    DampedIsTame(s);
    if Tame(s) {
      EdgeFacts(s, x.node, e);
      RoundedItem(s, p, st, x);
      TameHop(s, x.energy, e);
      PushFalls(s, p, st, x, e);
    }
    if Damped(s) {
      PushLeads(s, p, st, x, e);
      forall d | d in done && Follows(s, p, x.energy, d) ensures Held(st', Normal(s, d.dst), Hop(s, x.energy, d)) {
        HeldAfterPush(s, st, x, e, Normal(s, d.dst), Hop(s, x.energy, d));
      }
    }
  }

  lemma {:induction false} PushAllKeeps(s: Snapshot, p: Params, st: State, x: Item, es: seq<Edge>)
    requires s.Valid() && Expanding(s, p, st, x, []) && forall e | e in es :: e in s.edges(x.node)
    requires x.steps < p.maxSteps && x.energy >= p.threshold >= 0.0
    ensures Expanding(s, p, PushAll(s, p, st, x, es), x, es)
    decreases |es|
  {
    hide Expanding, Follows, Push;
    if |es| > 0 {
      var init, e := es[..|es| - 1], es[|es| - 1];
      PushAllKeeps(s, p, st, x, init);
      var mid := PushAll(s, p, st, x, init);
      assert es == init + [e];
      if Follows(s, p, x.energy, e) {
        PushOne(s, p, mid, x, init, e);
      } else {
        PassOne(s, p, mid, x, init, e);
      }
    }
  }

  lemma PassOne(s: Snapshot, p: Params, st: State, x: Item, done: seq<Edge>, e: Edge)
    requires s.count > 0 && Expanding(s, p, st, x, done) && !Follows(s, p, x.energy, e)
    ensures Expanding(s, p, st, x, done + [e])
  {
    hide Inv, ItemOk, Falling, Follows, Hop, Tame, KeyOf, ExpandedBut, Leading, Damped, Held, Normal;
  }

  // A node all of whose edges are done counts as expanded.
  lemma ExpandedKeeps(s: Snapshot, p: Params, st: State, x: Item)
    requires s.count > 0 && Expanding(s, p, st, x, s.edges(x.node))
    ensures Inv(s, p, st) && ExpandedBut(s, p, st, None) && (Tame(s) ==> Falling(st)) && (Damped(s) ==> Leading(s, p, st, None))
  {
    hide Inv, ItemOk, Falling, Follows, Hop, Tame, KeyOf, ExpandedBut, Leading, Damped, Held, Normal, MayStep;
    assert Expanded(s, p, st, x.node);
    AllExpanded(s, p, st, x.node);
    if Damped(s) { NowLeads(s, p, st, x.node); }
  }

  // ----- one turn -----

  lemma SkipKept(s: Snapshot, p: Params, st: State)
    requires s.Valid() && Kept(s, p, st) && |st.heap| > 0
    requires var x := st.heap[Front(st.heap)]; x.energy < p.threshold || x.node in st.best
    ensures Kept(s, p, Popped(st))
  {
    hide Inv, Falling, Tame, Front, Rest, ExpandedBut, Leading, Damped, Normal;
    FrontAndRest(st.heap);
    SkipKeeps(s, p, st);
    SettleExpands(s, p, st);
    if Damped(s) { SkipLeads(s, p, st); }
    SkipRooted(s, p, st);
  }

  lemma SkipRooted(s: Snapshot, p: Params, st: State)
    requires s.count > 0 && Rooted(s, p, st) && |st.heap| > 0
    requires var x := st.heap[Front(st.heap)]; x.energy < p.threshold || x.node in st.best
    ensures Rooted(s, p, Popped(st))
  {
    hide Normal;
    FrontAndRest(st.heap);
    hide Front, Rest;
  }

  lemma RootIsFirst(s: Snapshot, p: Params, st: State)
    requires s.count > 0 && Rooted(s, p, st) && |st.heap| > 0
    requires var x := st.heap[Front(st.heap)]; x.energy >= p.threshold
    ensures !Low(s, p)
    ensures var x := st.heap[Front(st.heap)];
      x.node == Normal(s, p.root) || Normal(s, p.root) in st.best
    ensures var x := st.heap[Front(st.heap)];
      x.node == Normal(s, p.root) && x.node !in st.best ==> x.steps == 0
  {
    hide Normal;
    FrontAndRest(st.heap);
    hide Front, Rest;
  }

  lemma SettledExpanding(s: Snapshot, p: Params, st: State)
    requires s.Valid() && Kept(s, p, st) && |st.heap| > 0 && p.threshold >= 0.0
    requires var x := st.heap[Front(st.heap)]; x.energy >= p.threshold && (x.node in st.best ==> st.best[x.node] < x.energy)
    ensures var x := st.heap[Front(st.heap)]; Expanding(s, p, Settle(Popped(st), x), x, [])
    ensures Rooted(s, p, Settle(Popped(st), st.heap[Front(st.heap)]))
  {
    hide Inv, Falling, Tame, ItemOk, Front, Rest, ExpandedBut, Leading, Damped, Normal, Follows, Hop, KeyOf, Held;
    FrontAndRest(st.heap);
    var x := st.heap[Front(st.heap)];
    var st' := Settle(Popped(st), x);
    RootIsFirst(s, p, st);
    DampedIsTame(s);
    SettleKeeps(s, p, st);
    SettleExpands(s, p, st);
    if Tame(s) { LastIsLeast(s, p, st', x); }
    if Damped(s) { SettleLeads(s, p, st); }
  }

  // At the step limit a node counts as expanded without being so.
  lemma LimitKeeps(s: Snapshot, p: Params, st: State, x: Item)
    requires s.Valid() && Expanding(s, p, st, x, []) && p.maxSteps <= x.steps && x.energy >= p.threshold >= 0.0
    ensures Inv(s, p, st) && ExpandedBut(s, p, st, None) && (Tame(s) ==> Falling(st)) && (Damped(s) ==> Leading(s, p, st, None))
  {
    hide Inv, ItemOk, Leading, ExpandedBut, Expanded, Damped, Tame, Follows, Hop, Held, KeyOf, Normal;
    AtLimit(s, p, st, x.node);
    DampedIsTame(s);
    if Damped(s) {
      RoundedItem(s, p, st, x);
      SettledInRange(s, p, st);
      LimitLeads(s, p, st, x);
    }
  }

  lemma SettleKept(s: Snapshot, p: Params, st: State)
    requires s.Valid() && Kept(s, p, st) && |st.heap| > 0 && |st.selected| < p.topK && p.threshold >= 0.0
    requires var x := st.heap[Front(st.heap)]; x.energy >= p.threshold && (x.node in st.best ==> st.best[x.node] < x.energy)
    ensures var x := st.heap[Front(st.heap)]; var settled := Settle(Popped(st), x);
      Kept(s, p, if x.steps < p.maxSteps then PushAll(s, p, settled, x, s.edges(x.node)) else settled)
  {
    hide Inv, Falling, Tame, ItemOk, Front, Rest, ExpandedBut, Leading, Damped, Expanding, PushAll, Normal, Initial;
    var x := st.heap[Front(st.heap)];
    var settled := Settle(Popped(st), x);
    SettledExpanding(s, p, st);
    RootSettled(s, p, st, settled);
    if x.steps < p.maxSteps {
      var es := s.edges(x.node);
      PushAllKeeps(s, p, settled, x, es);
      ExpandedKeeps(s, p, PushAll(s, p, settled, x, es), x);
      PushAllSelects(s, p, settled, x, es);
    } else {
      LimitKeeps(s, p, settled, x);
    }
  }

  lemma TurnKeeps(s: Snapshot, p: Params, st: State)
    requires s.Valid() && Kept(s, p, st) && |st.heap| > 0 && |st.selected| < p.topK && p.threshold >= 0.0
    ensures Kept(s, p, Turn(s, p, st))
  {
    var x := st.heap[Front(st.heap)];
    RoundedFront(s, p, st);
    hide Kept, Front, Rest, PushAll, Settle;
    if x.energy < p.threshold || (x.node in st.best && st.best[x.node] >= x.energy) {
      SkipKept(s, p, st);
    } else {
      SettleKept(s, p, st);
    }
  }

  // The front as it is popped: its energy is already rounded.
  lemma RoundedFront(s: Snapshot, p: Params, st: State)
    requires s.count > 0 && Kept(s, p, st) && |st.heap| > 0
    ensures var x := st.heap[Front(st.heap)]; s.round(x.energy) == x.energy && x.(energy := s.round(x.energy)) == x
  {
    hide Inv, Falling, Tame, ExpandedBut, Leading, Damped;
    PoppedRounded(s, p, st);
  }

  lemma RootSettled(s: Snapshot, p: Params, st: State, settled: State)
    requires s.count > 0 && Rooted(s, p, st) && |st.heap| > 0 && settled == Settle(Popped(st), st.heap[Front(st.heap)])
    requires st.heap[Front(st.heap)].energy >= p.threshold
    ensures !Low(s, p) && Normal(s, p.root) in settled.best
  {
    hide Front, Rest, Normal;
    RootIsFirst(s, p, st);
  }

  // ----- the whole walk -----

  lemma InitialKept(s: Snapshot, p: Params)
    requires s.Valid() && p.maxSteps >= 0 && p.topK > 0
    ensures Kept(s, p, Initial(s, p))
  {
    hide Inv, Falling, ExpandedBut, Leading, Tame, Damped;
    InitialOk(s, p);
    InitialLeads(s, p);
  }

  lemma {:induction false} FinishKeeps(s: Snapshot, p: Params, st: State)
    requires s.Valid() && Kept(s, p, st) && p.threshold >= 0.0
    ensures Kept(s, p, Finish(s, p, st))
    ensures var end := Finish(s, p, st); end.heap == [] || |end.selected| == p.topK
    decreases p.topK - |st.selected|, |st.heap|
  {
    hide Turn;
    if |st.heap| > 0 && |st.selected| < p.topK {
      TurnDescends(s, p, st);
      TurnKeeps(s, p, st);
      hide Kept;
      FinishKeeps(s, p, Turn(s, p, st));
    } else {
      SelectedAtMost(s, p, st);
      hide Kept;
    }
  }

  lemma SelectedAtMost(s: Snapshot, p: Params, st: State)
    requires s.count > 0 && Kept(s, p, st)
    ensures |st.selected| <= p.topK
  {
  }

  // What every finished walk leaves.
  ghost predicate Done(s: Snapshot, p: Params, st: State)
    requires s.count > 0
  {
    && Inv(s, p, st) && |st.selected| <= p.topK && (|st.selected| == p.topK || st.heap == [])
    && ExpandedBut(s, p, st, None)
    && (!Low(s, p) ==> Normal(s, p.root) in st.best)
    && (Tame(s) ==> Falling(st))
    && (Damped(s) && (Enough(s, p) || p.maxSteps <= 1) ==> BestWithin(s, p, st))
    && (Reaching(s, p) ==> TopBest(s, p, st))
  }

  /** The walk keeps all this over every run. */
  lemma OutcomeDone(s: Snapshot, p: Params)
    requires s.Valid() && p.maxSteps >= 0 && p.threshold >= 0.0 && p.topK > 0
    ensures Done(s, p, Outcome(s, p))
  {
    InitialKept(s, p);
    hide Finish, Inv, Falling, ExpandedBut, Leading, Tame, Damped, BestWithin, TopBest, Enough, Normal;
    var st := Outcome(s, p);
    FinishKeeps(s, p, Initial(s, p));
    DampedIsTame(s);
    if Damped(s) && (Enough(s, p) || p.maxSteps <= 1) { WalkIsBestWithin(s, p, st); }
    if Reaching(s, p) { WalkIsBest(s, p, st); }
  }
}
