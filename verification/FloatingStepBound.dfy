/** Which step bounds let the exporter of floating_subgraph.py settle the best nodes: as for the wave,
    at most one step or enough to visit every node, for every table of attenuations. */
module FloatingStepBound {
  import opened Heap
  import opened FloatingWalk
  import opened FloatingOptimality
  import opened FloatingRuns

  // Parameters that pass the exporter's checks.
  predicate Good(p: Params) {
    0 <= p.root && 0 <= p.maxSteps && 0.0 <= p.threshold && 0 < p.topK && 0.0 < p.rigor
  }

  // On every snapshot of n nodes with these attenuations, factors in [0,1] and order-keeping rounding,
  // the walk is the best over all trails within the bound.
  ghost predicate AlwaysBest(n: nat, m: int, attenuation: int -> real, blocking: int) {
    forall s: Snapshot, p | s.Valid() && s.count == n && s.attenuation == attenuation && s.blocking == blocking
                            && Damped(s) && Good(p) && p.maxSteps == m :: BestWithin(s, p, Outcome(s, p))
  }

  lemma BoundSuffices(s: Snapshot, p: Params)
    requires s.Valid() && Damped(s) && Good(p) && (p.maxSteps <= 1 || s.count - 1 <= p.maxSteps)
    ensures BestWithin(s, p, Outcome(s, p))
  {
    OutcomeDone(s, p);
    hide BestWithin, TopBest, Inv, ExpandedBut, Falling, Damped, Outcome;
  }

  // ----- a bound in between -----

  function Pow(a: real, k: nat): real {
    if k == 0 then 1.0 else Pow(a, k - 1) * a
  }

  lemma {:induction false} PowBounds(a: real, k: nat)
    requires 0.0 < a <= 1.0
    ensures 0.0 < Pow(a, k) <= 1.0
  {
    if k > 0 {
      PowBounds(a, k - 1);
      Between(Pow(a, k - 1), a);
    }
  }

  lemma Between(x: real, a: real)
    requires 0.0 < x && 0.0 < a <= 1.0
    ensures 0.0 < x * a <= x
  {
  }

  lemma {:induction false} PowFalls(a: real, k: nat, m: nat)
    requires 0.0 < a <= 1.0 && k <= m
    ensures Pow(a, m) <= Pow(a, k)
    decreases m
  {
    if k < m {
      PowFalls(a, k, m - 1);
      PowBounds(a, m - 1);
      Between(Pow(a, m - 1), a);
    }
  }

  // One kind of edge that attenuates by a; a row of full-weight edges 0 to m + 1, and a short cut
  // from 0 to m that carries half of what the row carries there.
  datatype Ladder = Ladder(n: nat, m: nat, kind: int, attenuation: int -> real, blocking: int)
  {
    ghost predicate Valid() {
      && 2 <= m && m + 2 <= n && kind != blocking && 0.0 < attenuation(kind)
      && forall k :: 0.0 <= attenuation(k) <= 1.0
    }

    function A(): real {
      attenuation(kind)
    }

    function Along(v: int): Edge {
      Edge(v, v + 1, kind, 1.0, 0)
    }

    function ShortCut(): Edge
      requires m > 0
    {
      Edge(0, m, kind, Pow(A(), m - 1) / 2.0, 0)
    }

    function EdgesOf(v: int): seq<Edge>
      requires m > 0
    {
      if v == 0 then [Along(0), ShortCut()] else if 1 <= v <= m then [Along(v)] else []
    }

    // Energies are carried exactly.
    function Snap(): Snapshot
      requires m > 0
    {
      Snapshot(n, v => EdgesOf(v), attenuation, blocking, x => x)
    }

    function Query(): Params {
      Params(0, m, {kind}, 0.0, n, 1.0)
    }

    function Weakly(): real {
      Pow(A(), m) / 2.0
    }

    function Hidden(): seq<Edge>
      requires m > 0
    {
      [ShortCut(), Along(m)]
    }
  }

  lemma LadderIsDamped(l: Ladder)
    requires l.Valid()
    ensures l.Snap().Valid() && Damped(l.Snap()) && Good(l.Query())
  {
    PowBounds(l.A(), l.m - 1);
    var s := l.Snap();
    forall v, i | 0 <= i < |s.edges(v)| ensures s.edges(v)[i].src == v && 0.0 <= s.edges(v)[i].weight <= 1.0 {
      assert s.edges(v) == l.EdgesOf(v);
    }
    hide Pow;
  }

  lemma LadderHops(l: Ladder, k: nat, v: int)
    requires l.Valid()
    ensures Hop(l.Snap(), Pow(l.A(), k), l.Along(v)) == Pow(l.A(), k + 1)
    ensures Hop(l.Snap(), 1.0, l.ShortCut()) == l.Weakly()
    ensures Hop(l.Snap(), l.Weakly(), l.Along(v)) == l.Weakly() * l.A()
    ensures 0.0 < l.Weakly() < Pow(l.A(), l.m)
  {
    PowBounds(l.A(), l.m);
    Halved(Pow(l.A(), l.m - 1), l.A());
    hide Pow;
    assert Pow(l.A(), k + 1) == Pow(l.A(), k) * l.A() && Pow(l.A(), l.m) == Pow(l.A(), l.m - 1) * l.A() by {
      PowSteps(l.A(), k, l.m - 1);
    }
  }

  lemma PowSteps(a: real, j: nat, k: nat)
    ensures Pow(a, j + 1) == Pow(a, j) * a && Pow(a, k + 1) == Pow(a, k) * a
  {
  }

  lemma Halved(x: real, a: real)
    ensures a * (x / 2.0) == (x * a) / 2.0
  {
  }

  lemma LadderNormal(l: Ladder, v: int)
    requires l.Valid() && 0 <= v <= l.m + 1
    ensures Normal(l.Snap(), v) == v
  {
  }

  // ----- the walk on it -----

  predicate Strong(l: Ladder, x: Item, k: nat) {
    x.energy == Pow(l.A(), k) && x.node == k && x.steps == k
  }

  predicate Weak(l: Ladder, x: Item) {
    x.energy == l.Weakly() && x.node == l.m
  }

  // The nodes below k are settled; node k is next, the short cut waits behind it.
  ghost predicate OnTheRow(l: Ladder, st: State, k: nat) {
    && 1 <= k <= l.m && |st.heap| == 2 && |st.selected| == k
    && ((Strong(l, st.heap[0], k) && Weak(l, st.heap[1])) || (Weak(l, st.heap[0]) && Strong(l, st.heap[1], k)))
    && forall v :: v in st.best <==> 0 <= v < k
  }

  // The row is settled and only the short cut may be left.
  ghost predicate RowDone(l: Ladder, st: State) {
    && |st.selected| == l.m + 1 && (forall x | x in st.heap :: Weak(l, x))
    && (forall v :: v in st.best <==> 0 <= v <= l.m) && st.best[l.m] == Pow(l.A(), l.m)
  }

  lemma FollowsRow(l: Ladder, k: nat)
    requires l.Valid()
    ensures Follows(l.Snap(), l.Query(), Pow(l.A(), k), l.Along(k))
    ensures Follows(l.Snap(), l.Query(), 1.0, l.ShortCut())
    ensures Follows(l.Snap(), l.Query(), l.Weakly(), l.Along(k))
  {
    LadderHops(l, k, k);
    PowBounds(l.A(), k + 1);
    Between(l.Weakly(), l.A());
    hide Pow, Hop;
  }

  lemma FirstTurn(l: Ladder)
    requires l.Valid()
    ensures OnTheRow(l, Turn(l.Snap(), l.Query(), Initial(l.Snap(), l.Query())), 1)
  {
    var s, p := l.Snap(), l.Query();
    var st := Initial(s, p);
    var x := st.heap[0];
    PowOne(l.A());
    LadderNormal(l, 0);
    LadderNormal(l, 1);
    LadderNormal(l, l.m);
    LadderHops(l, 0, 0);
    FollowsRow(l, 0);
    assert Rest(st.heap) == [];
    hide Pow, Hop, Follows, Normal;
    var settled := Settle(Popped(st), x);
    PushTwo(s, p, settled, x, l.Along(0), l.ShortCut());
    assert s.edges(0) == [l.Along(0), l.ShortCut()];
  }

  lemma PowOne(a: real)
    ensures Pow(a, 0) == 1.0 && Pow(a, 1) == a
  {
    assert Pow(a, 1) == Pow(a, 0) * a;
  }

  lemma PushTwo(s: Snapshot, p: Params, st: State, x: Item, a: Edge, b: Edge)
    requires s.count > 0 && Follows(s, p, x.energy, a) && Follows(s, p, x.energy, b)
    ensures PushAll(s, p, st, x, [a, b]) == Push(s, Push(s, st, x, a), x, b)
  {
    hide Follows, Push;
    assert [a, b][..1] == [a] && [a][..0] == [];
    assert PushAll(s, p, st, x, [a]) == Push(s, st, x, a);
  }

  lemma PushSole(s: Snapshot, p: Params, st: State, x: Item, a: Edge)
    requires s.count > 0 && Follows(s, p, x.energy, a)
    ensures PushAll(s, p, st, x, [a]) == Push(s, st, x, a)
  {
    hide Follows, Push;
    assert [a][..0] == [];
  }

  // The item on the row is popped before the short cut.
  lemma RowIsFront(l: Ladder, st: State, k: nat)
    requires l.Valid() && OnTheRow(l, st, k)
    ensures Strong(l, st.heap[Front(st.heap)], k)
    ensures |Rest(st.heap)| == 1 && Weak(l, Rest(st.heap)[0])
  {
    LadderHops(l, 0, 0);
    PowFalls(l.A(), k, l.m);
    hide Pow, Hop;
    var f := Front(st.heap);
    assert st.heap[1 - f].energy <= st.heap[f].energy;
    assert Rest(st.heap) == [st.heap[1 - f]];
  }

  lemma RowTurns(l: Ladder, st: State, k: nat)
    requires l.Valid() && OnTheRow(l, st, k)
    ensures var st' := Turn(l.Snap(), l.Query(), st);
      if k < l.m then OnTheRow(l, st', k + 1) else RowDone(l, st')
  {
    var s, p := l.Snap(), l.Query();
    var x := st.heap[Front(st.heap)];
    RowIsFront(l, st, k);
    PowBounds(l.A(), k);
    LadderHops(l, k, k);
    LadderNormal(l, k + 1);
    FollowsRow(l, k);
    hide Pow, Hop, Follows, Normal, Front, Rest;
    if k < l.m {
      assert s.edges(k) == [l.Along(k)];
      PushSole(s, p, Settle(Popped(st), x), x, l.Along(k));
    }
  }

  lemma DoneTurns(l: Ladder, st: State)
    requires l.Valid() && RowDone(l, st) && |st.heap| > 0
    ensures RowDone(l, Turn(l.Snap(), l.Query(), st))
  {
    LadderHops(l, 0, 0);
    FrontAndRest(st.heap);
    hide Pow, Hop, Front, Rest;
    var x := st.heap[Front(st.heap)];
    assert Weak(l, x);
  }

  lemma {:induction false} LadderEnds(l: Ladder, st: State, k: nat)
    requires l.Valid() && (OnTheRow(l, st, k) || RowDone(l, st))
    ensures RowDone(l, Finish(l.Snap(), l.Query(), st))
    decreases l.Query().topK - |st.selected|, |st.heap|
  {
    hide Turn, Pow;
    var s, p := l.Snap(), l.Query();
    if |st.heap| > 0 {
      TurnDescends(s, p, st);
      if OnTheRow(l, st, k) {
        RowTurns(l, st, k);
        LadderEnds(l, Turn(s, p, st), k + 1);
      } else {
        DoneTurns(l, st);
        LadderEnds(l, Turn(s, p, st), k);
      }
    }
  }

  lemma HiddenIsFollowed(l: Ladder)
    requires l.Valid()
    ensures Followed(l.Snap(), l.Query(), l.Hidden()) && |l.Hidden()| == 2
    ensures End(l.Snap(), l.Query(), l.Hidden()) == l.m + 1
  {
    var s, p := l.Snap(), l.Query();
    var a, b := l.ShortCut(), l.Along(l.m);
    LadderNormal(l, 0);
    LadderNormal(l, l.m);
    LadderNormal(l, l.m + 1);
    LadderHops(l, 0, 0);
    FollowsRow(l, l.m);
    hide Pow, Hop, Follows, Normal;
    assert l.Hidden()[..1] == [a] && [a][..0] == [];
    assert s.edges(0)[1] == a && s.edges(l.m)[0] == b;
    assert Energy(s, p, []) == 1.0 && Followed(s, p, []);
    assert Energy(s, p, [a]) == l.Weakly() && Followed(s, p, [a]) && End(s, p, [a]) == l.m;
  }

  /** Between two steps and two fewer than the nodes, some snapshot has a followed two-hop trail to a
      node that the walk leaves out, though it settles fewer nodes than it may. */
  lemma BindingBoundHidesTrails(l: Ladder)
    requires l.Valid()
    ensures l.Snap().Valid() && Damped(l.Snap()) && Good(l.Query())
    ensures var s, p, st := l.Snap(), l.Query(), Outcome(l.Snap(), l.Query());
      && Followed(s, p, l.Hidden()) && |l.Hidden()| == 2
      && End(s, p, l.Hidden()) !in st.best && |st.selected| < p.topK
  {
    LadderIsDamped(l);
    HiddenIsFollowed(l);
    FirstTurn(l);
    var s, p := l.Snap(), l.Query();
    var st := Initial(s, p);
    TurnDescends(s, p, st);
    hide Turn, Damped, Followed, End, Pow;
    LadderEnds(l, Turn(s, p, st), 1);
  }

  /** Exactly which step bounds let the exporter settle the best nodes on every snapshot of n nodes,
      whatever the attenuations, provided one kind of edge carries any energy at all. */
  lemma StepBoundIff(n: nat, m: int, attenuation: int -> real, blocking: int, kind: int)
    requires kind != blocking && 0.0 < attenuation(kind) && forall k :: 0.0 <= attenuation(k) <= 1.0
    ensures AlwaysBest(n, m, attenuation, blocking) <==> m <= 1 || n - 1 <= m
  {
    if m <= 1 || n - 1 <= m {
      hide Damped, BestWithin, Outcome;
      forall s: Snapshot, p | s.Valid() && s.count == n && s.attenuation == attenuation && s.blocking == blocking
                              && Damped(s) && Good(p) && p.maxSteps == m
        ensures BestWithin(s, p, Outcome(s, p))
      {
        BoundSuffices(s, p);
      }
    } else {
      var l := Ladder(n, m, kind, attenuation, blocking);
      BindingBoundHidesTrails(l);
      var s, p := l.Snap(), l.Query();
      hide Damped, Followed, End, Outcome, Energy;
      assert !Ranked(s, p, Outcome(s, p), l.Hidden());
      assert !BestWithin(s, p, Outcome(s, p));
    }
  }
}
