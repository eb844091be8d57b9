/** The state of the settle-once exporter of floating_subgraph.py, the trails behind it, and what
    each turn of its loop keeps. */
module FloatingWalk {
  import opened Common
  import opened Sorting
  import opened Heap

  datatype Edge = Edge(src: int, dst: int, kind: int, weight: real, provenance: int)

  // An exported edge is keyed by its ends and kind.
  datatype Key = Key(src: int, dst: int, kind: int)

  // The hot snapshot: how many nodes it has, the edges leaving each, the attenuation of each kind,
  // which kind blocks, and the rounding of energies.
  datatype Snapshot = Snapshot(count: nat, edges: int -> seq<Edge>, attenuation: int -> real, blocking: int, round: real -> real)
  {
    ghost predicate Valid() {
      && count > 0
      && (forall v, i | 0 <= i < |edges(v)| :: edges(v)[i].src == v)
      && forall x :: round(round(x)) == round(x)
    }
  }

  function Normal(s: Snapshot, node: int): int
    requires s.count > 0
  {
    node % s.count
  }

  // Weights and attenuations that never raise an energy, and rounding that keeps order.
  ghost predicate Tame(s: Snapshot) {
    && (forall v, i | 0 <= i < |s.edges(v)| :: s.edges(v)[i].weight <= 1.0)
    && (forall k :: 0.0 <= s.attenuation(k) <= 1.0)
    && forall x, y | x <= y :: s.round(x) <= s.round(y)
  }

  datatype Params = Params(root: int, maxSteps: int, mask: set<int>, threshold: real, topK: int, rigor: real)

  datatype ParamError = BadRoot | BadSteps | BadThreshold | BadTopK | BadRigor | UnknownKind

  // The checks of ExportParams.normalized.
  function Checked(p: Params, kinds: set<int>): Result<Params, ParamError> {
    if p.root < 0 then Err(BadRoot)
    else if p.maxSteps < 0 then Err(BadSteps)
    else if p.threshold < 0.0 then Err(BadThreshold)
    else if p.topK <= 0 then Err(BadTopK)
    else if p.rigor <= 0.0 then Err(BadRigor)
    else if !(p.mask <= kinds) then Err(UnknownKind)
    else Ok(p)
  }

  datatype State = State(
    heap: seq<Item>, best: map<int, real>, depth: map<int, nat>, paths: map<int, seq<int>>,
    selected: seq<int>, traversed: map<Key, Edge>)

  // ----- trails -----

  function End(s: Snapshot, p: Params, trail: seq<Edge>): int
    requires s.count > 0
  {
    if |trail| == 0 then Normal(s, p.root) else Normal(s, trail[|trail| - 1].dst)
  }

  // Rounded after every hop, as the engine does.
  function Energy(s: Snapshot, p: Params, trail: seq<Edge>): real {
    if |trail| == 0 then s.round(1.0 * p.rigor)
    else Hop(s, Energy(s, p, trail[..|trail| - 1]), trail[|trail| - 1])
  }

  function Hop(s: Snapshot, energy: real, e: Edge): real {
    s.round(energy * s.attenuation(e.kind) * e.weight)
  }

  function Kinds(trail: seq<Edge>): seq<int> {
    seq(|trail|, i requires 0 <= i < |trail| => trail[i].kind)
  }

  function KeyOf(s: Snapshot, e: Edge): Key
    requires s.count > 0
  {
    Key(e.src, Normal(s, e.dst), e.kind)
  }

  // The engine follows an edge at an energy.
  predicate Follows(s: Snapshot, p: Params, energy: real, e: Edge) {
    e.kind != s.blocking && e.kind in p.mask && Hop(s, energy, e) >= p.threshold
  }

  // Hop e, after the trail before, is a followed edge of the snapshot out of a settled node, and recorded.
  ghost predicate HopOk(s: Snapshot, p: Params, best: map<int, real>, traversed: map<Key, Edge>, before: seq<Edge>, e: Edge)
    requires s.count > 0
  {
    && e in s.edges(End(s, p, before)) && End(s, p, before) in best
    && Follows(s, p, Energy(s, p, before), e) && KeyOf(s, e) in traversed
  }

  ghost predicate Trail(s: Snapshot, p: Params, best: map<int, real>, traversed: map<Key, Edge>, trail: seq<Edge>)
    requires s.count > 0
  {
    && |trail| <= p.maxSteps
    && forall i | 0 <= i < |trail| :: HopOk(s, p, best, traversed, trail[..i], trail[i])
  }

  // Some trail gives a node this energy, depth and path.
  ghost predicate Reached(s: Snapshot, p: Params, st: State, node: int, energy: real, steps: nat, path: seq<int>)
    requires s.count > 0
  {
    exists trail ::
      Trail(s, p, st.best, st.traversed, trail) && End(s, p, trail) == node && Energy(s, p, trail) == energy
      && |trail| == steps && Kinds(trail) == path
  }

  lemma ReachedGrows(s: Snapshot, p: Params, st: State, st': State, node: int, energy: real, steps: nat, path: seq<int>)
    requires s.count > 0 && Reached(s, p, st, node, energy, steps, path)
    requires st.best.Keys <= st'.best.Keys && st.traversed.Keys <= st'.traversed.Keys
    ensures Reached(s, p, st', node, energy, steps, path)
  {
    hide Energy, Follows;
    var trail :| Trail(s, p, st.best, st.traversed, trail) && End(s, p, trail) == node && Energy(s, p, trail) == energy
      && |trail| == steps && Kinds(trail) == path;
    assert Trail(s, p, st'.best, st'.traversed, trail);
  }

  lemma ReachedNext(s: Snapshot, p: Params, st: State, node: int, energy: real, steps: nat, path: seq<int>, e: Edge)
    requires s.Valid() && Reached(s, p, st, node, energy, steps, path) && node in st.best
    requires steps < p.maxSteps && e in s.edges(node) && Follows(s, p, energy, e) && KeyOf(s, e) in st.traversed
    ensures Reached(s, p, st, Normal(s, e.dst), Hop(s, energy, e), steps + 1, path + [e.kind])
  {
    hide Follows, Hop, KeyOf, HopOk, Energy, End;
    var trail :| Trail(s, p, st.best, st.traversed, trail) && End(s, p, trail) == node && Energy(s, p, trail) == energy
      && |trail| == steps && Kinds(trail) == path;
    var longer := trail + [e];
    TrailSnoc(s, p, st, trail, e);
    assert Kinds(longer) == path + [e.kind];
  }

  lemma TrailSnoc(s: Snapshot, p: Params, st: State, trail: seq<Edge>, e: Edge)
    requires s.Valid() && Trail(s, p, st.best, st.traversed, trail) && |trail| < p.maxSteps
    requires End(s, p, trail) in st.best && e in s.edges(End(s, p, trail))
    requires Follows(s, p, Energy(s, p, trail), e) && KeyOf(s, e) in st.traversed
    ensures Trail(s, p, st.best, st.traversed, trail + [e])
    ensures End(s, p, trail + [e]) == Normal(s, e.dst) && Energy(s, p, trail + [e]) == Hop(s, Energy(s, p, trail), e)
  {
    hide Follows, Hop, KeyOf;
    var longer := trail + [e];
    assert longer[..|trail|] == trail;
    assert HopOk(s, p, st.best, st.traversed, trail, e);
    hide HopOk, Energy, End;
    forall i | 0 <= i < |longer| ensures HopOk(s, p, st.best, st.traversed, longer[..i], longer[i]) {
      assert longer[..i] == if i == |trail| then trail else trail[..i];
    }
  }

  lemma RootReached(s: Snapshot, p: Params, st: State)
    requires s.count > 0 && p.maxSteps >= 0
    ensures Reached(s, p, st, Normal(s, p.root), s.round(1.0 * p.rigor), 0, [])
  {
    var trail: seq<Edge> := [];
    assert Trail(s, p, st.best, st.traversed, trail) && Kinds(trail) == [];
  }

  // ----- the invariant -----

  ghost predicate ItemOk(s: Snapshot, p: Params, st: State, x: Item)
    requires s.count > 0
  {
    Reached(s, p, st, x.node, x.energy, x.steps, x.path) && s.round(x.energy) == x.energy
  }

  ghost predicate SettledOk(s: Snapshot, p: Params, st: State, v: int)
    requires s.count > 0
  {
    && v in st.best && v in st.depth && v in st.paths
    && st.best[v] >= p.threshold && s.round(st.best[v]) == st.best[v]
    && Reached(s, p, st, v, st.best[v], st.depth[v], st.paths[v])
  }

  // A recorded edge leads to a settled node or to a queued item that may still settle it.
  ghost predicate Covered(p: Params, st: State, k: Key) {
    k.dst in st.best || exists x :: x in st.heap && x.node == k.dst && x.energy >= p.threshold
  }

  // A recorded edge is a followed edge of the snapshot out of a settled node, filed under its own key.
  ghost predicate EdgeOk(s: Snapshot, p: Params, st: State, k: Key)
    requires s.count > 0
  {
    && k in st.traversed && KeyOf(s, st.traversed[k]) == k && k.src in st.best
    && st.traversed[k] in s.edges(k.src) && k.kind != s.blocking && k.kind in p.mask
  }

  ghost predicate Inv(s: Snapshot, p: Params, st: State)
    requires s.count > 0
  {
    && (forall x | x in st.heap :: ItemOk(s, p, st, x))
    && (forall v :: v in st.best <==> v in st.selected)
    && st.depth.Keys == st.paths.Keys == st.best.Keys
    && (forall v | v in st.best :: SettledOk(s, p, st, v))
    && (forall k | k in st.traversed :: EdgeOk(s, p, st, k) && Covered(p, st, k))
  }

  // Every edge that a settled node's energy follows is recorded, unless its depth is the limit.
  ghost predicate Expanded(s: Snapshot, p: Params, st: State, v: int)
    requires s.count > 0
  {
    && v in st.best && v in st.depth
    && (st.depth[v] < p.maxSteps ==>
          forall e | e in s.edges(v) && Follows(s, p, st.best[v], e) :: KeyOf(s, e) in st.traversed)
  }

  // ... for all settled nodes but perhaps the one being expanded.
  ghost predicate ExpandedBut(s: Snapshot, p: Params, st: State, open: Option<int>)
    requires s.count > 0
  {
    forall v | v in st.best && Some(v) != open :: Expanded(s, p, st, v)
  }

  // In a tame snapshot nothing queued beats a settled node, and nodes settle once, in falling order.
  ghost predicate Falling(st: State) {
    && Distinct(st.selected)
    && (forall i | 0 <= i < |st.selected| :: st.selected[i] in st.best)
    && (forall i, j | 0 <= i < j < |st.selected| :: st.best[st.selected[i]] >= st.best[st.selected[j]])
    && forall x, v | x in st.heap && v in st.best :: x.energy <= st.best[v]
  }

  lemma TameHop(s: Snapshot, energy: real, e: Edge)
    requires Tame(s) && energy >= 0.0 && s.round(energy) == energy && e.weight <= 1.0
    ensures Hop(s, energy, e) <= energy
  {
    var a := s.attenuation(e.kind);
    Shrinks(energy, a);
    ShrinksBy(energy * a, e.weight);
    assert s.round(energy * a * e.weight) <= s.round(energy);
  }

  lemma Shrinks(x: real, f: real)
    requires x >= 0.0 && 0.0 <= f <= 1.0
    ensures 0.0 <= x * f <= x
  {
  }

  lemma ShrinksBy(x: real, w: real)
    requires x >= 0.0 && w <= 1.0
    ensures x * w <= x
  {
  }

  // ----- one turn -----

  function Popped(st: State): State
    requires |st.heap| > 0
  {
    st.(heap := Rest(st.heap))
  }

  function Settle(st: State, x: Item): State {
    st.(best := st.best[x.node := x.energy], depth := st.depth[x.node := x.steps], paths := st.paths[x.node := x.path],
        selected := st.selected + [x.node])
  }

  function Push(s: Snapshot, st: State, x: Item, e: Edge): State
    requires s.count > 0
  {
    st.(traversed := st.traversed[KeyOf(s, e) := e],
        heap := st.heap + [Item(Hop(s, x.energy, e), Normal(s, e.dst), x.steps + 1, x.path + [e.kind])])
  }

  lemma InvStable(s: Snapshot, p: Params, st: State, st': State)
    requires s.count > 0 && Inv(s, p, st)
    requires st.best.Keys <= st'.best.Keys && st.traversed.Keys <= st'.traversed.Keys
    ensures forall x | x in st.heap :: ItemOk(s, p, st', x)
    ensures forall v | v in st.best && st'.best == st.best && st'.depth == st.depth && st'.paths == st.paths :: SettledOk(s, p, st', v)
  {
    hide Reached;
    forall x | x in st.heap ensures ItemOk(s, p, st', x) {
      assert ItemOk(s, p, st, x);
      ReachedGrows(s, p, st, st', x.node, x.energy, x.steps, x.path);
    }
    if st'.best == st.best && st'.depth == st.depth && st'.paths == st.paths {
      forall v | v in st.best ensures SettledOk(s, p, st', v) {
        assert SettledOk(s, p, st, v);
        ReachedGrows(s, p, st, st', v, st.best[v], st.depth[v], st.paths[v]);
      }
    }
  }

  // Skipping the front: below the threshold, or its node settled no worse.
  lemma SkipKeeps(s: Snapshot, p: Params, st: State)
    requires s.Valid() && Inv(s, p, st) && |st.heap| > 0
    requires var x := st.heap[Front(st.heap)]; x.energy < p.threshold || x.node in st.best
    ensures Inv(s, p, Popped(st))
    ensures Falling(st) ==> Falling(Popped(st))
  {
    hide EdgeOk, Trail, Front, Rest;
    var x := st.heap[Front(st.heap)];
    var st' := Popped(st);
    FrontAndRest(st.heap);
    InvStable(s, p, st, st');
    forall k | k in st'.traversed ensures EdgeOk(s, p, st', k) && Covered(p, st', k) {
      assert EdgeOk(s, p, st, k) && Covered(p, st, k);
      EdgeOkGrows(s, p, st, st', k);
      if k.dst !in st.best {
        var y :| y in st.heap && y.node == k.dst && y.energy >= p.threshold;
        assert y in st'.heap;
      }
    }
  }

  lemma FrontAndRest(q: seq<Item>)
    requires |q| > 0
    ensures Front(q) < |q| && q[Front(q)] in q
    ensures forall x | x in Rest(q) :: x in q
    ensures forall x | x in q :: x in Rest(q) || x == q[Front(q)]
    ensures forall x | x in q :: x.energy <= q[Front(q)].energy
  {
    forall x | x in q ensures x.energy <= q[Front(q)].energy {
      var j :| 0 <= j < |q| && q[j] == x;
    }
  }

  lemma EdgeOkGrows(s: Snapshot, p: Params, st: State, st': State, k: Key)
    requires s.count > 0 && EdgeOk(s, p, st, k)
    requires st.best.Keys <= st'.best.Keys && k in st'.traversed && st'.traversed[k] == st.traversed[k]
    ensures EdgeOk(s, p, st', k)
  {
    hide KeyOf;
  }

  lemma SettleKeeps(s: Snapshot, p: Params, st: State)
    requires s.Valid() && Inv(s, p, st) && |st.heap| > 0
    requires var x := st.heap[Front(st.heap)];
      x.energy >= p.threshold && (x.node in st.best ==> st.best[x.node] < x.energy)
    ensures var x := st.heap[Front(st.heap)]; var st' := Settle(Popped(st), x);
      && Inv(s, p, st') && ItemOk(s, p, st', x)
      && (Falling(st) ==> Falling(st') && x.node !in st.best && forall y | y in st'.heap :: y.energy <= x.energy)
  {
    hide EdgeOk, Trail, Front, Rest, Reached;
    var x := st.heap[Front(st.heap)];
    FrontAndRest(st.heap);
    var st' := Settle(Popped(st), x);
    assert st.best.Keys <= st'.best.Keys;
    InvStable(s, p, st, st');
    forall v | v in st'.best ensures SettledOk(s, p, st', v) {
      if v != x.node {
        assert SettledOk(s, p, st, v);
        ReachedGrows(s, p, st, st', v, st.best[v], st.depth[v], st.paths[v]);
      }
    }
    forall k | k in st'.traversed ensures EdgeOk(s, p, st', k) && Covered(p, st', k) {
      assert EdgeOk(s, p, st, k) && Covered(p, st, k);
      EdgeOkGrows(s, p, st, st', k);
      if k.dst !in st'.best {
        var y :| y in st.heap && y.node == k.dst && y.energy >= p.threshold;
        assert y in st'.heap;
      }
    }
    if Falling(st) { SettleFalls(p, st); }
  }

  lemma SettleFalls(p: Params, st: State)
    requires |st.heap| > 0 && Falling(st) && forall v | v in st.best :: v in st.selected
    requires var x := st.heap[Front(st.heap)]; x.node in st.best ==> st.best[x.node] < x.energy
    ensures var x := st.heap[Front(st.heap)]; var st' := Settle(Popped(st), x);
      Falling(st') && x.node !in st.best && forall y | y in st'.heap :: y.energy <= x.energy
  {
    hide Front, Rest;
    var x := st.heap[Front(st.heap)];
    FrontAndRest(st.heap);
    assert x.node !in st.best;
    assert forall i | 0 <= i < |st.selected| :: st.selected[i] != x.node;
  }

  // What pushing one edge of the node being expanded keeps.
  lemma PushKeeps(s: Snapshot, p: Params, st: State, x: Item, e: Edge)
    requires s.Valid() && Inv(s, p, st) && ItemOk(s, p, st, x) && x.node in st.best && x.steps < p.maxSteps
    requires e in s.edges(x.node) && Follows(s, p, x.energy, e)
    ensures var st' := Push(s, st, x, e); Inv(s, p, st') && ItemOk(s, p, st', x)
  {
    hide Trail, Reached, Hop;
    var st' := Push(s, st, x, e);
    var k := KeyOf(s, e);
    var pushed := st'.heap[|st.heap|];
    InvStable(s, p, st, st');
    ReachedGrows(s, p, st, st', x.node, x.energy, x.steps, x.path);
    ReachedNext(s, p, st', x.node, x.energy, x.steps, x.path, e);
    RoundedHop(s, x.energy, e);
    assert ItemOk(s, p, st', pushed);
    assert e.src == x.node;
    assert pushed in st'.heap && pushed.node == k.dst && pushed.energy >= p.threshold;
    forall j | j in st'.traversed ensures EdgeOk(s, p, st', j) && Covered(p, st', j) {
      if j != k {
        assert EdgeOk(s, p, st, j) && Covered(p, st, j);
        EdgeOkGrows(s, p, st, st', j);
        if j.dst !in st.best {
          var y :| y in st.heap && y.node == j.dst && y.energy >= p.threshold;
          assert y in st'.heap;
        }
      }
    }
  }

  lemma RoundedHop(s: Snapshot, energy: real, e: Edge)
    requires s.Valid()
    ensures s.round(Hop(s, energy, e)) == Hop(s, energy, e)
  {
  }

  lemma PushFalls(s: Snapshot, p: Params, st: State, x: Item, e: Edge)
    requires s.count > 0 && Falling(st) && Hop(s, x.energy, e) <= x.energy
    requires forall v | v in st.best :: x.energy <= st.best[v]
    ensures Falling(Push(s, st, x, e))
  {
    hide Hop, KeyOf, Normal;
  }

  lemma PushExpands(s: Snapshot, p: Params, st: State, x: Item, e: Edge)
    requires s.count > 0 && ExpandedBut(s, p, st, Some(x.node))
    ensures var st' := Push(s, st, x, e);
      ExpandedBut(s, p, st', Some(x.node)) && KeyOf(s, e) in st'.traversed && st.traversed.Keys <= st'.traversed.Keys
  {
    hide Follows, KeyOf, Hop;
    var st' := Push(s, st, x, e);
    forall v | v in st'.best && v != x.node ensures Expanded(s, p, st', v) {
      assert Expanded(s, p, st, v);
    }
  }

  lemma AllExpanded(s: Snapshot, p: Params, st: State, v: int)
    requires s.count > 0 && ExpandedBut(s, p, st, Some(v)) && Expanded(s, p, st, v)
    ensures ExpandedBut(s, p, st, None)
  {
    hide Expanded;
  }

  lemma SettleExpands(s: Snapshot, p: Params, st: State)
    requires s.count > 0 && ExpandedBut(s, p, st, None) && |st.heap| > 0
    ensures var x := st.heap[Front(st.heap)]; ExpandedBut(s, p, Settle(Popped(st), x), Some(x.node))
    ensures ExpandedBut(s, p, Popped(st), None)
  {
    hide Follows, KeyOf, Front, Rest;
    var x := st.heap[Front(st.heap)];
    var st' := Settle(Popped(st), x);
    forall v | v in st.best ensures Expanded(s, p, Popped(st), v) && (v != x.node ==> Expanded(s, p, st', v)) {
      assert Expanded(s, p, st, v);
    }
  }

  lemma RoundedItem(s: Snapshot, p: Params, st: State, x: Item)
    requires s.count > 0 && ItemOk(s, p, st, x)
    ensures s.round(x.energy) == x.energy
  {
  }

  function Initial(s: Snapshot, p: Params): State
    requires s.count > 0
  {
    State([Item(s.round(1.0 * p.rigor), Normal(s, p.root), 0, [])], map[], map[], map[], [], map[])
  }

  lemma InitialOk(s: Snapshot, p: Params)
    requires s.Valid() && p.maxSteps >= 0
    ensures Inv(s, p, Initial(s, p)) && Falling(Initial(s, p)) && ExpandedBut(s, p, Initial(s, p), None)
  {
    hide Reached;
    var st := Initial(s, p);
    RootReached(s, p, st);
    assert ItemOk(s, p, st, st.heap[0]);
  }

  lemma AtLimit(s: Snapshot, p: Params, st: State, v: int)
    requires s.count > 0 && v in st.best && v in st.depth && st.depth[v] >= p.maxSteps
    requires ExpandedBut(s, p, st, Some(v))
    ensures ExpandedBut(s, p, st, None)
  {
    assert Expanded(s, p, st, v);
    AllExpanded(s, p, st, v);
  }

  lemma PoppedRounded(s: Snapshot, p: Params, st: State)
    requires s.count > 0 && Inv(s, p, st) && |st.heap| > 0
    ensures s.round(st.heap[Front(st.heap)].energy) == st.heap[Front(st.heap)].energy
  {
    FrontAndRest(st.heap);
    assert ItemOk(s, p, st, st.heap[Front(st.heap)]);
  }

  lemma RestShrinks(q: seq<Item>)
    requires |q| > 0
    ensures |Rest(q)| < |q|
  {
  }

  lemma LastIsLeast(s: Snapshot, p: Params, st: State, x: Item)
    requires s.count > 0 && Inv(s, p, st) && Falling(st)
    requires |st.selected| > 0 && st.selected[|st.selected| - 1] == x.node
    requires x.node in st.best && st.best[x.node] == x.energy
    ensures forall v | v in st.best :: x.energy <= st.best[v]
  {
    hide SettledOk, ItemOk, EdgeOk, Covered;
    forall v | v in st.best ensures x.energy <= st.best[v] {
      var i :| 0 <= i < |st.selected| && st.selected[i] == v;
    }
  }

  // ----- the walk as a function -----

  // Every followed edge of the node just settled, in order.
  function PushAll(s: Snapshot, p: Params, st: State, x: Item, es: seq<Edge>): State
    requires s.count > 0
  {
    if |es| == 0 then st
    else
      var e := es[|es| - 1];
      var mid := PushAll(s, p, st, x, es[..|es| - 1]);
      if Follows(s, p, x.energy, e) then Push(s, mid, x, e) else mid
  }

  lemma {:induction false} PushAllSelects(s: Snapshot, p: Params, st: State, x: Item, es: seq<Edge>)
    requires s.count > 0
    ensures var st' := PushAll(s, p, st, x, es);
      st'.selected == st.selected && st'.best == st.best && st'.depth == st.depth && st'.paths == st.paths
    decreases |es|
  {
    hide Follows, Hop, KeyOf;
    if |es| > 0 { PushAllSelects(s, p, st, x, es[..|es| - 1]); }
  }

  // One turn of the loop: pop, skip what is too weak or settled no worse, otherwise settle and expand.
  function Turn(s: Snapshot, p: Params, st: State): State
    requires s.count > 0 && |st.heap| > 0
  {
    var x := st.heap[Front(st.heap)];
    var energy := s.round(x.energy);
    if energy < p.threshold || (x.node in st.best && st.best[x.node] >= energy) then Popped(st)
    else
      var y := x.(energy := energy);
      var settled := Settle(Popped(st), y);
      if x.steps < p.maxSteps then PushAll(s, p, settled, y, s.edges(x.node)) else settled
  }

  lemma TurnDescends(s: Snapshot, p: Params, st: State)
    requires s.count > 0 && |st.heap| > 0
    ensures var st' := Turn(s, p, st);
      |st'.selected| == |st.selected| + 1 || (|st'.selected| == |st.selected| && |st'.heap| < |st.heap|)
  {
    hide PushAll;
    RestShrinks(st.heap);
    var x := st.heap[Front(st.heap)];
    var y := x.(energy := s.round(x.energy));
    PushAllSelects(s, p, Settle(Popped(st), y), y, s.edges(x.node));
  }

  /** The whole walk: it ends after topK settlements or when the queue runs dry. */
  function Finish(s: Snapshot, p: Params, st: State): State
    requires s.count > 0
    decreases p.topK - |st.selected|, |st.heap|
  {
    if |st.heap| == 0 || |st.selected| >= p.topK then st
    else
      TurnDescends(s, p, st);
      Finish(s, p, Turn(s, p, st))
  }

  function Outcome(s: Snapshot, p: Params): State
    requires s.count > 0
  {
    Finish(s, p, Initial(s, p))
  }
}
