/** The settle-once exporter of floating_subgraph.py: a best-first walk from a root that stops
    after top_k settlements, and the self-contained fragment it exports. */
module FloatingExport {
  import opened Common
  import opened Heap
  import opened FloatingWalk
  import opened FloatingOptimality
  import opened FloatingRuns

  /** Expands a settled node: every followed edge is recorded and its far end queued. */
  method Expand(s: Snapshot, p: Params, start: State, x: Item) returns (st: State)
    requires s.count > 0
    ensures st == PushAll(s, p, start, x, s.edges(x.node))
  {
    hide Follows, Push;
    st := start;
    var es := s.edges(x.node);
    for i := 0 to |es|
      invariant st == PushAll(s, p, start, x, es[..i])
    {
      assert es[..i + 1][..i] == es[..i];
      var e := es[i];
      if Follows(s, p, x.energy, e) {
        st := Push(s, st, x, e);
      }
    }
    assert es[..|es|] == es;
  }

  /** The loop of export_floating_subgraph: stops after topK settlements or when the queue runs dry. */
  method Walk(s: Snapshot, p: Params) returns (st: State)
    requires s.Valid() && p.maxSteps >= 0 && p.threshold >= 0.0 && p.topK > 0
    ensures st == Outcome(s, p)
    ensures Inv(s, p, st) && |st.selected| <= p.topK
    ensures |st.selected| == p.topK || st.heap == []
    ensures ExpandedBut(s, p, st, None)
    ensures s.round(1.0 * p.rigor) >= p.threshold ==> Normal(s, p.root) in st.best
    ensures Tame(s) ==> Falling(st)
    ensures Reaching(s, p) ==> TopBest(s, p, st)
  {
    hide Inv, Falling, Tame, Front, Rest, ExpandedBut, Damped, TopBest, BestWithin, PushAll, Normal;
    st := Initial(s, p);
    while |st.heap| > 0 && |st.selected| < p.topK
      invariant Finish(s, p, st) == Outcome(s, p)
      decreases p.topK - |st.selected|, |st.heap|
    {
      TurnDescends(s, p, st);
      var x := st.heap[Front(st.heap)];
      var energy := s.round(x.energy);
      if energy < p.threshold || (x.node in st.best && st.best[x.node] >= energy) {
        st := Popped(st);
      } else {
        var y := x.(energy := energy);
        st := Settle(Popped(st), y);
        if x.steps < p.maxSteps {
          st := Expand(s, p, st, y);
        }
      }
    }
    OutcomeDone(s, p);
  }

  // ----- the exported fragment -----

  // edges_out: recorded edges with both ends settled.
  function ExportedEdges(st: State): map<Key, Edge> {
    map k | k in st.traversed && k.src in st.best && k.dst in st.best :: st.traversed[k]
  }

  // A walk from the root through exported edges, spelling a path of kinds.
  ghost predicate Spells(s: Snapshot, p: Params, edges: map<Key, Edge>, keys: seq<Key>, v: int, path: seq<int>)
    requires s.count > 0
  {
    && |keys| == |path| && (if |keys| == 0 then v == Normal(s, p.root) else keys[|keys| - 1].dst == v)
    && (forall i | 0 <= i < |keys| :: keys[i] in edges && keys[i].kind == path[i])
    && (|keys| > 0 ==> keys[0].src == Normal(s, p.root))
    && forall i | 0 < i < |keys| :: keys[i].src == keys[i - 1].dst
  }

  /** Every exported node is reached from the root through exported edges that spell its
      path_edge_types, at most maxSteps of them. */
  lemma ExportSelfContained(s: Snapshot, p: Params, st: State, v: int) returns (keys: seq<Key>)
    requires s.Valid() && Inv(s, p, st) && v in st.best
    ensures Spells(s, p, ExportedEdges(st), keys, v, st.paths[v])
    ensures |keys| == st.depth[v] <= p.maxSteps
  {
    hide Inv, Trail, Spells, ExportedEdges, Kinds, End;
    var trail := TrailTo(s, p, st, v);
    keys := KeysOf(s, p, st, trail);
  }

  lemma KeysOf(s: Snapshot, p: Params, st: State, trail: seq<Edge>) returns (keys: seq<Key>)
    requires s.Valid() && Trail(s, p, st.best, st.traversed, trail) && End(s, p, trail) in st.best
    ensures |keys| == |trail| <= p.maxSteps && Spells(s, p, ExportedEdges(st), keys, End(s, p, trail), Kinds(trail))
  {
    hide Energy, HopOk, KeyOf, End, ExportedEdges;
    keys := seq(|trail|, i requires 0 <= i < |trail| => KeyOf(s, trail[i]));
    EndsOf(s, p, trail);
    forall i | 0 <= i < |trail|
      ensures keys[i] in ExportedEdges(st) && keys[i].kind == trail[i].kind
      ensures keys[i].src == End(s, p, trail[..i]) && keys[i].dst == End(s, p, trail[..i + 1])
    {
      assert i + 1 == |trail| ==> trail[..i + 1] == trail;
      assert i + 1 < |trail| ==> HopOk(s, p, st.best, st.traversed, trail[..i + 1], trail[i + 1]);
      HopExported(s, p, st, trail, i);
    }
  }

  lemma TrailTo(s: Snapshot, p: Params, st: State, v: int) returns (trail: seq<Edge>)
    requires s.count > 0 && Inv(s, p, st) && v in st.best
    ensures Trail(s, p, st.best, st.traversed, trail) && End(s, p, trail) == v && v in st.depth && v in st.paths
    ensures |trail| == st.depth[v] && Kinds(trail) == st.paths[v]
  {
    hide Energy, Trail, End, Covered, EdgeOk, ItemOk;
    assert SettledOk(s, p, st, v);
    trail :| Trail(s, p, st.best, st.traversed, trail) && End(s, p, trail) == v && Energy(s, p, trail) == st.best[v]
      && |trail| == st.depth[v] && Kinds(trail) == st.paths[v];
  }

  lemma EndsOf(s: Snapshot, p: Params, trail: seq<Edge>)
    requires s.count > 0
    ensures End(s, p, trail[..0]) == Normal(s, p.root)
    ensures |trail| == 0 ==> End(s, p, trail) == Normal(s, p.root)
    ensures |trail| > 0 ==> KeyOf(s, trail[|trail| - 1]).dst == End(s, p, trail)
  {
  }

  lemma HopExported(s: Snapshot, p: Params, st: State, trail: seq<Edge>, i: nat)
    requires s.Valid() && i < |trail| && HopOk(s, p, st.best, st.traversed, trail[..i], trail[i])
    requires End(s, p, trail[..i + 1]) in st.best || (i + 1 < |trail| && HopOk(s, p, st.best, st.traversed, trail[..i + 1], trail[i + 1]))
    ensures var k := KeyOf(s, trail[i]);
      && k in ExportedEdges(st) && k.kind == trail[i].kind
      && k.src == End(s, p, trail[..i]) && k.dst == End(s, p, trail[..i + 1])
  {
    hide Energy, Follows;
    assert trail[..i + 1][i] == trail[i];
  }

  /** When fewer than topK nodes settled, the fragment is closed: every edge the walk recorded is
      exported. */
  lemma ExportClosed(s: Snapshot, p: Params, st: State)
    requires s.Valid() && Inv(s, p, st) && st.heap == []
    ensures ExportedEdges(st) == st.traversed
  {
    hide Trail, Reached;
    forall k | k in st.traversed ensures k.src in st.best && k.dst in st.best {
      assert EdgeOk(s, p, st, k) && Covered(p, st, k);
    }
  }

  /** export_floating_subgraph up to serialization. */
  method Export(s: Snapshot, p: Params, kinds: set<int>) returns (r: Result<State, ParamError>)
    requires s.Valid()
    ensures r.Ok? <==> 0 <= p.root && 0 <= p.maxSteps && 0.0 <= p.threshold && 0 < p.topK && 0.0 < p.rigor && p.mask <= kinds
    ensures r.Err? ==> r.error == Checked(p, kinds).error
    ensures r.Ok? ==> r.value == Outcome(s, p) && Inv(s, p, r.value) && |r.value.selected| <= p.topK
    ensures r.Ok? ==> ExpandedBut(s, p, r.value, None)
    ensures r.Ok? && s.round(1.0 * p.rigor) >= p.threshold ==> Normal(s, p.root) in r.value.best
    ensures r.Ok? && |r.value.selected| < p.topK ==> ExportedEdges(r.value) == r.value.traversed
    ensures r.Ok? && Tame(s) ==> Falling(r.value)
    ensures r.Ok? && Reaching(s, p) ==> TopBest(s, p, r.value)
  {
    hide Inv, Falling, Tame, ExportedEdges, ExpandedBut, Reaching, TopBest, Outcome;
    var checked := Checked(p, kinds);
    if checked.Err? {
      return Err(checked.error);
    }
    var st := Walk(s, p);
    if |st.selected| < p.topK { ExportClosed(s, p, st); }
    return Ok(st);
  }
}
