/** What the exporter follows, without its filters: chains of edges of the snapshot and the energies along them. */
module FloatingMeaning {
  import opened FloatingWalk
  import opened FloatingOptimality

  // What an edge leaves of an energy.
  function Onward(s: Snapshot, energy: real, e: Edge): real {
    s.round(energy * s.attenuation(e.kind) * e.weight)
  }

  lemma HopIsOnward(s: Snapshot, energy: real, e: Edge)
    ensures Hop(s, energy, e) == Onward(s, energy, e)
  {
  }

  // The energies along a trail: one unit times the rigor, and after each edge what it leaves, rounded every time.
  ghost predicate Energies(s: Snapshot, p: Params, trail: seq<Edge>, energies: seq<real>) {
    && |energies| == |trail| + 1 && energies[0] == s.round(p.rigor)
    && forall i | 0 <= i < |trail| :: energies[i + 1] == Onward(s, energies[i], trail[i])
  }

  // Edge i leaves the node reached before it, is of a kind in the mask that does not block, and keeps the energy at
  // or above the threshold.
  ghost predicate Passes(s: Snapshot, p: Params, trail: seq<Edge>, energies: seq<real>, i: nat)
    requires s.count > 0 && i < |trail| && |energies| == |trail| + 1
  {
    && trail[i] in s.edges((if i == 0 then p.root else trail[i - 1].dst) % s.count)
    && trail[i].kind in p.mask && trail[i].kind != s.blocking && p.threshold <= energies[i + 1]
  }

  ghost predicate Chain(s: Snapshot, p: Params, trail: seq<Edge>, energies: seq<real>)
    requires s.count > 0
  {
    && Energies(s, p, trail, energies) && p.threshold <= energies[0]
    && forall i | 0 <= i < |trail| :: Passes(s, p, trail, energies, i)
  }

  lemma {:induction false} EnergiesAre(s: Snapshot, p: Params, trail: seq<Edge>) returns (energies: seq<real>)
    ensures Energies(s, p, trail, energies) && energies[|trail|] == Energy(s, p, trail)
    decreases |trail|
  {
    if |trail| == 0 {
      energies := [s.round(p.rigor)];
    } else {
      var before, e := trail[..|trail| - 1], trail[|trail| - 1];
      var init := EnergiesAre(s, p, before);
      energies := init + [Onward(s, Energy(s, p, before), e)];
      HopIsOnward(s, Energy(s, p, before), e);
      hide Onward, Hop;
      forall i | 0 <= i < |trail| ensures energies[i + 1] == Onward(s, energies[i], trail[i]) {
        if i < |before| { assert trail[i] == before[i]; }
      }
    }
  }

  lemma {:induction false} EnergiesUnique(s: Snapshot, p: Params, trail: seq<Edge>, a: seq<real>, b: seq<real>, i: nat)
    requires Energies(s, p, trail, a) && Energies(s, p, trail, b) && i <= |trail|
    ensures a[i] == b[i]
  {
    hide Onward;
    if i > 0 { EnergiesUnique(s, p, trail, a, b, i - 1); }
  }

  lemma ChainSnoc(s: Snapshot, p: Params, trail: seq<Edge>, energies: seq<real>)
    requires s.count > 0 && |trail| > 0 && Energies(s, p, trail, energies)
    ensures var n := |trail| - 1;
      && Energies(s, p, trail[..n], energies[..n + 1])
      && (Chain(s, p, trail, energies) <==> Chain(s, p, trail[..n], energies[..n + 1]) && Passes(s, p, trail, energies, n))
  {
    hide Onward;
    var n := |trail| - 1;
    var before, init := trail[..n], energies[..n + 1];
    assert forall i | 0 <= i < n :: before[i] == trail[i];
    assert forall i | 0 <= i <= n :: init[i] == energies[i];
    forall i | 0 <= i < n ensures Passes(s, p, before, init, i) <==> Passes(s, p, trail, energies, i) {
      assert init[i + 1] == energies[i + 1];
    }
  }

  /** The trails that the optimality results range over are these chains, and their energy is the last one. */
  lemma {:induction false} FollowedIsChain(s: Snapshot, p: Params, trail: seq<Edge>, energies: seq<real>)
    requires s.count > 0 && Energies(s, p, trail, energies)
    ensures Energy(s, p, trail) == energies[|trail|]
    ensures Followed(s, p, trail) <==> Chain(s, p, trail, energies)
    decreases |trail|
  {
    var own := EnergiesAre(s, p, trail);
    EnergiesUnique(s, p, trail, own, energies, |trail|);
    if |trail| > 0 {
      var n := |trail| - 1;
      ChainSnoc(s, p, trail, energies);
      FollowedIsChain(s, p, trail[..n], energies[..n + 1]);
      assert energies[..n + 1][n] == energies[n];
      LastPasses(s, p, trail, energies);
      hide Energies, Chain, Passes, Energy, Follows;
    }
  }

  lemma LastPasses(s: Snapshot, p: Params, trail: seq<Edge>, energies: seq<real>)
    requires s.count > 0 && |trail| > 0 && Energies(s, p, trail, energies)
    requires Energy(s, p, trail[..|trail| - 1]) == energies[|trail| - 1]
    ensures var before, e := trail[..|trail| - 1], trail[|trail| - 1];
      Passes(s, p, trail, energies, |trail| - 1) <==>
        e in s.edges(End(s, p, before)) && Follows(s, p, Energy(s, p, before), e)
  {
    HopIsOnward(s, energies[|trail| - 1], trail[|trail| - 1]);
    hide Energy, Onward, Hop;
  }

  /** Every settled node of a walk that keeps its invariant is reached by such a chain within the step bound, whose
      last energy is its own. */
  lemma SettledByChain(s: Snapshot, p: Params, st: State, v: int) returns (trail: seq<Edge>, energies: seq<real>)
    requires s.Valid() && Inv(s, p, st) && v in st.best
    requires p.threshold <= s.round(p.rigor)
    ensures Chain(s, p, trail, energies) && |trail| <= p.maxSteps
    ensures (if |trail| == 0 then p.root else trail[|trail| - 1].dst) % s.count == v && energies[|trail|] == st.best[v]
  {
    trail := BestTrail(s, p, st, v);
    energies := EnergiesAre(s, p, trail);
    TrailFollowed(s, p, st.best, st.traversed, trail);
    FollowedIsChain(s, p, trail, energies);
  }
}
