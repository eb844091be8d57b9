/** The layered wave of csr_mmap_hotpath.py: frontiers of best energies, one per number of
    edges, compared with the maximum product over walks. */
module LayeredWave {
  import opened Common
  import opened Csr
  import opened Dictionaries
  import opened Sorting
  import Bits

  // (1 << (kind % 31)) & mask is non-zero: that bit of the mask is set.
  predicate MaskAllows(mask: int, kind: int) {
    (mask / Bits.Pow2(kind % 31)) % 2 == 1
  }

  // The mask with the given bits set: a sum of powers of two.
  function MaskOf(bits: seq<bool>, i: nat): nat
    requires i <= |bits|
  {
    if i == 0 then 0 else MaskOf(bits, i - 1) + if bits[i - 1] then Bits.Pow2(i - 1) else 0
  }

  lemma {:induction false} MaskBelow(bits: seq<bool>, i: nat)
    requires i <= |bits|
    ensures MaskOf(bits, i) < Bits.Pow2(i)
  {
    if i > 0 { MaskBelow(bits, i - 1); }
  }

  lemma {:induction false} PowSplits(k: nat, i: nat)
    ensures Bits.Pow2(k + 1 + i) == Bits.Pow2(k) * (2 * Bits.Pow2(i))
  {
    if i > 0 {
      PowSplits(k, i - 1);
      assert Bits.Pow2(k) * (2 * Bits.Pow2(i)) == 2 * (Bits.Pow2(k) * (2 * Bits.Pow2(i - 1)));
    }
  }

  lemma AddEven(m: nat, p: nat, q: nat)
    requires p > 0
    ensures (m + p * (2 * q)) / p % 2 == m / p % 2
  {
    var d, r := m / p, m % p;
    assert m == p * d + r;
    Spread(p, d, 2 * q);
    Quotients(m + p * (2 * q), p, d + 2 * q, r);
  }

  lemma Spread(p: nat, a: nat, b: nat)
    ensures p * (a + b) == p * a + p * b
  {
  }

  lemma Quotients(n: nat, p: nat, d: nat, r: nat)
    requires p > 0 && n == p * d + r && r < p
    ensures n / p == d
  {
    var d' := n / p;
    assert d' > d ==> p * d' >= p * (d + 1) == p * d + p;
    assert d' < d ==> p * d >= p * (d' + 1) == p * d' + p;
  }

  // Each bit of the sum is the bit put in.
  lemma {:induction false} BitOfMask(bits: seq<bool>, i: nat, k: nat)
    requires i <= |bits|
    ensures MaskOf(bits, i) / Bits.Pow2(k) % 2 == if k < i && bits[k] then 1 else 0
    decreases i
  {
    var p := Bits.Pow2(k);
    if i <= k {
      MaskBelow(bits, i);
      PowGrows(i, k);
      Quotients(MaskOf(bits, i), p, 0, MaskOf(bits, i));
    } else if i == k + 1 {
      MaskBelow(bits, k);
      Quotients(MaskOf(bits, i), p, if bits[k] then 1 else 0, MaskOf(bits, k));
    } else {
      BitOfMask(bits, i - 1, k);
      PowSplits(k, i - 2 - k);
      AddEven(MaskOf(bits, i - 1), p, Bits.Pow2(i - 2 - k));
    }
  }

  lemma {:induction false} PowGrows(i: nat, k: nat)
    requires i <= k
    ensures Bits.Pow2(i) <= Bits.Pow2(k)
    decreases k
  {
    if i < k { PowGrows(i, k - 1); }
  }

  /** An edge passes a mask just when the bit numbered by its kind, modulo 31, is one of those the mask sums up. */
  lemma MaskAllowsIff(bits: seq<bool>, kind: int)
    ensures MaskAllows(MaskOf(bits, |bits|), kind) <==> kind % 31 < |bits| && bits[kind % 31]
  {
    BitOfMask(bits, |bits|, kind % 31);
  }

  datatype Query = Query(seeds: seq<int>, maxSteps: int, threshold: real, topK: int, mask: int)

  // ----- walks -----

  ghost predicate Allowed(es: seq<Edge>, q: Query, e: Edge) {
    e in es && MaskAllows(q.mask, e.kind)
  }

  function End(start: int, w: seq<Edge>): int {
    if |w| == 0 then start else w[|w| - 1].dst
  }

  ghost predicate Walk(es: seq<Edge>, q: Query, start: int, w: seq<Edge>) {
    if |w| == 0 then start in q.seeds
    else
      var init, e := w[..|w| - 1], w[|w| - 1];
      Walk(es, q, start, init) && e.src == End(start, init) && Allowed(es, q, e)
  }

  function Product(w: seq<Edge>): real {
    if |w| == 0 then 1.0 else Product(w[..|w| - 1]) * w[|w| - 1].weight
  }

  // Every non-empty prefix stays at or above the threshold.
  ghost predicate StaysAbove(q: Query, w: seq<Edge>) {
    |w| > 0 ==> StaysAbove(q, w[..|w| - 1]) && q.threshold <= Product(w)
  }

  // A walk of exactly k edges to v that the wave may follow.
  ghost predicate Reaches(es: seq<Edge>, q: Query, start: int, w: seq<Edge>, v: int, k: nat) {
    |w| == k && Walk(es, q, start, w) && StaysAbove(q, w) && End(start, w) == v
  }

  ghost predicate NonNegative(es: seq<Edge>) {
    forall e | e in es :: 0.0 <= e.weight
  }

  lemma WalkSnoc(es: seq<Edge>, q: Query, start: int, w: seq<Edge>, e: Edge)
    ensures Walk(es, q, start, w + [e]) <==> Walk(es, q, start, w) && e.src == End(start, w) && Allowed(es, q, e)
    ensures End(start, w + [e]) == e.dst
    ensures Product(w + [e]) == Product(w) * e.weight
    ensures StaysAbove(q, w + [e]) <==> StaysAbove(q, w) && q.threshold <= Product(w + [e])
  {
    hide Allowed;
    assert (w + [e])[..|w|] == w;
  }

  /** A walk is a chain of edges of the graph that pass the mask, the first out of a seed. */
  lemma {:induction false} WalkIff(es: seq<Edge>, q: Query, start: int, w: seq<Edge>)
    ensures Walk(es, q, start, w) <==> start in q.seeds && forall i | 0 <= i < |w| :: Continues(es, q, start, w, i)
    decreases |w|
  {
    hide MaskAllows;
    if |w| > 0 {
      var init := w[..|w| - 1];
      WalkIff(es, q, start, init);
      forall i | 0 <= i < |init| ensures Continues(es, q, start, init, i) <==> Continues(es, q, start, w, i) {}
      assert Continues(es, q, start, w, |init|) <==>
        w[|init|].src == End(start, init) && Allowed(es, q, w[|init|]);
    }
  }

  ghost predicate Continues(es: seq<Edge>, q: Query, start: int, w: seq<Edge>, i: nat)
    requires i < |w|
  {
    w[i] in es && MaskAllows(q.mask, w[i].kind) && w[i].src == if i == 0 then start else w[i - 1].dst
  }

  /** Its product is that of its weights, taken from either end, and it stays above the threshold when each of its
      non-empty prefixes does. */
  lemma {:induction false} ProductSplits(w: seq<Edge>)
    requires |w| > 0
    ensures Product(w) == w[0].weight * Product(w[1..])
    decreases |w|
  {
    if |w| > 1 {
      var init := w[..|w| - 1];
      ProductSplits(init);
      assert init[1..] == w[1..][..|w| - 2];
      assert Product(w) == (w[0].weight * Product(init[1..])) * w[|w| - 1].weight;
    } else {
      assert Product(w[..0]) == 1.0 && Product(w[1..]) == 1.0;
    }
  }

  lemma {:induction false} StaysAboveIff(q: Query, w: seq<Edge>)
    ensures StaysAbove(q, w) <==> forall i | 0 < i <= |w| :: q.threshold <= Product(w[..i])
    decreases |w|
  {
    hide Product;
    if |w| > 0 {
      var init := w[..|w| - 1];
      StaysAboveIff(q, init);
      assert w[..|w|] == w;
      assert forall i | 0 < i <= |init| :: init[..i] == w[..i];
    }
  }

  // ----- what a layer and the best table mean -----

  // f holds, for exactly the nodes some walk of k edges reaches, the greatest product.
  ghost predicate IsLayer(es: seq<Edge>, q: Query, f: map<int, real>, k: nat) {
    && (forall v | v in f :: exists start, w :: Reaches(es, q, start, w, v, k) && Product(w) == f[v])
    && (forall start, w, v | Reaches(es, q, start, w, v, k) :: v in f && Product(w) <= f[v])
  }

  // best holds the same over walks of at most k edges.
  ghost predicate IsBest(es: seq<Edge>, q: Query, best: map<int, real>, k: int) {
    && (forall v | v in best :: exists start, w, j: nat :: j <= k && Reaches(es, q, start, w, v, j) && Product(w) == best[v])
    && (forall start, w, v, j: nat | j <= k && Reaches(es, q, start, w, v, j) :: v in best && Product(w) <= best[v])
  }

  // ----- one layer -----

  // An edge offered to the next layer, with the energy its source brings.
  datatype Offer = Offer(energy: real, edge: Edge)

  function Out(o: Offer): real {
    o.energy * o.edge.weight
  }

  // The filters of the inner loop; -1 is the value an absent node counts as.
  predicate Passes(q: Query, o: Offer) {
    MaskAllows(q.mask, o.edge.kind) && q.threshold <= Out(o) && -1.0 < Out(o)
  }

  // next is the best passing offer for each target.
  ghost predicate BestOffers(q: Query, offers: seq<Offer>, next: map<int, real>) {
    && (forall v | v in next :: exists o :: o in offers && Passes(q, o) && o.edge.dst == v && Out(o) == next[v])
    && (forall o | o in offers && Passes(q, o) :: o.edge.dst in next && Out(o) <= next[o.edge.dst])
  }

  // The offers of a whole frontier: every edge out of every frontier node.
  ghost predicate OffersOf(es: seq<Edge>, f: map<int, real>, offers: seq<Offer>) {
    && (forall o | o in offers :: o.edge in es && o.edge.src in f && o.energy == f[o.edge.src])
    && (forall e | e in es && e.src in f :: Offer(f[e.src], e) in offers)
  }

  // Pointwise greater of two tables.
  ghost predicate IsMax(best: map<int, real>, a: map<int, real>, b: map<int, real>) {
    && (forall v :: v in best <==> v in a || v in b)
    && (forall v | v in a :: a[v] <= best[v])
    && (forall v | v in b :: b[v] <= best[v])
    && (forall v | v in best :: (v in a && best[v] == a[v]) || (v in b && best[v] == b[v]))
  }

  lemma {:induction false} ProductNonNegative(es: seq<Edge>, q: Query, start: int, w: seq<Edge>)
    requires NonNegative(es) && Walk(es, q, start, w)
    ensures 0.0 <= Product(w)
    decreases |w|
  {
    if |w| > 0 {
      ProductNonNegative(es, q, start, w[..|w| - 1]);
      MulNonNegative(Product(w[..|w| - 1]), w[|w| - 1].weight);
    }
  }

  lemma MulNonNegative(a: real, b: real)
    requires 0.0 <= a && 0.0 <= b
    ensures 0.0 <= a * b
  {
  }

  lemma MulMonotone(a: real, b: real, c: real)
    requires a <= b && 0.0 <= c
    ensures a * c <= b * c
  {
    MulNonNegative(b - a, c);
    assert (b - a) * c == b * c - a * c;
  }

  // A best offer extends a best walk of k edges to a walk of k + 1.
  lemma OfferIsWalk(es: seq<Edge>, q: Query, f: map<int, real>, k: nat, o: Offer) returns (start: int, w: seq<Edge>)
    requires IsLayer(es, q, f, k) && o.edge in es && o.edge.src in f && o.energy == f[o.edge.src] && Passes(q, o)
    ensures Reaches(es, q, start, w, o.edge.dst, k + 1) && Product(w) == Out(o)
  {
    hide Walk, Product, StaysAbove, End;
    var init: seq<Edge>;
    start, init :| Reaches(es, q, start, init, o.edge.src, k) && Product(init) == f[o.edge.src];
    WalkSnoc(es, q, start, init, o.edge);
    w := init + [o.edge];
  }

  // A walk of k + 1 edges is no better than the offer of its last edge.
  lemma WalkIsOffered(es: seq<Edge>, q: Query, f: map<int, real>, k: nat, start: int, w: seq<Edge>, v: int) returns (o: Offer)
    requires NonNegative(es) && IsLayer(es, q, f, k) && Reaches(es, q, start, w, v, k + 1)
    ensures o.edge in es && o.edge.src in f && o.energy == f[o.edge.src] && Passes(q, o)
    ensures o.edge.dst == v && Product(w) <= Out(o)
  {
    hide Walk, Product, StaysAbove, End, IsLayer;
    var init, e := w[..k], w[k];
    assert w == init + [e];
    WalkSnoc(es, q, start, init, e);
    ProductNonNegative(es, q, start, w);
    LayerBounds(es, q, f, k, start, init, e.src);
    o := Offer(f[e.src], e);
    MulMonotone(Product(init), f[e.src], e.weight);
  }

  lemma LayerBounds(es: seq<Edge>, q: Query, f: map<int, real>, k: nat, start: int, w: seq<Edge>, v: int)
    requires IsLayer(es, q, f, k) && Reaches(es, q, start, w, v, k)
    ensures v in f && Product(w) <= f[v]
  {
    hide Reaches, Product;
  }

  /** Taking the best offers of a frontier gives the next frontier. */
  lemma LayerStep(es: seq<Edge>, q: Query, f: map<int, real>, k: nat, offers: seq<Offer>, next: map<int, real>)
    requires NonNegative(es) && IsLayer(es, q, f, k) && OffersOf(es, f, offers) && BestOffers(q, offers, next)
    ensures IsLayer(es, q, next, k + 1)
  {
    hide Reaches, Product, Passes, Out, IsLayer;
    var k' := k + 1;
    forall v | v in next
      ensures exists start, w :: Reaches(es, q, start, w, v, k') && Product(w) == next[v]
    {
      var o :| o in offers && Passes(q, o) && o.edge.dst == v && Out(o) == next[v];
      var start, w := OfferIsWalk(es, q, f, k, o);
    }
    forall start, w, v | Reaches(es, q, start, w, v, k') ensures v in next && Product(w) <= next[v] {
      var o := WalkIsOffered(es, q, f, k, start, w, v);
      assert o == Offer(f[o.edge.src], o.edge);
    }
    LayerIntro(es, q, next, k');
  }

  lemma LayerIntro(es: seq<Edge>, q: Query, f: map<int, real>, k: nat)
    requires forall v | v in f :: exists start, w :: Reaches(es, q, start, w, v, k) && Product(w) == f[v]
    requires forall start, w, v | Reaches(es, q, start, w, v, k) :: v in f && Product(w) <= f[v]
    ensures IsLayer(es, q, f, k)
  {
    hide Reaches, Product;
  }

  lemma BestStep(es: seq<Edge>, q: Query, best: map<int, real>, k: nat, next: map<int, real>, best': map<int, real>)
    requires IsBest(es, q, best, k) && IsLayer(es, q, next, k + 1) && IsMax(best', best, next)
    ensures IsBest(es, q, best', k + 1)
  {
    hide Reaches, Product;
    forall v | v in best'
      ensures exists start, w, j: nat :: j <= k + 1 && Reaches(es, q, start, w, v, j) && Product(w) == best'[v]
    {
      if v in best && best'[v] == best[v] {
        var start, w, j: nat :| j <= k && Reaches(es, q, start, w, v, j) && Product(w) == best[v];
      } else {
        var start, w :| Reaches(es, q, start, w, v, k + 1) && Product(w) == next[v];
      }
    }
    forall start, w, v, j: nat | j <= k + 1 && Reaches(es, q, start, w, v, j)
      ensures v in best' && Product(w) <= best'[v]
    {
      if j <= k {
        assert v in best && Product(w) <= best[v];
      } else {
        LayerBounds(es, q, next, k + 1, start, w, v);
      }
    }
  }

  // Without walks of k edges there are none of more, so the table is final.
  lemma {:induction false} NoLongerWalks(es: seq<Edge>, q: Query, k: nat, start: int, w: seq<Edge>, v: int)
    requires IsLayer(es, q, map[], k) && Reaches(es, q, start, w, v, |w|)
    ensures |w| < k
    decreases |w|
  {
    if |w| == k {
      LayerBounds(es, q, map[], k, start, w, v);
    } else if |w| > k {
      var init := w[..|w| - 1];
      NoLongerWalks(es, q, k, start, init, End(start, init));
    }
  }

  lemma EmptyLayerEnds(es: seq<Edge>, q: Query, best: map<int, real>, k: nat, n: int)
    requires IsLayer(es, q, map[], k) && IsBest(es, q, best, k) && k <= n
    ensures IsBest(es, q, best, n)
  {
    hide Product, IsLayer;
    forall start, w, v, j: nat | j <= n && Reaches(es, q, start, w, v, j) ensures v in best && Product(w) <= best[v] {
      NoLongerWalks(es, q, k, start, w, v);
    }
  }

  // ----- the loops -----

  // Every recorded predecessor is a real allowed edge that accounts for the energy, and
  // seeds that were never improved have none.
  ghost predicate PredOk(es: seq<Edge>, q: Query, best: map<int, real>, pred: map<int, (int, int)>) {
    forall v | v in best :: v in pred && PredOf(es, q, best, v, pred[v])
  }

  ghost predicate PredOf(es: seq<Edge>, q: Query, best: map<int, real>, v: int, p: (int, int))
    requires v in best
  {
    || (p == (-1, 0) && v in q.seeds && best[v] == 1.0)
    || exists e :: e in es && e.src == p.0 && e.kind == p.1 && e.dst == v && MaskAllows(q.mask, e.kind)
                   && e.src in best && best[v] <= best[e.src] * e.weight
  }

  ghost predicate Below(f: map<int, real>, best: map<int, real>) {
    forall v | v in f :: v in best && f[v] <= best[v]
  }

  // What the loops keep while offers are being taken.
  ghost predicate Taking(es: seq<Edge>, q: Query, f: map<int, real>, before: map<int, real>, offers: seq<Offer>,
                         next: map<int, real>, best: map<int, real>, pred: map<int, (int, int)>) {
    && BestOffers(q, offers, next)
    && IsMax(best, before, next)
    && Below(f, best)
    && (forall v | v in best :: -1.0 < best[v])
    && (NonNegative(es) ==> PredOk(es, q, best, pred))
  }

  lemma PredGrows(es: seq<Edge>, q: Query, best: map<int, real>, v: int, p: (int, int), best': map<int, real>)
    requires v in best && v in best' && PredOf(es, q, best, v, p) && best'[v] == best[v]
    requires NonNegative(es) && forall u | u in best :: u in best' && best[u] <= best'[u]
    ensures PredOf(es, q, best', v, p)
  {
    hide MaskAllows;
    if !(p == (-1, 0) && v in q.seeds && best[v] == 1.0) {
      var e :| e in es && e.src == p.0 && e.kind == p.1 && e.dst == v && MaskAllows(q.mask, e.kind)
               && e.src in best && best[v] <= best[e.src] * e.weight;
      MulMonotone(best[e.src], best'[e.src], e.weight);
    }
  }

  lemma OfferAccounts(es: seq<Edge>, q: Query, best: map<int, real>, o: Offer)
    requires NonNegative(es) && o.edge in es && MaskAllows(q.mask, o.edge.kind)
    requires o.edge.src in best && o.energy <= best[o.edge.src]
    requires o.edge.dst in best && best[o.edge.dst] == Out(o)
    ensures PredOf(es, q, best, o.edge.dst, (o.edge.src, o.edge.kind))
  {
    hide MaskAllows;
    MulMonotone(o.energy, best[o.edge.src], o.edge.weight);
  }

  lemma ImprovedPred(es: seq<Edge>, q: Query, best: map<int, real>, pred: map<int, (int, int)>, o: Offer)
    requires NonNegative(es) && PredOk(es, q, best, pred) && o.edge in es && MaskAllows(q.mask, o.edge.kind)
    requires o.edge.src in best && o.energy <= best[o.edge.src]
    requires o.edge.dst in best ==> best[o.edge.dst] < Out(o)
    ensures PredOk(es, q, best[o.edge.dst := Out(o)], pred[o.edge.dst := (o.edge.src, o.edge.kind)])
  {
    hide MaskAllows;
    hide PredOf;
    var best', pred' := best[o.edge.dst := Out(o)], pred[o.edge.dst := (o.edge.src, o.edge.kind)];
    OfferAccounts(es, q, best', o);
    hide Out;
    forall v | v in best' ensures v in pred' && PredOf(es, q, best', v, pred'[v]) {
      if v != o.edge.dst { PredGrows(es, q, best, v, pred[v], best'); }
    }
  }

  method TakeOffer(ghost es: seq<Edge>, q: Query, o: Offer, next: map<int, real>, best: map<int, real>, pred: map<int, (int, int)>,
                   ghost f: map<int, real>, ghost before: map<int, real>, ghost offers: seq<Offer>)
    returns (next': map<int, real>, best': map<int, real>, pred': map<int, (int, int)>)
    requires Taking(es, q, f, before, offers, next, best, pred)
    requires o.edge in es && o.edge.src in f && o.energy == f[o.edge.src]
    ensures Taking(es, q, f, before, offers + [o], next', best', pred')
  {
    hide NonNegative, PredOk, MaskAllows, Out;
    next', best', pred' := next, best, pred;
    if !MaskAllows(q.mask, o.edge.kind) {
      OfferTaken(q, offers, o, next, next);
      return;
    }
    var out := Out(o);
    if out < q.threshold {
      OfferTaken(q, offers, o, next, next);
      return;
    }
    var known := if o.edge.dst in next then next[o.edge.dst] else -1.0;
    if out > known {
      next' := next[o.edge.dst := out];
    }
    var knownBest := if o.edge.dst in best then best[o.edge.dst] else -1.0;
    if out > knownBest {
      best' := best[o.edge.dst := out];
      pred' := pred[o.edge.dst := (o.edge.src, o.edge.kind)];
      if NonNegative(es) && PredOk(es, q, best, pred) { ImprovedPred(es, q, best, pred, o); }
    }
    OfferTaken(q, offers, o, next, next');
  }

  lemma OfferTaken(q: Query, offers: seq<Offer>, o: Offer, next: map<int, real>, next': map<int, real>)
    requires BestOffers(q, offers, next)
    requires var known := if o.edge.dst in next then next[o.edge.dst] else -1.0;
      next' == if MaskAllows(q.mask, o.edge.kind) && q.threshold <= Out(o) && known < Out(o)
               then next[o.edge.dst := Out(o)] else next
    ensures BestOffers(q, offers + [o], next')
  {
    hide MaskAllows, Out;
    forall v | v in next' ensures exists x :: x in offers + [o] && Passes(q, x) && x.edge.dst == v && Out(x) == next'[v] {
      if next' != next && v == o.edge.dst {
        assert o in offers + [o];
      } else {
        var x :| x in offers && Passes(q, x) && x.edge.dst == v && Out(x) == next[v];
        assert x in offers + [o];
      }
    }
  }

  // Offers are exactly the edges out of the frontier nodes visited so far.
  ghost predicate OffersFrom(es: seq<Edge>, f: map<int, real>, keys: seq<int>, offers: seq<Offer>) {
    && (forall o | o in offers :: o.edge in es && o.edge.src in f && o.energy == f[o.edge.src])
    && (forall e | e in es && e.src in keys && e.src in f :: Offer(f[e.src], e) in offers)
  }

  // Expanding one frontier: a turn of the outer loop.
  method ExpandFrontier(g: CsrMmapHotGraph, q: Query, f: map<int, real>, best0: map<int, real>, pred0: map<int, (int, int)>)
    returns (next: map<int, real>, best: map<int, real>, pred: map<int, (int, int)>, ghost offers: seq<Offer>)
    requires g.Valid() && Below(f, best0) && (forall v | v in best0 :: -1.0 < best0[v])
    requires NonNegative(g.source) ==> PredOk(g.source, q, best0, pred0)
    modifies g`sliceLookups, g`nodeRowsRead, g`edgeRecordsRead
    ensures g.Valid()
    ensures OffersOf(g.source, f, offers)
    ensures Taking(g.source, q, f, best0, offers, next, best, pred)
  {
    hide Taking, NonNegative, PredOk, Layout, EdgesOf;
    next, best, pred, offers := map[], best0, pred0, [];
    var keys := SortedKeys(f.Keys);
    NothingTaken(g.source, q, f, best0, pred0);
    for i := 0 to |keys|
      invariant g.Valid()
      invariant OffersFrom(g.source, f, keys[..i], offers)
      invariant Taking(g.source, q, f, best0, offers, next, best, pred)
    {
      var src := keys[i];
      assert src in keys;
      var rows := g.GetEdges(src);
      EdgesOfMembers(g.source, src);
      ghost var start := offers;
      for j := 0 to |rows|
        invariant g.Valid()
        invariant offers == start + Offers(f[src], rows[..j])
        invariant Taking(g.source, q, f, best0, offers, next, best, pred)
      {
        assert rows[j] in rows;
        var o := Offer(f[src], rows[j]);
        next, best, pred := TakeOffer(g.source, q, o, next, best, pred, f, best0, offers);
        OffersSnoc(f[src], rows, j);
        assert start + Offers(f[src], rows[..j + 1]) == offers + [o];
        offers := offers + [o];
      }
      assert rows[..|rows|] == rows;
      SourceOffered(g.source, f, keys, i, rows, start, offers);
    }
    assert keys[..|keys|] == keys;
  }

  function Offers(energy: real, rows: seq<Edge>): (r: seq<Offer>)
    ensures |r| == |rows|
  {
    seq(|rows|, i requires 0 <= i < |rows| => Offer(energy, rows[i]))
  }

  lemma OffersSnoc(energy: real, rows: seq<Edge>, j: nat)
    requires j < |rows|
    ensures Offers(energy, rows[..j + 1]) == Offers(energy, rows[..j]) + [Offer(energy, rows[j])]
  {
  }

  lemma NothingTaken(es: seq<Edge>, q: Query, f: map<int, real>, best: map<int, real>, pred: map<int, (int, int)>)
    requires Below(f, best) && (forall v | v in best :: -1.0 < best[v]) && (NonNegative(es) ==> PredOk(es, q, best, pred))
    ensures Taking(es, q, f, best, [], map[], best, pred)
  {
  }

  lemma SourceOffered(es: seq<Edge>, f: map<int, real>, keys: seq<int>, i: nat, rows: seq<Edge>, start: seq<Offer>, offers: seq<Offer>)
    requires i < |keys| && keys[i] in f && OffersFrom(es, f, keys[..i], start)
    requires forall e :: e in rows <==> e in es && e.src == keys[i]
    requires offers == start + Offers(f[keys[i]], rows)
    ensures OffersFrom(es, f, keys[..i + 1], offers)
  {
    var src := keys[i];
    var more := Offers(f[src], rows);
    forall o | o in offers ensures o.edge in es && o.edge.src in f && o.energy == f[o.edge.src] {
      if o !in start {
        var j :| 0 <= j < |more| && more[j] == o;
        assert rows[j] in rows;
      }
    }
    forall e | e in es && e.src in keys[..i + 1] && e.src in f ensures Offer(f[e.src], e) in offers {
      if e.src == src {
        var j :| 0 <= j < |rows| && rows[j] == e;
        assert more[j] == Offer(f[src], e) && more[j] in more;
      } else {
        assert e.src in keys[..i];
      }
    }
  }

  lemma SeedsAreLayer(es: seq<Edge>, q: Query, f: map<int, real>)
    requires (forall v :: v in f <==> v in q.seeds) && forall v | v in f :: f[v] == 1.0
    ensures IsLayer(es, q, f, 0) && IsBest(es, q, f, 0)
  {
    forall v | v in f ensures Reaches(es, q, v, [], v, 0) && Product([]) == f[v] {}
    hide Walk, StaysAbove;
    forall start, w, v, j: nat | j <= 0 && Reaches(es, q, start, w, v, j) ensures v in f && Product(w) <= f[v] {
      assert w == [];
      SeedWalk(es, q, start);
    }
  }

  lemma SeedWalk(es: seq<Edge>, q: Query, start: int)
    ensures Walk(es, q, start, []) ==> start in q.seeds
  {
  }

  // ----- rows -----

  datatype WaveRow = WaveRow(node: int, energy: real, pred: int, kind: int)

  predicate WaveRowLe(a: WaveRow, b: WaveRow) {
    a.energy > b.energy || (a.energy == b.energy && a.node <= b.node)
  }

  // The full listing the answer is cut from.
  ghost predicate Listing(rows: seq<WaveRow>, q: Query, best: map<int, real>, pred: map<int, (int, int)>) {
    && Sorted(rows, WaveRowLe) && Distinct(rows)
    && forall r :: r in rows <==> r.node in best && q.threshold <= best[r.node] && r.energy == best[r.node]
                                  && (r.pred, r.kind) == if r.node in pred then pred[r.node] else (-1, 0)
  }

  // Where a slice up to k ends; a negative k counts from the end.
  function SliceEnd(k: int, n: nat): (e: nat)
    ensures e <= n
  {
    if k >= n then n else if k >= 0 then k else if n + k >= 0 then n + k else 0
  }

  /** The answer is listed by falling energy, ties by rising node, and cut at topK, counted from the end when
      negative. */
  lemma ListingOrder(rows: seq<WaveRow>, q: Query, best: map<int, real>, pred: map<int, (int, int)>, i: nat, j: nat)
    requires Listing(rows, q, best, pred) && i < j < |rows|
    ensures rows[i].energy > rows[j].energy || (rows[i].energy == rows[j].energy && rows[i].node < rows[j].node)
    ensures q.topK >= 0 ==> SliceEnd(q.topK, |rows|) == Min(q.topK, |rows|)
    ensures q.topK < 0 ==> SliceEnd(q.topK, |rows|) == Max(|rows| + q.topK, 0)
  {
    assert WaveRowLe(rows[i], rows[j]);
    assert rows[i] in rows && rows[j] in rows;
  }

  method WaveActivation(g: CsrMmapHotGraph, q: Query)
    returns (top: seq<WaveRow>, ghost best: map<int, real>, ghost pred: map<int, (int, int)>)
    requires g.Valid()
    modifies g`sliceLookups, g`nodeRowsRead, g`edgeRecordsRead
    ensures g.Valid()
    ensures NonNegative(g.source) ==> IsBest(g.source, q, best, Max(0, q.maxSteps)) && PredOk(g.source, q, best, pred)
    ensures exists rows :: Listing(rows, q, best, pred) && top == rows[..SliceEnd(q.topK, |rows|)]
  {
    hide NonNegative, PredOk, Layout, EdgesOf, IsLayer, IsBest, OffersOf, Listing;
    var frontier: map<int, real> := map v | v in q.seeds :: 1.0;
    var table := frontier;
    var preds: map<int, (int, int)> := map v | v in q.seeds :: (-1, 0);
    SeedsAreLayer(g.source, q, frontier);
    SeedPreds(g.source, q, table, preds);
    var k := 0;
    while k < q.maxSteps
      invariant 0 <= k <= Max(0, q.maxSteps)
      invariant g.Valid() && Below(frontier, table) && forall v | v in table :: -1.0 < table[v]
      invariant NonNegative(g.source) ==> PredOk(g.source, q, table, preds)
      invariant NonNegative(g.source) ==> IsLayer(g.source, q, frontier, k) && IsBest(g.source, q, table, k)
    {
      ghost var f, before := frontier, table;
      ghost var offers;
      frontier, table, preds, offers := ExpandFrontier(g, q, frontier, table, preds);
      if NonNegative(g.source) {
        LayerStep(g.source, q, f, k, offers, frontier);
        BestStep(g.source, q, before, k, frontier, table);
      }
      k := k + 1;
      if frontier == map[] {
        if NonNegative(g.source) { EmptyLayerEnds(g.source, q, table, k, Max(0, q.maxSteps)); }
        break;
      }
    }
    best, pred := table, preds;
    top := Rows(q, table, preds);
  }

  lemma SeedPreds(es: seq<Edge>, q: Query, best: map<int, real>, pred: map<int, (int, int)>)
    requires forall v | v in best :: v in q.seeds && best[v] == 1.0 && v in pred && pred[v] == (-1, 0)
    ensures PredOk(es, q, best, pred)
  {
  }

  method Rows(q: Query, best: map<int, real>, pred: map<int, (int, int)>) returns (top: seq<WaveRow>)
    ensures exists rows :: Listing(rows, q, best, pred) && top == rows[..SliceEnd(q.topK, |rows|)]
  {
    var nodes := Enumerate(best.Keys);
    var rows: seq<WaveRow> := [];
    for i := 0 to |nodes|
      invariant Distinct(rows)
      invariant forall r :: r in rows <==> r.node in nodes[..i] && q.threshold <= best[r.node] && r.energy == best[r.node]
                                           && (r.pred, r.kind) == if r.node in pred then pred[r.node] else (-1, 0)
    {
      var v := nodes[i];
      assert nodes[..i + 1] == nodes[..i] + [v] && v !in nodes[..i];
      if best[v] >= q.threshold {
        var p := if v in pred then pred[v] else (-1, 0);
        rows := rows + [WaveRow(v, best[v], p.0, p.1)];
      }
    }
    assert nodes[..|nodes|] == nodes;
    var all := Sort(rows, WaveRowLe);
    WaveRowOrder();
    SortSorts(rows, WaveRowLe);
    SortDistinct(rows, WaveRowLe);
    assert Listing(all, q, best, pred);
    top := all[..SliceEnd(q.topK, |all|)];
  }

  lemma WaveRowOrder()
    ensures TotalPreorder(WaveRowLe)
  {
  }
}
