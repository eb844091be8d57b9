/** Coalesced payload reads of payload_fetch.py against one read per pointer. */
module PayloadFetch {
  import opened Common
  import opened Layers
  import opened RandomAccess
  import opened Sorting

  datatype Pointer = Pointer(id: int, offset: nat, length: nat)

  datatype Span = Span(offset: nat, length: nat, records: seq<Pointer>)

  datatype PlanError = NegativeGap | EmptySpanLimit

  datatype ReadError = ShortRead

  datatype Fetched = Fetched(payloads: map<int, Bytes>, spanCount: nat, physical: nat, requested: nat)

  function End(p: Pointer): nat {
    p.offset + p.length
  }

  function SpanEnd(s: Span): nat {
    s.offset + s.length
  }

  predicate ByPlace(a: Pointer, b: Pointer) {
    a.offset < b.offset || (a.offset == b.offset && a.id <= b.id)
  }

  function Requested(ps: seq<Pointer>): nat {
    if |ps| == 0 then 0 else Requested(ps[..|ps| - 1]) + ps[|ps| - 1].length
  }

  function Physical(spans: seq<Span>): nat {
    if |spans| == 0 then 0 else Physical(spans[..|spans| - 1]) + spans[|spans| - 1].length
  }

  function Records(spans: seq<Span>): seq<Pointer> {
    if |spans| == 0 then [] else Records(spans[..|spans| - 1]) + spans[|spans| - 1].records
  }

  lemma Snoc(spans: seq<Span>, s: Span)
    ensures Physical(spans + [s]) == Physical(spans) + s.length
    ensures Records(spans + [s]) == Records(spans) + s.records
  {
    assert (spans + [s])[..|spans|] == spans;
  }

  lemma RequestedSnoc(ps: seq<Pointer>, p: Pointer)
    ensures Requested(ps + [p]) == Requested(ps) + p.length
  {
    assert (ps + [p])[..|ps|] == ps;
  }

  lemma {:induction false} RequestedAppend(a: seq<Pointer>, b: seq<Pointer>)
    ensures Requested(a + b) == Requested(a) + Requested(b)
    decreases |b|
  {
    if |b| == 0 {
      assert a + b == a;
    } else {
      RequestedAppend(a, b[..|b| - 1]);
      assert (a + b)[..|a + b| - 1] == a + b[..|b| - 1];
    }
  }

  // ----- the plan -----

  // A span starts at its first record, ends at the furthest end of its records, holds each of
  // them, keeps the size limit unless it has one record, and wastes at most a gap per join.
  ghost predicate Tight(s: Span, gap: nat, limit: nat) {
    && |s.records| > 0 && s.offset == s.records[0].offset
    && (forall i | 0 <= i < |s.records| :: s.offset <= s.records[i].offset && End(s.records[i]) <= SpanEnd(s))
    && (exists i :: 0 <= i < |s.records| && End(s.records[i]) == SpanEnd(s))
    && (|s.records| > 1 ==> s.length <= limit)
    && s.length <= Requested(s.records) + Waste(gap, |s.records|)
    && forall j | 0 < j < |s.records| :: Linked(s.records, j, gap)
  }

  // Record j begins at most a gap past the end of a record before it.
  ghost predicate Linked(records: seq<Pointer>, j: nat, gap: nat)
    requires j < |records|
  {
    exists i | 0 <= i < j :: records[j].offset <= End(records[i]) + gap
  }

  function Waste(gap: nat, records: nat): nat {
    if records == 0 then 0 else gap * (records - 1)
  }

  // Whether the planner puts p into the span ending at end.
  predicate CanJoin(offset: nat, end: nat, p: Pointer, gap: nat, limit: nat) {
    p.offset - end <= gap && Max(end, End(p)) - offset <= limit
  }

  // A span that is followed by another could not have taken its first record.
  ghost predicate Separate(spans: seq<Span>, gap: nat, limit: nat) {
    forall i | 0 < i < |spans| ::
      |spans[i].records| > 0 && !CanJoin(spans[i - 1].offset, SpanEnd(spans[i - 1]), spans[i].records[0], gap, limit)
  }

  ghost predicate Planned(spans: seq<Span>, sorted: seq<Pointer>, gap: nat, limit: nat) {
    && Records(spans) == sorted && Separate(spans, gap, limit)
    && forall i | 0 <= i < |spans| :: Tight(spans[i], gap, limit)
  }

  lemma Joined(s: Span, p: Pointer, gap: nat, limit: nat)
    requires Tight(s, gap, limit) && CanJoin(s.offset, SpanEnd(s), p, gap, limit) && s.offset <= p.offset
    ensures Tight(Span(s.offset, Max(SpanEnd(s), End(p)) - s.offset, s.records + [p]), gap, limit)
  {
    var t := Span(s.offset, Max(SpanEnd(s), End(p)) - s.offset, s.records + [p]);
    RequestedSnoc(s.records, p);
    WasteNext(gap, |s.records|);
    hide Requested, Waste;
    var w :| 0 <= w < |s.records| && End(s.records[w]) == SpanEnd(s);
    assert t.records[w] == s.records[w] && t.records[|s.records|] == p;
    assert End(t.records[if SpanEnd(s) < End(p) then |s.records| else w]) == SpanEnd(t);
    forall j | 0 < j < |t.records| ensures Linked(t.records, j, gap) {
      if j < |s.records| {
        assert Linked(s.records, j, gap);
        var i :| 0 <= i < j && s.records[j].offset <= End(s.records[i]) + gap;
        assert t.records[i] == s.records[i];
      } else {
        assert t.records[j].offset <= End(t.records[w]) + gap;
      }
    }
  }

  lemma WasteNext(gap: nat, n: nat)
    requires n > 0
    ensures Waste(gap, n + 1) == Waste(gap, n) + gap
  {
  }

  lemma Started(p: Pointer, gap: nat, limit: nat)
    ensures Tight(Span(p.offset, p.length, [p]), gap, limit)
  {
    RequestedSnoc([], p);
    assert [] + [p] == [p];
    var s := Span(p.offset, p.length, [p]);
    assert End(s.records[0]) == SpanEnd(s);
  }

  /** build_coalesced_fetch_plan. */
  method BuildPlan(pointers: seq<Pointer>, gap: int, limit: int) returns (r: Result<seq<Span>, PlanError>)
    ensures r.Err? <==> gap < 0 || limit <= 0
    ensures r.Ok? ==> Planned(r.value, Sort(pointers, ByPlace), gap, limit)
  {
    hide Tight, CanJoin, Records, Sort;
    if gap < 0 {
      return Err(NegativeGap);
    }
    if limit <= 0 {
      return Err(EmptySpanLimit);
    }
    NoSpans();
    if |pointers| == 0 {
      NothingSorted(pointers);
      return Ok([]);
    }
    var sorted := Sort(pointers, ByPlace);
    PlaceIsOrder();
    SortSorts(pointers, ByPlace);
    var spans: seq<Span> := [];
    var cur := Span(sorted[0].offset, sorted[0].length, [sorted[0]]);
    Started(sorted[0], gap, limit);
    for i := 1 to |sorted|
      invariant |cur.records| > 0 && Records(spans) + cur.records == sorted[..i]
      invariant Tight(cur, gap, limit) && cur.offset <= sorted[i - 1].offset
      invariant forall j | 0 <= j < |spans| :: Tight(spans[j], gap, limit)
      invariant Separate(spans + [cur], gap, limit)
    {
      var p := sorted[i];
      assert ByPlace(sorted[i - 1], p);
      assert sorted[..i + 1] == sorted[..i] + [p];
      if CanJoin(cur.offset, SpanEnd(cur), p, gap, limit) {
        Joined(cur, p, gap, limit);
        var joined := Span(cur.offset, Max(SpanEnd(cur), End(p)) - cur.offset, cur.records + [p]);
        LastGrows(spans, cur, joined, gap, limit);
        assert Records(spans) + joined.records == Records(spans) + cur.records + [p];
        cur := joined;
      } else {
        Started(p, gap, limit);
        var next := Span(p.offset, p.length, [p]);
        Snoc(spans, cur);
        OneMore(spans + [cur], next, gap, limit);
        spans := spans + [cur];
        cur := next;
      }
    }
    assert sorted[..|sorted|] == sorted;
    Snoc(spans, cur);
    return Ok(spans + [cur]);
  }

  lemma NoSpans()
    ensures Records([]) == []
  {
  }

  lemma NothingSorted(pointers: seq<Pointer>)
    requires |pointers| == 0
    ensures Sort(pointers, ByPlace) == []
  {
  }

  lemma PlaceIsOrder()
    ensures TotalPreorder(ByPlace)
  {
  }

  lemma LastGrows(spans: seq<Span>, cur: Span, next: Span, gap: nat, limit: nat)
    requires Separate(spans + [cur], gap, limit) && |cur.records| > 0 && |next.records| > 0
    requires next.records[0] == cur.records[0] && next.offset == cur.offset
    ensures Separate(spans + [next], gap, limit)
  {
    hide CanJoin;
    var a, b := spans + [cur], spans + [next];
    forall i | 0 < i < |b|
      ensures |b[i].records| > 0 && !CanJoin(b[i - 1].offset, SpanEnd(b[i - 1]), b[i].records[0], gap, limit)
    {
      assert !CanJoin(a[i - 1].offset, SpanEnd(a[i - 1]), a[i].records[0], gap, limit);
    }
  }

  lemma OneMore(spans: seq<Span>, next: Span, gap: nat, limit: nat)
    requires |spans| > 0 && Separate(spans, gap, limit) && |next.records| > 0
    requires var last := spans[|spans| - 1]; !CanJoin(last.offset, SpanEnd(last), next.records[0], gap, limit)
    ensures Separate(spans + [next], gap, limit)
  {
    hide CanJoin;
    var b := spans + [next];
    forall i | 0 < i < |b|
      ensures |b[i].records| > 0 && !CanJoin(b[i - 1].offset, SpanEnd(b[i - 1]), b[i].records[0], gap, limit)
    {
      if i < |spans| {
        assert !CanJoin(spans[i - 1].offset, SpanEnd(spans[i - 1]), spans[i].records[0], gap, limit);
      }
    }
  }

  /** The order and the limits of a plan in numbers: pointers by offset and then id; a record is joined only when it
      begins at most a gap past those before it and the span stays within the limit; and a new span is begun only
      when its first record lies further off or would make the span before too long. */
  lemma PlanLimits(spans: seq<Span>, pointers: seq<Pointer>, gap: nat, limit: nat)
    requires Planned(spans, Sort(pointers, ByPlace), gap, limit)
    ensures var all := Records(spans);
      forall i, j | 0 <= i < j < |all| ::
        all[i].offset < all[j].offset || (all[i].offset == all[j].offset && all[i].id <= all[j].id)
    ensures forall n, j | 0 <= n < |spans| && 0 < j < |spans[n].records| ::
      && spans[n].length <= limit
      && exists i | 0 <= i < j :: spans[n].records[j].offset <= spans[n].records[i].offset + spans[n].records[i].length + gap
    ensures forall n | 0 < n < |spans| ::
      var before, p := spans[n - 1], spans[n].records[0];
      || before.offset + before.length + gap < p.offset
      || before.length > limit || p.offset + p.length - before.offset > limit
  {
    PlaceIsOrder();
    SortSorts(pointers, ByPlace);
    var all := Records(spans);
    hide Records, Sort;
    forall i, j | 0 <= i < j < |all|
      ensures all[i].offset < all[j].offset || (all[i].offset == all[j].offset && all[i].id <= all[j].id)
    {
      assert ByPlace(all[i], all[j]);
    }
    forall n, j | 0 <= n < |spans| && 0 < j < |spans[n].records|
      ensures spans[n].length <= limit
      ensures exists i | 0 <= i < j :: spans[n].records[j].offset <= spans[n].records[i].offset + spans[n].records[i].length + gap
    {
      assert Tight(spans[n], gap, limit) && Linked(spans[n].records, j, gap);
      var i :| 0 <= i < j && spans[n].records[j].offset <= End(spans[n].records[i]) + gap;
    }
  }

  /** Every pointer lies in the plan exactly as often as it was asked for. */
  lemma PlanKeepsPointers(spans: seq<Span>, pointers: seq<Pointer>, gap: nat, limit: nat)
    requires Planned(spans, Sort(pointers, ByPlace), gap, limit)
    ensures multiset(Records(spans)) == multiset(pointers)
    ensures Requested(Records(spans)) == Requested(pointers)
  {
    SortPermutes(pointers, ByPlace);
    RequestedPermuted(Records(spans), pointers);
  }

  lemma {:induction false} RequestedPermuted(a: seq<Pointer>, b: seq<Pointer>)
    requires multiset(a) == multiset(b)
    ensures Requested(a) == Requested(b)
    decreases |b|
  {
    if |b| == 0 {
      assert |a| == |multiset(a)| == 0;
    } else {
      hide Requested;
      var n := |b| - 1;
      assert b[n] in multiset(b) && b[n] in a;
      var i :| 0 <= i < |a| && a[i] == b[n];
      WithoutOne(a, i);
      WithoutOne(b, n);
      RequestedPermuted(a[..i] + a[i + 1..], b[..n] + b[n + 1..]);
      RequestedWithout(a, i);
      RequestedWithout(b, n);
    }
  }

  lemma WithoutOne(a: seq<Pointer>, i: nat)
    requires i < |a|
    ensures multiset(a[..i] + a[i + 1..]) == multiset(a) - multiset{a[i]}
  {
    assert a == a[..i] + ([a[i]] + a[i + 1..]);
  }

  lemma AroundOne(a: seq<Pointer>, i: nat)
    requires i < |a|
    ensures a == (a[..i] + [a[i]]) + a[i + 1..]
  {
  }

  lemma RequestedWithout(a: seq<Pointer>, i: nat)
    requires i < |a|
    ensures Requested(a) == Requested(a[..i] + a[i + 1..]) + a[i].length
  {
    hide Requested;
    var front, back := a[..i], a[i + 1..];
    AroundOne(a, i);
    RequestedSnoc(front, a[i]);
    RequestedAppend(front + [a[i]], back);
    RequestedAppend(front, back);
  }

  /** The plan reads at most what was asked for and one gap for every pointer it joined. */
  lemma {:induction false} PlanCost(spans: seq<Span>, gap: nat, limit: nat)
    requires forall i | 0 <= i < |spans| :: Tight(spans[i], gap, limit)
    ensures |spans| <= |Records(spans)|
    ensures Physical(spans) <= Requested(Records(spans)) + Times(gap, |Records(spans)| - |spans|)
  {
    hide Requested, Tight, Times;
    NoTimes(gap);
    if |spans| > 0 {
      var init, s := spans[..|spans| - 1], spans[|spans| - 1];
      PlanCost(init, gap, limit);
      RequestedAppend(Records(init), s.records);
      SpanCost(s, gap, limit);
      Distribute(gap, |Records(init)| - |init|, |s.records| - 1);
    }
  }

  lemma Distribute(g: int, a: int, b: int)
    ensures Times(g, a) + Times(g, b) == Times(g, a + b)
  {
  }

  lemma NoTimes(g: int)
    ensures Times(g, 0) == 0
  {
  }

  function Times(g: int, n: int): int {
    g * n
  }

  lemma SpanCost(s: Span, gap: nat, limit: nat)
    requires Tight(s, gap, limit)
    ensures |s.records| > 0 && s.length <= Requested(s.records) + Times(gap, |s.records| - 1)
  {
  }

  // ----- reading -----

  // block[lo:hi], negative bounds counting from the end.
  function Bound(i: int, n: nat): nat {
    if i < 0 then Max(0, i + n) else Min(i, n)
  }

  function Slice(b: Bytes, lo: int, hi: int): Bytes {
    var l, h := Bound(lo, |b|), Bound(hi, |b|);
    if l < h then b[l..h] else []
  }

  /** Slices as Python takes them: a bound k from the end is |b| - k, and bounds beyond either end stop there. */
  lemma SliceEnds(b: Bytes, lo: nat, hi: nat, k: int)
    ensures lo <= hi <= |b| ==> Slice(b, lo, hi) == b[lo..hi]
    ensures hi >= |b| && lo <= |b| ==> Slice(b, lo, hi) == b[lo..]
    ensures lo >= hi || lo >= |b| ==> Slice(b, lo, hi) == []
    ensures 0 < k <= |b| ==> Slice(b, -k, |b|) == b[|b| - k..]
    ensures 0 < k <= |b| && lo <= |b| - k ==> Slice(b, lo, -k) == b[lo..|b| - k]
    ensures k >= |b| && hi <= |b| && k > 0 ==> Slice(b, -k, hi) == b[..hi]
  {
  }

  function NaiveWrites(store: Bytes, ps: seq<Pointer>): seq<Write<Bytes>> {
    seq(|ps|, i requires 0 <= i < |ps| => Write(ps[i].id, ReadAt(store, ps[i].offset, ps[i].length)))
  }

  lemma NaiveWritesSnoc(store: Bytes, ps: seq<Pointer>, p: Pointer)
    ensures NaiveWrites(store, ps + [p]) == NaiveWrites(store, ps) + [Write(p.id, ReadAt(store, p.offset, p.length))]
  {
  }

  ghost predicate AllReadable(store: Bytes, ps: seq<Pointer>) {
    forall i | 0 <= i < |ps| :: Readable(store, ps[i].offset, ps[i].length)
  }

  method NaiveFetch(store: Bytes, pointers: seq<Pointer>) returns (r: Result<Fetched, ReadError>)
    ensures r.Ok? <==> AllReadable(store, pointers)
    ensures r.Ok? ==> r.value == Fetched(LastWriter(NaiveWrites(store, pointers)), |pointers|, Requested(pointers), Requested(pointers))
  {
    hide LastWriter, ReadAt, NaiveWrites, Requested;
    var payloads: map<int, Bytes> := map[];
    var requested, physical := 0, 0;
    Nothing(store);
    assert pointers[..0] == [];
    for i := 0 to |pointers|
      invariant AllReadable(store, pointers[..i])
      invariant payloads == LastWriter(NaiveWrites(store, pointers[..i]))
      invariant requested == physical == Requested(pointers[..i])
    {
      var p := pointers[i];
      var data := ReadAt(store, p.offset, p.length);
      ReadableIff(store, p.offset, p.length);
      if |data| != p.length {
        return Err(ShortRead);
      }
      assert pointers[..i + 1] == pointers[..i] + [p];
      NaiveWritesSnoc(store, pointers[..i], p);
      LastWriterSnoc(NaiveWrites(store, pointers[..i]), Write(p.id, data));
      RequestedSnoc(pointers[..i], p);
      payloads := payloads[p.id := data];
      requested, physical := requested + p.length, physical + p.length;
    }
    assert pointers[..|pointers|] == pointers;
    return Ok(Fetched(payloads, |pointers|, physical, requested));
  }

  lemma Nothing(store: Bytes)
    ensures LastWriter(NaiveWrites(store, [])) == map[] && Requested([]) == 0 && Physical([]) == 0 && Records([]) == []
  {
  }

  // What the coalesced reader makes of a record in a block: a slice, or nothing if it is short.
  function Cut(block: Bytes, s: Span, p: Pointer): Option<Bytes> {
    var data := Slice(block, p.offset - s.offset, p.offset - s.offset + p.length);
    if |data| == p.length then Some(data) else None
  }

  ghost predicate SpanReads(store: Bytes, s: Span) {
    && Readable(store, s.offset, s.length)
    && forall i | 0 <= i < |s.records| :: Cut(ReadAt(store, s.offset, s.length), s, s.records[i]).Some?
  }

  function CutWrites(block: Bytes, s: Span, n: nat): seq<Write<Bytes>>
    requires n <= |s.records|
    requires forall i | 0 <= i < n :: Cut(block, s, s.records[i]).Some?
  {
    seq(n, i requires 0 <= i < n => Write(s.records[i].id, Cut(block, s, s.records[i]).value))
  }

  ghost function SpanWrites(store: Bytes, spans: seq<Span>): seq<Write<Bytes>>
    requires forall i | 0 <= i < |spans| :: SpanReads(store, spans[i])
  {
    if |spans| == 0 then []
    else
      var s := spans[|spans| - 1];
      assert SpanReads(store, s);
      SpanWrites(store, spans[..|spans| - 1]) + CutWrites(ReadAt(store, s.offset, s.length), s, |s.records|)
  }

  lemma SpanWritesSnoc(store: Bytes, spans: seq<Span>, s: Span)
    requires (forall i | 0 <= i < |spans| :: SpanReads(store, spans[i])) && SpanReads(store, s)
    ensures forall i | 0 <= i < |spans + [s]| :: SpanReads(store, (spans + [s])[i])
    ensures SpanWrites(store, spans + [s]) ==
      SpanWrites(store, spans) + CutWrites(ReadAt(store, s.offset, s.length), s, |s.records|)
  {
    hide SpanReads, CutWrites;
    assert (spans + [s])[..|spans|] == spans;
  }

  lemma CutWritesNext(block: Bytes, s: Span, n: nat)
    requires n < |s.records|
    requires forall i | 0 <= i < n + 1 :: Cut(block, s, s.records[i]).Some?
    ensures CutWrites(block, s, n + 1) == CutWrites(block, s, n) + [Write(s.records[n].id, Cut(block, s, s.records[n]).value)]
  {
  }

  /** coalesced_fetch_payloads, for any list of spans. */
  method CoalescedFetch(store: Bytes, spans: seq<Span>) returns (r: Result<Fetched, ReadError>)
    ensures r.Ok? <==> forall i | 0 <= i < |spans| :: SpanReads(store, spans[i])
    ensures r.Ok? ==>
      r.value == Fetched(LastWriter(SpanWrites(store, spans)), |spans|, Physical(spans), Requested(Records(spans)))
  {
    hide LastWriter, ReadAt, Cut, CutWrites, Requested, Physical, Records, SpanWrites;
    var payloads: map<int, Bytes> := map[];
    var requested, physical := 0, 0;
    Nothing(store);
    NoSpanWrites(store);
    assert spans[..0] == [];
    for n := 0 to |spans|
      invariant forall i | 0 <= i < n :: SpanReads(store, spans[i])
      invariant payloads == LastWriter(SpanWrites(store, spans[..n]))
      invariant physical == Physical(spans[..n]) && requested == Requested(Records(spans[..n]))
    {
      var s := spans[n];
      var block := ReadAt(store, s.offset, s.length);
      ReadableIff(store, s.offset, s.length);
      if |block| != s.length {
        return Err(ShortRead);
      }
      var cut := CutRecords(block, s, payloads, requested);
      if cut.Err? {
        return Err(cut.error);
      }
      var before := SpanWrites(store, spans[..n]);
      assert spans[..n + 1] == spans[..n] + [s];
      SpanWritesSnoc(store, spans[..n], s);
      LastWriterAppend(before, CutWrites(block, s, |s.records|));
      Snoc(spans[..n], s);
      RequestedAppend(Records(spans[..n]), s.records);
      payloads, requested := cut.value.0, cut.value.1;
      physical := physical + s.length;
    }
    assert spans[..|spans|] == spans;
    return Ok(Fetched(payloads, |spans|, physical, requested));
  }

  lemma NoSpanWrites(store: Bytes)
    ensures SpanWrites(store, []) == [] && LastWriter<Bytes>([]) == map[]
  {
  }

  // The inner loop: slices of one block.
  method CutRecords(block: Bytes, s: Span, payloads: map<int, Bytes>, requested: nat)
    returns (r: Result<(map<int, Bytes>, nat), ReadError>)
    ensures r.Ok? <==> forall i | 0 <= i < |s.records| :: Cut(block, s, s.records[i]).Some?
    ensures r.Ok? ==> r.value == (payloads + LastWriter(CutWrites(block, s, |s.records|)), requested + Requested(s.records))
  {
    hide LastWriter, Slice, CutWrites, Requested;
    var out, sum := payloads, requested;
    NoCutWrites(block, s, payloads);
    assert s.records[..0] == [];
    for i := 0 to |s.records|
      invariant forall j | 0 <= j < i :: Cut(block, s, s.records[j]).Some?
      invariant out == payloads + LastWriter(CutWrites(block, s, i))
      invariant sum == requested + Requested(s.records[..i])
    {
      var p := s.records[i];
      var rel := p.offset - s.offset;
      var data := Slice(block, rel, rel + p.length);
      if |data| != p.length {
        return Err(ShortRead);
      }
      CutWritesNext(block, s, i);
      LastWriterSnoc(CutWrites(block, s, i), Write(p.id, data));
      assert s.records[..i + 1] == s.records[..i] + [p];
      RequestedSnoc(s.records[..i], p);
      out, sum := out[p.id := data], sum + p.length;
    }
    assert s.records[..|s.records|] == s.records;
    return Ok((out, sum));
  }

  lemma NoCutWrites(block: Bytes, s: Span, m: map<int, Bytes>)
    ensures LastWriter(CutWrites(block, s, 0)) == map[] && m + map[] == m && Requested([]) == 0
  {
  }

  // ----- the coalesced reader agrees with the naive one -----

  lemma CutIsRead(store: Bytes, s: Span, p: Pointer)
    requires Readable(store, s.offset, s.length) && s.offset <= p.offset && End(p) <= SpanEnd(s)
    ensures Cut(ReadAt(store, s.offset, s.length), s, p) == Some(ReadAt(store, p.offset, p.length))
    ensures Readable(store, p.offset, p.length)
  {
    hide ReadAt;
    ReadableIff(store, s.offset, s.length);
    ReadableIff(store, p.offset, p.length);
    var block := ReadAt(store, s.offset, s.length);
    var rel := p.offset - s.offset;
    if p.length > 0 {
      assert Slice(block, rel, rel + p.length) == block[rel..rel + p.length];
      SliceOfSlice(store, s.offset, SpanEnd(s), rel, rel + p.length);
    } else {
      assert Slice(block, rel, rel) == [];
      assert ReadAt(store, p.offset, 0) == [];
    }
  }

  lemma TightReads(store: Bytes, s: Span, gap: nat, limit: nat)
    requires Tight(s, gap, limit)
    ensures SpanReads(store, s) <==> Readable(store, s.offset, s.length)
    ensures Readable(store, s.offset, s.length) ==>
      && AllReadable(store, s.records)
      && CutWrites(ReadAt(store, s.offset, s.length), s, |s.records|) == NaiveWrites(store, s.records)
  {
    hide ReadAt, Cut, Readable;
    if Readable(store, s.offset, s.length) {
      forall i | 0 <= i < |s.records|
        ensures Cut(ReadAt(store, s.offset, s.length), s, s.records[i]) ==
                Some(ReadAt(store, s.records[i].offset, s.records[i].length))
        ensures Readable(store, s.records[i].offset, s.records[i].length)
      {
        CutIsRead(store, s, s.records[i]);
      }
    }
  }

  lemma {:induction false} SpansRead(store: Bytes, spans: seq<Span>, gap: nat, limit: nat)
    requires forall i | 0 <= i < |spans| :: Tight(spans[i], gap, limit)
    requires forall i | 0 <= i < |spans| :: SpanReads(store, spans[i])
    ensures AllReadable(store, Records(spans))
    ensures SpanWrites(store, spans) == NaiveWrites(store, Records(spans))
  {
    hide Tight, SpanReads, CutWrites, ReadAt, Readable;
    if |spans| > 0 {
      var init, s := spans[..|spans| - 1], spans[|spans| - 1];
      SpansRead(store, init, gap, limit);
      TightReads(store, s, gap, limit);
    }
  }

  // A record id names one pointer.
  ghost predicate IdsDecide(ps: seq<Pointer>) {
    forall i, j | 0 <= i < |ps| && 0 <= j < |ps| && ps[i].id == ps[j].id :: ps[i] == ps[j]
  }

  /** Whenever the coalesced read of a plan succeeds, the naive read succeeds, asks for the same
      bytes, and, when an id names one pointer, returns the same payloads. */
  lemma CoalescedAgrees(store: Bytes, pointers: seq<Pointer>, spans: seq<Span>, gap: nat, limit: nat)
    requires Planned(spans, Sort(pointers, ByPlace), gap, limit)
    requires forall i | 0 <= i < |spans| :: SpanReads(store, spans[i])
    ensures AllReadable(store, pointers) && Requested(Records(spans)) == Requested(pointers)
    ensures IdsDecide(pointers) ==> LastWriter(SpanWrites(store, spans)) == LastWriter(NaiveWrites(store, pointers))
  {
    hide Tight, SpanReads, Sort, ReadAt, Readable, Requested, Separate;
    SpansRead(store, spans, gap, limit);
    PlanKeepsPointers(spans, pointers, gap, limit);
    var sorted := Records(spans);
    forall i | 0 <= i < |pointers| ensures Readable(store, pointers[i].offset, pointers[i].length) {
      assert pointers[i] in multiset(pointers) && pointers[i] in sorted;
    }
    if IdsDecide(pointers) {
      SameMembers(store, sorted, pointers);
    }
  }

  lemma SameMembers(store: Bytes, a: seq<Pointer>, b: seq<Pointer>)
    requires multiset(a) == multiset(b) && IdsDecide(b)
    ensures LastWriter(NaiveWrites(store, a)) == LastWriter(NaiveWrites(store, b))
  {
    hide ReadAt;
    forall p ensures p in a <==> p in b { assert p in multiset(a) <==> p in multiset(b); }
    forall k
      ensures k in LastWriter(NaiveWrites(store, a)) <==> k in LastWriter(NaiveWrites(store, b))
      ensures k in LastWriter(NaiveWrites(store, a)) ==>
        LastWriter(NaiveWrites(store, a))[k] == LastWriter(NaiveWrites(store, b))[k]
    {
      Fetches(store, a, k);
      Fetches(store, b, k);
    }
  }

  // An id is fetched iff some pointer carries it, and then it holds the bytes of such a pointer.
  lemma {:induction false} Fetches(store: Bytes, ps: seq<Pointer>, k: int)
    ensures k in LastWriter(NaiveWrites(store, ps)) <==> exists p :: p in ps && p.id == k
    ensures k in LastWriter(NaiveWrites(store, ps)) ==>
      exists p :: p in ps && p.id == k && LastWriter(NaiveWrites(store, ps))[k] == ReadAt(store, p.offset, p.length)
  {
    hide ReadAt;
    if |ps| > 0 {
      var init, p := ps[..|ps| - 1], ps[|ps| - 1];
      assert ps == init + [p];
      Fetches(store, init, k);
      NaiveWritesSnoc(store, init, p);
      LastWriterSnoc(NaiveWrites(store, init), Write(p.id, ReadAt(store, p.offset, p.length)));
      assert p in ps && forall q | q in init :: q in ps;
    }
  }

  lemma {:induction false} RecordsMember(spans: seq<Span>, i: nat, j: nat)
    requires i < |spans| && j < |spans[i].records|
    ensures spans[i].records[j] in Records(spans)
    decreases |spans|
  {
    if i < |spans| - 1 { RecordsMember(spans[..|spans| - 1], i, j); }
  }

  /** When the naive read succeeds, the coalesced one succeeds iff no span of positive length
      reaches past the end of the store; in particular whenever every pointer starts inside it. */
  lemma CoalescedSucceedsIff(store: Bytes, pointers: seq<Pointer>, spans: seq<Span>, gap: nat, limit: nat)
    requires Planned(spans, Sort(pointers, ByPlace), gap, limit) && AllReadable(store, pointers)
    ensures (forall i | 0 <= i < |spans| :: SpanReads(store, spans[i])) <==>
      (forall i | 0 <= i < |spans| && spans[i].length > 0 :: SpanEnd(spans[i]) <= |store|)
    ensures (forall i | 0 <= i < |pointers| :: pointers[i].length > 0 || pointers[i].offset <= |store|) ==>
      forall i | 0 <= i < |spans| :: SpanReads(store, spans[i])
  {
    hide Sort, Separate, SpanReads, Requested, Tight, Records, Readable;
    PlanKeepsPointers(spans, pointers, gap, limit);
    forall i | 0 <= i < |spans|
      ensures SpanReads(store, spans[i]) <==> (spans[i].length > 0 ==> SpanEnd(spans[i]) <= |store|)
      ensures (forall j | 0 <= j < |pointers| :: pointers[j].length > 0 || pointers[j].offset <= |store|) ==>
        SpanReads(store, spans[i])
    {
      SpanSucceeds(store, pointers, spans[i], gap, limit) by {
        forall j | 0 <= j < |spans[i].records| ensures spans[i].records[j] in pointers {
          RecordsMember(spans, i, j);
          assert spans[i].records[j] in multiset(Records(spans));
        }
      }
    }
  }

  lemma SpanSucceeds(store: Bytes, pointers: seq<Pointer>, s: Span, gap: nat, limit: nat)
    requires Tight(s, gap, limit) && AllReadable(store, pointers)
    requires forall j | 0 <= j < |s.records| :: s.records[j] in pointers
    ensures SpanReads(store, s) <==> (s.length > 0 ==> SpanEnd(s) <= |store|)
    ensures (forall j | 0 <= j < |pointers| :: pointers[j].length > 0 || pointers[j].offset <= |store|) ==> SpanReads(store, s)
  {
    hide SpanReads, Requested, Waste;
    TightReads(store, s, gap, limit);
    var w :| 0 <= w < |s.records| && End(s.records[w]) == SpanEnd(s);
    assert s.records[w] in pointers;
  }

  lemma TwoInOrder(a: Pointer, b: Pointer)
    requires ByPlace(a, b)
    ensures Sort([a, b], ByPlace) == [a, b]
  {
    hide ByPlace;
    assert [b][1..] == [] && [a, b][1..] == [b];
    assert Sort([b], ByPlace) == [b];
    assert [a] + [b] == [a, b];
  }

  lemma OneSpan(s: Span, gap: nat, limit: nat)
    requires Tight(s, gap, limit)
    ensures Planned([s], s.records, gap, limit)
  {
    hide Tight;
    Snoc([], s);
    NoSpans();
    assert [] + [s] == [s] && [] + s.records == s.records;
  }

  /** An empty record past the end of the store, close enough to join: the naive read returns it,
      the coalesced read of the plan fails. */
  lemma EmptyRecordPastEnd(store: Bytes)
    requires |store| == 10
    ensures var pointers := [Pointer(1, 0, 10), Pointer(2, 12, 0)];
      var s := Span(0, 12, pointers);
      Planned([s], Sort(pointers, ByPlace), 256, 65536) && AllReadable(store, pointers) && !SpanReads(store, s)
  {
    hide Tight, Sort, Planned;
    var a, b := Pointer(1, 0, 10), Pointer(2, 12, 0);
    TwoInOrder(a, b);
    Started(a, 256, 65536);
    Joined(Span(0, 10, [a]), b, 256, 65536);
    assert [a] + [b] == [a, b];
    OneSpan(Span(0, 12, [a, b]), 256, 65536);
  }
}
