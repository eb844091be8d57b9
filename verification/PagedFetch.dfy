/** Coalesced reads over page-store pointers (page_size_benchmark.py), against one positioned
    read per pointer. */
module PagedFetch {
  import opened Common
  import opened LittleEndian
  import opened RandomAccess
  import opened Sorting

  datatype Pointer = Pointer(id: int, pageSize: nat, pageId: nat, pageOffset: nat, absolute: nat, payloadLength: nat, stored: nat)

  datatype Range = Range(start: nat, length: nat, indices: seq<nat>)

  datatype Error = ShortRead | BadLengthField | LengthMismatch

  function End(p: Pointer): nat {
    p.absolute + p.stored
  }

  function RangeEnd(r: Range): nat {
    r.start + r.length
  }

  // What a stored record of known payload length unpacks to.
  function Unpack(raw: Bytes, p: Pointer): Result<Bytes, Error> {
    if |raw| < 4 then Err(BadLengthField)
    else if FromLE(raw[..4]) != p.payloadLength then Err(LengthMismatch)
    else Ok(raw[4..])
  }

  /** read_payload_by_pointer. */
  function ReadPayload(file: Bytes, p: Pointer): Result<Bytes, Error> {
    var raw := ReadAt(file, p.absolute, p.stored);
    if |raw| != p.stored then Err(ShortRead) else Unpack(raw, p)
  }

  // ----- the plan -----

  // A pointer with its place in the request.
  datatype Asked = Asked(index: nat, pointer: Pointer)

  predicate ByPlace(a: Asked, b: Asked) {
    a.pointer.absolute < b.pointer.absolute
    || (a.pointer.absolute == b.pointer.absolute && a.pointer.stored <= b.pointer.stored)
  }

  function Enumerated(pointers: seq<Pointer>): seq<Asked> {
    seq(|pointers|, i requires 0 <= i < |pointers| => Asked(i, pointers[i]))
  }

  function Indices(asked: seq<Asked>): seq<nat> {
    seq(|asked|, i requires 0 <= i < |asked| => asked[i].index)
  }

  function AllIndices(ranges: seq<Range>): seq<nat> {
    if |ranges| == 0 then [] else AllIndices(ranges[..|ranges| - 1]) + ranges[|ranges| - 1].indices
  }

  lemma AllIndicesSnoc(ranges: seq<Range>, r: Range)
    ensures AllIndices(ranges + [r]) == AllIndices(ranges) + r.indices
  {
    assert (ranges + [r])[..|ranges|] == ranges;
  }

  ghost predicate Within(r: Range, pointers: seq<Pointer>, k: nat) {
    k < |pointers| && r.start <= pointers[k].absolute && End(pointers[k]) <= RangeEnd(r)
  }

  // The j-th pointer of a range has the page size of the first, and starts at most a gap past one before it.
  ghost predicate Linked(indices: seq<nat>, pointers: seq<Pointer>, j: nat, gap: int) {
    && j < |indices| && (forall i | 0 <= i <= j :: indices[i] < |pointers|)
    && pointers[indices[j]].pageSize == pointers[indices[0]].pageSize
    && exists i | 0 <= i < j :: pointers[indices[j]].absolute <= End(pointers[indices[i]]) + gap
  }

  // A range starts at its first pointer, ends at the furthest end of its pointers and holds them all, and no
  // pointer that is too far off or of another page size.
  ghost predicate Tight(r: Range, pointers: seq<Pointer>, gap: int) {
    && (forall j | 0 < j < |r.indices| :: Linked(r.indices, pointers, j, gap))
    && |r.indices| > 0 && (forall j | 0 <= j < |r.indices| :: Within(r, pointers, r.indices[j]))
    && r.start == pointers[r.indices[0]].absolute
    && exists j :: 0 <= j < |r.indices| && End(pointers[r.indices[j]]) == RangeEnd(r)
  }

  // The page size of a range, that of its first pointer.
  function PageSizeOf(r: Range, pointers: seq<Pointer>): nat {
    if |r.indices| > 0 && r.indices[0] < |pointers| then pointers[r.indices[0]].pageSize else 0
  }

  // Neighbouring ranges of one page size lie more than a gap apart.
  ghost predicate Apart(ranges: seq<Range>, pointers: seq<Pointer>, gap: int) {
    forall i | 0 < i < |ranges| :: AfterGap(ranges[i - 1], ranges[i], pointers, gap)
  }

  predicate AfterGap(r: Range, s: Range, pointers: seq<Pointer>, gap: int) {
    PageSizeOf(s, pointers) == PageSizeOf(r, pointers) ==> s.start > RangeEnd(r) + gap
  }

  ghost predicate Planned(ranges: seq<Range>, pointers: seq<Pointer>, gap: int) {
    && AllIndices(ranges) == Indices(Sort(Enumerated(pointers), ByPlace))
    && (forall i | 0 <= i < |ranges| :: Tight(ranges[i], pointers, gap))
    && Apart(ranges, pointers, gap)
  }

  lemma PlaceIsOrder()
    ensures TotalPreorder(ByPlace)
  {
  }

  lemma Joined(r: Range, pointers: seq<Pointer>, k: nat, gap: int)
    requires Tight(r, pointers, gap) && k < |pointers| && r.start <= pointers[k].absolute
    requires pointers[k].pageSize == PageSizeOf(r, pointers) && pointers[k].absolute <= RangeEnd(r) + gap
    ensures Tight(Range(r.start, Max(RangeEnd(r), End(pointers[k])) - r.start, r.indices + [k]), pointers, gap)
  {
    var t := Range(r.start, Max(RangeEnd(r), End(pointers[k])) - r.start, r.indices + [k]);
    var w :| 0 <= w < |r.indices| && End(pointers[r.indices[w]]) == RangeEnd(r);
    assert t.indices[w] == r.indices[w] && t.indices[|r.indices|] == k;
    assert End(pointers[t.indices[if RangeEnd(r) < End(pointers[k]) then |r.indices| else w]]) == RangeEnd(t);
    forall j | 0 <= j < |t.indices| ensures Within(t, pointers, t.indices[j]) {
      assert j < |r.indices| ==> Within(r, pointers, r.indices[j]);
    }
    forall j | 0 < j < |t.indices| ensures Linked(t.indices, pointers, j, gap) {
      if j < |r.indices| {
        assert Linked(r.indices, pointers, j, gap);
        var i :| 0 <= i < j && pointers[r.indices[j]].absolute <= End(pointers[r.indices[i]]) + gap;
        assert t.indices[i] == r.indices[i];
      } else {
        assert pointers[t.indices[j]].absolute <= End(pointers[t.indices[w]]) + gap;
      }
    }
  }

  lemma Started(pointers: seq<Pointer>, k: nat, gap: int)
    requires k < |pointers|
    ensures Tight(Range(pointers[k].absolute, pointers[k].stored, [k]), pointers, gap)
  {
    var r := Range(pointers[k].absolute, pointers[k].stored, [k]);
    assert Within(r, pointers, r.indices[0]) && End(pointers[r.indices[0]]) == RangeEnd(r);
  }

  /** The request, sorted: its members name each pointer by its own index. */
  lemma SortedAsked(pointers: seq<Pointer>)
    ensures var sorted := Sort(Enumerated(pointers), ByPlace);
      && |sorted| == |pointers| && Sorted(sorted, ByPlace) && Distinct(sorted)
      && forall i | 0 <= i < |sorted| :: sorted[i].index < |pointers| && sorted[i].pointer == pointers[sorted[i].index]
  {
    var e := Enumerated(pointers);
    var sorted := Sort(e, ByPlace);
    PlaceIsOrder();
    SortSorts(e, ByPlace);
    SortDistinct(e, ByPlace);
    forall i | 0 <= i < |sorted|
      ensures sorted[i].index < |pointers| && sorted[i].pointer == pointers[sorted[i].index]
    {
      assert sorted[i] in e;
    }
  }

  /** Every request index lies in the plan exactly once. */
  lemma PlanCoversOnce(ranges: seq<Range>, pointers: seq<Pointer>, gap: int)
    requires Planned(ranges, pointers, gap)
    ensures Distinct(AllIndices(ranges))
    ensures forall k: nat :: k in AllIndices(ranges) <==> k < |pointers|
  {
    SortedAsked(pointers);
    var e := Enumerated(pointers);
    var sorted := Sort(e, ByPlace);
    var all := Indices(sorted);
    forall k: nat ensures k in all <==> k < |pointers| {
      if k < |pointers| {
        assert e[k] in sorted;
        var i :| 0 <= i < |sorted| && sorted[i] == e[k];
        assert all[i] == k;
      }
    }
    hide AllIndices, Sort, Apart;
    forall i, j | 0 <= i < j < |all| ensures all[i] != all[j] {
      assert sorted[i] != sorted[j];
    }
  }

  /** The order of a plan in numbers: by offset, and at one offset by stored length. */
  lemma PlanOrder(ranges: seq<Range>, pointers: seq<Pointer>, gap: int, i: nat, j: nat)
    requires Planned(ranges, pointers, gap) && i < j < |AllIndices(ranges)|
    ensures var a, b := AllIndices(ranges)[i], AllIndices(ranges)[j];
      && a < |pointers| && b < |pointers|
      && (pointers[a].absolute < pointers[b].absolute
          || (pointers[a].absolute == pointers[b].absolute && pointers[a].stored <= pointers[b].stored))
  {
    hide Sort, Apart, Tight, AllIndices;
    SortedAsked(pointers);
    var sorted := Sort(Enumerated(pointers), ByPlace);
    assert ByPlace(sorted[i], sorted[j]);
  }

  method BuildPlan(pointers: seq<Pointer>, gap: int) returns (ranges: seq<Range>)
    ensures Planned(ranges, pointers, gap)
  {
    hide Tight, AllIndices, Sort, Distinct;
    var indexed := Sort(Enumerated(pointers), ByPlace);
    SortedAsked(pointers);
    ranges := [];
    NoRanges();
    if |indexed| == 0 {
      assert Indices(indexed) == [];
      return;
    }
    var cur := Range(indexed[0].pointer.absolute, indexed[0].pointer.stored, [indexed[0].index]);
    var pageSize := indexed[0].pointer.pageSize;
    Started(pointers, indexed[0].index, gap);
    assert AllIndices(ranges) + cur.indices == Indices(indexed[..1]);
    for i := 1 to |indexed|
      invariant AllIndices(ranges) + cur.indices == Indices(indexed[..i])
      invariant Tight(cur, pointers, gap) && forall j | 0 <= j < |ranges| :: Tight(ranges[j], pointers, gap)
      invariant cur.start <= indexed[i - 1].pointer.absolute
      invariant pageSize == PageSizeOf(cur, pointers) && |cur.indices| > 0
      invariant Apart(ranges + [cur], pointers, gap)
    {
      var k, p := indexed[i].index, indexed[i].pointer;
      assert ByPlace(indexed[i - 1], indexed[i]);
      assert Indices(indexed[..i + 1]) == Indices(indexed[..i]) + [k];
      if p.pageSize == pageSize && p.absolute <= RangeEnd(cur) + gap {
        Joined(cur, pointers, k, gap);
        var joined := Range(cur.start, Max(RangeEnd(cur), End(p)) - cur.start, cur.indices + [k]);
        LastGrows(ranges, cur, joined, pointers, gap);
        assert AllIndices(ranges) + joined.indices == AllIndices(ranges) + cur.indices + [k];
        cur := joined;
      } else {
        Started(pointers, k, gap);
        var next := Range(p.absolute, p.stored, [k]);
        AllIndicesSnoc(ranges, cur);
        OneMore(ranges + [cur], next, pointers, gap);
        ranges := ranges + [cur];
        cur := next;
        pageSize := p.pageSize;
      }
    }
    assert indexed[..|indexed|] == indexed;
    AllIndicesSnoc(ranges, cur);
    ranges := ranges + [cur];
  }

  lemma NoRanges()
    ensures AllIndices([]) == []
  {
  }

  lemma LastGrows(ranges: seq<Range>, cur: Range, next: Range, pointers: seq<Pointer>, gap: int)
    requires Apart(ranges + [cur], pointers, gap)
    requires next.start == cur.start && PageSizeOf(next, pointers) == PageSizeOf(cur, pointers)
    ensures Apart(ranges + [next], pointers, gap)
  {
    hide PageSizeOf;
    var a, b := ranges + [cur], ranges + [next];
    forall i | 0 < i < |b| ensures AfterGap(b[i - 1], b[i], pointers, gap) {
      assert AfterGap(a[i - 1], a[i], pointers, gap);
    }
  }

  lemma OneMore(ranges: seq<Range>, next: Range, pointers: seq<Pointer>, gap: int)
    requires |ranges| > 0 && Apart(ranges, pointers, gap) && AfterGap(ranges[|ranges| - 1], next, pointers, gap)
    ensures Apart(ranges + [next], pointers, gap)
  {
    hide AfterGap;
    var b := ranges + [next];
    forall i | 0 < i < |b| ensures AfterGap(b[i - 1], b[i], pointers, gap) {
      assert i < |ranges| ==> AfterGap(ranges[i - 1], ranges[i], pointers, gap);
    }
  }

  /** Over one page size and a non-negative gap, planned ranges ascend and lie more than the gap apart;
      with gap 0 they are disjoint and do not even touch. */
  lemma {:induction false} RangesDisjoint(ranges: seq<Range>, pointers: seq<Pointer>, gap: int, i: nat, j: nat)
    requires Planned(ranges, pointers, gap) && gap >= 0 && i < j < |ranges|
    requires forall k, m | 0 <= k < |pointers| && 0 <= m < |pointers| :: pointers[k].pageSize == pointers[m].pageSize
    ensures RangeEnd(ranges[i]) + gap < ranges[j].start
    decreases j
  {
    assert Tight(ranges[j - 1], pointers, gap) && Tight(ranges[j], pointers, gap);
    assert AfterGap(ranges[j - 1], ranges[j], pointers, gap);
    assert Within(ranges[j], pointers, ranges[j].indices[0]) && Within(ranges[j - 1], pointers, ranges[j - 1].indices[0]);
    if i < j - 1 { RangesDisjoint(ranges, pointers, gap, i, j - 1); }
  }

  // ----- fetching -----

  ghost predicate AllReadable(file: Bytes, pointers: seq<Pointer>) {
    forall k | 0 <= k < |pointers| :: ReadPayload(file, pointers[k]).Ok?
  }

  lemma InsideRange(file: Bytes, r: Range, pointers: seq<Pointer>, k: nat)
    requires Within(r, pointers, k) && Readable(file, r.start, r.length)
    ensures var block := ReadAt(file, r.start, r.length); var rel := pointers[k].absolute - r.start;
      && |block| == r.length && rel + pointers[k].stored <= |block|
      && ReadPayload(file, pointers[k]) == Unpack(block[rel..rel + pointers[k].stored], pointers[k])
  {
    hide ReadAt, Unpack;
    ReadableIff(file, r.start, r.length);
    ReadableIff(file, pointers[k].absolute, pointers[k].stored);
    var rel := pointers[k].absolute - r.start;
    if pointers[k].stored > 0 {
      SliceOfSlice(file, r.start, RangeEnd(r), rel, rel + pointers[k].stored);
    } else {
      assert ReadAt(file, pointers[k].absolute, 0) == [];
      assert ReadAt(file, r.start, r.length)[rel..rel] == [];
    }
  }

  // If every pointer reads on its own, so does every range: its furthest record is in the file.
  lemma RangeReads(file: Bytes, r: Range, pointers: seq<Pointer>, gap: int)
    requires Tight(r, pointers, gap) && AllReadable(file, pointers)
    ensures Readable(file, r.start, r.length)
  {
    hide ReadAt;
    var w :| 0 <= w < |r.indices| && End(pointers[r.indices[w]]) == RangeEnd(r);
    var p := pointers[r.indices[w]];
    assert Within(r, pointers, r.indices[w]);
    assert ReadPayload(file, p).Ok?;
    ReadableIff(file, p.absolute, p.stored);
  }

  ghost predicate FilledBy(out: seq<Option<Bytes>>, file: Bytes, pointers: seq<Pointer>, done: seq<nat>) {
    && |out| == |pointers|
    && forall k: nat | k < |pointers| && k in done :: out[k].Some? && ReadPayload(file, pointers[k]) == Ok(out[k].value)
  }

  // One block: each of its pointers is cut out, checked and put at its place in the request.
  method CutBlock(file: Bytes, block: Bytes, r: Range, pointers: seq<Pointer>, got: seq<Option<Bytes>>, ghost done: seq<nat>, ghost gap: int)
    returns (res: Result<seq<Option<Bytes>>, Error>)
    requires Tight(r, pointers, gap) && Readable(file, r.start, r.length) && block == ReadAt(file, r.start, r.length)
    requires FilledBy(got, file, pointers, done)
    ensures res.Err? ==> !AllReadable(file, pointers)
    ensures res.Ok? ==> FilledBy(res.value, file, pointers, done + r.indices)
  {
    hide ReadAt, Unpack, ReadPayload;
    var out := got;
    assert done + r.indices[..0] == done;
    for j := 0 to |r.indices|
      invariant FilledBy(out, file, pointers, done + r.indices[..j])
    {
      var k := r.indices[j];
      assert Within(r, pointers, k);
      InsideRange(file, r, pointers, k);
      var rel := pointers[k].absolute - r.start;
      var payload := Unpack(block[rel..rel + pointers[k].stored], pointers[k]);
      if payload.Err? {
        return Err(payload.error);
      }
      out := out[k := Some(payload.value)];
      assert done + r.indices[..j + 1] == done + r.indices[..j] + [k];
    }
    assert r.indices[..|r.indices|] == r.indices;
    return Ok(out);
  }

  /** fetch_payloads_coalesced_fd succeeds iff every pointer reads on its own, and then returns
      exactly those payloads in request order, for any pointers and any gap. */
  method FetchCoalesced(file: Bytes, pointers: seq<Pointer>, gap: int)
    returns (r: Result<seq<Bytes>, Error>, plan: seq<Range>, bytesRead: nat)
    ensures Planned(plan, pointers, gap)
    ensures r.Ok? <==> AllReadable(file, pointers)
    ensures r.Ok? ==> |r.value| == |pointers| && forall k | 0 <= k < |pointers| :: ReadPayload(file, pointers[k]) == Ok(r.value[k])
    ensures r.Ok? ==> bytesRead == Total(plan)
  {
    hide Tight, ReadAt, ReadPayload, Unpack, Apart, Sort, Total, AllIndices;
    bytesRead := 0;
    plan := BuildPlan(pointers, gap);
    var out: seq<Option<Bytes>> := seq(|pointers|, i => None);
    NoRanges();
    NoTotal();
    assert plan[..0] == [];
    for n := 0 to |plan|
      invariant FilledBy(out, file, pointers, AllIndices(plan[..n]))
      invariant bytesRead == Total(plan[..n])
    {
      var rr := plan[n];
      var block := ReadAt(file, rr.start, rr.length);
      ReadableIff(file, rr.start, rr.length);
      if |block| != rr.length {
        if AllReadable(file, pointers) { RangeReads(file, rr, pointers, gap); }
        return Err(ShortRead), plan, bytesRead;
      }
      bytesRead := bytesRead + |block|;
      ghost var done := AllIndices(plan[..n]);
      AllIndicesSnoc(plan[..n], rr);
      TotalSnoc(plan[..n], rr);
      assert plan[..n + 1] == plan[..n] + [rr];
      var cut := CutBlock(file, block, rr, pointers, out, done, gap);
      if cut.Err? {
        return Err(cut.error), plan, bytesRead;
      }
      out := cut.value;
    }
    assert plan[..|plan|] == plan;
    PlanCoversOnce(plan, pointers, gap);
    var payloads := seq(|out|, i requires 0 <= i < |out| => if out[i].Some? then out[i].value else []);
    return Ok(payloads), plan, bytesRead;
  }

  function Total(ranges: seq<Range>): nat {
    if |ranges| == 0 then 0 else Total(ranges[..|ranges| - 1]) + ranges[|ranges| - 1].length
  }

  lemma TotalSnoc(ranges: seq<Range>, r: Range)
    ensures Total(ranges + [r]) == Total(ranges) + r.length
  {
    assert (ranges + [r])[..|ranges|] == ranges;
  }

  lemma NoTotal()
    ensures Total([]) == 0
  {
  }
}
