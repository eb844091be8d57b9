/** The persistent CSR index of csr_mmap_hotpath.py: a streaming build over sorted edges and
    lookups by binary search, against a plain scan of the edge list. */
module Csr {
  import opened Common
  import Bits

  datatype Edge = Edge(src: int, dst: int, kind: int, att: int, weight: real)

  // Fixed-width rows of the two files.
  datatype NodeRow = NodeRow(node: int, first: nat, count: nat)
  datatype EdgeRow = EdgeRow(dst: int, kind: int, att: int, weight: real)

  datatype BuildError = Unsorted | Unpackable | EmptyLayout

  // The order (source, type, target, attenuation class) the builder insists on.
  predicate KeyLe(a: Edge, b: Edge) {
    if a.src != b.src then a.src < b.src
    else if a.kind != b.kind then a.kind < b.kind
    else if a.dst != b.dst then a.dst < b.dst
    else a.att <= b.att
  }

  // What struct.pack("<Q..") and ("<QII..") can hold.
  predicate Packable(e: Edge) {
    && 0 <= e.src < 0x1_0000_0000_0000_0000 && 0 <= e.dst < 0x1_0000_0000_0000_0000
    && 0 <= e.kind < 0x1_0000_0000 && 0 <= e.att < 0x1_0000_0000
  }

  function RowOf(e: Edge): EdgeRow {
    EdgeRow(e.dst, e.kind, e.att, e.weight)
  }

  ghost predicate Accepted(es: seq<Edge>) {
    && |es| > 0
    && (forall i | 0 <= i < |es| - 1 :: KeyLe(es[i], es[i + 1]))
    && (forall i | 0 <= i < |es| :: Packable(es[i]))
  }

  // The keys of two edges in order, field by field.
  ghost predicate Ascends(a: Edge, b: Edge) {
    && a.src <= b.src
    && (a.src == b.src ==> a.kind <= b.kind)
    && (a.src == b.src && a.kind == b.kind ==> a.dst <= b.dst)
    && (a.src == b.src && a.kind == b.kind && a.dst == b.dst ==> a.att <= b.att)
  }

  /** Which edge lists are taken: those that are not empty, ascend by source, kind, target and attenuation class, and
      have ids of 64 and classes of 32 bits. */
  lemma AcceptedIff(es: seq<Edge>)
    ensures Accepted(es) <==>
      && |es| > 0 && (forall i, j | 0 <= i < j < |es| :: Ascends(es[i], es[j]))
      && forall e | e in es ::
           && 0 <= e.src <= 0xFFFF_FFFF_FFFF_FFFF && 0 <= e.dst <= 0xFFFF_FFFF_FFFF_FFFF
           && 0 <= e.kind <= 0xFFFF_FFFF && 0 <= e.att <= 0xFFFF_FFFF
  {
    hide Packable, KeyLe, Ascends;
    forall e ensures Packable(e) <==>
      && 0 <= e.src <= 0xFFFF_FFFF_FFFF_FFFF && 0 <= e.dst <= 0xFFFF_FFFF_FFFF_FFFF
      && 0 <= e.kind <= 0xFFFF_FFFF && 0 <= e.att <= 0xFFFF_FFFF
    {
      PackableIff(e);
    }
    forall i | 0 <= i < |es| - 1 ensures KeyLe(es[i], es[i + 1]) <==> Ascends(es[i], es[i + 1]) {
      KeyLeIff(es[i], es[i + 1]);
    }
    if Accepted(es) {
      forall i, j | 0 <= i < j < |es| ensures Ascends(es[i], es[j]) {
        AllAscend(es, i, j);
      }
    }
    assert forall i | 0 <= i < |es| :: es[i] in es;
  }

  lemma PackableIff(e: Edge)
    ensures Packable(e) <==>
      && 0 <= e.src <= 0xFFFF_FFFF_FFFF_FFFF && 0 <= e.dst <= 0xFFFF_FFFF_FFFF_FFFF
      && 0 <= e.kind <= 0xFFFF_FFFF && 0 <= e.att <= 0xFFFF_FFFF
  {
  }

  lemma KeyLeIff(a: Edge, b: Edge)
    ensures KeyLe(a, b) <==> Ascends(a, b)
  {
  }

  lemma {:induction false} AllAscend(es: seq<Edge>, i: nat, j: nat)
    requires i < j < |es| && forall k | 0 <= k < |es| - 1 :: KeyLe(es[k], es[k + 1])
    ensures Ascends(es[i], es[j])
    decreases j
  {
    assert KeyLe(es[j - 1], es[j - 1 + 1]);
    KeyLeIff(es[j - 1], es[j]);
    if i < j - 1 { AllAscend(es, i, j - 1); }
  }

  // The reference: all edges of a node, in input order, by scanning the list.
  function EdgesOf(es: seq<Edge>, n: int): seq<Edge> {
    if |es| == 0 then []
    else EdgesOf(es[..|es| - 1], n) + if es[|es| - 1].src == n then [es[|es| - 1]] else []
  }

  lemma EdgesOfSnoc(es: seq<Edge>, e: Edge, n: int)
    ensures EdgesOf(es + [e], n) == EdgesOf(es, n) + if e.src == n then [e] else []
  {
    assert (es + [e])[..|es|] == es;
  }

  lemma {:induction false} EdgesOfMembers(es: seq<Edge>, n: int)
    ensures forall e :: e in EdgesOf(es, n) <==> e in es && e.src == n
  {
    if |es| > 0 {
      EdgesOfMembers(es[..|es| - 1], n);
      assert es == es[..|es| - 1] + [es[|es| - 1]];
    }
  }

  // ----- layouts -----

  // One row per source, strictly increasing, whose ranges cut the edge file end to end.
  ghost predicate Layout(nodes: seq<NodeRow>, es: seq<Edge>) {
    && (forall r | 0 <= r < |nodes| :: 0 < nodes[r].count && nodes[r].first + nodes[r].count <= |es|)
    && (|nodes| > 0 ==> nodes[0].first == 0 && nodes[|nodes| - 1].first + nodes[|nodes| - 1].count == |es|)
    && (|nodes| == 0 ==> |es| == 0)
    && (forall r | 0 <= r < |nodes| - 1 :: nodes[r + 1].first == nodes[r].first + nodes[r].count)
    && (forall r, q | 0 <= r < q < |nodes| :: nodes[r].node < nodes[q].node && nodes[r].first + nodes[r].count <= nodes[q].first)
    && (forall r, i | 0 <= r < |nodes| && nodes[r].first <= i < nodes[r].first + nodes[r].count :: es[i].src == nodes[r].node)
  }

  // Every edge lies in the range of some row.
  lemma {:induction false} RowOfEdge(nodes: seq<NodeRow>, es: seq<Edge>, i: nat, top: nat) returns (r: nat)
    requires Layout(nodes, es) && i < |es| && top < |nodes| && i < nodes[top].first + nodes[top].count
    ensures r <= top && nodes[r].first <= i < nodes[r].first + nodes[r].count
    decreases top
  {
    if nodes[top].first <= i {
      r := top;
    } else {
      assert top > 0;
      r := RowOfEdge(nodes, es, i, top - 1);
    }
  }

  // The slice of a row is exactly the scan for its node; a node without a row has no edges.
  lemma {:induction false} SliceIsScan(es: seq<Edge>, n: int, lo: nat, hi: nat)
    requires lo <= hi <= |es|
    requires forall i | 0 <= i < |es| :: es[i].src == n <==> lo <= i < hi
    ensures EdgesOf(es, n) == es[lo..hi]
    decreases |es|
  {
    if |es| > 0 {
      var init := es[..|es| - 1];
      if hi == |es| && lo < hi {
        SliceIsScan(init, n, lo, hi - 1);
        assert es[lo..hi] == init[lo..hi - 1] + [es[|es| - 1]];
      } else {
        var hi' := if hi == |es| then |es| - 1 else hi;
        var lo' := if lo == |es| then |es| - 1 else lo;
        SliceIsScan(init, n, lo', hi');
        assert es[lo..hi] == init[lo'..hi'];
      }
    }
  }

  lemma RowSlice(nodes: seq<NodeRow>, es: seq<Edge>, r: nat)
    requires Layout(nodes, es) && r < |nodes|
    ensures EdgesOf(es, nodes[r].node) == es[nodes[r].first..nodes[r].first + nodes[r].count]
  {
    var n := nodes[r].node;
    forall i | 0 <= i < |es| ensures es[i].src == n <==> nodes[r].first <= i < nodes[r].first + nodes[r].count {
      var q := RowOfEdge(nodes, es, i, |nodes| - 1);
      assert es[i].src == nodes[q].node;
      if q != r {
        assert if q < r then nodes[q].node < nodes[r].node else nodes[r].node < nodes[q].node;
      }
    }
    SliceIsScan(es, n, nodes[r].first, nodes[r].first + nodes[r].count);
  }

  lemma RowsIncrease(nodes: seq<NodeRow>, es: seq<Edge>)
    requires Layout(nodes, es)
    ensures forall r, q | 0 <= r < q < |nodes| :: nodes[r].node < nodes[q].node
    ensures forall r | 0 <= r < |nodes| :: nodes[r].first + nodes[r].count <= |es|
  {
  }

  lemma NoRowNoEdges(nodes: seq<NodeRow>, es: seq<Edge>, n: int)
    requires Layout(nodes, es) && forall r | 0 <= r < |nodes| :: nodes[r].node != n
    ensures EdgesOf(es, n) == []
  {
    forall i | 0 <= i < |es| ensures es[i].src != n {
      var q := RowOfEdge(nodes, es, i, |nodes| - 1);
    }
    SliceIsScan(es, n, 0, 0);
  }

  // ----- the index -----

  // How often a range of rows can be halved until nothing is left.
  function Levels(n: nat): nat {
    if n == 0 then 0 else 1 + Levels(n / 2)
  }

  lemma {:induction false} LevelsGrow(m: nat, n: nat)
    requires m <= n
    ensures Levels(m) <= Levels(n)
    decreases n
  {
    if m > 0 { LevelsGrow(m / 2, n / 2); }
  }

  lemma LevelsHalve(n: nat, m: nat)
    requires 0 < n && m <= n / 2
    ensures Levels(m) + 1 <= Levels(n)
  {
    LevelsGrow(m, n / 2);
  }

  lemma {:induction false} LevelsBelow(n: nat, k: nat)
    requires n < Bits.Pow2(k)
    ensures Levels(n) <= k
  {
    if n > 0 { LevelsBelow(n / 2, k - 1); }
  }

  class CsrMmapHotGraph {
    var nodes: seq<NodeRow>
    var edges: seq<EdgeRow>
    var sliceLookups: nat
    var nodeRowsRead: nat
    var edgeRecordsRead: nat
    ghost var source: seq<Edge>

    ghost predicate Valid()
      reads this
    {
      && Layout(nodes, source)
      && |edges| == |source| && forall i | 0 <= i < |edges| :: edges[i] == RowOf(source[i])
    }

    constructor (nodes: seq<NodeRow>, edges: seq<EdgeRow>, ghost source: seq<Edge>)
      requires Layout(nodes, source)
      requires |edges| == |source| && forall i | 0 <= i < |edges| :: edges[i] == RowOf(source[i])
      ensures Valid() && this.source == source
    {
      this.nodes, this.edges, this.source := nodes, edges, source;
      sliceLookups, nodeRowsRead, edgeRecordsRead := 0, 0, 0;
    }

    method FindRange(n: int) returns (found: Option<(nat, nat)>)
      requires Valid()
      modifies this`sliceLookups, this`nodeRowsRead
      ensures Valid()
      ensures match found
        case Some((first, count)) => first + count <= |source| && EdgesOf(source, n) == source[first..first + count]
        case None => EdgesOf(source, n) == []
      ensures sliceLookups == old(sliceLookups) + 1
      ensures |nodes| > 0 ==> old(nodeRowsRead) < nodeRowsRead
      ensures forall k | |nodes| < Bits.Pow2(k) :: nodeRowsRead <= old(nodeRowsRead) + k
    {
      hide Layout, EdgesOf, Levels;
      forall k | |nodes| < Bits.Pow2(k) ensures Levels(|nodes|) <= k {
        LevelsBelow(|nodes|, k);
      }
      RowsIncrease(nodes, source);
      sliceLookups := sliceLookups + 1;
      var lo, hi := 0, |nodes|;
      while lo < hi
        invariant 0 <= lo <= hi <= |nodes|
        invariant sliceLookups == old(sliceLookups) + 1
        invariant nodeRowsRead + Levels(hi - lo) <= old(nodeRowsRead) + Levels(|nodes|)
        invariant old(nodeRowsRead) < nodeRowsRead || (old(nodeRowsRead) == nodeRowsRead && lo == 0 && hi == |nodes|)
        invariant forall r | 0 <= r < lo :: nodes[r].node < n
        invariant forall r | hi <= r < |nodes| :: n < nodes[r].node
      {
        var mid := (lo + hi) / 2;
        LevelsHalve(hi - lo, mid - lo);
        LevelsHalve(hi - lo, hi - mid - 1);
        nodeRowsRead := nodeRowsRead + 1;
        var row := nodes[mid];
        if row.node < n {
          lo := mid + 1;
        } else if row.node > n {
          hi := mid;
        } else {
          RowSlice(nodes, source, mid);
          return Some((row.first, row.count));
        }
      }
      NoRowNoEdges(nodes, source, n);
      return None;
    }

    method GetEdges(n: int) returns (rows: seq<Edge>)
      requires Valid()
      modifies this`sliceLookups, this`nodeRowsRead, this`edgeRecordsRead
      ensures Valid()
      ensures rows == EdgesOf(source, n)
      ensures edgeRecordsRead == old(edgeRecordsRead) + |rows|
    {
      hide Layout, EdgesOf;
      var found := FindRange(n);
      if found.None? {
        return [];
      }
      var (first, count) := found.value;
      EdgesOfMembers(source, n);
      rows := [];
      for i := first to first + count
        invariant rows == source[first..i]
        invariant edgeRecordsRead == old(edgeRecordsRead) + |rows|
      {
        var r := edges[i];
        edgeRecordsRead := edgeRecordsRead + 1;
        assert source[i] in source[first..first + count];
        rows := rows + [Edge(n, r.dst, r.kind, r.att, r.weight)];
      }
    }
  }

  // The state of the streaming build after some edges: closed rows, then the open one.
  ghost predicate Building(nodes: seq<NodeRow>, open: Option<NodeRow>, es: seq<Edge>) {
    match open
    case None => nodes == [] && es == []
    case Some(row) => Layout(nodes + [row], es)
  }

  lemma OpenGrows(nodes: seq<NodeRow>, row: NodeRow, es: seq<Edge>, e: Edge)
    requires Layout(nodes + [row], es) && e.src == row.node
    ensures Layout(nodes + [row.(count := row.count + 1)], es + [e])
  {
    var before, after := nodes + [row], nodes + [row.(count := row.count + 1)];
    assert forall r | 0 <= r < |nodes| :: after[r] == before[r] == nodes[r];
    assert before[|nodes|] == row;
  }

  lemma OpenCloses(nodes: seq<NodeRow>, row: NodeRow, es: seq<Edge>, e: Edge)
    requires Layout(nodes + [row], es) && row.node < e.src
    ensures Layout(nodes + [row] + [NodeRow(e.src, |es|, 1)], es + [e])
  {
    var before := nodes + [row];
    var after := before + [NodeRow(e.src, |es|, 1)];
    assert forall r | 0 <= r < |before| :: after[r] == before[r];
    assert before[|before| - 1] == row;
    forall r, q | 0 <= r < q < |after|
      ensures after[r].node < after[q].node && after[r].first + after[r].count <= after[q].first
    {
      if q == |before| && r < |before| - 1 { assert before[r].node < before[|before| - 1].node; }
    }
  }

  method BuildFromSortedEdges(es: seq<Edge>) returns (r: Result<CsrMmapHotGraph, BuildError>)
    ensures r.Ok? <==> Accepted(es)
    ensures r.Ok? ==> fresh(r.value) && r.value.Valid() && r.value.source == es
  {
    hide Layout, Packable;
    var nodes: seq<NodeRow> := [];
    var open: Option<NodeRow> := None;
    var edges: seq<EdgeRow> := [];
    for i := 0 to |es|
      invariant Building(nodes, open, es[..i])
      invariant open.Some? <==> i > 0
      invariant open.Some? ==> open.value.node == es[i - 1].src
      invariant forall j | 0 <= j < i - 1 :: KeyLe(es[j], es[j + 1])
      invariant forall j | 0 <= j < i :: Packable(es[j])
      invariant |edges| == i && forall j | 0 <= j < i :: edges[j] == RowOf(es[j])
    {
      var e := es[i];
      assert es[..i + 1] == es[..i] + [e];
      if i > 0 && !KeyLe(es[i - 1], e) {
        return Err(Unsorted);
      }
      if !Packable(e) {
        return Err(Unpackable);
      }
      if open.None? {
        open := Some(NodeRow(e.src, i, 1));
        FirstRow(e);
        assert es[..i + 1] == [e] && nodes + [open.value] == [NodeRow(e.src, 0, 1)];
      } else if e.src != open.value.node {
        OpenCloses(nodes, open.value, es[..i], e);
        nodes := nodes + [open.value];
        open := Some(NodeRow(e.src, i, 1));
      } else {
        OpenGrows(nodes, open.value, es[..i], e);
        open := Some(open.value.(count := open.value.count + 1));
      }
      edges := edges + [RowOf(e)];
    }
    assert es[..|es|] == es;
    if open.None? {
      return Err(EmptyLayout);
    }
    nodes := nodes + [open.value];
    var g := new CsrMmapHotGraph(nodes, edges, es);
    return Ok(g);
  }

  lemma FirstRow(e: Edge)
    ensures Layout([NodeRow(e.src, 0, 1)], [e])
  {
  }
}
