/** Exporting the edges among selected nodes from the CSR index (csr_mmap_hotpath.py), against a
    plain filter of the edge list. */
module CsrExport {
  import opened Csr
  import opened Dictionaries

  // The edges from one set of nodes into another, in list order.
  function Select(es: seq<Edge>, from: set<int>, into: set<int>): seq<Edge> {
    if |es| == 0 then []
    else
      var e := es[|es| - 1];
      Select(es[..|es| - 1], from, into) + if e.src in from && e.dst in into then [e] else []
  }

  ghost predicate BySource(es: seq<Edge>) {
    forall i, j | 0 <= i < j < |es| :: es[i].src <= es[j].src
  }

  lemma LayoutBySource(nodes: seq<NodeRow>, es: seq<Edge>)
    requires Layout(nodes, es)
    ensures BySource(es)
  {
    forall i, j | 0 <= i < j < |es| ensures es[i].src <= es[j].src {
      var r := RowOfEdge(nodes, es, i, |nodes| - 1);
      var q := RowOfEdge(nodes, es, j, |nodes| - 1);
      assert r <= q;
    }
  }

  lemma {:induction false} SelectNone(es: seq<Edge>, from: set<int>, into: set<int>)
    requires forall i | 0 <= i < |es| :: es[i].src !in from
    ensures Select(es, from, into) == []
  {
    if |es| > 0 { SelectNone(es[..|es| - 1], from, into); }
  }

  // A larger source contributes after all smaller ones.
  lemma {:induction false} SelectSplits(es: seq<Edge>, from: set<int>, k: int, into: set<int>)
    requires BySource(es) && forall x | x in from :: x < k
    ensures Select(es, from + {k}, into) == Select(es, from, into) + Select(es, {k}, into)
  {
    if |es| > 0 {
      var init, e := es[..|es| - 1], es[|es| - 1];
      SelectSplits(init, from, k, into);
      if e.src in from {
        assert forall i | 0 <= i < |init| :: init[i] == es[i];
        SelectNone(init, {k}, into);
      }
    }
  }

  function Within(es: seq<Edge>, into: set<int>): seq<Edge> {
    if |es| == 0 then [] else Within(es[..|es| - 1], into) + if es[|es| - 1].dst in into then [es[|es| - 1]] else []
  }

  lemma WithinSnoc(es: seq<Edge>, e: Edge, into: set<int>)
    ensures Within(es + [e], into) == Within(es, into) + if e.dst in into then [e] else []
  {
    assert (es + [e])[..|es|] == es;
  }

  lemma {:induction false} SelectOne(es: seq<Edge>, k: int, into: set<int>)
    ensures Select(es, {k}, into) == Within(EdgesOf(es, k), into)
  {
    if |es| > 0 {
      var init, e := es[..|es| - 1], es[|es| - 1];
      SelectOne(init, k, into);
      EdgesOfSnoc(init, e, k);
      assert es == init + [e];
      WithinSnoc(EdgesOf(init, k), e, into);
      assert EdgesOf(init, k) + [] == EdgesOf(init, k);
    }
  }

  function Members(vs: seq<int>): set<int> {
    set v | v in vs
  }

  lemma AllMembers(vs: seq<int>, s: set<int>)
    requires forall v :: v in vs <==> v in s
    ensures Members(vs) == s
  {
    forall v ensures v in Members(vs) <==> v in s {
      assert v in Members(vs) <==> v in vs;
    }
  }

  // What is written of an edge.
  function Triples(es: seq<Edge>): seq<(int, int, int)> {
    seq(|es|, i requires 0 <= i < |es| => (es[i].src, es[i].dst, es[i].kind))
  }

  lemma SelectNothing(es: seq<Edge>, into: set<int>)
    ensures Select(es, {}, into) == [] && Triples([]) == [] && Within([], into) == []
  {
    SelectNone(es, {}, into);
  }

  /** export_subgraph: looking up each selected node in turn yields exactly the edges a scan of the
      whole edge list keeps, in the order of that list. */
  method ExportSubgraph(g: CsrMmapHotGraph, selected: seq<int>) returns (nodes: seq<int>, edges: seq<(int, int, int)>)
    requires g.Valid()
    modifies g`sliceLookups, g`nodeRowsRead, g`edgeRecordsRead
    ensures g.Valid() && g.source == old(g.source)
    ensures Increasing(nodes) && forall v :: v in nodes <==> v in selected
    ensures edges == Triples(Select(g.source, Members(selected), Members(selected)))
  {
    hide Layout, EdgesOf, Select, Within;
    var chosen := Members(selected);
    nodes := SortedKeys(chosen);
    AllMembers(nodes, chosen);
    edges := [];
    ghost var es := g.source;
    LayoutBySource(g.nodes, es);
    SelectNothing(es, chosen);
    assert Members(nodes[..0]) == {};
    for i := 0 to |nodes|
      invariant g.Valid() && g.source == es
      invariant edges == Triples(Select(es, Members(nodes[..i]), chosen))
    {
      var rows := g.GetEdges(nodes[i]);
      ghost var before := Select(es, Members(nodes[..i]), chosen);
      SelectSplits(es, Members(nodes[..i]), nodes[i], chosen);
      SelectOne(es, nodes[i], chosen);
      assert Members(nodes[..i + 1]) == Members(nodes[..i]) + {nodes[i]};
      assert rows[..0] == [] && before + [] == before;
      for j := 0 to |rows|
        invariant edges == Triples(before + Within(rows[..j], chosen))
      {
        WithinSnoc(rows[..j], rows[j], chosen);
        assert rows[..j + 1] == rows[..j] + [rows[j]];
        if rows[j].dst in chosen {
          edges := edges + [(rows[j].src, rows[j].dst, rows[j].kind)];
        }
      }
      assert rows[..|rows|] == rows;
    }
    assert nodes[..|nodes|] == nodes;
  }
}
