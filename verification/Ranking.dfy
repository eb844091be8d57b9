/** Result rows of a wave, their order, and the merge of several seeds' results in
    durable_runtime.py wave_query_nodes. */
module Ranking {
  import opened Sorting
  import opened Counting
  import opened Common

  datatype Row = Row(node: int, score: real, steps: nat, path: seq<int>)

  // Highest score first, then the shorter path, then the smaller node.
  predicate RowLe(a: Row, b: Row) {
    if a.score != b.score then a.score > b.score
    else if a.steps != b.steps then a.steps < b.steps
    else a.node <= b.node
  }

  lemma RowOrder()
    ensures TotalPreorder(RowLe)
  {
  }

  ghost predicate DistinctNodes(rows: seq<Row>) {
    forall i, j | 0 <= i < j < |rows| :: rows[i].node != rows[j].node
  }

  function Cut(rows: seq<Row>, k: nat): (r: seq<Row>)
    ensures |r| == Min(|rows|, k)
  {
    rows[..Min(|rows|, k)]
  }

  // ----- merging -----

  // A row replaces the one kept for its node only if it is strictly better.
  predicate Beats(a: Row, b: Row)
  {
    a.score > b.score || (a.score == b.score && a.steps < b.steps)
  }

  function MergeRow(all: map<int, Row>, r: Row): map<int, Row> {
    if r.node !in all || Beats(r, all[r.node]) then all[r.node := r] else all
  }

  function Merge(rows: seq<Row>): map<int, Row> {
    if |rows| == 0 then map[] else MergeRow(Merge(rows[..|rows| - 1]), rows[|rows| - 1])
  }

  // Where the row kept for node v stands: the first of its best rows.
  ghost predicate FirstBest(rows: seq<Row>, v: int, i: nat) {
    && i < |rows| && rows[i].node == v
    && (forall j | 0 <= j < |rows| && rows[j].node == v :: !Beats(rows[j], rows[i]))
    && (forall j | 0 <= j < i && rows[j].node == v :: Beats(rows[i], rows[j]))
  }

  lemma {:induction false} MergeKeepsFirstBest(rows: seq<Row>, v: int) returns (i: nat)
    ensures v in Merge(rows) <==> exists r :: r in rows && r.node == v
    ensures v in Merge(rows) ==> FirstBest(rows, v, i) && Merge(rows)[v] == rows[i]
    decreases |rows|
  {
    i := 0;
    if |rows| > 0 {
      var init, r := rows[..|rows| - 1], rows[|rows| - 1];
      i := MergeKeepsFirstBest(init, v);
      assert rows == init + [r];
      if r.node == v && (v !in Merge(init) || Beats(r, Merge(init)[v])) {
        assert forall j | 0 <= j < |init| :: init[j] in init;
        i := |rows| - 1;
      }
    }
  }

  lemma FirstBestUnique(rows: seq<Row>, v: int, i: nat, j: nat)
    requires FirstBest(rows, v, i) && FirstBest(rows, v, j)
    ensures i == j
  {
  }

  // ----- ranking a dictionary of rows -----

  ghost predicate Filed(m: map<int, Row>) {
    forall v | v in m :: m[v].node == v
  }

  lemma {:induction false} MergeFiled(rows: seq<Row>)
    ensures Filed(Merge(rows))
    decreases |rows|
  {
    if |rows| > 0 { MergeFiled(rows[..|rows| - 1]); }
  }

  /** s lists the rows of m once each, best first. */
  ghost predicate IsRanked(s: seq<Row>, m: map<int, Row>) {
    && Sorted(s, RowLe) && DistinctNodes(s)
    && (forall i | 0 <= i < |s| :: s[i].node in m && m[s[i].node] == s[i])
    && (forall v | v in m :: m[v].node == v && m[v] in s)
  }

  /** A ranked listing falls by score, rises at one score by path length, and at one length by node. */
  lemma RankedOrder(s: seq<Row>, m: map<int, Row>, i: nat, j: nat)
    requires IsRanked(s, m) && i < j < |s|
    ensures s[i].score >= s[j].score
    ensures s[i].score == s[j].score ==> s[i].steps <= s[j].steps
    ensures s[i].score == s[j].score && s[i].steps == s[j].steps ==> s[i].node < s[j].node
  {
    assert RowLe(s[i], s[j]);
  }

  lemma RankedUnique(s: seq<Row>, t: seq<Row>, m: map<int, Row>)
    requires IsRanked(s, m) && IsRanked(t, m)
    ensures s == t
  {
    assert forall r | r in s :: r in t;
    assert forall r | r in t :: r in s;
    SortedUnique(s, t, RowLe);
  }

  lemma KeyedNodesDistinct(s: seq<Row>, m: map<int, Row>)
    requires Distinct(s) && forall i | 0 <= i < |s| :: s[i].node in m && m[s[i].node] == s[i]
    ensures DistinctNodes(s)
  {
  }

  // Every dictionary can be ranked.
  lemma {:induction false} RankedExists(m: map<int, Row>) returns (s: seq<Row>)
    requires Filed(m)
    ensures IsRanked(s, m)
    decreases |m|
  {
    if v :| v in m {
      var rest := m - {v};
      var t := RankedExists(rest);
      s := Insert(m[v], t, RowLe);
      assert m[v] !in t;
      InsertDistinct(m[v], t, RowLe);
      RowOrder();
      InsertSorts(m[v], t, RowLe);
      assert forall y :: y in s <==> y == m[v] || y in t;
      hide Insert, RowLe;
      forall u | u in m ensures m[u] in s {
        if u != v { assert rest[u] in t; }
      }
      forall i | 0 <= i < |s| ensures s[i].node in m && m[s[i].node] == s[i] {
        assert s[i] in s;
        if s[i] in t { var j :| 0 <= j < |t| && t[j] == s[i]; }
      }
      KeyedNodesDistinct(s, m);
    } else {
      s := [];
    }
  }

  // ----- cutting before merging -----

  // k nodes that come before v's row push it to position k or later.
  lemma PositionBound(s: seq<Row>, m: map<int, Row>, p: nat, us: seq<int>)
    requires IsRanked(s, m) && p < |s| && Distinct(us)
    requires forall i | 0 <= i < |us| :: us[i] in m && us[i] != s[p].node && RowLe(m[us[i]], s[p])
    ensures |us| <= p
  {
    hide RowLe;
    var at := seq(|us|, i requires 0 <= i < |us| => (var j :| 0 <= j < |s| && s[j] == m[us[i]]; j));
    forall i | 0 <= i < |us| ensures at[i] in Range(p) {
      assert s[at[i]] == m[us[i]];
      RowsTie(s, at[i], p);
    }
    forall i, j | 0 <= i < j < |us| ensures at[i] != at[j] {
      assert s[at[i]].node == us[i] && s[at[j]].node == us[j];
    }
    DistinctWithin(at, Range(p));
  }

  lemma RowsTie(s: seq<Row>, j: nat, p: nat)
    requires Sorted(s, RowLe) && DistinctNodes(s) && j < |s| && p < |s|
    requires RowLe(s[j], s[p]) && s[j].node != s[p].node
    ensures j < p
  {
    assert p < j ==> RowLe(s[p], s[j]);
  }

  lemma RankedWithout(s: seq<Row>, m: map<int, Row>, p: nat)
    requires IsRanked(s, m) && p < |s|
    ensures IsRanked(s[..p] + s[p + 1..], m - {s[p].node})
  {
    hide RowLe;
    var t, v := s[..p] + s[p + 1..], s[p].node;
    Skip(s, p);
    assert Sorted(t, RowLe) && DistinctNodes(t);
    forall u | u in m - {v} ensures m[u] in t {
      var i :| 0 <= i < |s| && s[i] == m[u];
      assert i != p;
      assert t[if i < p then i else i - 1] == s[i];
    }
  }

  lemma Skip(s: seq<Row>, p: nat)
    requires p < |s|
    ensures var t := s[..p] + s[p + 1..];
      forall i | 0 <= i < |t| :: t[i] == s[if i < p then i else i + 1]
  {
  }

  // Dropping v's row changes nothing in the first k when k nodes come before it.
  lemma CutWithout(s: seq<Row>, m: map<int, Row>, v: int, k: nat, us: seq<int>) returns (t: seq<Row>)
    requires IsRanked(s, m) && Distinct(us) && |us| == k
    requires forall i | 0 <= i < |us| :: us[i] in m && us[i] != v
    requires v in m ==> forall i | 0 <= i < |us| :: RowLe(m[us[i]], m[v])
    ensures IsRanked(t, m - {v}) && Cut(t, k) == Cut(s, k)
  {
    hide RowLe;
    if v in m {
      var p :| 0 <= p < |s| && s[p] == m[v];
      PositionBound(s, m, p, us);
      RankedWithout(s, m, p);
      t := s[..p] + s[p + 1..];
    } else {
      assert m - {v} == m;
      t := s;
    }
  }

  lemma SameTop(s: seq<Row>, m: map<int, Row>, s': seq<Row>, m': map<int, Row>, v: int, k: nat, us: seq<int>)
    requires IsRanked(s, m) && IsRanked(s', m') && m - {v} == m' - {v}
    requires Distinct(us) && |us| == k
    requires forall i | 0 <= i < |us| :: us[i] in m && us[i] in m' && us[i] != v && m[us[i]] == m'[us[i]]
    requires v in m ==> forall i | 0 <= i < |us| :: RowLe(m[us[i]], m[v])
    requires v in m' ==> forall i | 0 <= i < |us| :: RowLe(m[us[i]], m'[v])
    ensures Cut(s, k) == Cut(s', k)
  {
    hide RowLe, IsRanked;
    var t := CutWithout(s, m, v, k, us);
    var t' := CutWithout(s', m', v, k, us);
    RankedUnique(t, t', m - {v});
  }

  // Removing a row that was not chosen for v leaves v's choice.
  lemma RemoveUnchosen(rows: seq<Row>, d: nat, v: int, i: nat)
    requires d < |rows| && FirstBest(rows, v, i) && i != d
    ensures var rest := rows[..d] + rows[d + 1..];
      v in Merge(rest) && v in Merge(rows) && Merge(rest)[v] == Merge(rows)[v] == rows[i]
  {
    hide Beats, Merge;
    var rest := rows[..d] + rows[d + 1..];
    var i' := if i < d then i else i - 1;
    assert forall j | 0 <= j < |rest| :: rest[j] == rows[if j < d then j else j + 1];
    assert FirstBest(rest, v, i');
    assert rows[i] in rows && rest[i'] in rest;
    var a := MergeKeepsFirstBest(rows, v);
    var b := MergeKeepsFirstBest(rest, v);
    FirstBestUnique(rows, v, a, i);
    FirstBestUnique(rest, v, b, i');
  }

  lemma RemoveAbsent(rows: seq<Row>, d: nat, v: int)
    requires d < |rows| && v !in Merge(rows)
    ensures v !in Merge(rows[..d] + rows[d + 1..])
  {
    hide Merge, FirstBest;
    var rest := rows[..d] + rows[d + 1..];
    assert forall r | r in rest :: r in rows;
    var a := MergeKeepsFirstBest(rows, v);
    var b := MergeKeepsFirstBest(rest, v);
  }

  lemma RemoveOther(rows: seq<Row>, d: nat, v: int)
    requires d < |rows| && rows[d].node != v
    ensures var rest := rows[..d] + rows[d + 1..];
      v in Merge(rest) <==> v in Merge(rows)
    ensures v in Merge(rows) ==> Merge(rows[..d] + rows[d + 1..])[v] == Merge(rows)[v]
  {
    hide Merge;
    var i := MergeKeepsFirstBest(rows, v);
    if v in Merge(rows) {
      RemoveUnchosen(rows, d, v, i);
    } else {
      RemoveAbsent(rows, d, v);
    }
  }

  // A row of a sorted list is no better than the row kept for an earlier node of the list.
  lemma KeptBefore(rows: seq<Row>, j: nat, d: nat)
    requires j < |rows| && d < |rows| && RowLe(rows[j], rows[d])
    ensures rows[j].node in Merge(rows) && RowLe(Merge(rows)[rows[j].node], rows[d])
  {
    hide Merge;
    assert rows[j] in rows;
    var i := MergeKeepsFirstBest(rows, rows[j].node);
    assert !Beats(rows[j], rows[i]);
    assert RowLe(rows[i], rows[j]);
  }

  lemma RemoveKeepsOthers(rows: seq<Row>, d: nat)
    requires d < |rows|
    ensures Merge(rows) - {rows[d].node} == Merge(rows[..d] + rows[d + 1..]) - {rows[d].node}
  {
    hide Merge;
    var v := rows[d].node;
    var m, m' := Merge(rows), Merge(rows[..d] + rows[d + 1..]);
    forall u | u != v ensures (u in m <==> u in m') && (u in m ==> m[u] == m'[u]) {
      RemoveOther(rows, d, u);
    }
  }

  // The nodes of a sorted list before position d are all kept ahead of the row at d.
  lemma ListAhead(rows: seq<Row>, lo: nat, d: nat, k: nat) returns (us: seq<int>)
    requires lo + k <= d < |rows| && Sorted(rows[lo..d + 1], RowLe) && DistinctNodes(rows[lo..d + 1])
    ensures |us| == k && Distinct(us)
    ensures forall j | 0 <= j < k :: us[j] != rows[d].node
    ensures forall j | 0 <= j < k :: us[j] in Merge(rows) && RowLe(Merge(rows)[us[j]], rows[d])
  {
    hide Merge, RowLe;
    var list := rows[lo..d + 1];
    assert forall j | 0 <= j <= d - lo :: list[j] == rows[lo + j];
    us := seq(k, j requires 0 <= j < k => list[j].node);
    forall j | 0 <= j < k
      ensures us[j] != rows[d].node && us[j] in Merge(rows) && RowLe(Merge(rows)[us[j]], rows[d])
    {
      assert list[j] == rows[lo + j] && list[d - lo] == rows[d];
      KeptBefore(rows, lo + j, d);
    }
  }

  lemma ChosenDropped(rows: seq<Row>, lo: nat, d: nat, k: nat, s: seq<Row>, t: seq<Row>)
    requires lo + k <= d < |rows| && Sorted(rows[lo..d + 1], RowLe) && DistinctNodes(rows[lo..d + 1])
    requires IsRanked(s, Merge(rows)) && IsRanked(t, Merge(rows[..d] + rows[d + 1..]))
    requires FirstBest(rows, rows[d].node, d) && rows[d].node in Merge(rows) && Merge(rows)[rows[d].node] == rows[d]
    ensures Cut(s, k) == Cut(t, k)
  {
    hide *;
    var v := rows[d].node;
    var m, m' := Merge(rows), Merge(rows[..d] + rows[d + 1..]);
    var us := ListAhead(rows, lo, d, k);
    RemoveKeepsOthers(rows, d);
    if v in m' { NextBest(rows, d, us, m, m'); }
    forall j | 0 <= j < k ensures us[j] in m' && m[us[j]] == m'[us[j]] {
      assert us[j] in m - {v};
      assert (m - {v})[us[j]] == (m' - {v})[us[j]];
    }
    SameTop(s, m, t, m', v, k, us);
  }

  // In a sorted list with distinct nodes, a row after the first k never reaches the top k.
  lemma DropRow(rows: seq<Row>, lo: nat, d: nat, k: nat, s: seq<Row>, t: seq<Row>)
    requires lo + k <= d < |rows| && Sorted(rows[lo..d + 1], RowLe) && DistinctNodes(rows[lo..d + 1])
    requires IsRanked(s, Merge(rows)) && IsRanked(t, Merge(rows[..d] + rows[d + 1..]))
    ensures Cut(s, k) == Cut(t, k)
  {
    hide *;
    var v := rows[d].node;
    var i := MergeKeepsFirstBest(rows, v);
    assert rows[d] in rows;
    if i != d {
      RemoveKeepsOthers(rows, d);
      RemoveUnchosen(rows, d, v, i);
      SameBut(Merge(rows), Merge(rows[..d] + rows[d + 1..]), v);
      RankedUnique(s, t, Merge(rows));
    } else {
      ChosenDropped(rows, lo, d, k, s, t);
    }
  }

  lemma SameBut(m: map<int, Row>, m': map<int, Row>, v: int)
    requires m - {v} == m' - {v} && v in m && v in m' && m[v] == m'[v]
    ensures m == m'
  {
    assert m == (m - {v})[v := m[v]];
    assert m' == (m' - {v})[v := m'[v]];
  }

  // When the chosen row of v is removed, what takes its place ranks no earlier.
  lemma NextBest(rows: seq<Row>, d: nat, us: seq<int>, m: map<int, Row>, m': map<int, Row>)
    requires d < |rows| && m == Merge(rows) && m' == Merge(rows[..d] + rows[d + 1..])
    requires FirstBest(rows, rows[d].node, d) && rows[d].node in m' && rows[d].node in m && m[rows[d].node] == rows[d]
    requires forall j | 0 <= j < |us| :: us[j] in m && RowLe(m[us[j]], rows[d])
    ensures forall j | 0 <= j < |us| :: RowLe(m[us[j]], m'[rows[d].node])
  {
    hide Merge;
    var rest := rows[..d] + rows[d + 1..];
    var b := MergeKeepsFirstBest(rest, rows[d].node);
    assert rest[b] == rows[if b < d then b else b + 1];
    assert RowLe(rows[d], rest[b]);
    RowOrder();
  }

  // ----- the merge theorem -----

  function Concat(lists: seq<seq<Row>>): seq<Row> {
    if |lists| == 0 then [] else lists[0] + Concat(lists[1..])
  }

  function CutEach(lists: seq<seq<Row>>, k: nat): (r: seq<seq<Row>>)
    ensures |r| == |lists|
  {
    if |lists| == 0 then [] else [Cut(lists[0], k)] + CutEach(lists[1..], k)
  }

  lemma {:induction false} CutOne(before: seq<Row>, list: seq<Row>, after: seq<Row>, k: nat, s: seq<Row>, t: seq<Row>)
    requires Sorted(list, RowLe) && DistinctNodes(list)
    requires IsRanked(s, Merge(before + list + after)) && IsRanked(t, Merge(before + Cut(list, k) + after))
    ensures Cut(s, k) == Cut(t, k)
    decreases |list|
  {
    hide Merge, IsRanked, RowLe;
    if |list| <= k {
      assert Cut(list, k) == list;
      RankedUnique(s, t, Merge(before + list + after));
    } else {
      var d := |before| + |list| - 1;
      var rows := before + list + after;
      var shorter := list[..|list| - 1];
      assert rows[|before|..d + 1] == list;
      assert rows[..d] + rows[d + 1..] == before + shorter + after;
      MergeFiled(before + shorter + after);
      var mid := RankedExists(Merge(before + shorter + after));
      DropRow(rows, |before|, d, k, s, mid);
      assert Cut(shorter, k) == Cut(list, k);
      CutOne(before, shorter, after, k, mid, t);
    }
  }

  /** Cutting each seed's results to the top k before merging loses nothing: merging the cut
      lists and cutting gives the list that merging the uncut lists and cutting gives. */
  lemma {:induction false} CutBeforeMerge(before: seq<Row>, lists: seq<seq<Row>>, k: nat, s: seq<Row>, t: seq<Row>)
    requires forall i | 0 <= i < |lists| :: Sorted(lists[i], RowLe) && DistinctNodes(lists[i])
    requires IsRanked(s, Merge(before + Concat(lists))) && IsRanked(t, Merge(before + Concat(CutEach(lists, k))))
    ensures Cut(s, k) == Cut(t, k)
    decreases |lists|
  {
    hide Merge, IsRanked, RowLe;
    if |lists| == 0 {
      RankedUnique(s, t, Merge(before + []));
    } else {
      var l, cut, after := lists[0], Cut(lists[0], k), Concat(lists[1..]);
      assert before + Concat(lists) == before + l + after;
      assert before + Concat(CutEach(lists, k)) == before + cut + Concat(CutEach(lists[1..], k));
      MergeFiled(before + cut + after);
      var mid := RankedExists(Merge(before + cut + after));
      CutOne(before, l, after, k, s, mid);
      CutBeforeMerge(before + cut, lists[1..], k, mid, t);
    }
  }

  /** The merging loop: keep the best row per node over all seeds, sort, cut. */
  method MergeResults(lists: seq<seq<Row>>, k: nat) returns (top: seq<Row>)
    ensures exists s :: IsRanked(s, Merge(Concat(lists))) && top == Cut(s, k)
  {
    hide Merge;
    var all: map<int, Row> := map[];
    ghost var seen: seq<Row> := [];
    assert Merge([]) == map[] by { MergeNothing(); }
    for i := 0 to |lists|
      invariant all == Merge(seen)
      invariant seen + Concat(lists[i..]) == Concat(lists)
    {
      ghost var start := seen;
      for j := 0 to |lists[i]|
        invariant seen == start + lists[i][..j]
        invariant all == Merge(seen)
      {
        var r := lists[i][j];
        MergeSnoc(seen, r);
        if r.node !in all || Beats(r, all[r.node]) {
          all := all[r.node := r];
        }
        seen := seen + [r];
      }
    }
    assert seen == Concat(lists);
    MergeFiled(seen);
    var nodes := Enumerate(all.Keys);
    var rows := [];
    for i := 0 to |nodes|
      invariant |rows| == i && forall j | 0 <= j < i :: rows[j] == all[nodes[j]]
    {
      rows := rows + [all[nodes[i]]];
    }
    SortedValues(all, nodes, rows);
    top := Cut(Sort(rows, RowLe), k);
  }

  lemma MergeNothing()
    ensures Merge([]) == map[]
  {
  }

  lemma MergeSnoc(rows: seq<Row>, r: Row)
    ensures Merge(rows + [r]) == MergeRow(Merge(rows), r)
  {
    assert (rows + [r])[..|rows|] == rows;
  }

  lemma SortedElements(rows: seq<Row>)
    ensures forall r :: r in Sort(rows, RowLe) <==> r in rows
  {
    hide RowLe;
  }

  lemma ValuesDistinct(m: map<int, Row>, nodes: seq<int>, rows: seq<Row>)
    requires Filed(m) && Distinct(nodes) && |rows| == |nodes|
    requires forall j | 0 <= j < |nodes| :: nodes[j] in m && rows[j] == m[nodes[j]]
    ensures Distinct(rows)
    ensures forall r | r in rows :: r.node in m && m[r.node] == r
  {
    assert forall j | 0 <= j < |nodes| :: rows[j].node == nodes[j];
  }

  lemma ListedRanked(s: seq<Row>, rows: seq<Row>, m: map<int, Row>)
    requires Filed(m) && Sorted(s, RowLe) && Distinct(s) && forall r :: r in s <==> r in rows
    requires (forall r | r in rows :: r.node in m && m[r.node] == r) && forall v | v in m :: m[v] in rows
    ensures IsRanked(s, m)
  {
    hide RowLe;
    forall i | 0 <= i < |s| ensures s[i].node in m && m[s[i].node] == s[i] {
      assert s[i] in s;
    }
    KeyedNodesDistinct(s, m);
  }

  // Sorting the values of a dictionary, in whatever order they come, ranks it.
  lemma SortedValues(m: map<int, Row>, nodes: seq<int>, rows: seq<Row>)
    requires Filed(m) && Distinct(nodes) && (forall v :: v in nodes <==> v in m)
    requires |rows| == |nodes| && forall j | 0 <= j < |nodes| :: nodes[j] in m && rows[j] == m[nodes[j]]
    ensures IsRanked(Sort(rows, RowLe), m)
  {
    ValuesDistinct(m, nodes, rows);
    ValuesListed(m, nodes, rows);
    hide *;
    RowOrder();
    SortSorts(rows, RowLe);
    SortDistinct(rows, RowLe);
    SortedElements(rows);
    ListedRanked(Sort(rows, RowLe), rows, m);
  }

  lemma ValuesListed(m: map<int, Row>, nodes: seq<int>, rows: seq<Row>)
    requires (forall v :: v in nodes <==> v in m) && |rows| == |nodes|
    requires forall j | 0 <= j < |nodes| :: nodes[j] in m && rows[j] == m[nodes[j]]
    ensures forall v | v in m :: m[v] in rows
  {
    forall v | v in m ensures m[v] in rows {
      assert v in nodes;
      var j :| 0 <= j < |nodes| && nodes[j] == v;
      assert rows[j] in rows;
    }
  }
}
