/** Iterating over dictionaries in key order, and building them from item lists. */
module Dictionaries {
  import opened Layers
  import opened Sorting

  ghost predicate Increasing(ks: seq<int>) {
    forall i, j | 0 <= i < j < |ks| :: ks[i] < ks[j]
  }

  ghost predicate IncreasingCells<V>(ws: seq<Write<V>>) {
    forall i, j | 0 <= i < j < |ws| :: ws[i].cell < ws[j].cell
  }

  method SortedKeys(s: set<int>) returns (ks: seq<int>)
    ensures Increasing(ks) && forall k :: k in ks <==> k in s
  {
    var le := (x: int, y: int) => x <= y;
    var raw := Enumerate(s);
    ks := Sort(raw, le);
    SortSorts(raw, le);
    SortDistinct(raw, le);
    forall i, j | 0 <= i < j < |ks| ensures ks[i] < ks[j] {
      assert le(ks[i], ks[j]) && ks[i] != ks[j];
    }
  }

  method SortedItems<V>(m: map<int, V>) returns (ws: seq<Write<V>>)
    ensures IncreasingCells(ws) && LastWriter(ws) == m
  {
    var ks := SortedKeys(m.Keys);
    assert forall i | 0 <= i < |ks| :: ks[i] in ks;
    ws := Items(m, ks);
    ItemsBack(m, ks);
  }

  // dict(items): later items win.
  method Collect<V>(ws: seq<Write<V>>) returns (m: map<int, V>)
    ensures m == LastWriter(ws)
  {
    m := map[];
    for i := 0 to |ws|
      invariant m == LastWriter(ws[..i])
    {
      assert ws[..i + 1][..i] == ws[..i];
      m := m[ws[i].cell := ws[i].value];
    }
    assert ws[..|ws|] == ws;
  }

  lemma {:induction false} KeyCount(ks: seq<int>, s: set<int>)
    requires Increasing(ks) && forall k :: k in ks <==> k in s
    ensures |ks| == |s|
  {
    if |ks| > 0 {
      var last := ks[|ks| - 1];
      var init := ks[..|ks| - 1];
      assert last in ks;
      forall k ensures k in init <==> k in s - {last} {
        assert k in ks <==> k in init || k == last;
      }
      KeyCount(init, s - {last});
    } else {
      assert forall k :: k in s ==> k in ks;
      assert s == {};
    }
  }

  lemma FirstUse(ks: seq<int>, i: nat)
    requires Increasing(ks) && i < |ks|
    ensures ks[i] !in ks[..i] && ks[i] in ks
  {
  }
}
