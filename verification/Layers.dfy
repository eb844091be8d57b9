/** The layering all G1/G2 models share: a rule answers every cell (G1), an exception map
    overrides it (G2), and patches override both (G4). */
module Layers {

  // The value the layers show at a cell.
  function View<V>(patches: map<int, V>, exceptions: map<int, V>, rule: int -> V, k: int): V {
    if k in patches then patches[k]
    else if k in exceptions then exceptions[k]
    else rule(k)
  }

  // ----- last writer wins -----

  // A write to a cell.
  datatype Write<V> = Write(cell: int, value: V)

  function LastWriter<V>(ws: seq<Write<V>>): map<int, V> {
    if |ws| == 0 then map[]
    else LastWriter(ws[..|ws| - 1])[ws[|ws| - 1].cell := ws[|ws| - 1].value]
  }

  lemma LastWriterSnoc<V>(ws: seq<Write<V>>, w: Write<V>)
    ensures LastWriter(ws + [w]) == LastWriter(ws)[w.cell := w.value]
  {
    assert (ws + [w])[..|ws|] == ws;
  }

  lemma {:induction false} LastWriterAppend<V>(a: seq<Write<V>>, b: seq<Write<V>>)
    ensures LastWriter(a + b) == LastWriter(a) + LastWriter(b)
    decreases |b|
  {
    if |b| == 0 {
      assert a + b == a;
      assert LastWriter(a) + map[] == LastWriter(a);
    } else {
      LastWriterAppend(a, b[..|b| - 1]);
      assert (a + b)[..|a + b| - 1] == a + b[..|b| - 1];
    }
  }

  /** The overlay holds a cell iff some write names it, and then the value of the last such write. */
  lemma {:induction false} LastWriterWins<V>(ws: seq<Write<V>>, k: int)
    ensures k in LastWriter(ws) <==> exists i :: 0 <= i < |ws| && ws[i].cell == k
    ensures forall i | 0 <= i < |ws| && ws[i].cell == k && (forall j | i < j < |ws| :: ws[j].cell != k) ::
      LastWriter(ws)[k] == ws[i].value
  {
    if |ws| > 0 {
      var init := ws[..|ws| - 1];
      LastWriterWins(init, k);
      assert forall i :: 0 <= i < |init| ==> init[i] == ws[i];
      if ws[|ws| - 1].cell == k {
      } else if k in LastWriter(init) {
        var i :| 0 <= i < |init| && init[i].cell == k;
        assert ws[i].cell == k;
      }
    }
  }

  // ----- compaction -----

  // The cells a compaction looks at, and the exceptions it keeps: views that differ from the rule.
  function Candidates<V>(overlay: map<int, V>, exceptions: map<int, V>): set<int> {
    exceptions.Keys + overlay.Keys
  }

  function Compacted<V(==)>(overlay: map<int, V>, exceptions: map<int, V>, rule: int -> V): map<int, V> {
    map k | k in Candidates(overlay, exceptions) && View(overlay, exceptions, rule, k) != rule(k)
      :: View(overlay, exceptions, rule, k)
  }

  /** Compaction keeps the view of every cell, and keeps as exceptions exactly the cells whose view
      differs from the rule. */
  lemma CompactedKeepsView<V>(overlay: map<int, V>, exceptions: map<int, V>, rule: int -> V, k: int)
    ensures View(map[], Compacted(overlay, exceptions, rule), rule, k) == View(overlay, exceptions, rule, k)
    ensures k in Compacted(overlay, exceptions, rule) <==> View(overlay, exceptions, rule, k) != rule(k)
  {
  }

  lemma CompactedAt<V>(overlay: map<int, V>, exceptions: map<int, V>, rule: int -> V, k: int)
    requires k in Candidates(overlay, exceptions)
    ensures k in Compacted(overlay, exceptions, rule) <==> View(overlay, exceptions, rule, k) != rule(k)
    ensures k in Compacted(overlay, exceptions, rule) ==>
      Compacted(overlay, exceptions, rule)[k] == View(overlay, exceptions, rule, k)
  {
  }

  lemma CompactedInside<V>(overlay: map<int, V>, exceptions: map<int, V>, rule: int -> V)
    ensures forall k | k in Compacted(overlay, exceptions, rule) :: k in Candidates(overlay, exceptions)
  {
  }

  /** Compaction is canonical: two states compact to the same map iff they show the same view. */
  lemma CompactedCanonical<V>(o1: map<int, V>, e1: map<int, V>, o2: map<int, V>, e2: map<int, V>, rule: int -> V)
    ensures Compacted(o1, e1, rule) == Compacted(o2, e2, rule) <==>
      (forall k :: View(o1, e1, rule, k) == View(o2, e2, rule, k))
  {
    if Compacted(o1, e1, rule) == Compacted(o2, e2, rule) {
      forall k ensures View(o1, e1, rule, k) == View(o2, e2, rule, k) {
        CompactedKeepsView(o1, e1, rule, k);
        CompactedKeepsView(o2, e2, rule, k);
      }
    }
    if forall k :: View(o1, e1, rule, k) == View(o2, e2, rule, k) {
      forall k ensures k in Compacted(o1, e1, rule) <==> k in Compacted(o2, e2, rule) {
        CompactedKeepsView(o1, e1, rule, k);
        CompactedKeepsView(o2, e2, rule, k);
      }
    }
  }

  // The part of a dictionary on some keys, as a loop over them has built it so far.
  function Restrict<V>(m: map<int, V>, ks: seq<int>): map<int, V> {
    map k | k in m && k in ks :: m[k]
  }

  lemma NoKeys<V>(m: map<int, V>)
    ensures Restrict(m, []) == map[]
  {
  }

  lemma RestrictSnoc<V>(m: map<int, V>, ks: seq<int>, k: int)
    requires k !in ks
    ensures k !in Restrict(m, ks)
    ensures Restrict(m, ks + [k]) == if k in m then Restrict(m, ks)[k := m[k]] else Restrict(m, ks)
  {
  }

  lemma RestrictAll<V>(m: map<int, V>, ks: seq<int>)
    requires forall k | k in m :: k in ks
    ensures Restrict(m, ks) == m
  {
    var r := Restrict(m, ks);
    assert forall k :: k in r <==> k in m && k in ks;
    assert forall k :: k in m <==> k in r;
  }

  // ----- dictionaries as sorted item lists -----

  function Items<V>(m: map<int, V>, keys: seq<int>): seq<Write<V>>
    requires forall i | 0 <= i < |keys| :: keys[i] in m
  {
    seq(|keys|, i requires 0 <= i < |keys| => Write(keys[i], m[keys[i]]))
  }

  /** Rebuilding a dictionary from its items gives it back. */
  lemma ItemsBack<V>(m: map<int, V>, keys: seq<int>)
    requires (forall i | 0 <= i < |keys| :: keys[i] in m) && forall k | k in m :: k in keys
    ensures LastWriter(Items(m, keys)) == m
  {
    var items := Items(m, keys);
    forall k ensures k in LastWriter(items) <==> k in m
      ensures k in m ==> LastWriter(items)[k] == m[k]
    {
      LastWriterWins(items, k);
      if k in m {
        var i :| 0 <= i < |keys| && keys[i] == k;
        assert items[i].cell == k;
      } else {
        assert forall i :: 0 <= i < |items| ==> items[i].cell == keys[i];
      }
      LastValues(items, m, k);
    }
  }

  lemma {:induction false} LastValues<V>(ws: seq<Write<V>>, m: map<int, V>, k: int)
    requires forall i | 0 <= i < |ws| :: ws[i].cell in m && m[ws[i].cell] == ws[i].value
    ensures k in LastWriter(ws) ==> k in m && LastWriter(ws)[k] == m[k]
  {
    if |ws| > 0 { LastValues(ws[..|ws| - 1], m, k); }
  }
}
