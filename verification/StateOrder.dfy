/** The canonical form of a state: records by id, edges by key. One state has one such payload,
    so its digest does not depend on the order in which anything was committed or reloaded. */
module StateOrder {
  import opened Common
  import opened WalFormat
  import opened Replay
  import opened DurableMachine
  import opened Sorting

  // Strings by code point.
  function StringLe(a: string, b: string): bool {
    if |a| == 0 then true
    else if |b| == 0 then false
    else if a[0] != b[0] then a[0] < b[0]
    else StringLe(a[1..], b[1..])
  }

  /** By code point: after the common part, the first string ends or has no greater character. */
  lemma {:induction false} StringLeIff(a: string, b: string)
    ensures StringLe(a, b) <==> exists k | 0 <= k <= |a| && k <= |b| :: a[..k] == b[..k] && EndsAt(a, b, k)
    decreases |a|
  {
    if |a| > 0 && |b| > 0 && a[0] == b[0] {
      StringLeIff(a[1..], b[1..]);
      if k :| 0 <= k <= |a[1..]| && k <= |b[1..]| && a[1..][..k] == b[1..][..k] && EndsAt(a[1..], b[1..], k) {
        assert a[..k + 1] == [a[0]] + a[1..][..k] && b[..k + 1] == [b[0]] + b[1..][..k];
        assert EndsAt(a, b, k + 1);
      }
      if k :| 0 <= k <= |a| && k <= |b| && a[..k] == b[..k] && EndsAt(a, b, k) {
        assert a[1..][..k - 1] == a[..k][1..] && b[1..][..k - 1] == b[..k][1..];
        assert EndsAt(a[1..], b[1..], k - 1);
      }
    } else {
      assert a[..0] == b[..0];
      assert EndsAt(a, b, 0) <==> StringLe(a, b);
      if k :| 0 <= k <= |a| && k <= |b| && a[..k] == b[..k] && EndsAt(a, b, k) {
        SameStart(a, b, k);
      }
    }
  }

  // What decides the order of two strings that agree up to k: the end of the first, or a smaller character.
  ghost predicate EndsAt(a: string, b: string, k: nat)
    requires k <= |a| && k <= |b|
  {
    k == |a| || (k < |b| && a[k] < b[k])
  }

  lemma SameStart(a: string, b: string, k: nat)
    requires k <= |a| && k <= |b| && a[..k] == b[..k]
    ensures k > 0 ==> a[0] == b[0]
  {
    if k > 0 { assert a[..k][0] == b[..k][0]; }
  }

  function RecordLe(a: Record, b: Record): bool { StringLe(a.recordId, b.recordId) }

  // DurableEdge.key(): source, target, type, weight in millionths.
  function EdgeLe(a: Edge, b: Edge): bool {
    if a.src != b.src then a.src < b.src
    else if a.dst != b.dst then a.dst < b.dst
    else if a.edgeType != b.edgeType then a.edgeType < b.edgeType
    else a.weight <= b.weight
  }

  lemma {:induction false} StringLeTotal(a: string, b: string)
    ensures StringLe(a, b) || StringLe(b, a)
    ensures StringLe(a, b) && StringLe(b, a) ==> a == b
  {
    if |a| > 0 && |b| > 0 && a[0] == b[0] {
      StringLeTotal(a[1..], b[1..]);
      assert a == [a[0]] + a[1..] && b == [b[0]] + b[1..];
    }
  }

  lemma {:induction false} StringLeTransitive(a: string, b: string, c: string)
    requires StringLe(a, b) && StringLe(b, c)
    ensures StringLe(a, c)
  {
    if |a| > 0 && a[0] == b[0] == c[0] { StringLeTransitive(a[1..], b[1..], c[1..]); }
  }

  /** Records tie only on their id, and ids are totally ordered. */
  lemma RecordOrder()
    ensures TotalPreorder(RecordLe)
    ensures forall a, b :: RecordLe(a, b) && RecordLe(b, a) ==> a.recordId == b.recordId
  {
    forall a, b ensures RecordLe(a, b) || RecordLe(b, a)
      ensures RecordLe(a, b) && RecordLe(b, a) ==> a.recordId == b.recordId
    {
      StringLeTotal(a.recordId, b.recordId);
    }
    forall a, b, c | RecordLe(a, b) && RecordLe(b, c) ensures RecordLe(a, c) {
      StringLeTransitive(a.recordId, b.recordId, c.recordId);
    }
  }

  lemma EdgeOrder()
    ensures TotalPreorder(EdgeLe)
    ensures forall a, b :: EdgeLe(a, b) && EdgeLe(b, a) ==> a == b
  {
  }

  // The edges of a set in key order: the one sequence the merged graph adds them in.
  ghost predicate EdgesInOrder(s: seq<Edge>, edges: set<Edge>) {
    && Distinct(s) && Sorted(s, EdgeLe)
    && forall e :: e in s <==> e in edges
  }

  /** There is only one such sequence: the merged graph does not depend on the order in
      which edges were committed or reloaded. */
  lemma EdgeOrderUnique(a: seq<Edge>, b: seq<Edge>, edges: set<Edge>)
    requires EdgesInOrder(a, edges) && EdgesInOrder(b, edges)
    ensures a == b
  {
    EdgeOrder();
    SortedUnique(a, b, EdgeLe);
  }

  /** In it sources ascend, targets within a source, types within a pair, and weights within those. */
  lemma EdgesAscend(s: seq<Edge>, edges: set<Edge>, i: nat, j: nat)
    requires EdgesInOrder(s, edges) && i < j < |s|
    ensures s[i].src <= s[j].src
    ensures s[i].src == s[j].src ==> s[i].dst <= s[j].dst
    ensures s[i].src == s[j].src && s[i].dst == s[j].dst ==> s[i].edgeType <= s[j].edgeType
    ensures s[i].src == s[j].src && s[i].dst == s[j].dst && s[i].edgeType == s[j].edgeType ==> s[i].weight < s[j].weight
  {
    assert EdgeLe(s[i], s[j]);
  }

  // The records filed under their own id, once each, by id.
  ghost predicate RecordsInOrder(s: seq<Record>, records: map<string, Record>) {
    && Distinct(s) && Sorted(s, RecordLe)
    && forall r :: r in s <==> r.recordId in records && records[r.recordId] == r
  }

  lemma RecordOrderUnique(a: seq<Record>, b: seq<Record>, records: map<string, Record>)
    requires RecordsInOrder(a, records) && RecordsInOrder(b, records)
    ensures a == b
  {
    RecordOrder();
    hide RecordLe;
    SortedUnique(a, b, RecordLe);
  }

  // The payload of a state: what is digested, and what a checkpoint stores.
  ghost predicate IsPayload(recs: seq<Record>, es: seq<Edge>, st: State) {
    RecordsInOrder(recs, st.records) && EdgesInOrder(es, st.edges)
  }

  // state_sha256 of a state.
  ghost predicate IsStateSha(p: Primitives, st: State, sha: Bytes) {
    exists recs, es :: IsPayload(recs, es, st) && sha == p.sha256(p.encodeState(recs, es, st.txids))
  }

  /** A state has at most one payload, hence at most one digest. */
  lemma PayloadUnique(p: Primitives, st: State, recs: seq<Record>, es: seq<Edge>, sha: Bytes)
    requires IsPayload(recs, es, st) && IsStateSha(p, st, sha)
    ensures sha == p.sha256(p.encodeState(recs, es, st.txids))
    ensures forall recs', es' | IsPayload(recs', es', st) :: recs' == recs && es' == es
  {
    hide RecordsInOrder, EdgesInOrder;
    forall recs', es' | IsPayload(recs', es', st) ensures recs' == recs && es' == es {
      RecordOrderUnique(recs', recs, st.records);
      EdgeOrderUnique(es', es, st.edges);
    }
  }

  /** Two checkpoints of one state at one LSN, each written from a payload, are the same document. */
  lemma CheckpointsAgree(p: Primitives, a: Checkpoint, b: Checkpoint, st: State, lsn: int)
    requires Describes(p, a, st, lsn) && IsPayload(a.records, a.edges, st)
    requires Describes(p, b, st, lsn) && IsPayload(b.records, b.edges, st)
    ensures a == b
  {
    assert IsStateSha(p, st, b.stateSha);
    PayloadUnique(p, st, a.records, a.edges, b.stateSha);
  }
}
