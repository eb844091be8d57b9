/** Loading a checkpoint gives back the state it describes. */
module CheckpointLoading {
  import opened Common
  import opened WalFormat
  import opened Replay
  import opened DurableMachine

  // Every record is filed under its own id and carries the digest of its payload.
  ghost predicate Keyed(p: Primitives, st: State) {
    forall id | id in st.records ::
      && st.records[id].recordId == id
      && p.sha256(st.records[id].payload) == st.records[id].sha
  }

  lemma {:induction false} ApplyOpsKeyed(p: Primitives, st: State, ops: seq<Op>)
    requires Keyed(p, st) && ApplyOps(p, st, ops).Ok?
    ensures Keyed(p, ApplyOps(p, st, ops).value)
    decreases |ops|
  {
    if |ops| > 0 { ApplyOpsKeyed(p, st, ops[..|ops| - 1]); }
  }

  lemma ReplayEntryKeyed(p: Primitives, r: Recovering, e: Entry)
    requires Keyed(p, r.st) && ReplayEntry(p, 0, r, e).Ok?
    ensures Keyed(p, ReplayEntry(p, 0, r, e).value.st)
  {
    hide ApplyOps, Keyed;
    if e.body.Commit? && ApplyOps(p, r.st, r.pending[e.txid]).Ok? {
      var st := ApplyOps(p, r.st, r.pending[e.txid]).value;
      ApplyOpsKeyed(p, r.st, r.pending[e.txid]);
      KeyedIgnoresTxids(p, st, st.txids + {e.txid});
    }
  }

  lemma KeyedIgnoresTxids(p: Primitives, st: State, txids: set<string>)
    requires Keyed(p, st)
    ensures Keyed(p, st.(txids := txids))
  {
  }

  lemma {:induction false} ReplayKeyed(p: Primitives, es: seq<Entry>)
    requires FullReplay(p, es).Ok?
    ensures Keyed(p, FullReplay(p, es).value.st)
    decreases |es|
  {
    hide ReplayEntry;
    if |es| > 0 {
      ReplayKeyed(p, es[..|es| - 1]);
      ReplayEntryKeyed(p, FullReplay(p, es[..|es| - 1]).value, es[|es| - 1]);
    }
  }

  // The part of a dictionary of records that a list has loaded.
  ghost function Loaded(st: State, rs: seq<Record>): map<string, Record> {
    map id | id in st.records && st.records[id] in rs :: st.records[id]
  }

  lemma {:induction false} LoadRecords(p: Primitives, st: State, rs: seq<Record>)
    requires Keyed(p, st)
    requires forall r | r in rs :: r.recordId in st.records && st.records[r.recordId] == r
    ensures ApplyOps(p, EMPTY, RecordOps(rs)) == Ok(EMPTY.(records := Loaded(st, rs)))
    decreases |rs|
  {
    if |rs| == 0 {
      assert Loaded(st, rs) == map[];
    } else {
      var init, r := rs[..|rs| - 1], rs[|rs| - 1];
      LoadRecords(p, st, init);
      assert RecordOps(rs)[..|rs| - 1] == RecordOps(init);
      assert RecordOps(rs)[|rs| - 1] == PutRecord(r);
      assert Loaded(st, rs) == Loaded(st, init)[r.recordId := r];
    }
  }

  lemma {:induction false} LoadEdges(p: Primitives, st: State, ops: seq<Op>, es: seq<Edge>)
    requires ApplyOps(p, EMPTY, ops) == Ok(st)
    ensures ApplyOps(p, EMPTY, ops + EdgeOps(es)) == Ok(st.(edges := st.edges + set e | e in es))
    decreases |es|
  {
    if |es| == 0 {
      assert ops + EdgeOps(es) == ops;
      assert st.edges + (set e | e in es) == st.edges;
    } else {
      var init, e := es[..|es| - 1], es[|es| - 1];
      LoadEdges(p, st, ops, init);
      var all := ops + EdgeOps(es);
      assert all[..|all| - 1] == ops + EdgeOps(init);
      assert all[|all| - 1] == PutEdge(e);
      assert st.edges + (set x | x in es) == st.edges + (set x | x in init) + {e};
    }
  }

  /** A checkpoint document restores exactly the state it was taken of. */
  lemma CheckpointRestores(p: Primitives, cp: Checkpoint, st: State, lsn: int)
    requires Keyed(p, st) && Describes(p, cp, st, lsn)
    ensures LoadCheckpoint(p, Some(cp)) == Ok((st, lsn))
  {
    hide ApplyOps, RecordOps, EdgeOps;
    LoadRecords(p, st, cp.records);
    var loaded := EMPTY.(records := Loaded(st, cp.records));
    LoadEdges(p, loaded, RecordOps(cp.records), cp.edges);
    assert Loaded(st, cp.records) == st.records;
    assert {} + (set e | e in cp.edges) == st.edges;
  }

  // ----- a checkpoint of any state -----

  lemma {:induction false} Enumerated<T>(s: set<T>) returns (q: seq<T>)
    ensures forall x :: x in q <==> x in s
    decreases s
  {
    if x :| x in s {
      q := Enumerated(s - {x});
      q := q + [x];
    } else {
      q := [];
    }
  }

  /** Every state of filed records has a checkpoint that describes it. */
  lemma SomeCheckpoint(p: Primitives, st: State, lsn: int) returns (cp: Checkpoint)
    requires Keyed(p, st)
    ensures Describes(p, cp, st, lsn)
  {
    var recs := Enumerated(st.records.Values);
    var es := Enumerated(st.edges);
    forall r: Record ensures r in recs <==> r.recordId in st.records && st.records[r.recordId] == r {
      if r in st.records.Values {
        var id :| id in st.records && st.records[id] == r;
        assert r.recordId == id;
      }
    }
    cp := Checkpoint(recs, es, st.txids, lsn, p.sha256(p.encodeState(recs, es, st.txids)));
  }
}
