/** Which operations and which logs durable_runtime.py accepts, said entry by entry, and what the accepted
    ones leave. */
module ReplayMeaning {
  import opened Common
  import opened WalFormat
  import opened Replay
  import opened DurableMachine
  import opened DurableSafety

  // ----- operations -----

  // The record that operation i puts is not the one its checksum was taken of.
  ghost predicate Forged(p: Primitives, ops: seq<Op>, i: nat)
    requires i < |ops|
  {
    ops[i].PutRecord? && p.sha256(ops[i].record.payload) != ops[i].record.sha
  }

  // It differs from a record of the same id that the state holds or that was put before it.
  ghost predicate Conflicting(st: State, ops: seq<Op>, i: nat)
    requires i < |ops|
  {
    ops[i].PutRecord? &&
    var r := ops[i].record;
    || (r.recordId in st.records && st.records[r.recordId] != r)
    || exists j | 0 <= j < i :: ops[j].PutRecord? && ops[j].record.recordId == r.recordId && ops[j].record != r
  }

  ghost predicate Clean(p: Primitives, st: State, ops: seq<Op>) {
    forall i | 0 <= i < |ops| :: !Forged(p, ops, i) && !Conflicting(st, ops, i)
  }

  // The state holds what it held, and the records and edges put.
  ghost predicate Holds(st: State, ops: seq<Op>, st': State) {
    && (forall r: Record :: (r.recordId in st'.records && st'.records[r.recordId] == r) <==>
          (r.recordId in st.records && st.records[r.recordId] == r) || PutRecord(r) in ops)
    && (forall id | id in st'.records && st'.records[id].recordId != id :: id in st.records && st.records[id] == st'.records[id])
    && (forall e :: e in st'.edges <==> e in st.edges || PutEdge(e) in ops)
    && st'.txids == st.txids
  }

  // Records stand under their own ids.
  ghost predicate Keyed(st: State) {
    forall id | id in st.records :: st.records[id].recordId == id
  }

  lemma CleanSnoc(p: Primitives, st: State, ops: seq<Op>)
    requires |ops| > 0
    ensures Clean(p, st, ops) <==>
      Clean(p, st, ops[..|ops| - 1]) && !Forged(p, ops, |ops| - 1) && !Conflicting(st, ops, |ops| - 1)
  {
    var init := ops[..|ops| - 1];
    forall i | 0 <= i < |init|
      ensures Forged(p, init, i) == Forged(p, ops, i) && Conflicting(st, init, i) == Conflicting(st, ops, i)
    {
      assert forall j | 0 <= j < i :: init[j] == ops[j];
    }
  }

  /** Operations apply exactly when none is forged and none conflicts, and then the state holds exactly what it
      held and what they put. */
  lemma {:induction false} AppliesIff(p: Primitives, st: State, ops: seq<Op>)
    requires Keyed(st)
    ensures ApplyOps(p, st, ops).Ok? <==> Clean(p, st, ops)
    ensures ApplyOps(p, st, ops).Ok? ==> Keyed(ApplyOps(p, st, ops).value) && Holds(st, ops, ApplyOps(p, st, ops).value)
    decreases |ops|
  {
    if |ops| > 0 {
      var init, op := ops[..|ops| - 1], ops[|ops| - 1];
      assert ops == init + [op];
      AppliesIff(p, st, init);
      CleanSnoc(p, st, ops);
      hide Clean;
      if ApplyOps(p, st, init).Ok? { LastApplies(p, st, init, op); }
    }
  }

  lemma LastApplies(p: Primitives, st: State, init: seq<Op>, op: Op)
    requires ApplyOps(p, st, init).Ok? && Keyed(st)
    requires var mid := ApplyOps(p, st, init).value; Keyed(mid) && Holds(st, init, mid)
    ensures var mid := ApplyOps(p, st, init).value; var ops := init + [op];
      && (ApplyOp(p, mid, op).Ok? <==> !Forged(p, ops, |init|) && !Conflicting(st, ops, |init|))
      && (ApplyOp(p, mid, op).Ok? ==> Keyed(ApplyOp(p, mid, op).value) && Holds(st, ops, ApplyOp(p, mid, op).value))
  {
    hide ApplyOps;
    var mid, ops := ApplyOps(p, st, init).value, init + [op];
    if op.PutRecord? {
      var r := op.record;
      var held := r.recordId in mid.records && mid.records[r.recordId] != r;
      if held {
        var there := mid.records[r.recordId];
        if PutRecord(there) in init {
          var j :| 0 <= j < |init| && init[j] == PutRecord(there);
          assert ops[j] == init[j];
        }
        assert Conflicting(st, ops, |init|);
      }
    }
  }

  // ----- checkpoint documents -----

  /** A checkpoint loads exactly when its checksum is that of its state, every record carries its own checksum
      and no id has two different records; then it gives back exactly its records, edges and ids. */
  lemma LoadsIff(p: Primitives, cp: Checkpoint)
    ensures LoadCheckpoint(p, Some(cp)).Ok? <==>
      && cp.stateSha == p.sha256(p.encodeState(cp.records, cp.edges, cp.txids))
      && (forall r | r in cp.records :: p.sha256(r.payload) == r.sha)
      && (forall r, s | r in cp.records && s in cp.records && r.recordId == s.recordId :: r == s)
    ensures LoadCheckpoint(p, Some(cp)).Ok? ==>
      var (st, lsn) := LoadCheckpoint(p, Some(cp)).value;
      && (forall r: Record :: (r.recordId in st.records && st.records[r.recordId] == r) <==> r in cp.records)
      && (forall id | id in st.records :: st.records[id].recordId == id)
      && (forall e :: e in st.edges <==> e in cp.edges)
      && st.txids == cp.txids && lsn == cp.lastApplied
  {
    var ops := RecordOps(cp.records) + EdgeOps(cp.edges);
    AppliesIff(p, EMPTY, ops);
    DocumentClean(p, cp);
    forall r: Record ensures PutRecord(r) in ops <==> r in cp.records {
      if r in cp.records {
        var i :| 0 <= i < |cp.records| && cp.records[i] == r;
        assert ops[i] == PutRecord(r);
      }
    }
    forall e: Edge ensures PutEdge(e) in ops <==> e in cp.edges {
      if e in cp.edges {
        var i :| 0 <= i < |cp.edges| && cp.edges[i] == e;
        assert ops[|cp.records| + i] == PutEdge(e);
      }
    }
    hide ApplyOps, Clean;
  }

  lemma DocumentClean(p: Primitives, cp: Checkpoint)
    ensures Clean(p, EMPTY, RecordOps(cp.records) + EdgeOps(cp.edges)) <==>
      && (forall r | r in cp.records :: p.sha256(r.payload) == r.sha)
      && (forall r, s | r in cp.records && s in cp.records && r.recordId == s.recordId :: r == s)
  {
    var rs := cp.records;
    var ops := RecordOps(rs) + EdgeOps(cp.edges);
    assert forall i | 0 <= i < |rs| :: ops[i] == PutRecord(rs[i]);
    assert forall i | |rs| <= i < |ops| :: ops[i].PutEdge?;
    if Clean(p, EMPTY, ops) {
      forall r | r in rs ensures p.sha256(r.payload) == r.sha {
        var i :| 0 <= i < |rs| && rs[i] == r;
        assert !Forged(p, ops, i);
      }
      forall r, s | r in rs && s in rs && r.recordId == s.recordId ensures r == s {
        var i :| 0 <= i < |rs| && rs[i] == r;
        var j :| 0 <= j < |rs| && rs[j] == s;
        assert !Conflicting(EMPTY, ops, if i < j then j else i);
        assert ops[i] == PutRecord(r) && ops[j] == PutRecord(s);
      }
    }
  }

  // ----- logs -----

  // Among the first i entries, one of transaction t begins or commits it.
  ghost predicate Began(es: seq<Entry>, i: nat, t: string)
    requires i <= |es|
  {
    exists j | 0 <= j < i :: es[j].txid == t && es[j].body.Begin?
  }

  ghost predicate Ended(es: seq<Entry>, i: nat, t: string)
    requires i <= |es|
  {
    exists j | 0 <= j < i :: es[j].txid == t && es[j].body.Commit?
  }

  // Entry i may stand where it stands: a transaction begins once, puts and commits while it is open, and its
  // commit names the number of its operations.
  ghost predicate InOrder(es: seq<Entry>, i: nat)
    requires i < |es|
  {
    var t := es[i].txid;
    t != "" &&
    match es[i].body
    case Begin => !Began(es, i, t)
    case Put(_) => Began(es, i, t) && !Ended(es, i, t)
    case Commit(n) => Began(es, i, t) && !Ended(es, i, t) && n == |OpsOf(es[..i], t)|
    case Unknown => false
  }

  ghost predicate Orderly(es: seq<Entry>) {
    forall i | 0 <= i < |es| :: InOrder(es, i)
  }

  lemma InOrderPrefix(es: seq<Entry>, k: nat, i: nat)
    requires i < k <= |es|
    ensures InOrder(es[..k], i) == InOrder(es, i)
  {
    assert es[..k][..i] == es[..i];
    assert forall j | 0 <= j <= i :: es[..k][j] == es[j];
  }

  lemma OrderlySnoc(es: seq<Entry>)
    requires |es| > 0
    ensures Orderly(es) <==> Orderly(es[..|es| - 1]) && InOrder(es, |es| - 1)
  {
    hide InOrder;
    var n := |es| - 1;
    assert |es[..n]| == n;
    forall i | 0 <= i < n ensures InOrder(es[..n], i) == InOrder(es, i) { InOrderPrefix(es, n, i); }
    if Orderly(es[..n]) && InOrder(es, n) {
      forall i | 0 <= i < |es| ensures InOrder(es, i) { if i < n { assert InOrder(es[..n], i); } }
    }
  }

  // What replay remembers of the ids.
  ghost predicate Remembers(es: seq<Entry>, r: Recovering) {
    && (forall t :: t in r.begun <==> Began(es, |es|, t))
    && (forall t :: t in r.pending <==> Began(es, |es|, t) && !Ended(es, |es|, t))
  }

  lemma BeganSnoc(init: seq<Entry>, e: Entry, t: string)
    ensures Began(init + [e], |init| + 1, t) <==> Began(init, |init|, t) || (e.txid == t && e.body.Begin?)
    ensures Ended(init + [e], |init| + 1, t) <==> Ended(init, |init|, t) || (e.txid == t && e.body.Commit?)
    ensures Began(init + [e], |init|, t) <==> Began(init, |init|, t)
    ensures Ended(init + [e], |init|, t) <==> Ended(init, |init|, t)
  {
    var es := init + [e];
    assert es[|init|] == e;
    assert forall j | 0 <= j < |init| :: es[j] == init[j];
  }

  // A transaction that is committed was begun.
  lemma {:induction false} EndedBegan(es: seq<Entry>, t: string)
    requires Orderly(es) && Ended(es, |es|, t)
    ensures Began(es, |es|, t)
  {
    var j :| 0 <= j < |es| && es[j].txid == t && es[j].body.Commit?;
    assert InOrder(es, j);
  }

  /** A log replays from nothing exactly when its entries are in order and the transactions it commits apply one
      after another. */
  lemma {:induction false} ReplaysIff(p: Primitives, es: seq<Entry>)
    requires forall i | 0 <= i < |es| :: 0 < es[i].lsn
    ensures FullReplay(p, es).Ok? <==> Orderly(es) && Fold(p, CommittedTxs(es)).Ok?
    ensures FullReplay(p, es).Ok? ==> Remembers(es, FullReplay(p, es).value)
    decreases |es|
  {
    hide OpsOf, Committed, Orderly;
    if |es| > 0 {
      var init, e := es[..|es| - 1], es[|es| - 1];
      assert es == init + [e];
      ReplaysIff(p, init);
      OrderlySnoc(es);
      FoldSnoc(p, es);
      if FullReplay(p, init).Ok? {
        ReplayIsFold(p, init);
        ReplayConsistent(p, init);
        LastReplays(p, init, e);
      }
    } else {
      assert Orderly(es) by { EmptyOrderly(); }
      assert !exists t :: Began(es, 0, t) || Ended(es, 0, t);
    }
  }

  lemma EmptyOrderly()
    ensures Orderly([])
  {
  }

  // The fold of a longer log.
  lemma FoldSnoc(p: Primitives, es: seq<Entry>)
    requires |es| > 0
    ensures var init, e := es[..|es| - 1], es[|es| - 1];
      Fold(p, CommittedTxs(es)) ==
        if !e.body.Commit? || Fold(p, CommittedTxs(init)).Err? then Fold(p, CommittedTxs(init))
        else Committed(p, Fold(p, CommittedTxs(init)).value, Tx(e.txid, OpsOf(init, e.txid)))
  {
    hide OpsOf, Committed;
    var init, e := es[..|es| - 1], es[|es| - 1];
    var txs := CommittedTxs(init);
    if e.body.Commit? {
      var tx := Tx(e.txid, OpsOf(init, e.txid));
      assert (txs + [tx])[..|txs|] == txs;
    } else {
      assert txs + [] == txs;
    }
  }

  lemma LastReplays(p: Primitives, init: seq<Entry>, e: Entry)
    requires FullReplay(p, init).Ok? && Remembers(init, FullReplay(p, init).value) && Consistent(FullReplay(p, init).value)
    requires 0 < e.lsn && Orderly(init)
    ensures var r := FullReplay(p, init).value; var es := init + [e];
      && (ReplayEntry(p, 0, r, e).Ok? <==>
            InOrder(es, |init|)
            && (e.body.Commit? ==> Committed(p, r.st, Tx(e.txid, OpsOf(init, e.txid))).Ok?))
      && (ReplayEntry(p, 0, r, e).Ok? ==> Remembers(es, ReplayEntry(p, 0, r, e).value))
  {
    hide FullReplay, OpsOf, Committed, Orderly;
    var r, es := FullReplay(p, init).value, init + [e];
    assert es[..|init|] == init && es[|init|] == e;
    if e.txid in r.pending { PendingIsLogged(p, init, e.txid); }
    forall t
      ensures Began(es, |es|, t) <==> Began(init, |init|, t) || (e.txid == t && e.body.Begin?)
      ensures Ended(es, |es|, t) <==> Ended(init, |init|, t) || (e.txid == t && e.body.Commit?)
      ensures Began(es, |init|, t) <==> Began(init, |init|, t)
      ensures Ended(es, |init|, t) <==> Ended(init, |init|, t)
    {
      BeganSnoc(init, e, t);
    }
    if Ended(init, |init|, e.txid) { EndedBegan(init, e.txid); }
    hide Began, Ended;
  }

  // ----- what recovery reports -----

  // Replaying entries over a checkpoint of the state c.
  function Over(p: Primitives, c: Recovering, es: seq<Entry>): Result<Recovering, ReplayError> {
    ReplayLog(p, c.lastApplied, Start(c.st, c.lastApplied), es)
  }

  // Entry k moves the counts: seen when it commits, replayed when it also lies past the checkpoint.
  lemma CountStep(p: Primitives, es: seq<Entry>, j: nat, k: nat)
    requires Ordered(es) && FullReplay(p, es).Ok? && j <= |es| && k < |es|
    ensures FullReplay(p, es[..j]).Ok?
    ensures var c := FullReplay(p, es[..j]).value; var one := if es[k].body.Commit? then 1 else 0;
      && Over(p, c, es[..k]).Ok? && Over(p, c, es[..k + 1]).Ok?
      && Over(p, c, es[..k + 1]).value.commitsSeen == Over(p, c, es[..k]).value.commitsSeen + one
      && Over(p, c, es[..k + 1]).value.replayed == Over(p, c, es[..k]).value.replayed + if k < j then 0 else one
  {
    hide ReplayEntry, ReplayLog, FullReplay, Consistent;
    CheckpointAgrees(p, es, j, k);
    CheckpointAgrees(p, es, j, k + 1);
    var c := FullReplay(p, es[..j]).value;
    var e := es[k];
    assert es[..k + 1] == es[..k] + [e];
    FullSnoc(p, es[..k], e);
    ReplaySnoc(p, c.lastApplied, Start(c.st, c.lastApplied), es[..k], e);
    ReplayConsistent(p, es[..k]);
    CoveredLsns(p, es, j, k + 1);
    EntryCounts(p, c, Over(p, c, es[..k]).value, FullReplay(p, es[..k]).value, e, k < j);
  }

  // How many of the first k entries commit.
  ghost function Commits(es: seq<Entry>, k: nat): nat
    requires k <= |es|
  {
    |CommittedTxs(es[..k])|
  }

  lemma CommitsNext(es: seq<Entry>, k: nat)
    requires k < |es|
    ensures Commits(es, k + 1) == Commits(es, k) + if es[k].body.Commit? then 1 else 0
  {
    assert es[..k + 1][..k] == es[..k];
  }

  lemma NoneOver(p: Primitives, es: seq<Entry>, j: nat)
    requires FullReplay(p, es).Ok? && j <= |es|
    ensures FullReplay(p, es[..j]).Ok?
    ensures var r := Over(p, FullReplay(p, es[..j]).value, es[..0]);
      r.Ok? && r.value.commitsSeen == r.value.replayed == 0 && Commits(es, 0) == 0
  {
    PrefixReplays(p, 0, Start(EMPTY, 0), es, j);
    assert es[..0] == [];
  }

  /** Replaying a log over a checkpoint of its first j entries sees every transaction the log commits and applies
      again exactly those whose COMMIT comes later. */
  lemma {:induction false} ReplayCounts(p: Primitives, es: seq<Entry>, j: nat, k: nat)
    requires Ordered(es) && FullReplay(p, es).Ok? && j <= |es| && k <= |es|
    ensures FullReplay(p, es[..j]).Ok?
    ensures var r := Over(p, FullReplay(p, es[..j]).value, es[..k]);
      r.Ok? && r.value.commitsSeen == Commits(es, k)
      && r.value.replayed == if k <= j then 0 else Commits(es, k) - Commits(es, j)
    decreases k
  {
    hide FullReplay, Over, Commits, Ordered;
    NoneOver(p, es, j);
    if k > 0 {
      ReplayCounts(p, es, j, k - 1);
      CountStep(p, es, j, k - 1);
      CommitsNext(es, k - 1);
    }
  }

  lemma FullSnoc(p: Primitives, es: seq<Entry>, e: Entry)
    requires FullReplay(p, es).Ok?
    ensures FullReplay(p, es + [e]) == ReplayEntry(p, 0, FullReplay(p, es).value, e)
  {
    hide ReplayEntry;
    ReplaySnoc(p, 0, Start(EMPTY, 0), es, e);
  }

  // One entry moves the counts as it moves the state.
  lemma EntryCounts(p: Primitives, c: Recovering, r: Recovering, f: Recovering, e: Entry, covered: bool)
    requires r.pending == f.pending && r.begun == f.begun && Consistent(f)
    requires ReplayEntry(p, 0, f, e).Ok? && ReplayEntry(p, c.lastApplied, r, e).Ok?
    requires covered && e.body.Commit? ==> e.lsn <= c.lastApplied
    requires !covered ==> r.st == f.st && c.lastApplied < e.lsn
    ensures var r' := ReplayEntry(p, c.lastApplied, r, e).value; var one := if e.body.Commit? then 1 else 0;
      r'.commitsSeen == r.commitsSeen + one && r'.replayed == r.replayed + if covered then 0 else one
  {
    hide Committed;
  }
}
