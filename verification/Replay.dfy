/** Applying operations and replaying a scanned log: the state half of durable_runtime.py. */
module Replay {
  import opened Common
  import opened WalFormat

  // The mutable overlay: records by id, the set of edges, the committed transaction ids.
  datatype State = State(records: map<string, Record>, edges: set<Edge>, txids: set<string>)

  const EMPTY := State(map[], {}, {})

  datatype ReplayError =
    | PayloadShaMismatch | RecordConflict
    | TxidMissing | DuplicateBegin | OpWithoutBegin | CommitWithoutBegin | OpCountMismatch
    | UnknownKind | CheckpointShaMismatch

  function ApplyOp(p: Primitives, st: State, op: Op): Result<State, ReplayError> {
    match op
    case PutRecord(r) =>
      if p.sha256(r.payload) != r.sha then Err(PayloadShaMismatch)
      else if r.recordId in st.records && st.records[r.recordId] != r then Err(RecordConflict)
      else Ok(st.(records := st.records[r.recordId := r]))
    case PutEdge(e) => Ok(st.(edges := st.edges + {e}))
  }

  function ApplyOps(p: Primitives, st: State, ops: seq<Op>): Result<State, ReplayError> {
    if |ops| == 0 then Ok(st)
    else match ApplyOps(p, st, ops[..|ops| - 1])
      case Err(x) => Err(x)
      case Ok(st') => ApplyOp(p, st', ops[|ops| - 1])
  }

  // A committed transaction, as the ledger the log refines records it.
  datatype Tx = Tx(txid: string, ops: seq<Op>)

  function Committed(p: Primitives, st: State, tx: Tx): Result<State, ReplayError> {
    match ApplyOps(p, st, tx.ops)
    case Err(x) => Err(x)
    case Ok(st') => Ok(st'.(txids := st'.txids + {tx.txid}))
  }

  /** The meaning of a list of committed transactions: apply them in order to nothing. */
  function Fold(p: Primitives, txs: seq<Tx>): Result<State, ReplayError> {
    if |txs| == 0 then Ok(EMPTY)
    else match Fold(p, txs[..|txs| - 1])
      case Err(x) => Err(x)
      case Ok(st) => Committed(p, st, txs[|txs| - 1])
  }

  datatype Recovering = Recovering(
    pending: map<string, seq<Op>>, begun: set<string>, st: State, lastApplied: int,
    commitsSeen: nat, replayed: nat)

  function Start(st: State, lsn: int): Recovering {
    Recovering(map[], {}, st, lsn, 0, 0)
  }

  function ReplayEntry(p: Primitives, ckpt: int, r: Recovering, e: Entry)
    : Result<Recovering, ReplayError>
  {
    if e.txid == "" then Err(TxidMissing)
    else match e.body
      case Begin =>
        if e.txid in r.begun || e.txid in r.pending then Err(DuplicateBegin)
        else Ok(r.(begun := r.begun + {e.txid}, pending := r.pending[e.txid := []]))
      case Put(op) =>
        if e.txid !in r.pending then Err(OpWithoutBegin)
        else Ok(r.(pending := r.pending[e.txid := r.pending[e.txid] + [op]]))
      case Commit(opCount) =>
        if e.txid !in r.pending then Err(CommitWithoutBegin)
        else
          var ops := r.pending[e.txid];
          if opCount != |ops| then Err(OpCountMismatch)
          else
            var r' := r.(pending := r.pending - {e.txid}, commitsSeen := r.commitsSeen + 1);
            if e.lsn > ckpt && e.txid !in r.st.txids then
              match Committed(p, r.st, Tx(e.txid, ops))
              case Err(x) => Err(x)
              case Ok(st) => Ok(r'.(st := st, lastApplied := Max(r.lastApplied, e.lsn),
                                    replayed := r.replayed + 1))
            else Ok(r')
      case Unknown => Err(UnknownKind)
  }

  function ReplayLog(p: Primitives, ckpt: int, start: Recovering, es: seq<Entry>)
    : Result<Recovering, ReplayError>
  {
    if |es| == 0 then Ok(start)
    else match ReplayLog(p, ckpt, start, es[..|es| - 1])
      case Err(x) => Err(x)
      case Ok(r) => ReplayEntry(p, ckpt, r, es[|es| - 1])
  }

  // Replaying a log from nothing, with no checkpoint.
  function FullReplay(p: Primitives, es: seq<Entry>): Result<Recovering, ReplayError> {
    ReplayLog(p, 0, Start(EMPTY, 0), es)
  }

  // ----- the entries of one transaction -----

  function Opening(txid: string, lsn: int, ops: seq<Op>): (es: seq<Entry>)
    ensures |es| == |ops| + 1
  {
    [Entry(lsn, txid, Begin)] + seq(|ops|, i requires 0 <= i < |ops| => Entry(lsn + 1 + i, txid, Put(ops[i])))
  }

  function Closing(txid: string, lsn: int, ops: seq<Op>): Entry {
    Entry(lsn + 1 + |ops|, txid, Commit(|ops|))
  }

  function Transaction(txid: string, lsn: int, ops: seq<Op>): (es: seq<Entry>)
    ensures |es| == |ops| + 2
  {
    Opening(txid, lsn, ops) + [Closing(txid, lsn, ops)]
  }

  // ----- replay facts -----

  lemma ReplaySnoc(p: Primitives, ckpt: int, start: Recovering, es: seq<Entry>, e: Entry)
    ensures ReplayLog(p, ckpt, start, es + [e]) ==
      match ReplayLog(p, ckpt, start, es)
      case Err(x) => Err(x)
      case Ok(r) => ReplayEntry(p, ckpt, r, e)
  {
    assert (es + [e])[..|es + [e]| - 1] == es;
  }

  lemma {:induction false} PrefixReplays(p: Primitives, ckpt: int, start: Recovering, es: seq<Entry>, k: nat)
    requires ReplayLog(p, ckpt, start, es).Ok? && k <= |es|
    ensures ReplayLog(p, ckpt, start, es[..k]).Ok?
    decreases |es|
  {
    if k < |es| {
      PrefixReplays(p, ckpt, start, es[..|es| - 1], k);
      assert es[..|es| - 1][..k] == es[..k];
    } else {
      assert es[..k] == es;
    }
  }

  // What every replay from nothing keeps: only begun transactions are pending or
  // committed, and a committed one is no longer pending.
  ghost predicate Consistent(r: Recovering) {
    && r.pending.Keys <= r.begun
    && r.st.txids <= r.begun
    && r.pending.Keys !! r.st.txids
  }

  lemma {:induction false} ApplyOpsKeepTxids(p: Primitives, st: State, ops: seq<Op>)
    requires ApplyOps(p, st, ops).Ok?
    ensures ApplyOps(p, st, ops).value.txids == st.txids
    decreases |ops|
  {
    if |ops| > 0 {
      ApplyOpsKeepTxids(p, st, ops[..|ops| - 1]);
    }
  }

  lemma {:induction false} ReplayConsistent(p: Primitives, es: seq<Entry>)
    requires FullReplay(p, es).Ok?
    ensures Consistent(FullReplay(p, es).value)
    decreases |es|
  {
    if |es| > 0 {
      var es', e := es[..|es| - 1], es[|es| - 1];
      ReplayConsistent(p, es');
      var r := FullReplay(p, es').value;
      if e.body.Commit? {
        var ops := r.pending[e.txid];
        if ApplyOps(p, r.st, ops).Ok? { ApplyOpsKeepTxids(p, r.st, ops); }
      }
    }
  }

  lemma OpeningSnoc(txid: string, lsn: int, ops: seq<Op>, op: Op)
    ensures Opening(txid, lsn, ops + [op])
      == Opening(txid, lsn, ops) + [Entry(lsn + 1 + |ops|, txid, Put(op))]
  {
  }

  lemma FreshTxid(p: Primitives, es: seq<Entry>, txid: string)
    requires FullReplay(p, es).Ok? && txid !in FullReplay(p, es).value.begun
    ensures var r := FullReplay(p, es).value; txid !in r.st.txids && txid !in r.pending
  {
    hide FullReplay;
    ReplayConsistent(p, es);
  }

  // A fresh transaction's opening leaves it pending with exactly its operations.
  lemma {:induction false} OpeningReplays(p: Primitives, es: seq<Entry>, txid: string, lsn: int, ops: seq<Op>)
    requires FullReplay(p, es).Ok? && txid != "" && txid !in FullReplay(p, es).value.begun
    ensures var r := FullReplay(p, es).value;
      FullReplay(p, es + Opening(txid, lsn, ops))
      == Ok(r.(begun := r.begun + {txid}, pending := r.pending[txid := ops]))
    decreases |ops|
  {
    hide ReplayLog;
    var r := FullReplay(p, es).value;
    var start := Start(EMPTY, 0);
    if |ops| == 0 {
      ReplayConsistent(p, es);
      ReplaySnoc(p, 0, start, es, Entry(lsn, txid, Begin));
      assert Opening(txid, lsn, ops) == [Entry(lsn, txid, Begin)];
    } else {
      hide Opening;
      var init, op := ops[..|ops| - 1], ops[|ops| - 1];
      assert init + [op] == ops;
      OpeningReplays(p, es, txid, lsn, init);
      OpeningSnoc(txid, lsn, init, op);
      var e := Entry(lsn + |ops|, txid, Put(op));
      var earlier := es + Opening(txid, lsn, init);
      assert es + Opening(txid, lsn, ops) == earlier + [e];
      ReplaySnoc(p, 0, start, earlier, e);
      var q := FullReplay(p, earlier).value;
      assert q.pending[txid := q.pending[txid] + [op]] == r.pending[txid := ops];
    }
  }

  lemma ClosingCommits(p: Primitives, q: Recovering, txid: string, lsn: int, ops: seq<Op>)
    requires txid != "" && 0 < lsn && txid in q.pending && q.pending[txid] == ops
    requires txid !in q.st.txids && ApplyOps(p, q.st, ops).Ok? && q.lastApplied < lsn
    ensures var r' := ReplayEntry(p, 0, q, Closing(txid, lsn, ops));
      && r'.Ok?
      && Ok(r'.value.st) == Committed(p, q.st, Tx(txid, ops))
      && r'.value.lastApplied == lsn + 1 + |ops|
      && r'.value.begun == q.begun
      && r'.value.pending == q.pending - {txid}
  {
    hide ApplyOps;
  }

  lemma TransactionSplits(p: Primitives, es: seq<Entry>, txid: string, lsn: int, ops: seq<Op>)
    ensures FullReplay(p, es + Transaction(txid, lsn, ops)) ==
      match FullReplay(p, es + Opening(txid, lsn, ops))
      case Err(x) => Err(x)
      case Ok(r) => ReplayEntry(p, 0, r, Closing(txid, lsn, ops))
  {
    hide ReplayLog, Opening, Closing;
    var earlier := es + Opening(txid, lsn, ops);
    assert es + Transaction(txid, lsn, ops) == earlier + [Closing(txid, lsn, ops)];
    ReplaySnoc(p, 0, Start(EMPTY, 0), earlier, Closing(txid, lsn, ops));
  }

  // Replaying a fresh, valid transaction commits it: no conflict, no count mismatch.
  lemma TransactionReplays(p: Primitives, es: seq<Entry>, txid: string, lsn: int, ops: seq<Op>)
    requires FullReplay(p, es).Ok? && txid != "" && 0 < lsn
    requires var r := FullReplay(p, es).value;
      && txid !in r.begun && r.lastApplied < lsn && ApplyOps(p, r.st, ops).Ok?
    ensures var r := FullReplay(p, es).value;
      var r' := FullReplay(p, es + Transaction(txid, lsn, ops));
      && r'.Ok?
      && Ok(r'.value.st) == Committed(p, r.st, Tx(txid, ops))
      && r'.value.lastApplied == lsn + 1 + |ops|
      && r'.value.begun == r.begun + {txid}
      && r'.value.pending == r.pending
  {
    hide *;
    var r := FullReplay(p, es).value;
    FreshTxid(p, es, txid);
    OpeningReplays(p, es, txid, lsn, ops);
    var earlier := es + Opening(txid, lsn, ops);
    TransactionSplits(p, es, txid, lsn, ops);
    var q := FullReplay(p, earlier).value;
    ClosingCommits(p, q, txid, lsn, ops);
    assert r.pending[txid := ops] - {txid} == r.pending;
  }

  // ----- checkpoints -----

  // LSNs as an indexed order, convenient for positions.
  ghost predicate Ordered(es: seq<Entry>) {
    && (forall i | 0 <= i < |es| :: 0 < es[i].lsn)
    && (forall i, j | 0 <= i < j < |es| :: es[i].lsn < es[j].lsn)
  }

  lemma {:induction false} LastAppliedBelow(p: Primitives, es: seq<Entry>)
    requires Ordered(es) && FullReplay(p, es).Ok?
    ensures var r := FullReplay(p, es).value;
      && 0 <= r.lastApplied
      && (r.lastApplied > 0 ==> exists i | 0 <= i < |es| :: es[i].lsn == r.lastApplied)
      && (forall i | 0 <= i < |es| && es[i].body.Commit? :: es[i].lsn <= r.lastApplied)
    decreases |es|
  {
    if |es| > 0 {
      var es', e := es[..|es| - 1], es[|es| - 1];
      LastAppliedBelow(p, es');
      ReplayConsistent(p, es');
      var r', r := FullReplay(p, es').value, FullReplay(p, es).value;
      if r.lastApplied > 0 && r.lastApplied == r'.lastApplied {
        var i :| 0 <= i < |es'| && es'[i].lsn == r.lastApplied;
        assert es[i].lsn == r.lastApplied;
      }
    }
  }

  // One entry keeps a replay over a checkpoint c in step with the replay from nothing.
  lemma CheckpointStep(p: Primitives, c: Recovering, r: Recovering, f: Recovering, e: Entry, covered: bool)
    requires r.pending == f.pending && r.begun == f.begun && Consistent(f)
    requires 0 < e.lsn && f.lastApplied < e.lsn && ReplayEntry(p, 0, f, e).Ok?
    requires covered ==> r.st == c.st && r.lastApplied == c.lastApplied
    requires covered && e.body.Commit? ==> e.lsn <= c.lastApplied
    requires !covered ==> r.st == f.st && r.lastApplied == f.lastApplied && c.lastApplied < e.lsn
    ensures var r' := ReplayEntry(p, c.lastApplied, r, e); var f' := ReplayEntry(p, 0, f, e).value;
      && r'.Ok?
      && r'.value.pending == f'.pending && r'.value.begun == f'.begun
      && r'.value.st == (if covered then c.st else f'.st)
      && r'.value.lastApplied == (if covered then c.lastApplied else f'.lastApplied)
  {
    hide Committed;
  }

  /** A checkpoint of the first j entries plus the whole log gives what full replay gives:
      before position j nothing is applied again, after it the two replays agree. */
  lemma {:induction false} CheckpointAgrees(p: Primitives, es: seq<Entry>, j: nat, k: nat)
    requires Ordered(es) && FullReplay(p, es).Ok? && j <= |es| && k <= |es|
    ensures FullReplay(p, es[..j]).Ok? && FullReplay(p, es[..k]).Ok?
    ensures var c := FullReplay(p, es[..j]).value; var f := FullReplay(p, es[..k]).value;
      var r := ReplayLog(p, c.lastApplied, Start(c.st, c.lastApplied), es[..k]);
      && r.Ok?
      && r.value.pending == f.pending && r.value.begun == f.begun
      && r.value.st == (if k <= j then c.st else f.st)
      && r.value.lastApplied == (if k <= j then c.lastApplied else f.lastApplied)
    decreases k
  {
    hide ReplayEntry;
    var start := Start(EMPTY, 0);
    PrefixReplays(p, 0, start, es, j);
    PrefixReplays(p, 0, start, es, k);
    var c := FullReplay(p, es[..j]).value;
    if k > 0 {
      hide ReplayLog;
      CheckpointAgrees(p, es, j, k - 1);
      var e := es[k - 1];
      assert es[..k] == es[..k - 1] + [e];
      ReplaySnoc(p, 0, start, es[..k - 1], e);
      ReplaySnoc(p, c.lastApplied, Start(c.st, c.lastApplied), es[..k - 1], e);
      var f := FullReplay(p, es[..k - 1]).value;
      var r := ReplayLog(p, c.lastApplied, Start(c.st, c.lastApplied), es[..k - 1]).value;
      ReplayConsistent(p, es[..k - 1]);
      CoveredLsns(p, es, j, k);
      CheckpointStep(p, c, r, f, e, k <= j);
      if k == j + 1 {
        assert r.st == c.st == f.st;
      }
    }
  }

  // Commits within a checkpoint's prefix are at or below its LSN, later entries above it.
  lemma CoveredLsns(p: Primitives, es: seq<Entry>, j: nat, k: nat)
    requires Ordered(es) && 0 < k <= |es| && j <= |es|
    requires FullReplay(p, es[..j]).Ok? && FullReplay(p, es[..k - 1]).Ok?
    ensures FullReplay(p, es[..k - 1]).value.lastApplied < es[k - 1].lsn
    ensures k <= j && es[k - 1].body.Commit? ==> es[k - 1].lsn <= FullReplay(p, es[..j]).value.lastApplied
    ensures j < k ==> FullReplay(p, es[..j]).value.lastApplied < es[k - 1].lsn
  {
    hide FullReplay;
    LastAppliedBelow(p, es[..j]);
    LastAppliedBelow(p, es[..k - 1]);
    if k <= j { assert es[..j][k - 1] == es[k - 1]; }
    assert forall i | 0 <= i < j :: es[..j][i] == es[i];
    assert forall i | 0 <= i < k - 1 :: es[..k - 1][i] == es[i];
  }
}
