/** What a receipt is worth: the operations it stands for are in every later recovery, as long as
    checkpoints are taken only while every COMMIT frame is synced. */
module DurableReceipts {
  import opened WalFormat
  import opened Replay
  import opened DurableMachine
  import opened DurableSafety
  import opened DurableRefinement
  import opened DurableTheorems

  // The state shows the operation.
  predicate Present(st: State, op: Op) {
    match op
    case PutRecord(r) => r.recordId in st.records && st.records[r.recordId] == r
    case PutEdge(e) => e in st.edges
  }

  // A repairing open of the disk loads the transaction: its id and every record and edge of it.
  ghost predicate Recovered(p: Primitives, d: Disk, tx: Tx) {
    var r := OpenDisk(p, d, true).1;
    r.Ok? && Shows(r.value.st, tx)
  }

  ghost predicate Shows(st: State, tx: Tx) {
    tx.txid in st.txids && forall op | op in tx.ops :: Present(st, op)
  }

  // ----- a fold shows every transaction in it -----

  // Nothing is ever taken back or replaced.
  ghost predicate Extends(st: State, st': State) {
    && (forall id | id in st.records :: id in st'.records && st'.records[id] == st.records[id])
    && st.edges <= st'.edges && st.txids <= st'.txids
  }

  lemma ApplyOpExtends(p: Primitives, st: State, op: Op)
    requires ApplyOp(p, st, op).Ok?
    ensures Extends(st, ApplyOp(p, st, op).value) && Present(ApplyOp(p, st, op).value, op)
  {
  }

  lemma ExtendsKeeps(st: State, st': State, op: Op)
    requires Extends(st, st') && Present(st, op)
    ensures Present(st', op)
  {
  }

  lemma {:induction false} ApplyOpsExtend(p: Primitives, st: State, ops: seq<Op>)
    requires ApplyOps(p, st, ops).Ok?
    ensures Extends(st, ApplyOps(p, st, ops).value)
    ensures forall op | op in ops :: Present(ApplyOps(p, st, ops).value, op)
    decreases |ops|
  {
    if |ops| > 0 {
      hide ApplyOp, Present;
      var init, last := ops[..|ops| - 1], ops[|ops| - 1];
      ApplyOpsExtend(p, st, init);
      var mid, end := ApplyOps(p, st, init).value, ApplyOps(p, st, ops).value;
      ApplyOpExtends(p, mid, last);
      forall op | op in ops ensures Present(end, op) {
        if op in init { ExtendsKeeps(mid, end, op); }
      }
    }
  }

  lemma CommittedShows(p: Primitives, st: State, tx: Tx)
    requires Committed(p, st, tx).Ok?
    ensures Extends(st, Committed(p, st, tx).value) && Shows(Committed(p, st, tx).value, tx)
  {
    hide ApplyOps;
    ApplyOpsExtend(p, st, tx.ops);
    var applied, end := ApplyOps(p, st, tx.ops).value, Committed(p, st, tx).value;
    forall op | op in tx.ops ensures Present(end, op) { ExtendsKeeps(applied, end, op); }
  }

  lemma {:induction false} FoldShows(p: Primitives, txs: seq<Tx>, i: nat)
    requires Fold(p, txs).Ok? && i < |txs|
    ensures Shows(Fold(p, txs).value, txs[i])
    decreases |txs|
  {
    hide Committed, Extends, Present;
    var init, last := txs[..|txs| - 1], txs[|txs| - 1];
    var st, end := Fold(p, init).value, Fold(p, txs).value;
    CommittedShows(p, st, last);
    if i < |init| {
      FoldShows(p, init, i);
      ExtendsShows(st, end, txs[i]);
    }
  }

  lemma ExtendsShows(st: State, st': State, tx: Tx)
    requires Extends(st, st') && Shows(st, tx)
    ensures Shows(st', tx)
  {
    forall op | op in tx.ops ensures Present(st', op) { ExtendsKeeps(st, st', op); }
  }

  // ----- synced transactions stay in the ledger -----

  // The first q transactions of the ledger are on stable storage.
  ghost predicate Held(ledger: seq<Posted>, q: nat, synced: nat) {
    q <= |ledger| && forall i | 0 <= i < q :: ledger[i].end <= synced
  }

  lemma {:induction false} KeptHolds(ledger: seq<Posted>, q: nat, n: nat)
    requires Held(ledger, q, n)
    ensures Held(Kept(ledger, n), q, n) && Kept(ledger, n)[..q] == ledger[..q]
    decreases |ledger|
  {
    if |ledger| > 0 && n < ledger[|ledger| - 1].end {
      var init := ledger[..|ledger| - 1];
      KeptHolds(init, q, n);
      assert init[..q] == ledger[..q];
    }
  }

  lemma StepHolds(p: Primitives, s: System, ledger: seq<Posted>, used: set<string>, ev: Event, q: nat)
    requires p.Valid() && Inv(p, s, ledger, used) && Held(ledger, q, s.disk.synced)
    ensures var ledger' := LedgerStep(p, s, ledger, ev);
      Held(ledger', q, Step(p, s, ev).disk.synced) && ledger'[..q] == ledger[..q]
  {
    hide InvAt, CommitStep, UncommittedStep, OpenDisk, Describes, Accepted, Posting, WithInflight, Kept, InflightEntries, Written;
    var es, m :| InvAt(p, s, ledger, used, es, m);
    SyncedBound(p, s, ledger, used, es, m);
    match ev {
      case CommitTx(txid, ops) => if s.mem.Some? { CommitSyncs(p, s, txid, ops); }
      case AppendUncommitted(txid, ops) => if s.mem.Some? { AppendSyncs(p, s, txid, ops); }
      case TakeCheckpoint(_) =>
      case Open(repair) => OpenSyncs(p, s, ledger, used, es, m, repair);
      case Close =>
      case Kill(inflight, keep) =>
        InflightHolds(p, s, ledger, inflight, q);
        KeptHolds(WithInflight(p, s, ledger, inflight), q, Left(Unfinished(p, s, inflight), |s.disk.wal|, keep));
      case Crash(inflight, keep) =>
        InflightHolds(p, s, ledger, inflight, q);
        KeptHolds(WithInflight(p, s, ledger, inflight), q, Left(Unfinished(p, s, inflight), s.disk.synced, keep));
    }
  }

  lemma InflightHolds(p: Primitives, s: System, ledger: seq<Posted>, inflight: Inflight, q: nat)
    requires q <= |ledger|
    ensures ledger <= WithInflight(p, s, ledger, inflight) && WithInflight(p, s, ledger, inflight)[..q] == ledger[..q]
  {
    hide Accepted, Posting;
  }

  lemma CommitSyncs(p: Primitives, s: System, txid: string, ops: seq<Op>)
    requires s.mem.Some? && s.disk.synced <= |s.disk.wal|
    ensures s.disk.synced <= CommitStep(p, s, txid, ops).disk.synced
  {
    hide Written, ApplyOps, AllFit, Transaction;
  }

  lemma AppendSyncs(p: Primitives, s: System, txid: string, ops: seq<Op>)
    requires s.mem.Some? && s.disk.synced <= |s.disk.wal|
    ensures s.disk.synced <= UncommittedStep(p, s, txid, ops).disk.synced
  {
    hide Written, ApplyOps, AllFit, Opening;
  }

  lemma OpenSyncs(p: Primitives, s: System, ledger: seq<Posted>, used: set<string>, es: seq<Entry>, m: nat, repair: bool)
    requires p.Valid() && InvAt(p, s, ledger, used, es, m)
    ensures forall i | 0 <= i < |ledger| && ledger[i].end <= s.disk.synced ::
      ledger[i].end <= Step(p, s, Open(repair)).disk.synced
  {
    hide Posts, Frames, OpenDisk, OnDisk, LogInv, FullReplay, AllFit, Ordered, Covered;
    LogParts(p, s.disk, es, m, ledger, used);
    LogCovered(p, s.disk, es, m, ledger, used);
    OpenResult(p, s.disk, es, m, repair);
    LedgerIsPosts(p, s.disk, es, m, ledger, used);
    PostsEnd(p, es);
  }

  lemma LedgerIsPosts(p: Primitives, d: Disk, es: seq<Entry>, m: nat, ledger: seq<Posted>, used: set<string>)
    requires LogInv(p, d, es, m, ledger, used)
    ensures ledger == Posts(p, es)
  {
    hide FullReplay, Posts, Frames, AllFit, Ordered, Covered, Unsplit;
  }

  // A receipted commit enters the ledger, all of which is then synced.
  lemma ReceiptSyncs(p: Primitives, s: System, ledger: seq<Posted>, used: set<string>, ev: Event)
    requires p.Valid() && Inv(p, s, ledger, used) && Receipted(p, s, ev)
    ensures var ledger' := LedgerStep(p, s, ledger, ev);
      && Txs(ledger') == Txs(ledger) + [Tx(ev.txid, ev.ops)]
      && Held(ledger', |ledger'|, Step(p, s, ev).disk.synced)
  {
    hide InvAt, Posts, Frames, LogInv, AllFit, Transaction, ApplyOps;
    var es, m :| InvAt(p, s, ledger, used, es, m);
    SyncedBound(p, s, ledger, used, es, m);
    AcceptedIsAdmissible(p, s, ledger, used, es, m, ev.txid, ev.ops);
    FullyWritten(p, Transaction(ev.txid, s.mem.value.nextLsn, ev.ops));
    hide Accepted, Written;
    LedgerIsPosts(p, s.disk, es, m, ledger, used) by { LogOf(p, s, ledger, used, es, m); }
    PostsEnd(p, es);
  }

  lemma LogOf(p: Primitives, s: System, ledger: seq<Posted>, used: set<string>, es: seq<Entry>, m: nat)
    requires InvAt(p, s, ledger, used, es, m)
    ensures LogInv(p, s.disk, es, m, ledger, used)
  {
    hide LogInv, OnDisk, MemInv;
  }

  // ----- prefixes of runs -----

  lemma {:induction false} PrefixRuns(p: Primitives, evs: seq<Event>, i: nat)
    requires FreshRun(evs) && SafeRun(p, evs) && i <= |evs|
    ensures FreshRun(evs[..i]) && SafeRun(p, evs[..i])
    decreases |evs|
  {
    hide SafeStep;
    if i == |evs| {
      assert evs[..i] == evs;
    } else {
      PrefixRuns(p, evs[..|evs| - 1], i);
      assert evs[..|evs| - 1][..i] == evs[..i];
    }
  }

  lemma {:induction false} HeldThroughout(p: Primitives, evs: seq<Event>, i: nat, q: nat)
    requires p.Valid() && FreshRun(evs) && SafeRun(p, evs) && i <= |evs|
    requires Held(Run(p, evs[..i]).1, q, Run(p, evs[..i]).0.disk.synced)
    ensures Held(Run(p, evs).1, q, Run(p, evs).0.disk.synced) && Run(p, evs).1[..q] == Run(p, evs[..i]).1[..q]
    decreases |evs|
  {
    hide Step, LedgerStep, SafeStep, Inv;
    if i == |evs| {
      assert evs[..i] == evs;
    } else {
      var init := evs[..|evs| - 1];
      assert init[..i] == evs[..i];
      HeldThroughout(p, init, i, q);
      RunKeeps(p, init);
      StepHolds(p, Run(p, init).0, Run(p, init).1, UsedTxids(init), evs[|evs| - 1], q);
    }
  }

  /** Receipts survive. In any run whose checkpoints were taken with every COMMIT frame synced, a commit
      that passed its own tests, and so returned a receipt, is in the log at the place where it was
      committed, and a repairing open loads its id and every record and edge of it. */
  lemma ReceiptsSurvive(p: Primitives, evs: seq<Event>, i: nat)
    requires p.Valid() && FreshRun(evs) && SafeRun(p, evs)
    requires i < |evs| && Receipted(p, Run(p, evs[..i]).0, evs[i])
    ensures Recovered(p, Run(p, evs).0.disk, Tx(evs[i].txid, evs[i].ops))
    ensures Parse(p, Run(p, evs).0.disk.wal, 0).Ok?
    ensures Txs(Run(p, evs[..i]).1) + [Tx(evs[i].txid, evs[i].ops)]
         <= CommittedTxs(Parse(p, Run(p, evs).0.disk.wal, 0).value.entries)
  {
    var tx := Tx(evs[i].txid, evs[i].ops);
    hide Receipted, Step, LedgerStep, SafeRun, FreshRun, Inv, OpenDisk, Parse, CommittedTxs, Shows, Txs, Run, UsedTxids, Fold, Recovered;
    var before, upto := evs[..i], evs[..i + 1];
    PrefixRuns(p, evs, i);
    PrefixRuns(p, evs, i + 1);
    RunKeeps(p, before);
    ReceiptSyncs(p, Run(p, before).0, Run(p, before).1, UsedTxids(before), evs[i]);
    RunSnoc(p, before, evs[i]);
    assert upto == before + [evs[i]];
    var q := |Run(p, upto).1|;
    HeldThroughout(p, evs, i + 1, q);
    CrashRecovery(p, evs);
    TakenTxs(Run(p, evs).1, Run(p, upto).1, q);
    FoldShows(p, Txs(Run(p, evs).1), q - 1);
  }

  lemma TakenTxs(ledger: seq<Posted>, earlier: seq<Posted>, q: nat)
    requires q == |earlier| <= |ledger| && ledger[..q] == earlier[..q]
    ensures Txs(earlier) <= Txs(ledger)
    ensures q > 0 ==> Txs(ledger)[q - 1] == Txs(earlier)[q - 1]
  {
    assert forall i | 0 <= i < q :: ledger[i] == ledger[..q][i] && earlier[i] == earlier[..q][i];
  }

  lemma RunSnoc(p: Primitives, evs: seq<Event>, ev: Event)
    ensures Run(p, evs + [ev]) == (Step(p, Run(p, evs).0, ev), LedgerStep(p, Run(p, evs).0, Run(p, evs).1, ev))
  {
    hide Step, LedgerStep;
    assert (evs + [ev])[..|evs|] == evs;
  }
}
