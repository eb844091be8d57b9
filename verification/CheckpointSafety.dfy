/** When a checkpoint may be taken. Opening a log syncs nothing, so after a killed process a session
    can hold a transaction whose COMMIT frame a power loss would still take back. A checkpoint of
    that session is then ahead of the log: the next session numbers its commits below the
    checkpoint, and recovery skips them. */
module CheckpointSafety {
  import opened Common
  import opened WalFormat
  import opened Replay
  import opened DurableMachine
  import opened DurableSafety
  import opened DurableRefinement
  import opened CheckpointLoading
  import opened DurableTheorems
  import opened DurableReceipts

  ghost predicate NoCheckpoints(evs: seq<Event>) {
    forall i | 0 <= i < |evs| :: !evs[i].TakeCheckpoint?
  }

  // Every receipt is recovered.
  ghost predicate KeepsReceipts(p: Primitives, evs: seq<Event>) {
    forall i | 0 <= i < |evs| && Receipted(p, Run(p, evs[..i]).0, evs[i]) ::
      Recovered(p, Run(p, evs).0.disk, Tx(evs[i].txid, evs[i].ops))
  }

  // Every LSN still to be handed out is above the checkpoint's.
  ghost predicate NumbersAbove(p: Primitives, evs: seq<Event>) {
    var s := Run(p, evs).0;
    s.mem.Some? && s.disk.checkpoint.Some? ==> s.disk.checkpoint.value.lastApplied < s.mem.value.nextLsn
  }

  ghost predicate Sound(p: Primitives, evs: seq<Event>) {
    KeepsReceipts(p, evs) && NumbersAbove(p, evs)
  }

  // However the run goes on without another checkpoint.
  ghost predicate StaysSound(p: Primitives, evs: seq<Event>) {
    forall more | NoCheckpoints(more) && FreshRun(evs + more) :: Sound(p, evs + more)
  }

  ghost predicate StaysReceipted(p: Primitives, evs: seq<Event>) {
    forall more | NoCheckpoints(more) && FreshRun(evs + more) :: KeepsReceipts(p, evs + more)
  }

  // A transaction of one edge that fits the frame limit at every LSN up to a bound.
  ghost predicate Small(p: Primitives, txid: string, op: Op, top: int) {
    txid != "" && op.PutEdge? && forall lsn | 0 < lsn <= top :: AllFit(p, Transaction(txid, lsn, [op]))
  }

  // ----- a safe run stays safe without checkpoints -----

  lemma {:induction false} StaysSafe(p: Primitives, evs: seq<Event>, more: seq<Event>)
    requires SafeRun(p, evs) && NoCheckpoints(more)
    ensures SafeRun(p, evs + more)
    decreases |more|
  {
    hide Run, AllSynced, Describes;
    if |more| == 0 {
      assert evs + more == evs;
    } else {
      StaysSafe(p, evs, more[..|more| - 1]);
      assert (evs + more)[..|evs + more| - 1] == evs + more[..|more| - 1];
      assert (evs + more)[|evs + more| - 1] == more[|more| - 1];
    }
  }

  lemma SafeIsSound(p: Primitives, evs: seq<Event>)
    requires p.Valid() && FreshRun(evs) && SafeRun(p, evs)
    ensures Sound(p, evs)
  {
    hide Run, FreshRun, SafeRun, Receipted, Recovered;
    forall i | 0 <= i < |evs| && evs[i].CommitTx? && Receipted(p, Run(p, evs[..i]).0, evs[i])
      ensures Recovered(p, Run(p, evs).0.disk, Tx(evs[i].txid, evs[i].ops))
    {
      ReceiptsSurvive(p, evs, i);
    }
    forall i | 0 <= i < |evs| && Receipted(p, Run(p, evs[..i]).0, evs[i]) ensures evs[i].CommitTx? {
      ReceiptIsCommit(p, Run(p, evs[..i]).0, evs[i]);
    }
    var s := Run(p, evs).0;
    if s.mem.Some? && s.disk.checkpoint.Some? { CommitsAboveCheckpoint(p, evs); }
  }

  lemma ReceiptIsCommit(p: Primitives, s: System, ev: Event)
    requires Receipted(p, s, ev)
    ensures ev.CommitTx?
  {
  }

  // ----- a log that a checkpoint is ahead of -----

  // Replay over a checkpoint that covers every COMMIT applies nothing.
  lemma {:induction false} CoveredCommitsSkipped(p: Primitives, lsn: int, st: State, es: seq<Entry>)
    requires forall i | 0 <= i < |es| && es[i].body.Commit? :: es[i].lsn <= lsn
    ensures var r := ReplayLog(p, lsn, Start(st, lsn), es); r.Ok? ==> r.value.st == st
    decreases |es|
  {
    hide Committed;
    if |es| > 0 {
      CoveredCommitsSkipped(p, lsn, st, es[..|es| - 1]);
    }
  }

  // The log as far as it was synced ends at least three LSNs below a COMMIT that was not.
  lemma SyncedEndsBelow(p: Primitives, es: seq<Entry>, synced: nat) returns (c: nat)
    requires Ordered(es) && Unsplit(p, es, synced) && !AllSynced(Posts(p, es), synced)
    ensures c < |es| && es[c].body.Commit? && WholeFrames(p, es, synced) < |es|
    ensures MaxLsn(es[..WholeFrames(p, es, synced)]) + 3 <= es[c].lsn
  {
    hide Frames, Posts, WholeFrames, MaxLsn;
    var i :| 0 <= i < |Posts(p, es)| && synced < Posts(p, es)[i].end;
    c := CommitOf(p, es, i);
    assert UnsplitAt(p, es, synced, c);
    var k := WholeFrames(p, es, synced);
    WholeFramesMaximal(p, es, synced);
    ShorterPrefix(p, es, c - 1, k, synced);
    LsnsApart(es, c);
    MaxLsnBelow(es[..k], es[c].lsn - 3);
  }

  lemma ShorterPrefix(p: Primitives, es: seq<Entry>, a: nat, k: nat, synced: nat)
    requires a <= |es| && k <= |es| && |Frames(p, es[..k])| <= synced < |Frames(p, es[..a])|
    ensures k < a
  {
    hide Frames;
    if a <= k { LongerPrefix(p, es, a, k); }
  }

  lemma LsnsApart(es: seq<Entry>, c: nat)
    requires Ordered(es) && 2 <= c < |es|
    ensures 3 <= es[c].lsn && forall i | 0 <= i <= c - 3 :: es[i].lsn <= es[c].lsn - 3
  {
    assert es[c - 2].lsn < es[c - 1].lsn < es[c].lsn;
  }

  lemma {:induction false} MaxLsnBelow(es: seq<Entry>, bound: int)
    requires 0 <= bound && forall i | 0 <= i < |es| :: es[i].lsn <= bound
    ensures MaxLsn(es) <= bound
    decreases |es|
  {
    if |es| > 0 { MaxLsnBelow(es[..|es| - 1], bound); }
  }

  // What a power loss leaves of a checkpointed session: the log that was synced under the checkpoint
  // of the whole log. Opening succeeds and loads the checkpoint, whatever the log still holds.
  lemma AheadOpens(p: Primitives, d: Disk, es: seq<Entry>, k: nat, cp: Checkpoint)
    requires p.Valid() && AllFit(p, es) && Ordered(es) && FullReplay(p, es).Ok? && k <= |es|
    requires OnDisk(p, d.wal, es[..k]) && d.checkpoint == Some(cp)
    requires Describes(p, cp, FullReplay(p, es).value.st, FullReplay(p, es).value.lastApplied)
    ensures LoadCheckpoint(p, d.checkpoint) == Ok((FullReplay(p, es).value.st, cp.lastApplied))
    ensures |Frames(p, es[..k])| <= |d.wal|
    ensures OpenDisk(p, d, true) ==
      (Repaired(d, |Frames(p, es[..k])|, |d.wal| - |Frames(p, es[..k])|),
       Ok(Memory(FullReplay(p, es).value.st, cp.lastApplied, MaxLsn(es[..k]) + 1)))
    ensures OpenDisk(p, d, true).0.wal == Frames(p, es[..k])
  {
    hide Frames, Parse, FullReplay, ReplayLog, LoadCheckpoint, OnDisk, MaxLsn, Describes;
    var f := FullReplay(p, es).value;
    DescribesLsn(p, cp, f.st, f.lastApplied);
    ReplayKeyed(p, es);
    CheckpointRestores(p, cp, f.st, f.lastApplied);
    ParseOnDisk(p, d.wal, es[..k]);
    assert es[..|es|] == es;
    CheckpointAgrees(p, es, |es|, k);
    if |d.wal| == |Frames(p, es[..k])| { assert d.wal[..|d.wal|] == d.wal; }
  }

  // One more transaction, numbered below the checkpoint, is not in what the next open loads.
  lemma BelowIsSkipped(p: Primitives, d: Disk, es: seq<Entry>, k: nat, cp: Checkpoint, txid: string, op: Op, lsn: int)
    requires p.Valid() && AllFit(p, es) && Ordered(es) && FullReplay(p, es).Ok? && k <= |es| && Small(p, txid, op, cp.lastApplied)
    requires d.checkpoint == Some(cp) && txid !in FullReplay(p, es).value.begun
    requires Describes(p, cp, FullReplay(p, es).value.st, FullReplay(p, es).value.lastApplied)
    requires lsn == MaxLsn(es[..k]) + 1 && lsn + 2 <= cp.lastApplied
    requires d.wal == Frames(p, es[..k] + Transaction(txid, lsn, [op]))
    ensures !Recovered(p, d, Tx(txid, [op]))
  {
    hide Frames, Parse, FullReplay, LoadCheckpoint, OnDisk, MaxLsn, Describes, Transaction, ReplayLog, Fits;
    var f := FullReplay(p, es).value;
    var t := Transaction(txid, lsn, [op]);
    var g := es[..k] + t;
    DescribesLsn(p, cp, f.st, f.lastApplied);
    ReplayKeyed(p, es);
    CheckpointRestores(p, cp, f.st, f.lastApplied);
    MaxLsnBounds(es[..k]);
    OrderedExtends(es[..k], txid, lsn, [op]);
    AllFitAppend(p, es[..k], t);
    OnDiskExactly(p, g);
    ParseOnDisk(p, d.wal, g);
    assert AllFit(p, es[..k]);
    LastAppliedBelow(p, es);
    TransactionLsns(txid, lsn, [op]);
    forall i | 0 <= i < |g| && g[i].body.Commit? ensures g[i].lsn <= cp.lastApplied {
      assert g[i] == if i < k then es[i] else t[i - k];
    }
    CoveredCommitsSkipped(p, cp.lastApplied, f.st, g);
    FreshTxid(p, es, txid);
  }

  // ----- the run that loses a receipt -----

  // Power fails, the database is opened again, one operation is committed, and the session closes.
  function Loss(txid: string, op: Op): seq<Event> {
    [Crash(Nothing, 0), Open(true), CommitTx(txid, [op]), Close]
  }

  lemma LossIsFresh(evs: seq<Event>, cp: Checkpoint, txid: string, op: Op)
    requires FreshRun(evs) && txid != "" && txid !in UsedTxids(evs)
    ensures NoCheckpoints(Loss(txid, op)) && FreshRun(evs + [TakeCheckpoint(cp)] + Loss(txid, op))
  {
    hide FreshRun, UsedTxids;
    var e0 := evs + [TakeCheckpoint(cp)];
    var e1 := e0 + [Crash(Nothing, 0)];
    var e2 := e1 + [Open(true)];
    var e3 := e2 + [CommitTx(txid, [op])];
    FreshSnoc(evs, TakeCheckpoint(cp));
    FreshSnoc(e0, Crash(Nothing, 0));
    FreshSnoc(e1, Open(true));
    FreshSnoc(e2, CommitTx(txid, [op]));
    FreshSnoc(e3, Close);
    assert e0 + Loss(txid, op) == e3 + [Close];
  }

  lemma FreshSnoc(evs: seq<Event>, ev: Event)
    ensures FreshRun(evs + [ev]) <==> (FreshRun(evs) && "" !in EventTxids(ev) && EventTxids(ev) !! UsedTxids(evs))
    ensures UsedTxids(evs + [ev]) == UsedTxids(evs) + EventTxids(ev)
  {
    assert (evs + [ev])[..|evs|] == evs;
  }

  // The power loss and the reopening after a checkpoint with a COMMIT frame unsynced.
  lemma AheadAfterLoss(p: Primitives, s: System, ledger: seq<Posted>, used: set<string>, cp: Checkpoint)
    returns (es: seq<Entry>, k: nat)
    requires p.Valid() && Inv(p, s, ledger, used) && s.mem.Some?
    requires Describes(p, cp, s.mem.value.st, s.mem.value.lastApplied) && !AllSynced(ledger, s.disk.synced)
    ensures AllFit(p, es) && Ordered(es) && FullReplay(p, es).Ok? && FullReplay(p, es).value.begun <= used && k <= |es|
    ensures Describes(p, cp, FullReplay(p, es).value.st, FullReplay(p, es).value.lastApplied)
    ensures var s1 := CrashStep(p, s.(disk := s.disk.(checkpoint := Some(cp))), Nothing, 0);
      var s2 := Step(p, s1, Open(true));
      && OnDisk(p, s1.disk.wal, es[..k]) && s1.mem.None? && s1.disk.checkpoint == Some(cp)
      && s2.disk.wal == Frames(p, es[..k]) && s2.disk.checkpoint == Some(cp)
      && s2.mem == Some(Memory(FullReplay(p, es).value.st, cp.lastApplied, MaxLsn(es[..k]) + 1))
      && s2.mem.value.st == s.mem.value.st
    ensures MaxLsn(es[..k]) + 3 <= cp.lastApplied
  {
    hide FullReplay, Frames, LogInv, OnDisk, AllFit, Ordered, Describes, MaxLsn, OpenDisk, WholeFrames, Posts, AllSynced, Unsplit,
      Written;
    var m;
    es, m :| InvAt(p, s, ledger, used, es, m);
    SyncedBound(p, s, ledger, used, es, m);
    LogParts(p, s.disk, es, m, ledger, used);
    LedgerIsPosts(p, s.disk, es, m, ledger, used);
    LogUnsplit(p, s.disk, es, m, ledger, used);
    k := WholeFrames(p, es, s.disk.synced);
    var c := SyncedEndsBelow(p, es, s.disk.synced);
    LastAppliedBelow(p, es);
    DescribesLsn(p, cp, s.mem.value.st, s.mem.value.lastApplied);
    NothingWritten(p);
    assert s.disk.wal + [] == s.disk.wal;
    CutDisk(p, s.disk.wal, es, s.disk.synced);
    var s1 := CrashStep(p, s.(disk := s.disk.(checkpoint := Some(cp))), Nothing, 0);
    AheadOpens(p, s1.disk, es, k, cp);
  }

  lemma LogUnsplit(p: Primitives, d: Disk, es: seq<Entry>, m: nat, ledger: seq<Posted>, used: set<string>)
    requires LogInv(p, d, es, m, ledger, used)
    ensures Unsplit(p, es, d.synced)
  {
    hide FullReplay, Posts, Frames, AllFit, Ordered, Covered, Unsplit;
  }

  lemma CommitsBelow(p: Primitives, s: System, es: seq<Entry>, k: nat, cp: Checkpoint, txid: string, op: Op)
    requires p.Valid() && AllFit(p, es) && Ordered(es) && FullReplay(p, es).Ok? && k <= |es| && Small(p, txid, op, cp.lastApplied)
    requires txid !in FullReplay(p, es).value.begun
    requires Describes(p, cp, FullReplay(p, es).value.st, FullReplay(p, es).value.lastApplied)
    requires s.disk.wal == Frames(p, es[..k]) && s.disk.checkpoint == Some(cp)
    requires s.mem == Some(Memory(FullReplay(p, es).value.st, cp.lastApplied, MaxLsn(es[..k]) + 1))
    requires MaxLsn(es[..k]) + 3 <= cp.lastApplied
    ensures Receipted(p, s, CommitTx(txid, [op]))
    ensures !Recovered(p, CommitStep(p, s, txid, [op]).disk, Tx(txid, [op]))
  {
    OneEdgeApplies(p, s.mem.value.st, op);
    hide FullReplay, Frames, AllFit, Ordered, Describes, MaxLsn, Transaction, ApplyOps, Recovered, Written;
    var lsn := s.mem.value.nextLsn;
    var t := Transaction(txid, lsn, [op]);
    FullyWritten(p, t);
    FramesAppend(p, es[..k], t);
    BelowIsSkipped(p, CommitStep(p, s, txid, [op]).disk, es, k, cp, txid, op, lsn);
  }

  lemma OneEdgeApplies(p: Primitives, st: State, op: Op)
    requires op.PutEdge?
    ensures ApplyOps(p, st, [op]).Ok?
  {
    assert [op][..0] == [];
  }

  // The power loss and the reopening alone.
  lemma CutIsFresh(evs: seq<Event>, cp: Checkpoint)
    requires FreshRun(evs)
    ensures NoCheckpoints(CUT) && FreshRun(evs + [TakeCheckpoint(cp)] + CUT)
    ensures evs + [TakeCheckpoint(cp)] + CUT == evs + [TakeCheckpoint(cp), Crash(Nothing, 0), Open(true)]
  {
    hide FreshRun, UsedTxids;
    var e0 := evs + [TakeCheckpoint(cp)];
    FreshSnoc(evs, TakeCheckpoint(cp));
    FreshSnoc(e0, Crash(Nothing, 0));
    FreshSnoc(e0 + [Crash(Nothing, 0)], Open(true));
    assert e0 + CUT == e0 + [Crash(Nothing, 0)] + [Open(true)];
  }

  const CUT: seq<Event> := [Crash(Nothing, 0), Open(true)]

  /** A checkpoint taken while a COMMIT frame is unsynced is ahead of the log: after a power loss the
      next session, though it shows all the state of the lost log, numbers its commits at or below the
      checkpoint. */
  lemma UnsyncedCheckpointIsAhead(p: Primitives, evs: seq<Event>, cp: Checkpoint)
    requires p.Valid() && FreshRun(evs) && SafeRun(p, evs) && Run(p, evs).0.mem.Some?
    requires var s := Run(p, evs).0;
      && Describes(p, cp, s.mem.value.st, s.mem.value.lastApplied)
      && !AllSynced(Run(p, evs).1, s.disk.synced)
    ensures var cut := evs + [TakeCheckpoint(cp)] + CUT; var s := Run(p, cut).0;
      && NoCheckpoints(CUT) && FreshRun(cut) && s.mem.Some? && s.disk.checkpoint == Some(cp)
      && 0 < s.mem.value.nextLsn <= cp.lastApplied && s.mem.value.st == Run(p, evs).0.mem.value.st
  {
    hide Run, FreshRun, SafeRun, Describes, AllSynced, CrashStep, CommitStep, OpenDisk, Inv,
      UsedTxids, MaxLsn, FullReplay, AllFit, Ordered, OnDisk, LedgerStep, NoCheckpoints, Frames;
    var (s, ledger) := Run(p, evs);
    RunKeeps(p, evs);
    CutIsFresh(evs, cp);
    var es, k := AheadAfterLoss(p, s, ledger, UsedTxids(evs), cp);
    MaxLsnBounds(es[..k]);
    CutRuns(p, evs, cp);
  }

  // The states of that run.
  lemma CutRuns(p: Primitives, evs: seq<Event>, cp: Checkpoint)
    requires Run(p, evs).0.mem.Some?
    requires Describes(p, cp, Run(p, evs).0.mem.value.st, Run(p, evs).0.mem.value.lastApplied)
    ensures var s := Run(p, evs).0;
      var s1 := CrashStep(p, s.(disk := s.disk.(checkpoint := Some(cp))), Nothing, 0);
      Run(p, evs + [TakeCheckpoint(cp), Crash(Nothing, 0), Open(true)]).0 == Step(p, s1, Open(true))
  {
    hide Run, CrashStep, CommitStep, OpenDisk, Describes, LedgerStep;
    var e0 := evs + [TakeCheckpoint(cp)];
    var e1 := e0 + [Crash(Nothing, 0)];
    RunSnoc(p, evs, TakeCheckpoint(cp));
    RunSnoc(p, e0, Crash(Nothing, 0));
    RunSnoc(p, e1, Open(true));
    assert e1 + [Open(true)] == evs + [TakeCheckpoint(cp), Crash(Nothing, 0), Open(true)];
  }

  /** It breaks recovery too: a one-edge commit of that session, if it fits the frame limit, returns a
      receipt and is not in what the next open loads. */
  lemma UnsyncedCheckpointLoses(p: Primitives, evs: seq<Event>, cp: Checkpoint, txid: string, op: Op)
    requires p.Valid() && FreshRun(evs) && SafeRun(p, evs) && Run(p, evs).0.mem.Some?
    requires var s := Run(p, evs).0;
      && Describes(p, cp, s.mem.value.st, s.mem.value.lastApplied)
      && !AllSynced(Run(p, evs).1, s.disk.synced)
    requires Small(p, txid, op, cp.lastApplied) && txid !in UsedTxids(evs)
    ensures var lost := evs + [TakeCheckpoint(cp)] + Loss(txid, op);
      && NoCheckpoints(Loss(txid, op)) && FreshRun(lost) && lost[|evs| + 3] == CommitTx(txid, [op])
      && Receipted(p, Run(p, lost[..|evs| + 3]).0, CommitTx(txid, [op]))
      && !Recovered(p, Run(p, lost).0.disk, Tx(txid, [op]))
  {
    hide Run, FreshRun, SafeRun, Describes, AllSynced, CrashStep, CommitStep, OpenDisk, Small, Receipted, Recovered, Inv,
      UsedTxids, MaxLsn, FullReplay, AllFit, Ordered, OnDisk, LedgerStep, NoCheckpoints, Frames;
    var (s, ledger) := Run(p, evs);
    RunKeeps(p, evs);
    LossIsFresh(evs, cp, txid, op) by { SmallIsNamed(p, txid, op, cp.lastApplied); }
    var es, k := AheadAfterLoss(p, s, ledger, UsedTxids(evs), cp);
    LossRuns(p, evs, cp, txid, op);
    var e2 := evs + [TakeCheckpoint(cp), Crash(Nothing, 0), Open(true)];
    CommitsBelow(p, Run(p, e2).0, es, k, cp, txid, op);
  }

  lemma SmallIsNamed(p: Primitives, txid: string, op: Op, top: int)
    requires Small(p, txid, op, top)
    ensures txid != "" && op.PutEdge?
  {
  }

  // The states the losing run goes through.
  lemma LossRuns(p: Primitives, evs: seq<Event>, cp: Checkpoint, txid: string, op: Op)
    requires Run(p, evs).0.mem.Some?
    requires Describes(p, cp, Run(p, evs).0.mem.value.st, Run(p, evs).0.mem.value.lastApplied)
    ensures var s := Run(p, evs).0;
      var s1 := CrashStep(p, s.(disk := s.disk.(checkpoint := Some(cp))), Nothing, 0);
      var e2 := evs + [TakeCheckpoint(cp), Crash(Nothing, 0), Open(true)];
      var lost := evs + [TakeCheckpoint(cp)] + Loss(txid, op);
      && lost[..|evs| + 3] == e2 && lost[|evs| + 3] == CommitTx(txid, [op])
      && Run(p, e2).0 == Step(p, s1, Open(true))
      && (Run(p, e2).0.mem.Some? ==> Run(p, lost).0.disk == CommitStep(p, Run(p, e2).0, txid, [op]).disk)
  {
    hide Run, CrashStep, CommitStep, OpenDisk, Describes, LedgerStep;
    var e0 := evs + [TakeCheckpoint(cp)];
    var e1 := e0 + [Crash(Nothing, 0)];
    var e2 := e1 + [Open(true)];
    var e3 := e2 + [CommitTx(txid, [op])];
    RunSnoc(p, evs, TakeCheckpoint(cp));
    RunSnoc(p, e0, Crash(Nothing, 0));
    RunSnoc(p, e1, Open(true));
    RunSnoc(p, e2, CommitTx(txid, [op]));
    RunSnoc(p, e3, Close);
    assert e2 == evs + [TakeCheckpoint(cp), Crash(Nothing, 0), Open(true)];
    assert e0 + Loss(txid, op) == e3 + [Close];
  }

  /** A checkpoint taken while every COMMIT frame is synced is sound for good. */
  lemma SyncedCheckpointStays(p: Primitives, evs: seq<Event>, cp: Checkpoint)
    requires p.Valid() && FreshRun(evs) && SafeRun(p, evs)
    requires AllSynced(Run(p, evs).1, Run(p, evs).0.disk.synced)
    ensures StaysSound(p, evs + [TakeCheckpoint(cp)])
  {
    hide Run, FreshRun, SafeRun, Describes, AllSynced, Sound, NoCheckpoints;
    var e0 := evs + [TakeCheckpoint(cp)];
    SafeSnoc(p, evs, TakeCheckpoint(cp));
    forall more | NoCheckpoints(more) && FreshRun(e0 + more) ensures Sound(p, e0 + more) {
      StaysSafe(p, e0, more);
      SafeIsSound(p, e0 + more);
    }
  }

  /** Exactly when a checkpoint may be taken: in a run that was safe so far, taking one now keeps every
      receipt recoverable and every later LSN above the checkpoint, however the run goes on without
      another checkpoint, if and only if no COMMIT frame lies above the synced part of the log. */
  lemma CheckpointSafeIff(p: Primitives, evs: seq<Event>, cp: Checkpoint)
    requires p.Valid() && FreshRun(evs) && SafeRun(p, evs) && Run(p, evs).0.mem.Some?
    requires Describes(p, cp, Run(p, evs).0.mem.value.st, Run(p, evs).0.mem.value.lastApplied)
    ensures StaysSound(p, evs + [TakeCheckpoint(cp)]) <==> AllSynced(Run(p, evs).1, Run(p, evs).0.disk.synced)
  {
    hide Run, FreshRun, SafeRun, Describes, AllSynced, KeepsReceipts, NoCheckpoints;
    if AllSynced(Run(p, evs).1, Run(p, evs).0.disk.synced) {
      SyncedCheckpointStays(p, evs, cp);
    } else {
      UnsyncedCheckpointIsAhead(p, evs, cp);
      assert !NumbersAbove(p, evs + [TakeCheckpoint(cp)] + CUT);
    }
  }

  /** The receipts alone decide it, provided some unused one-edge transaction fits the frame limit at
      the LSNs up to the checkpoint's. */
  lemma ReceiptsSafeIff(p: Primitives, evs: seq<Event>, cp: Checkpoint, txid: string, op: Op)
    requires p.Valid() && FreshRun(evs) && SafeRun(p, evs) && Run(p, evs).0.mem.Some?
    requires Describes(p, cp, Run(p, evs).0.mem.value.st, Run(p, evs).0.mem.value.lastApplied)
    requires Small(p, txid, op, cp.lastApplied) && txid !in UsedTxids(evs)
    ensures StaysReceipted(p, evs + [TakeCheckpoint(cp)]) <==> AllSynced(Run(p, evs).1, Run(p, evs).0.disk.synced)
  {
    hide Run, FreshRun, SafeRun, Describes, AllSynced, Small, KeepsReceipts, NumbersAbove, UsedTxids, NoCheckpoints;
    var e0 := evs + [TakeCheckpoint(cp)];
    if AllSynced(Run(p, evs).1, Run(p, evs).0.disk.synced) {
      SyncedCheckpointStays(p, evs, cp);
    } else {
      UnsyncedCheckpointLoses(p, evs, cp, txid, op);
      LossIsNotKept(p, e0 + Loss(txid, op), |evs| + 3, txid, op);
    }
  }

  lemma SafeSnoc(p: Primitives, evs: seq<Event>, ev: Event)
    ensures SafeRun(p, evs + [ev]) <==> (SafeRun(p, evs) && SafeStep(p, Run(p, evs).0, Run(p, evs).1, ev))
  {
    hide Run, SafeStep;
    assert (evs + [ev])[..|evs|] == evs;
  }

  lemma LossIsNotKept(p: Primitives, evs: seq<Event>, i: nat, txid: string, op: Op)
    requires i < |evs| && evs[i] == CommitTx(txid, [op]) && Receipted(p, Run(p, evs[..i]).0, evs[i])
    requires !Recovered(p, Run(p, evs).0.disk, Tx(txid, [op]))
    ensures !KeepsReceipts(p, evs)
  {
    hide Run, Receipted, Recovered;
  }
}
