/** How a session comes to hold a transaction that is not synced, what that costs, and what a session
    can go by to know that it holds none. */
module KilledSessions {
  import opened Common
  import opened WalFormat
  import opened Replay
  import opened DurableMachine
  import opened DurableSafety
  import opened DurableRefinement
  import opened CheckpointLoading
  import opened DurableTheorems
  import opened DurableReceipts
  import opened CheckpointSafety

  // The database is opened, the process is killed when the whole transaction is written but not
  // synced, and the database is opened again.
  function Killed(p: Primitives, txid: string, op: Op): Event {
    Kill(Committing(txid, [op]), |Frames(p, Transaction(txid, 1, [op]))|)
  }

  function KilledRun(p: Primitives, txid: string, op: Op): seq<Event> {
    [Open(true), Killed(p, txid, op), Open(true)]
  }

  lemma ThreeAreFresh(a: Event, b: Event, c: Event)
    requires EventTxids(a) == EventTxids(c) == {} && "" !in EventTxids(b)
    ensures FreshRun([a, b, c]) && UsedTxids([a, b, c]) == EventTxids(b) && FreshRun([a, b])
  {
    hide EventTxids;
    assert FreshRun([]) && UsedTxids([]) == {};
    hide FreshRun, UsedTxids;
    FreshSnoc([], a);
    FreshSnoc([a], b);
    FreshSnoc([a, b], c);
    assert [] + [a] == [a] && [a] + [b] == [a, b] && [a, b] + [c] == [a, b, c];
  }

  lemma ThreeAreSafe(p: Primitives, a: Event, b: Event, c: Event)
    requires !a.TakeCheckpoint? && !b.TakeCheckpoint? && !c.TakeCheckpoint?
    ensures SafeRun(p, [a, b, c]) && SafeRun(p, [a, b])
  {
    assert SafeRun(p, []);
    hide SafeRun, Run, Describes, AllSynced;
    SafeSnoc(p, [], a);
    SafeSnoc(p, [a], b);
    SafeSnoc(p, [a, b], c);
    assert [] + [a] == [a] && [a] + [b] == [a, b] && [a, b] + [c] == [a, b, c];
  }

  lemma KilledRunIsFresh(p: Primitives, txid: string, op: Op)
    requires txid != ""
    ensures FreshRun(KilledRun(p, txid, op)) && SafeRun(p, KilledRun(p, txid, op))
    ensures NoCheckpoints(KilledRun(p, txid, op)) && UsedTxids(KilledRun(p, txid, op)) == {txid}
    ensures FreshRun(KilledRun(p, txid, op)[..2]) && SafeRun(p, KilledRun(p, txid, op)[..2])
  {
    hide FreshRun, UsedTxids, SafeRun, Frames, Transaction;
    var kill := Killed(p, txid, op);
    ThreeAreFresh(Open(true), kill, Open(true));
    ThreeAreSafe(p, Open(true), kill, Open(true));
    assert KilledRun(p, txid, op)[..2] == [Open(true), kill];
  }

  lemma KilledRunStates(p: Primitives, txid: string, op: Op)
    ensures var s1 := Step(p, Created(p), Open(true));
      var s2, l2 := Step(p, s1, Killed(p, txid, op)), LedgerStep(p, s1, [], Killed(p, txid, op));
      && Run(p, KilledRun(p, txid, op)[..2]) == (s2, l2)
      && Run(p, KilledRun(p, txid, op)) == (Step(p, s2, Open(true)), l2)
  {
    var kill := Killed(p, txid, op);
    NoRun(p);
    hide Run, OpenDisk, KillStep, Killed, Created;
    var e1, e2 := [] + [Open(true)], [] + [Open(true)] + [kill];
    assert KilledRun(p, txid, op)[..2] == e2 && KilledRun(p, txid, op) == e2 + [Open(true)];
    RunSnoc(p, [], Open(true));
    hide LedgerStep;
    assert LedgerStep(p, Created(p), [], Open(true)) == [] by { OpenPostsNothing(p, Created(p), []); }
    RunSnoc(p, e1, kill);
    RunSnoc(p, e2, Open(true));
    OpenPostsNothing(p, Run(p, e2).0, Run(p, e2).1);
  }

  lemma OpenPostsNothing(p: Primitives, s: System, ledger: seq<Posted>)
    ensures LedgerStep(p, s, ledger, Open(true)) == ledger
  {
  }

  /** A process killed after its COMMIT frame was written and before it was synced, and opened again:
      the session holds a transaction whose COMMIT frame is not synced. */
  lemma KilledCommitIsUnsynced(p: Primitives, txid: string, op: Op) returns (evs: seq<Event>)
    requires p.Valid() && Small(p, txid, op, 1)
    ensures FreshRun(evs) && SafeRun(p, evs) && NoCheckpoints(evs) && UsedTxids(evs) == {txid}
    ensures Run(p, evs).0.mem.Some? && Txs(Run(p, evs).1) == [Tx(txid, [op])]
    ensures !AllSynced(Run(p, evs).1, Run(p, evs).0.disk.synced)
    ensures Run(p, evs).0.mem.value.lastApplied <= 3
  {
    hide Run, FreshRun, Small, Inv, OpenDisk, UsedTxids, Frames, Transaction, AllFit, SafeRun, KillStep, NoCheckpoints, Created;
    evs := KilledRun(p, txid, op);
    SmallIsNamed(p, txid, op, 1);
    SmallFits(p, txid, op, 1);
    KilledRunIsFresh(p, txid, op);
    KilledRunStates(p, txid, op);
    FirstOpen(p);
    FirstKill(p, txid, op, Step(p, Created(p), Open(true)));
    var e2 := evs[..2];
    RunKeeps(p, e2);
    KilledOpens(p, Run(p, e2).0, Run(p, e2).1, UsedTxids(e2), txid, op);
  }

  lemma NoRun(p: Primitives)
    ensures Run(p, []) == (Created(p), []) && FreshRun([]) && SafeRun(p, []) && UsedTxids([]) == {}
  {
  }

  lemma FirstOpen(p: Primitives)
    requires p.Valid()
    ensures var s := Step(p, Created(p), Open(true));
      s.mem == Some(Memory(EMPTY, 0, 1)) && s.disk.wal == [] && s.disk.synced == 0
  {
    hide OpenDisk;
    var d := Created(p).disk;
    var cp := d.checkpoint.value;
    assert Describes(p, cp, EMPTY, 0);
    OnDiskExactly(p, []);
    assert CoveredAt(p, cp, [], 0);
    OpenResult(p, d, [], 0, true);
  }

  lemma FirstKill(p: Primitives, txid: string, op: Op, s: System)
    requires s.mem == Some(Memory(EMPTY, 0, 1)) && s.disk.wal == [] && s.disk.synced == 0 && Small(p, txid, op, 1)
    ensures var t := Transaction(txid, 1, [op]);
      var kill := Kill(Committing(txid, [op]), |Frames(p, t)|);
      && LedgerStep(p, s, [], kill) == [Posted(Tx(txid, [op]), |Frames(p, t)|)] && 0 < |Frames(p, t)|
      && KillStep(p, s, Committing(txid, [op]), |Frames(p, t)|).disk.synced == 0
      && KillStep(p, s, Committing(txid, [op]), |Frames(p, t)|).disk.wal == Frames(p, t)
      && KillStep(p, s, Committing(txid, [op]), |Frames(p, t)|).mem.None?
  {
    OneEdgeApplies(p, EMPTY, op);
    var tx := Tx(txid, [op]);
    var t := Transaction(txid, 1, [op]);
    SmallFits(p, txid, op, 1);
    WholeTransaction(p, [], txid, 1, [op]);
    FullyWritten(p, t);
    FirstUnfinished(p, txid, op, s);
    FirstEntered(p, txid, op, s);
    hide Frames, AllFit, Transaction, ApplyOps, Fold, Written, Txs, Small, Entered, Unfinished;
    var wal := Frames(p, t);
    assert wal[..|wal|] == wal;
    assert Kept([Posted(tx, |wal|)], |wal|) == [Posted(tx, |wal|)];
  }

  lemma SmallFits(p: Primitives, txid: string, op: Op, lsn: int)
    requires Small(p, txid, op, lsn) && 0 < lsn
    ensures AllFit(p, Transaction(txid, lsn, [op])) && op.PutEdge?
  {
    hide AllFit, Transaction;
  }

  lemma FirstUnfinished(p: Primitives, txid: string, op: Op, s: System)
    requires s.mem == Some(Memory(EMPTY, 0, 1)) && s.disk.wal == [] && ApplyOps(p, EMPTY, [op]).Ok?
    requires Written(p, Transaction(txid, 1, [op])) == Frames(p, Transaction(txid, 1, [op]))
    ensures Unfinished(p, s, Committing(txid, [op])) == Frames(p, Transaction(txid, 1, [op]))
  {
    hide Frames, Transaction, ApplyOps, Written;
    assert [] + Frames(p, Transaction(txid, 1, [op])) == Frames(p, Transaction(txid, 1, [op]));
  }

  lemma FirstEntered(p: Primitives, txid: string, op: Op, s: System)
    requires s.mem == Some(Memory(EMPTY, 0, 1)) && s.disk.wal == [] && ApplyOps(p, EMPTY, [op]).Ok?
    requires AllFit(p, Transaction(txid, 1, [op]))
    ensures Entered(p, s, [], Tx(txid, [op])) == [Posted(Tx(txid, [op]), |Frames(p, Transaction(txid, 1, [op]))|)]
  {
    assert Txs([]) == [] && Fold(p, []) == Ok(EMPTY);
    hide Frames, AllFit, Transaction, ApplyOps, Fold, Txs;
  }

  // Opening a whole log repairs nothing and syncs nothing.
  lemma KilledOpens(p: Primitives, s: System, ledger: seq<Posted>, used: set<string>, txid: string, op: Op)
    requires p.Valid() && Inv(p, s, ledger, used) && s.mem.None?
    requires s.disk.wal == Frames(p, Transaction(txid, 1, [op])) && AllFit(p, Transaction(txid, 1, [op]))
    ensures Step(p, s, Open(true)).mem.Some? && Step(p, s, Open(true)).disk == s.disk
    ensures Step(p, s, Open(true)).mem.value.lastApplied <= 3
  {
    hide Posts, Frames, OpenDisk, OnDisk, LogInv, FullReplay, AllFit, Ordered, Covered, Transaction;
    var es, m :| InvAt(p, s, ledger, used, es, m);
    var t := Transaction(txid, 1, [op]);
    LogParts(p, s.disk, es, m, ledger, used);
    LogCovered(p, s.disk, es, m, ledger, used);
    OpenResult(p, s.disk, es, m, true);
    FirstIsOrdered(txid, op);
    OnDiskExactly(p, t);
    ParseOnDisk(p, s.disk.wal, t);
    ParseOnDisk(p, s.disk.wal, es);
    assert es == t;
    LastAppliedBelow(p, es);
    TransactionLsns(txid, 1, [op]);
  }

  lemma FirstIsOrdered(txid: string, op: Op)
    ensures Ordered(Transaction(txid, 1, [op]))
  {
    hide Transaction;
    TransactionLsns(txid, 1, [op]);
  }

  /** The whole of it: in any encoding in which the two transactions fit, a process killed while it
      commits one and a power loss after the next session's checkpoint cost the receipt of the other. */
  lemma KillCostsReceipt(p: Primitives, a: string, b: string, op: Op)
    requires p.Valid() && Small(p, a, op, 3) && Small(p, b, op, 3) && a != b
    ensures exists evs :: FreshRun(evs) && !KeepsReceipts(p, evs)
  {
    hide Run, FreshRun, SafeRun, Small, UsedTxids, AllSynced, Describes, KeepsReceipts;
    SmallBelow(p, a, op, 3, 1);
    var evs := KilledCommitIsUnsynced(p, a, op);
    var s := Run(p, evs).0;
    RunIsKeyed(p, evs);
    var cp := SomeCheckpoint(p, s.mem.value.st, s.mem.value.lastApplied);
    DescribesLsn(p, cp, s.mem.value.st, s.mem.value.lastApplied);
    SmallBelow(p, b, op, 3, cp.lastApplied);
    UnsyncedCheckpointLoses(p, evs, cp, b, op);
    LossIsNotKept(p, evs + [TakeCheckpoint(cp)] + Loss(b, op), |evs| + 3, b, op);
  }

  lemma SmallBelow(p: Primitives, txid: string, op: Op, top: int, lower: int)
    requires Small(p, txid, op, top) && lower <= top
    ensures Small(p, txid, op, lower)
  {
  }

  // The records of an open session are filed under their own ids.
  lemma RunIsKeyed(p: Primitives, evs: seq<Event>)
    requires p.Valid() && FreshRun(evs) && SafeRun(p, evs) && Run(p, evs).0.mem.Some?
    ensures Keyed(p, Run(p, evs).0.mem.value.st)
  {
    hide Run, FreshRun, SafeRun, Posts, Frames, OnDisk, LogInv, FullReplay, AllFit, Ordered, Keyed;
    RunKeeps(p, evs);
    var (s, ledger) := Run(p, evs);
    var es, m :| InvAt(p, s, ledger, UsedTxids(evs), es, m);
    SyncedBound(p, s, ledger, UsedTxids(evs), es, m);
    LogParts(p, s.disk, es, m, ledger, UsedTxids(evs));
    ReplayKeyed(p, es);
  }

  // ----- when a session may checkpoint -----

  ghost predicate NoKills(evs: seq<Event>) {
    forall i | 0 <= i < |evs| :: !evs[i].Kill?
  }

  lemma AllHeld(ledger: seq<Posted>, synced: nat)
    ensures AllSynced(ledger, synced) <==> Held(ledger, |ledger|, synced)
  {
  }

  // A log that is synced to its end has every COMMIT frame synced.
  lemma SyncedToTheEnd(p: Primitives, s: System, ledger: seq<Posted>, used: set<string>)
    requires p.Valid() && Inv(p, s, ledger, used) && s.disk.synced == |s.disk.wal|
    ensures AllSynced(ledger, s.disk.synced)
  {
    hide Posts, Frames, OnDisk, LogInv, FullReplay, AllFit, Ordered, MemInv;
    var es, m :| InvAt(p, s, ledger, used, es, m);
    LogParts(p, s.disk, es, m, ledger, used);
    LedgerIsPosts(p, s.disk, es, m, ledger, used);
    ParseOnDisk(p, s.disk.wal, es);
    PostsEnd(p, es);
  }

  lemma StaysSynced(p: Primitives, s: System, ledger: seq<Posted>, used: set<string>, ev: Event)
    requires p.Valid() && Inv(p, s, ledger, used) && AllSynced(ledger, s.disk.synced) && !ev.Kill?
    requires Inv(p, Step(p, s, ev), LedgerStep(p, s, ledger, ev), used + EventTxids(ev))
    ensures AllSynced(LedgerStep(p, s, ledger, ev), Step(p, s, ev).disk.synced)
  {
    hide Inv, CommitStep, UncommittedStep, OpenDisk, Describes, Accepted, Posting, WithInflight, Kept, Unfinished, AllSynced, Held;
    var s', ledger' := Step(p, s, ev), LedgerStep(p, s, ledger, ev);
    if ev.Crash? {
      SyncedToTheEnd(p, s', ledger', used + EventTxids(ev));
    } else if ev.CommitTx? && Accepted(p, s, ledger, Tx(ev.txid, ev.ops)) {
      AcceptedIsReceipted(p, s, ledger, used, ev);
      ReceiptSyncs(p, s, ledger, used, ev);
      AllHeld(ledger', s'.disk.synced);
    } else {
      AllHeld(ledger, s.disk.synced);
      StepHolds(p, s, ledger, used, ev, |ledger|);
      assert ledger' == ledger;
      AllHeld(ledger', s'.disk.synced);
    }
  }

  lemma AcceptedIsReceipted(p: Primitives, s: System, ledger: seq<Posted>, used: set<string>, ev: Event)
    requires Inv(p, s, ledger, used) && ev.CommitTx? && Accepted(p, s, ledger, Tx(ev.txid, ev.ops))
    ensures Receipted(p, s, ev)
  {
    hide InvAt, Fold, ApplyOps, AllFit, Transaction, Txs;
    var es, m :| InvAt(p, s, ledger, used, es, m);
    assert s.mem.Some?;
    AcceptedIsAdmissible(p, s, ledger, used, es, m, ev.txid, ev.ops);
  }

  // Steps after which the whole log is synced: a commit that returned a receipt, an open that cut
  // a torn tail off, a power loss.
  ghost predicate Syncs(p: Primitives, s: System, ev: Event) {
    || Receipted(p, s, ev)
    || (ev.Open? && Step(p, s, ev).disk.wal != s.disk.wal)
    || ev.Crash?
  }

  lemma RepairSyncs(p: Primitives, s: System, repair: bool)
    requires Step(p, s, Open(repair)).disk.wal != s.disk.wal
    ensures Step(p, s, Open(repair)).disk.synced == |Step(p, s, Open(repair)).disk.wal|
  {
    hide Parse, LoadCheckpoint, ReplayLog, MaxLsn;
  }

  lemma SyncsAll(p: Primitives, s: System, ledger: seq<Posted>, used: set<string>, ev: Event)
    requires p.Valid() && Inv(p, s, ledger, used) && Syncs(p, s, ev)
    requires Inv(p, Step(p, s, ev), LedgerStep(p, s, ledger, ev), used + EventTxids(ev))
    ensures AllSynced(LedgerStep(p, s, ledger, ev), Step(p, s, ev).disk.synced)
  {
    hide Inv, CommitStep, UncommittedStep, OpenDisk, Describes, Accepted, Posting, WithInflight, Kept, Unfinished, AllSynced, Held,
      Receipted;
    var s', ledger' := Step(p, s, ev), LedgerStep(p, s, ledger, ev);
    if Receipted(p, s, ev) {
      ReceiptSyncs(p, s, ledger, used, ev);
      AllHeld(ledger', s'.disk.synced);
    } else {
      if ev.Open? { RepairSyncs(p, s, ev.repair); }
      SyncedToTheEnd(p, s', ledger', used + EventTxids(ev));
    }
  }

  /** What a running session can go by: after a commit of its own returned a receipt, or after opening
      repaired a torn tail, every COMMIT frame is synced until the process is killed, so any checkpoint
      it takes is safe. A power loss leaves nothing unsynced either. */
  lemma {:induction false} SyncedSinceIsSafe(p: Primitives, evs: seq<Event>, i: nat)
    requires p.Valid() && FreshRun(evs) && i < |evs| && SafeRun(p, evs[..i + 1])
    requires Syncs(p, Run(p, evs[..i]).0, evs[i]) && forall j | i < j < |evs| :: !evs[j].Kill?
    ensures SafeRun(p, evs) && AllSynced(Run(p, evs).1, Run(p, evs).0.disk.synced)
    decreases |evs|
  {
    hide Inv, Step, LedgerStep, AllSynced, EventTxids, Syncs;
    var init, ev := evs[..|evs| - 1], evs[|evs| - 1];
    assert init + [ev] == evs;
    if i == |evs| - 1 {
      assert evs[..i] == init && evs[..i + 1] == evs;
      SafeSnoc(p, init, ev);
      RunKeeps(p, init);
      RunKeeps(p, evs);
      SyncsAll(p, Run(p, init).0, Run(p, init).1, UsedTxids(init), ev);
    } else {
      assert init[..i] == evs[..i] && init[..i + 1] == evs[..i + 1];
      SyncedSinceIsSafe(p, init, i);
      SafeSnoc(p, init, ev);
      RunKeeps(p, init);
      RunKeeps(p, evs);
      StaysSynced(p, Run(p, init).0, Run(p, init).1, UsedTxids(init), ev);
    }
  }

  /** Without kills, power losses at any byte notwithstanding, every COMMIT frame in the log is synced,
      so every checkpoint is safe. */
  lemma {:induction false} NoKillIsSafe(p: Primitives, evs: seq<Event>)
    requires p.Valid() && FreshRun(evs) && NoKills(evs)
    ensures SafeRun(p, evs) && AllSynced(Run(p, evs).1, Run(p, evs).0.disk.synced)
    decreases |evs|
  {
    if |evs| > 0 {
      hide Inv, Step, LedgerStep, AllSynced, EventTxids;
      var init, ev := evs[..|evs| - 1], evs[|evs| - 1];
      assert init + [ev] == evs;
      NoKillIsSafe(p, init);
      SafeSnoc(p, init, ev);
      RunKeeps(p, init);
      RunKeeps(p, evs);
      StaysSynced(p, Run(p, init).0, Run(p, init).1, UsedTxids(init), ev);
    }
  }
}
