/** What every run of the durable machine satisfies. */
module DurableTheorems {
  import opened Common
  import opened WalFormat
  import opened Replay
  import opened DurableMachine
  import opened DurableSafety
  import opened DurableRefinement
  import opened CheckpointLoading

  // ----- opening -----

  lemma {:induction false} MaxLsnBounds(es: seq<Entry>)
    ensures 0 <= MaxLsn(es) && forall i | 0 <= i < |es| :: es[i].lsn <= MaxLsn(es)
    decreases |es|
  {
    if |es| > 0 {
      MaxLsnBounds(es[..|es| - 1]);
      assert forall i | 0 <= i < |es| - 1 :: es[i] == es[..|es| - 1][i];
    }
  }

  ghost function OpenedMemory(p: Primitives, es: seq<Entry>): Memory
    requires FullReplay(p, es).Ok?
  {
    Memory(FullReplay(p, es).value.st, FullReplay(p, es).value.lastApplied, MaxLsn(es) + 1)
  }

  lemma CoveredReplays(p: Primitives, doc: Option<Checkpoint>, es: seq<Entry>, m: nat)
    requires Covered(p, doc, es, m) && Ordered(es) && FullReplay(p, es).Ok?
    ensures var l := LoadCheckpoint(p, doc);
      && l.Ok?
      && var r := ReplayLog(p, l.value.1, Start(l.value.0, l.value.1), es);
      && r.Ok?
      && r.value.st == FullReplay(p, es).value.st
      && r.value.lastApplied == FullReplay(p, es).value.lastApplied
    ensures doc.Some? ==> exists j | 0 <= j <= |es| :: FullReplay(p, es[..j]).Ok? && doc.value.lastApplied == FullReplay(p, es[..j]).value.lastApplied
  {
    hide ReplayEntry, Describes, ApplyOps;
    assert es[..|es|] == es;
    if doc.None? {
      CheckpointAgrees(p, es, 0, |es|);
    } else {
      var j :| 0 <= j <= m && CoveredAt(p, doc.value, es, j);
      var c := FullReplay(p, es[..j]).value;
      ReplayKeyed(p, es[..j]);
      CheckpointRestores(p, doc.value, c.st, c.lastApplied);
      CheckpointAgrees(p, es, j, |es|);
      assert doc.value.lastApplied == c.lastApplied by { DescribesLsn(p, doc.value, c.st, c.lastApplied); }
    }
  }

  lemma DescribesLsn(p: Primitives, cp: Checkpoint, st: State, lsn: int)
    requires Describes(p, cp, st, lsn)
    ensures cp.lastApplied == lsn
  {
  }

  lemma ParseOnDisk(p: Primitives, wal: Bytes, es: seq<Entry>)
    requires p.Valid() && OnDisk(p, wal, es) && AllFit(p, es) && Ordered(es)
    ensures |Frames(p, es)| <= |wal| && wal[..|Frames(p, es)|] == Frames(p, es)
    ensures Parse(p, wal, 0) == Ok(Parsed(es, |Frames(p, es)|, |wal| - |Frames(p, es)|))
  {
    hide Frames, Parse, Torn;
    var tail :| Torn(p, tail) && wal == Frames(p, es) + tail;
    OrderedIncreasing(es, 0);
    ParseFrames(p, es, tail, 0);
  }

  // Opening a disk the invariant describes succeeds, with exactly the replayed state.
  lemma OpenResult(p: Primitives, d: Disk, es: seq<Entry>, m: nat, repair: bool)
    requires p.Valid() && OnDisk(p, d.wal, es) && AllFit(p, es) && Ordered(es)
    requires FullReplay(p, es).Ok? && Covered(p, d.checkpoint, es, m)
    ensures |Frames(p, es)| <= |d.wal|
    ensures var tail := |d.wal| - |Frames(p, es)|;
      OpenDisk(p, d, repair) ==
        if tail > 0 && !repair then (d, Err(WalError(TruncatedTail)))
        else (Repaired(d, |Frames(p, es)|, tail), Ok(OpenedMemory(p, es)))
  {
    hide Frames, Parse, Torn, FullReplay, ReplayLog, LoadCheckpoint, Covered, OnDisk, MaxLsn;
    ParseOnDisk(p, d.wal, es);
    CoveredReplays(p, d.checkpoint, es, m);
  }

  // ----- every step keeps the invariant -----

  lemma UsedGrows(p: Primitives, s: System, ledger: seq<Posted>, used: set<string>, more: set<string>)
    requires Inv(p, s, ledger, used)
    ensures Inv(p, s, ledger, used + more)
  {
    hide FullReplay, Posts, Frames, Covered, AllFit, OnDisk, MemInv, Unsplit;
    var es, m :| InvAt(p, s, ledger, used, es, m);
    assert InvAt(p, s, ledger, used + more, es, m);
  }

  lemma WholeTransaction(p: Primitives, es: seq<Entry>, txid: string, lsn: int, ops: seq<Op>)
    ensures Frames(p, es + Transaction(txid, lsn, ops)) == Frames(p, es) + Frames(p, Transaction(txid, lsn, ops))
    ensures 0 < |Frames(p, Transaction(txid, lsn, ops))|
  {
    hide Transaction;
    FramesAppend(p, es, Transaction(txid, lsn, ops));
  }

  lemma FullyWritten(p: Primitives, t: seq<Entry>)
    requires AllFit(p, t)
    ensures Written(p, t) == Frames(p, t)
  {
    hide Frames, FitCount;
    FitPrefix(p, t, FitCount(p, t));
  }

  lemma CommitWhole(p: Primitives, s: System, ledger: seq<Posted>, used: set<string>, es: seq<Entry>, m: nat,
                    txid: string, ops: seq<Op>)
    requires InvAt(p, s, ledger, used, es, m) && s.mem.Some?
    requires txid != "" && txid !in used && Admissible(p, s.mem.value, ops)
    requires AllFit(p, Transaction(txid, s.mem.value.nextLsn, ops))
    ensures Inv(p, CommitStep(p, s, txid, ops), ledger + [Posting(p, s, Tx(txid, ops))], used + {txid})
  {
    hide FullReplay, Posts, Frames, ApplyOps, Covered, AllFit, Transaction, LogInv, Written, Grown, OnDisk, Ready;
    var mem := s.mem.value;
    var t := Transaction(txid, mem.nextLsn, ops);
    var g := es + t;
    var s' := CommitStep(p, s, txid, ops);
    FullyWritten(p, t);
    SyncedBound(p, s, ledger, used, es, m);
    MemReady(p, s, ledger, used, es, m, txid, ops);
    WholeTransaction(p, es, txid, mem.nextLsn, ops);
    LogParts(p, s.disk, es, m, ledger, used);
    GrowCommitted(p, s.disk, s'.disk, es, m, ledger, used, txid, mem.nextLsn, ops);
    ReadyCommits(p, es, txid, mem.nextLsn, ops);
    GrownWhole(es, txid, mem.nextLsn, ops);
    GrownLsns(es, txid, mem.nextLsn, ops, |ops| + 2);
    OnDiskExactly(p, g);
    assert InvAt(p, s', ledger + [Posting(p, s, Tx(txid, ops))], used + {txid}, g, |g|);
  }

  lemma GrownWhole(es: seq<Entry>, txid: string, lsn: int, ops: seq<Op>)
    ensures var t := Transaction(txid, lsn, ops);
      t[..|t|] == t && Grown(es, txid, lsn, ops, |ops| + 2) == es + t
  {
    hide Transaction;
  }

  lemma CommitTorn(p: Primitives, s: System, ledger: seq<Posted>, used: set<string>, es: seq<Entry>, m: nat,
                   txid: string, ops: seq<Op>)
    requires InvAt(p, s, ledger, used, es, m) && s.mem.Some?
    requires txid != "" && txid !in used && Admissible(p, s.mem.value, ops)
    requires !AllFit(p, Transaction(txid, s.mem.value.nextLsn, ops))
    ensures Inv(p, CommitStep(p, s, txid, ops), ledger, used + {txid})
  {
    hide FullReplay, Posts, Frames, ApplyOps, Covered, AllFit, Transaction, LogInv, Written, Grown,
      OnDisk, InvAt, FitCount;
    var lsn := s.mem.value.nextLsn;
    var t := Transaction(txid, lsn, ops);
    var k := FitCount(p, t);
    FitPrefix(p, t, k);
    var s' := CommitStep(p, s, txid, ops);
    SyncedBound(p, s, ledger, used, es, m);
    AppendPart(p, s, ledger, used, es, m, txid, ops, k, s'.disk, s'.mem.value);
    assert InvAt(p, s', ledger, used + {txid}, Grown(es, txid, lsn, ops, k), m);
  }

  // Acceptance by the ledger is what the code's own checks decide.
  lemma AcceptedIsAdmissible(p: Primitives, s: System, ledger: seq<Posted>, used: set<string>, es: seq<Entry>, m: nat,
                             txid: string, ops: seq<Op>)
    requires InvAt(p, s, ledger, used, es, m) && s.mem.Some?
    ensures Accepted(p, s, ledger, Tx(txid, ops)) <==>
      Admissible(p, s.mem.value, ops) && AllFit(p, Transaction(txid, s.mem.value.nextLsn, ops))
  {
    hide InvAt, Fold, ApplyOps, AllFit, Transaction, Txs;
    SyncedBound(p, s, ledger, used, es, m);
  }

  lemma CommitKeeps(p: Primitives, s: System, ledger: seq<Posted>, used: set<string>, txid: string, ops: seq<Op>)
    requires Inv(p, s, ledger, used) && txid != "" && txid !in used
    ensures Inv(p, Step(p, s, CommitTx(txid, ops)), LedgerStep(p, s, ledger, CommitTx(txid, ops)), used + {txid})
  {
    hide InvAt, Accepted, Admissible, CommitStep, AllFit, Transaction;
    var es, m :| InvAt(p, s, ledger, used, es, m);
    if s.mem.None? {
      assert !Accepted(p, s, ledger, Tx(txid, ops)) by { NotOpenNotAccepted(p, s, ledger, Tx(txid, ops)); }
      UsedGrows(p, s, ledger, used, {txid});
    } else {
      AcceptedIsAdmissible(p, s, ledger, used, es, m, txid, ops);
      if !Admissible(p, s.mem.value, ops) {
        RejectedCommit(p, s, txid, ops);
        UsedGrows(p, s, ledger, used, {txid});
      } else if AllFit(p, Transaction(txid, s.mem.value.nextLsn, ops)) {
        CommitWhole(p, s, ledger, used, es, m, txid, ops);
      } else {
        CommitTorn(p, s, ledger, used, es, m, txid, ops);
      }
    }
  }

  lemma NotOpenNotAccepted(p: Primitives, s: System, ledger: seq<Posted>, tx: Tx)
    requires s.mem.None?
    ensures !Accepted(p, s, ledger, tx)
  {
  }

  lemma RejectedCommit(p: Primitives, s: System, txid: string, ops: seq<Op>)
    requires s.mem.Some? && !Admissible(p, s.mem.value, ops)
    ensures CommitStep(p, s, txid, ops) == s
  {
  }

  lemma AppendKeeps(p: Primitives, s: System, ledger: seq<Posted>, used: set<string>, txid: string, ops: seq<Op>)
    requires Inv(p, s, ledger, used) && txid != "" && txid !in used
    ensures Inv(p, Step(p, s, AppendUncommitted(txid, ops)), ledger, used + {txid})
  {
    hide InvAt, UncommittedStep, ApplyOps;
    var es, m :| InvAt(p, s, ledger, used, es, m);
    if s.mem.Some? && ApplyOps(p, s.mem.value.st, ops).Ok? {
      UncommittedKeeps(p, s, ledger, used, es, m, txid, ops);
    } else {
      UsedGrows(p, s, ledger, used, {txid});
      if s.mem.Some? { RejectedAppend(p, s, txid, ops); }
    }
  }

  lemma RejectedAppend(p: Primitives, s: System, txid: string, ops: seq<Op>)
    requires s.mem.Some? && ApplyOps(p, s.mem.value.st, ops).Err?
    ensures UncommittedStep(p, s, txid, ops) == s
  {
  }

  // A checkpoint taken while every COMMIT frame is synced is carried by the synced entries.
  lemma CheckpointKeeps(p: Primitives, s: System, ledger: seq<Posted>, used: set<string>, cp: Checkpoint)
    requires Inv(p, s, ledger, used) && SafeStep(p, s, ledger, TakeCheckpoint(cp))
    ensures Inv(p, Step(p, s, TakeCheckpoint(cp)), ledger, used)
  {
    hide FullReplay, Posts, Frames, AllFit, OnDisk, Describes, Ordered, Unsplit, WholeFrames, AllSynced;
    var es, m :| InvAt(p, s, ledger, used, es, m);
    if s.mem.Some? && Describes(p, cp, s.mem.value.st, s.mem.value.lastApplied) {
      SyncedHoldsCommits(p, es, s.disk.synced);
      var m' := WholeFrames(p, es, s.disk.synced);
      TailKeepsState(p, es, m');
      assert CoveredAt(p, cp, es, m');
      assert InvAt(p, Step(p, s, TakeCheckpoint(cp)), ledger, used, es, m');
    }
  }

  lemma CloseKeeps(p: Primitives, s: System, ledger: seq<Posted>, used: set<string>)
    requires Inv(p, s, ledger, used)
    ensures Inv(p, s.(mem := None), ledger, used)
  {
    hide LogInv, OnDisk;
    var es, m :| InvAt(p, s, ledger, used, es, m);
    assert InvAt(p, s.(mem := None), ledger, used, es, m);
  }

  lemma LogCovered(p: Primitives, d: Disk, es: seq<Entry>, m: nat, ledger: seq<Posted>, used: set<string>)
    requires LogInv(p, d, es, m, ledger, used)
    ensures Covered(p, d.checkpoint, es, m) && |Frames(p, es[..m])| <= d.synced
  {
    hide FullReplay, Posts, Frames, AllFit, Ordered, Covered, Unsplit;
  }

  // Cutting off the torn tail keeps the log.
  lemma RepairKeeps(p: Primitives, d: Disk, es: seq<Entry>, m: nat, ledger: seq<Posted>, used: set<string>)
    requires LogInv(p, d, es, m, ledger, used) && |Frames(p, es)| <= |d.wal|
    requires d.wal[..|Frames(p, es)|] == Frames(p, es)
    ensures var d' := Repaired(d, |Frames(p, es)|, |d.wal| - |Frames(p, es)|);
      d'.wal == Frames(p, es) && LogInv(p, d', es, m, ledger, used)
  {
    hide FullReplay, Posts, Frames, AllFit, Ordered, Covered, Unsplit;
    FramesOfPrefix(p, es, m);
    UnsplitBelow(p, es, |Frames(p, es)|);
    if |d.wal| == |Frames(p, es)| { assert d.wal[..|d.wal|] == d.wal; }
  }

  lemma OpenKeeps(p: Primitives, s: System, ledger: seq<Posted>, used: set<string>, repair: bool)
    requires p.Valid() && Inv(p, s, ledger, used)
    ensures Inv(p, Step(p, s, Open(repair)), ledger, used)
  {
    hide FullReplay, Frames, AllFit, Ordered, Covered, OnDisk, LogInv, OpenDisk, Repaired, MaxLsn;
    var es, m :| InvAt(p, s, ledger, used, es, m);
    if s.mem.None? {
      LogParts(p, s.disk, es, m, ledger, used);
      LogCovered(p, s.disk, es, m, ledger, used);
      ParseOnDisk(p, s.disk.wal, es);
      OpenResult(p, s.disk, es, m, repair);
      var s' := Step(p, s, Open(repair));
      if s'.mem.Some? {
        RepairKeeps(p, s.disk, es, m, ledger, used);
        OnDiskExactly(p, es);
        MaxLsnBounds(es);
        assert InvAt(p, s', ledger, used, es, m);
      } else {
        assert InvAt(p, s', ledger, used, es, m);
      }
    }
  }

  // ----- dying -----

  // What reaches the file of an append in flight, all of it: the log and the ledger it stands for.
  lemma InflightGrows(p: Primitives, s: System, ledger: seq<Posted>, used: set<string>, es: seq<Entry>, m: nat,
                      inflight: Inflight) returns (g: seq<Entry>)
    requires InvAt(p, s, ledger, used, es, m)
    requires "" !in InflightTxids(inflight) && InflightTxids(inflight) !! used
    ensures var d := s.disk.(wal := Unfinished(p, s, inflight));
      && OnDisk(p, d.wal, g)
      && LogInv(p, d, g, m, WithInflight(p, s, ledger, inflight), used + InflightTxids(inflight))
  {
    hide LogInv, OnDisk, ApplyOps, AllFit, Transaction, Frames, MemInv, Accepted, InvAt, Posting, Opening, Written;
    SyncedBound(p, s, ledger, used, es, m);
    match inflight {
      case Nothing => g := IdleGrows(p, s, ledger, used, es, m, inflight);
      case Appending(txid, ops) =>
        assert txid in InflightTxids(inflight);
        if s.mem.None? || ApplyOps(p, s.mem.value.st, ops).Err? {
          g := IdleGrows(p, s, ledger, used, es, m, inflight);
        } else {
          var t := Opening(txid, s.mem.value.nextLsn, ops);
          OpeningIsPart(txid, s.mem.value.nextLsn, ops);
          g := PartGrows(p, s, ledger, used, es, m, txid, ops, t);
        }
      case Committing(txid, ops) =>
        assert txid in InflightTxids(inflight);
        if s.mem.None? {
          NotOpenNotAccepted(p, s, ledger, Tx(txid, ops));
          g := IdleGrows(p, s, ledger, used, es, m, inflight);
        } else {
          AcceptedIsAdmissible(p, s, ledger, used, es, m, txid, ops);
          var t := Transaction(txid, s.mem.value.nextLsn, ops);
          if !Admissible(p, s.mem.value, ops) {
            g := IdleGrows(p, s, ledger, used, es, m, inflight);
          } else if AllFit(p, t) {
            g := WholeGrows(p, s, ledger, used, es, m, txid, ops);
          } else {
            FitPrefix(p, t, FitCount(p, t));
            g := PartGrows(p, s, ledger, used, es, m, txid, ops, t);
          }
        }
    }
  }

  lemma NothingWritten(p: Primitives)
    ensures Written(p, []) == []
  {
  }

  lemma IdleGrows(p: Primitives, s: System, ledger: seq<Posted>, used: set<string>, es: seq<Entry>, m: nat,
                  inflight: Inflight) returns (g: seq<Entry>)
    requires InvAt(p, s, ledger, used, es, m) && InflightEntries(p, s, inflight) == []
    ensures var d := s.disk.(wal := Unfinished(p, s, inflight));
      OnDisk(p, d.wal, g) && LogInv(p, d, g, m, ledger, used + InflightTxids(inflight))
  {
    hide FullReplay, Posts, Frames, Covered, AllFit, OnDisk, MemInv, Unsplit, InflightEntries, Written;
    NothingWritten(p);
    assert s.disk.wal + [] == s.disk.wal;
    g := es;
  }

  // Part of a transaction without its COMMIT.
  lemma PartGrows(p: Primitives, s: System, ledger: seq<Posted>, used: set<string>, es: seq<Entry>, m: nat,
                  txid: string, ops: seq<Op>, t: seq<Entry>) returns (g: seq<Entry>)
    requires InvAt(p, s, ledger, used, es, m) && s.mem.Some?
    requires txid != "" && txid !in used && ApplyOps(p, s.mem.value.st, ops).Ok?
    requires FitCount(p, t) <= |ops| + 1 <= |t|
    requires t[..FitCount(p, t)] == Transaction(txid, s.mem.value.nextLsn, ops)[..FitCount(p, t)]
    ensures var d := s.disk.(wal := s.disk.wal + Written(p, t));
      OnDisk(p, d.wal, g) && LogInv(p, d, g, m, ledger, used + {txid})
  {
    hide LogInv, OnDisk, ApplyOps, AllFit, Transaction, Frames, MemInv, Grown, Written, FitCount;
    var lsn := s.mem.value.nextLsn;
    var k := FitCount(p, t);
    FitPrefix(p, t, k);
    SyncedBound(p, s, ledger, used, es, m);
    var d := s.disk.(wal := s.disk.wal + Written(p, t));
    AppendPart(p, s, ledger, used, es, m, txid, ops, k, d, s.mem.value.(nextLsn := lsn + k));
    g := Grown(es, txid, lsn, ops, k);
  }

  lemma WholeGrows(p: Primitives, s: System, ledger: seq<Posted>, used: set<string>, es: seq<Entry>, m: nat,
                   txid: string, ops: seq<Op>) returns (g: seq<Entry>)
    requires InvAt(p, s, ledger, used, es, m) && s.mem.Some?
    requires txid != "" && txid !in used && Admissible(p, s.mem.value, ops)
    requires AllFit(p, Transaction(txid, s.mem.value.nextLsn, ops))
    ensures var d := s.disk.(wal := s.disk.wal + Written(p, Transaction(txid, s.mem.value.nextLsn, ops)));
      OnDisk(p, d.wal, g) && LogInv(p, d, g, m, ledger + [Posting(p, s, Tx(txid, ops))], used + {txid})
  {
    hide FullReplay, Posts, Frames, ApplyOps, Covered, AllFit, Transaction, LogInv, OnDisk, Ready, Written;
    var lsn := s.mem.value.nextLsn;
    var t := Transaction(txid, lsn, ops);
    var d := s.disk.(wal := s.disk.wal + Written(p, t));
    g := es + t;
    FullyWritten(p, t);
    SyncedBound(p, s, ledger, used, es, m);
    MemReady(p, s, ledger, used, es, m, txid, ops);
    WholeTransaction(p, es, txid, lsn, ops);
    GrowCommitted(p, s.disk, d, es, m, ledger, used, txid, lsn, ops);
    OnDiskExactly(p, g);
  }

  lemma KillKeeps(p: Primitives, s: System, ledger: seq<Posted>, used: set<string>, inflight: Inflight, keep: nat)
    requires p.Valid() && Inv(p, s, ledger, used)
    requires "" !in InflightTxids(inflight) && InflightTxids(inflight) !! used
    ensures Inv(p, KillStep(p, s, inflight, keep), LedgerStep(p, s, ledger, Kill(inflight, keep)),
                used + InflightTxids(inflight))
  {
    hide LogInv, OnDisk, WholeFrames, Written, InflightEntries, WithInflight, Kept, MemInv;
    var es, m :| InvAt(p, s, ledger, used, es, m);
    SyncedBound(p, s, ledger, used, es, m);
    var g := InflightGrows(p, s, ledger, used, es, m, inflight);
    var wal := Unfinished(p, s, inflight);
    var n := Left(wal, |s.disk.wal|, keep);
    var d := s.disk.(wal := wal);
    var used' := used + InflightTxids(inflight);
    CutKeeps(p, d, g, m, WithInflight(p, s, ledger, inflight), used', n, s.disk.synced);
    assert InvAt(p, KillStep(p, s, inflight, keep), LedgerStep(p, s, ledger, Kill(inflight, keep)), used',
                 g[..WholeFrames(p, g, n)], m);
  }

  lemma CrashKeeps(p: Primitives, s: System, ledger: seq<Posted>, used: set<string>, inflight: Inflight, keep: nat)
    requires p.Valid() && Inv(p, s, ledger, used)
    requires "" !in InflightTxids(inflight) && InflightTxids(inflight) !! used
    ensures Inv(p, CrashStep(p, s, inflight, keep), LedgerStep(p, s, ledger, Crash(inflight, keep)),
                used + InflightTxids(inflight))
  {
    hide LogInv, OnDisk, WholeFrames, Written, InflightEntries, WithInflight, Kept, MemInv;
    var es, m :| InvAt(p, s, ledger, used, es, m);
    SyncedBound(p, s, ledger, used, es, m);
    var g := InflightGrows(p, s, ledger, used, es, m, inflight);
    var wal := Unfinished(p, s, inflight);
    var n := Left(wal, s.disk.synced, keep);
    var d := s.disk.(wal := wal);
    var used' := used + InflightTxids(inflight);
    CutKeeps(p, d, g, m, WithInflight(p, s, ledger, inflight), used', n, n);
    assert InvAt(p, CrashStep(p, s, inflight, keep), LedgerStep(p, s, ledger, Crash(inflight, keep)), used',
                 g[..WholeFrames(p, g, n)], m);
  }

  // ----- every run -----

  lemma StepKeeps(p: Primitives, s: System, ledger: seq<Posted>, used: set<string>, ev: Event)
    requires p.Valid() && Inv(p, s, ledger, used) && SafeStep(p, s, ledger, ev)
    requires "" !in EventTxids(ev) && EventTxids(ev) !! used
    ensures Inv(p, Step(p, s, ev), LedgerStep(p, s, ledger, ev), used + EventTxids(ev))
  {
    hide Inv, CommitStep, UncommittedStep, KillStep, CrashStep, OpenDisk, Describes, Accepted, SafeStep, WithInflight, Kept;
    match ev {
      case CommitTx(txid, ops) => CommitKeeps(p, s, ledger, used, txid, ops);
      case AppendUncommitted(txid, ops) => AppendKeeps(p, s, ledger, used, txid, ops);
      case TakeCheckpoint(cp) =>
        CheckpointKeeps(p, s, ledger, used, cp);
        assert used + {} == used;
      case Open(repair) =>
        OpenKeeps(p, s, ledger, used, repair);
        assert used + {} == used;
      case Close =>
        CloseKeeps(p, s, ledger, used);
        assert used + {} == used;
      case Kill(inflight, keep) => KillKeeps(p, s, ledger, used, inflight, keep);
      case Crash(inflight, keep) => CrashKeeps(p, s, ledger, used, inflight, keep);
    }
  }

  lemma CreatedKeeps(p: Primitives)
    ensures Inv(p, Created(p), [], {})
  {
    hide Frame;
    var cp := Created(p).disk.checkpoint.value;
    var es: seq<Entry> := [];
    assert Torn(p, []) && [] == Frames(p, es) + [];
    assert es[..0] == es;
    assert Describes(p, cp, EMPTY, 0);
    assert CoveredAt(p, cp, es, 0);
    assert InvAt(p, Created(p), [], {}, es, 0);
  }

  lemma {:induction false} RunKeeps(p: Primitives, evs: seq<Event>)
    requires p.Valid() && FreshRun(evs) && SafeRun(p, evs)
    ensures Inv(p, Run(p, evs).0, Run(p, evs).1, UsedTxids(evs))
    decreases |evs|
  {
    hide Inv, Step, LedgerStep, SafeStep;
    if |evs| == 0 {
      CreatedKeeps(p);
    } else {
      var init, ev := evs[..|evs| - 1], evs[|evs| - 1];
      RunKeeps(p, init);
      StepKeeps(p, Run(p, init).0, Run(p, init).1, UsedTxids(init), ev);
    }
  }

  // ----- the theorems -----

  /** Crash-recovery refinement. After any run whose checkpoints were taken with every COMMIT frame
      synced, a repairing open succeeds, and what it loads is the in-order fold of the ledger; the
      ledger is exactly the list of transactions whose COMMIT frame is whole in the log file; a
      session that is open already holds it. */
  lemma CrashRecovery(p: Primitives, evs: seq<Event>)
    requires p.Valid() && FreshRun(evs) && SafeRun(p, evs)
    ensures var (s, ledger) := Run(p, evs);
      && OpenDisk(p, s.disk, true).1.Ok?
      && Fold(p, Txs(ledger)) == Ok(OpenDisk(p, s.disk, true).1.value.st)
      && Parse(p, s.disk.wal, 0).Ok?
      && CommittedTxs(Parse(p, s.disk.wal, 0).value.entries) == Txs(ledger)
      && (s.mem.Some? ==> Fold(p, Txs(ledger)) == Ok(s.mem.value.st))
  {
    hide Run, OpenDisk, FreshRun, SafeRun, Parse, LogInv, OnDisk, FullReplay, Fold, CommittedTxs, Frames, AllFit, Ordered,
      Covered, MaxLsn, Txs;
    var (s, ledger) := Run(p, evs);
    RunKeeps(p, evs);
    var es, m :| InvAt(p, s, ledger, UsedTxids(evs), es, m);
    LogParts(p, s.disk, es, m, ledger, UsedTxids(evs));
    LogCovered(p, s.disk, es, m, ledger, UsedTxids(evs));
    ParseOnDisk(p, s.disk.wal, es);
    OpenResult(p, s.disk, es, m, true);
  }

  /** Opening again repairs nothing and loads the same memory: whatever a run leaves on
      disk, a second open (repairing or not) of what the first left is the same open. */
  lemma ReopenIsIdempotent(p: Primitives, evs: seq<Event>, repair: bool)
    requires p.Valid() && FreshRun(evs) && SafeRun(p, evs)
    ensures var d := Run(p, evs).0.disk;
      var (d', mem) := OpenDisk(p, d, true);
      && OpenDisk(p, d', repair) == (d', mem)
      && Parse(p, d'.wal, 0).Ok? && Parse(p, d'.wal, 0).value.tail == 0
  {
    hide Run, OpenDisk, FreshRun, SafeRun, Parse, LogInv, OnDisk, FullReplay, Frames, AllFit, Ordered, Covered, MaxLsn;
    var (s, ledger) := Run(p, evs);
    var used := UsedTxids(evs);
    RunKeeps(p, evs);
    var es, m :| InvAt(p, s, ledger, used, es, m);
    LogParts(p, s.disk, es, m, ledger, used);
    LogCovered(p, s.disk, es, m, ledger, used);
    ParseOnDisk(p, s.disk.wal, es);
    OpenResult(p, s.disk, es, m, true);
    RepairKeeps(p, s.disk, es, m, ledger, used);
    var d' := OpenDisk(p, s.disk, true).0;
    OnDiskExactly(p, es);
    LogCovered(p, d', es, m, ledger, used);
    ParseOnDisk(p, d'.wal, es);
    OpenResult(p, d', es, m, repair);
  }

  /** Every commit of an open session gets an LSN above the checkpoint's, so recovery will
      never skip it as already covered. */
  lemma CommitsAboveCheckpoint(p: Primitives, evs: seq<Event>)
    requires p.Valid() && FreshRun(evs) && SafeRun(p, evs)
    requires Run(p, evs).0.mem.Some? && Run(p, evs).0.disk.checkpoint.Some?
    ensures var s := Run(p, evs).0; s.disk.checkpoint.value.lastApplied < s.mem.value.nextLsn
  {
    hide Run, FreshRun, SafeRun, OnDisk, FullReplay, Posts, Frames, AllFit, Covered, ReplayLog, Unsplit;
    var (s, ledger) := Run(p, evs);
    var used := UsedTxids(evs);
    RunKeeps(p, evs);
    var es, m :| InvAt(p, s, ledger, used, es, m);
    CoveredReplays(p, s.disk.checkpoint, es, m);
    var j :| 0 <= j <= |es| && FullReplay(p, es[..j]).Ok?
             && s.disk.checkpoint.value.lastApplied == FullReplay(p, es[..j]).value.lastApplied;
    LastAppliedBelow(p, es[..j]);
    assert forall i | 0 <= i < j :: es[..j][i] == es[i];
  }
}
