/** The durable machine refines its ledger: what growing the log by part or all of a transaction,
    and cutting it anywhere above the synced byte, do to the invariant. */
module DurableRefinement {
  import opened Common
  import opened WalFormat
  import opened Replay
  import opened DurableMachine
  import opened DurableSafety

  // ----- growing the log by part of a transaction -----

  ghost function Grown(es: seq<Entry>, txid: string, lsn: int, ops: seq<Op>, k: nat): seq<Entry>
    requires k <= |ops| + 2
  {
    es + Transaction(txid, lsn, ops)[..k]
  }

  // What a session has when it starts to append a fresh, valid transaction.
  ghost predicate Ready(p: Primitives, es: seq<Entry>, txid: string, lsn: int, ops: seq<Op>) {
    && Ordered(es) && FullReplay(p, es).Ok?
    && txid != "" && txid !in FullReplay(p, es).value.begun
    && 0 < lsn && (forall i | 0 <= i < |es| :: es[i].lsn < lsn)
    && ApplyOps(p, FullReplay(p, es).value.st, ops).Ok?
  }

  lemma ReadyCommits(p: Primitives, es: seq<Entry>, txid: string, lsn: int, ops: seq<Op>)
    requires Ready(p, es, txid, lsn, ops)
    ensures var r := FullReplay(p, es).value;
      var r' := FullReplay(p, es + Transaction(txid, lsn, ops));
      && r'.Ok?
      && Ok(r'.value.st) == Committed(p, r.st, Tx(txid, ops))
      && r'.value.lastApplied == lsn + 1 + |ops|
      && r'.value.begun == r.begun + {txid}
  {
    LastAppliedBelow(p, es);
    hide FullReplay, ApplyOps, Transaction;
    TransactionReplays(p, es, txid, lsn, ops);
  }

  lemma GrownOrder(es: seq<Entry>, txid: string, lsn: int, ops: seq<Op>, k: nat)
    requires Ordered(es) && 0 < lsn && k <= |ops| + 2
    requires forall i | 0 <= i < |es| :: es[i].lsn < lsn
    ensures var g := Grown(es, txid, lsn, ops, k);
      && Ordered(g)
      && |g| == |es| + k
      && g == (es + Transaction(txid, lsn, ops))[..|es| + k]
      && g[..|es|] == es
      && (forall i | 0 <= i < |g| :: g[i].lsn < lsn + |ops| + 2)
      && (k <= |ops| + 1 ==> NoCommits(g, |es|))
  {
    var all := es + Transaction(txid, lsn, ops);
    var g := Grown(es, txid, lsn, ops, k);
    OrderedExtends(es, txid, lsn, ops);
    TransactionLsns(txid, lsn, ops);
    hide Transaction;
    assert g == all[..|es| + k];
    assert forall i | |es| <= i < |g| :: g[i] == Transaction(txid, lsn, ops)[i - |es|];
  }

  lemma GrownReplays(p: Primitives, es: seq<Entry>, txid: string, lsn: int, ops: seq<Op>, k: nat)
    requires Ready(p, es, txid, lsn, ops) && k <= |ops| + 1
    ensures var g := Grown(es, txid, lsn, ops, k);
      && FullReplay(p, g).Ok?
      && FullReplay(p, g).value.st == FullReplay(p, es).value.st
      && FullReplay(p, g).value.lastApplied == FullReplay(p, es).value.lastApplied
      && FullReplay(p, g).value.begun <= FullReplay(p, es).value.begun + {txid}
  {
    hide FullReplay, ApplyOps, Grown;
    var g := Grown(es, txid, lsn, ops, k);
    GrownOrder(es, txid, lsn, ops, k);
    ReadyCommits(p, es, txid, lsn, ops);
    BegunGrows(p, es + Transaction(txid, lsn, ops), |es| + k);
    TailKeepsState(p, g, |es|);
  }

  lemma GrownFrames(p: Primitives, es: seq<Entry>, txid: string, lsn: int, ops: seq<Op>, k: nat)
    requires AllFit(p, es) && k <= |ops| + 2 && AllFit(p, Transaction(txid, lsn, ops)[..k])
    ensures AllFit(p, Grown(es, txid, lsn, ops, k))
    ensures Frames(p, Grown(es, txid, lsn, ops, k)) == Frames(p, es) + Frames(p, Transaction(txid, lsn, ops)[..k])
  {
    hide Frames, Transaction;
    FramesAppend(p, es, Transaction(txid, lsn, ops)[..k]);
    AllFitAppend(p, es, Transaction(txid, lsn, ops)[..k]);
  }

  // ----- transactions are synced whole -----

  lemma UnsplitBelow(p: Primitives, es: seq<Entry>, synced: nat)
    requires |Frames(p, es)| <= synced
    ensures Unsplit(p, es, synced)
  {
    hide Frames;
    forall c | 0 <= c < |es| && es[c].body.Commit? ensures |Frames(p, es[..c + 1])| <= synced {
      FramesOfPrefix(p, es, c + 1);
    }
  }

  lemma UnsplitCut(p: Primitives, es: seq<Entry>, synced: nat, k: nat)
    requires Unsplit(p, es, synced) && k <= |es|
    ensures Unsplit(p, es[..k], synced)
  {
    hide Frames;
    forall c | 0 <= c < k && es[..k][c].body.Commit? && synced < |Frames(p, es[..k][..c + 1])|
      ensures UnsplitAt(p, es[..k], synced, c)
    {
      assert es[..k][..c + 1] == es[..c + 1];
      assert UnsplitAt(p, es, synced, c);
      assert es[..k][..c - 1] == es[..c - 1];
    }
  }

  lemma UnsplitGrown(p: Primitives, es: seq<Entry>, g: seq<Entry>, synced: nat)
    requires Unsplit(p, es, synced) && |es| <= |g| && g[..|es|] == es && NoCommits(g, |es|)
    ensures Unsplit(p, g, synced)
  {
    hide Frames;
    forall c | 0 <= c < |g| && g[c].body.Commit? && synced < |Frames(p, g[..c + 1])|
      ensures UnsplitAt(p, g, synced, c)
    {
      assert c < |es| && es[c] == g[c];
      assert g[..c + 1] == es[..c + 1];
      assert UnsplitAt(p, es, synced, c);
      assert g[..c - 1] == es[..c - 1];
    }
  }

  // A transaction appended to a log that ends at or above the synced byte is wholly above it.
  lemma UnsplitCommitted(p: Primitives, es: seq<Entry>, txid: string, lsn: int, ops: seq<Op>, synced: nat)
    requires Unsplit(p, es, synced) && synced <= |Frames(p, es)| && |ops| > 0
    ensures Unsplit(p, es + Transaction(txid, lsn, ops), synced)
  {
    TransactionLsns(txid, lsn, ops);
    hide Frames, Transaction;
    var t := Transaction(txid, lsn, ops);
    var g := es + t;
    forall c | 0 <= c < |g| && g[c].body.Commit? && synced < |Frames(p, g[..c + 1])|
      ensures UnsplitAt(p, g, synced, c)
    {
      if c < |es| {
        assert es[c] == g[c] && g[..c + 1] == es[..c + 1];
        assert UnsplitAt(p, es, synced, c);
        assert g[..c - 1] == es[..c - 1];
      } else {
        assert g[c] == t[c - |es|];
        assert c == |es| + |ops| + 1;
        assert g[..c - 1] == es + t[..|ops|];
        FramesAppend(p, es, t[..|ops|]);
        FramesPositive(p, t[..|ops|]);
      }
    }
  }

  lemma FramesPositive(p: Primitives, es: seq<Entry>)
    requires |es| > 0
    ensures 0 < |Frames(p, es)|
  {
  }

  // ----- the log invariant, step by step -----

  // Appending part of a transaction without its COMMIT changes nothing the log means.
  lemma GrowUncommitted(p: Primitives, d: Disk, d': Disk, es: seq<Entry>, m: nat, ledger: seq<Posted>,
                        used: set<string>, txid: string, lsn: int, ops: seq<Op>, k: nat)
    requires LogInv(p, d, es, m, ledger, used) && Ready(p, es, txid, lsn, ops)
    requires k <= |ops| + 1 && AllFit(p, Transaction(txid, lsn, ops)[..k])
    requires d'.checkpoint == d.checkpoint && d.synced <= d'.synced <= |d'.wal|
    requires d'.synced == d.synced || |Frames(p, Grown(es, txid, lsn, ops, k))| <= d'.synced
    ensures LogInv(p, d', Grown(es, txid, lsn, ops, k), m, ledger, used + {txid})
  {
    hide FullReplay, Posts, Frames, ApplyOps, Grown, Transaction, Covered, AllFit, Ordered, Unsplit;
    var g := Grown(es, txid, lsn, ops, k);
    GrownOrder(es, txid, lsn, ops, k);
    GrownReplays(p, es, txid, lsn, ops, k);
    GrownFrames(p, es, txid, lsn, ops, k);
    assert g[..m] == g[..|es|][..m] == es[..m];
    TailKeepsPosts(p, g, |es|);
    CoveredExtends(p, d.checkpoint, es, m, g, m);
    if d'.synced == d.synced {
      UnsplitGrown(p, es, g, d.synced);
    } else {
      UnsplitBelow(p, g, d'.synced);
    }
  }

  // Appending a whole transaction commits it, synced or not.
  lemma GrowCommitted(p: Primitives, d: Disk, d': Disk, es: seq<Entry>, m: nat, ledger: seq<Posted>,
                      used: set<string>, txid: string, lsn: int, ops: seq<Op>)
    requires LogInv(p, d, es, m, ledger, used) && Ready(p, es, txid, lsn, ops)
    requires |ops| > 0 && AllFit(p, Transaction(txid, lsn, ops))
    requires d'.checkpoint == d.checkpoint && |d.wal| == |Frames(p, es)|
    requires |d'.wal| == |Frames(p, es)| + |Frames(p, Transaction(txid, lsn, ops))|
    requires d'.synced == d.synced || d'.synced == |d'.wal|
    ensures var g := es + Transaction(txid, lsn, ops);
      && |Frames(p, g)| == |d'.wal|
      && LogInv(p, d', g, if d'.synced == |d'.wal| then |g| else m, ledger + [Posted(Tx(txid, ops), |d'.wal|)], used + {txid})
  {
    hide FullReplay, Posts, Frames, ApplyOps, Transaction, Covered, Committed, AllFit, Ordered, Unsplit;
    var t := Transaction(txid, lsn, ops);
    var g := es + t;
    assert t[..|ops| + 2] == t;
    assert Grown(es, txid, lsn, ops, |ops| + 2) == g;
    GrownOrder(es, txid, lsn, ops, |ops| + 2);
    ReadyCommits(p, es, txid, lsn, ops);
    GrownFrames(p, es, txid, lsn, ops, |ops| + 2);
    TransactionAddsToLedger(p, es, txid, lsn, ops);
    assert g[..|g|] == g && g[..m] == g[..|es|][..m] == es[..m];
    if d'.synced == |d'.wal| {
      CoveredExtends(p, d.checkpoint, es, m, g, |g|);
      UnsplitBelow(p, g, d'.synced);
    } else {
      CoveredExtends(p, d.checkpoint, es, m, g, m);
      UnsplitCommitted(p, es, txid, lsn, ops, d.synced);
    }
  }

  // Cutting the file at or above the synced byte, whether or not what is left counts as synced,
  // leaves a log that stands for what the cut keeps of the ledger.
  lemma CutKeeps(p: Primitives, d: Disk, es: seq<Entry>, m: nat, ledger: seq<Posted>, used: set<string>, n: nat, synced: nat)
    requires p.Valid() && LogInv(p, d, es, m, ledger, used) && OnDisk(p, d.wal, es)
    requires d.synced <= n <= |d.wal| && (synced == d.synced || synced == n)
    ensures var k := WholeFrames(p, es, n);
      && LogInv(p, d.(wal := d.wal[..n], synced := synced), es[..k], m, Kept(ledger, n), used)
      && OnDisk(p, d.wal[..n], es[..k])
  {
    hide FullReplay, Posts, Frames, Covered, OnDisk, WholeFrames, Unsplit, Kept;
    var k := WholeFrames(p, es, n);
    SyncedFramesSurvive(p, es, m, n);
    WholeFramesMaximal(p, es, n);
    CutDisk(p, d.wal, es, n);
    CutPosts(p, es, n);
    BegunGrows(p, es, k);
    assert es[..k][..m] == es[..m];
    CoveredExtends(p, d.checkpoint, es, m, es[..k], m);
    if synced == n {
      UnsplitBelow(p, es[..k], n);
    } else {
      UnsplitCut(p, es, d.synced, k);
    }
  }

  // ----- steps that append -----

  lemma MemReady(p: Primitives, s: System, ledger: seq<Posted>, used: set<string>, es: seq<Entry>, m: nat,
                 txid: string, ops: seq<Op>)
    requires InvAt(p, s, ledger, used, es, m) && s.mem.Some?
    requires txid != "" && txid !in used && ApplyOps(p, s.mem.value.st, ops).Ok?
    ensures Ready(p, es, txid, s.mem.value.nextLsn, ops)
  {
    hide FullReplay, Posts, Frames, ApplyOps, Covered, AllFit, Unsplit;
  }

  lemma OnDiskExactly(p: Primitives, es: seq<Entry>)
    ensures OnDisk(p, Frames(p, es), es)
  {
    hide Frames;
    assert Torn(p, []) && Frames(p, es) == Frames(p, es) + [];
  }

  // The disk and the entries after appending the first k entries of a transaction.
  lemma AppendPart(p: Primitives, s: System, ledger: seq<Posted>, used: set<string>, es: seq<Entry>, m: nat,
                   txid: string, ops: seq<Op>, k: nat, d': Disk, mem': Memory)
    requires InvAt(p, s, ledger, used, es, m) && s.mem.Some?
    requires txid != "" && txid !in used && ApplyOps(p, s.mem.value.st, ops).Ok?
    requires k <= |ops| + 1 && AllFit(p, Transaction(txid, s.mem.value.nextLsn, ops)[..k])
    requires d'.wal == s.disk.wal + Frames(p, Transaction(txid, s.mem.value.nextLsn, ops)[..k])
    requires d'.checkpoint == s.disk.checkpoint && (d'.synced == s.disk.synced || d'.synced == |d'.wal|)
    requires mem' == s.mem.value.(nextLsn := mem'.nextLsn) && s.mem.value.nextLsn + k <= mem'.nextLsn
    ensures InvAt(p, System(d', Some(mem')), ledger, used + {txid},
                  Grown(es, txid, s.mem.value.nextLsn, ops, k), m)
  {
    hide FullReplay, Posts, Frames, ApplyOps, Covered, AllFit, Grown, Transaction, Ready, LogInv;
    var lsn := s.mem.value.nextLsn;
    var g := Grown(es, txid, lsn, ops, k);
    MemReady(p, s, ledger, used, es, m, txid, ops);
    LogParts(p, s.disk, es, m, ledger, used);
    GrownReplays(p, es, txid, lsn, ops, k);
    GrownFrames(p, es, txid, lsn, ops, k);
    GrowUncommitted(p, s.disk, d', es, m, ledger, used, txid, lsn, ops, k);
    GrownLsns(es, txid, lsn, ops, k);
    OnDiskExactly(p, g);
  }

  lemma GrownLsns(es: seq<Entry>, txid: string, lsn: int, ops: seq<Op>, k: nat)
    requires k <= |ops| + 2 && forall i | 0 <= i < |es| :: es[i].lsn < lsn
    ensures forall i | 0 <= i < |Grown(es, txid, lsn, ops, k)| :: Grown(es, txid, lsn, ops, k)[i].lsn < lsn + k
  {
    TransactionLsns(txid, lsn, ops);
    hide Transaction;
    var g := Grown(es, txid, lsn, ops, k);
    assert forall i | |es| <= i < |g| :: g[i] == Transaction(txid, lsn, ops)[i - |es|];
  }

  lemma LogParts(p: Primitives, d: Disk, es: seq<Entry>, m: nat, ledger: seq<Posted>, used: set<string>)
    requires LogInv(p, d, es, m, ledger, used)
    ensures AllFit(p, es) && Ordered(es) && m <= |es| && FullReplay(p, es).Ok?
    ensures Txs(ledger) == CommittedTxs(es) && Fold(p, Txs(ledger)) == Ok(FullReplay(p, es).value.st)
    ensures FullReplay(p, es).value.begun <= used
    ensures d.synced <= |d.wal|
  {
    hide FullReplay, Fold, CommittedTxs, Posts, Frames, Covered, AllFit, Unsplit, Txs;
    TxsOfPosts(p, es);
    ReplayIsFold(p, es);
  }

  lemma FitPrefix(p: Primitives, t: seq<Entry>, k: nat)
    requires k == FitCount(p, t)
    ensures k <= |t| && AllFit(p, t[..k])
    ensures AllFit(p, t) <==> k == |t|
    ensures k == |t| ==> t[..k] == t
    ensures Written(p, t) == Frames(p, t[..k])
  {
    hide Frames, FitCount;
    if k < |t| { assert !Fits(p, t[k]); }
  }

  lemma OpeningIsPart(txid: string, lsn: int, ops: seq<Op>)
    ensures forall k | 0 <= k <= |ops| + 1 :: Opening(txid, lsn, ops)[..k] == Transaction(txid, lsn, ops)[..k]
  {
    hide Opening;
  }

  lemma UncommittedKeeps(p: Primitives, s: System, ledger: seq<Posted>, used: set<string>, es: seq<Entry>, m: nat,
                         txid: string, ops: seq<Op>)
    requires InvAt(p, s, ledger, used, es, m) && s.mem.Some?
    requires txid != "" && txid !in used && ApplyOps(p, s.mem.value.st, ops).Ok?
    ensures Inv(p, UncommittedStep(p, s, txid, ops), ledger, used + {txid})
  {
    hide FullReplay, Posts, Frames, ApplyOps, Covered, AllFit, Opening, Transaction, LogInv, FitCount, Grown,
      InvAt, Written;
    var lsn := s.mem.value.nextLsn;
    var t := Opening(txid, lsn, ops);
    var k := FitCount(p, t);
    FitPrefix(p, t, k);
    OpeningIsPart(txid, lsn, ops);
    SyncedBound(p, s, ledger, used, es, m);
    var s' := UncommittedStep(p, s, txid, ops);
    AppendPart(p, s, ledger, used, es, m, txid, ops, k, s'.disk, s'.mem.value);
    assert InvAt(p, s', ledger, used + {txid}, Grown(es, txid, lsn, ops, k), m);
  }

  lemma SyncedBound(p: Primitives, s: System, ledger: seq<Posted>, used: set<string>, es: seq<Entry>, m: nat)
    requires InvAt(p, s, ledger, used, es, m)
    ensures s.disk.synced <= |s.disk.wal|
    ensures s.mem.Some? ==> Fold(p, Txs(ledger)) == Ok(s.mem.value.st) && s.disk.wal == Frames(p, es)
  {
    hide FullReplay, Fold, CommittedTxs, Frames, LogInv, Txs;
    LogParts(p, s.disk, es, m, ledger, used);
  }
}
