/** The invariant every step of the durable machine keeps, and what follows from it. */
module DurableSafety {
  import opened Common
  import opened WalFormat
  import opened Replay
  import opened DurableMachine

  // ----- the invariant -----

  ghost predicate NoCommits(es: seq<Entry>, m: nat) {
    forall i | m <= i < |es| :: !es[i].body.Commit?
  }

  ghost predicate CoveredAt(p: Primitives, cp: Checkpoint, es: seq<Entry>, j: nat) {
    && j <= |es|
    && FullReplay(p, es[..j]).Ok?
    && Describes(p, cp, FullReplay(p, es[..j]).value.st, FullReplay(p, es[..j]).value.lastApplied)
  }

  // Reading a log with no machinery: the operations logged for one transaction, and the
  // transactions that have a COMMIT entry, in commit order.
  ghost function OpsOf(es: seq<Entry>, txid: string): seq<Op> {
    if |es| == 0 then []
    else
      var e := es[|es| - 1];
      OpsOf(es[..|es| - 1], txid) + if e.txid == txid && e.body.Put? then [e.body.op] else []
  }

  ghost function CommittedTxs(es: seq<Entry>): seq<Tx> {
    if |es| == 0 then []
    else
      var init, e := es[..|es| - 1], es[|es| - 1];
      CommittedTxs(init) + if e.body.Commit? then [Tx(e.txid, OpsOf(init, e.txid))] else []
  }

  // The checkpoint on disk, if any, is that of some prefix of the first m entries.
  ghost predicate Covered(p: Primitives, doc: Option<Checkpoint>, es: seq<Entry>, m: nat) {
    doc.Some? ==> exists j | 0 <= j <= m :: CoveredAt(p, doc.value, es, j)
  }

  // The ledger a log stands for: its committed transactions and where their COMMIT frames end.
  ghost function Posts(p: Primitives, es: seq<Entry>): seq<Posted> {
    if |es| == 0 then []
    else
      var init, e := es[..|es| - 1], es[|es| - 1];
      Posts(p, init) + if e.body.Commit? then [Posted(Tx(e.txid, OpsOf(init, e.txid)), |Frames(p, es)|)] else []
  }

  // Nothing is synced of the last two operations of a transaction whose COMMIT is not: a transaction
  // of at least one operation is written by one append, which syncs all of it or none.
  ghost predicate Unsplit(p: Primitives, es: seq<Entry>, synced: nat) {
    forall c | 0 <= c < |es| && es[c].body.Commit? && synced < |Frames(p, es[..c + 1])| :: UnsplitAt(p, es, synced, c)
  }

  ghost predicate UnsplitAt(p: Primitives, es: seq<Entry>, synced: nat, c: nat)
    requires c < |es|
  {
    2 <= c && synced < |Frames(p, es[..c - 1])|
  }

  // es are the whole entries in the log, which stand for the ledger; the first m of them are on
  // stable storage and carry the checkpoint.
  ghost predicate LogInv(p: Primitives, d: Disk, es: seq<Entry>, m: nat, ledger: seq<Posted>, used: set<string>) {
    && AllFit(p, es) && Ordered(es)
    && FullReplay(p, es).Ok?
    && ledger == Posts(p, es)
    && FullReplay(p, es).value.begun <= used
    && m <= |es| && |Frames(p, es[..m])| <= d.synced <= |d.wal|
    && Covered(p, d.checkpoint, es, m)
    && Unsplit(p, es, d.synced)
  }

  ghost predicate OnDisk(p: Primitives, wal: Bytes, es: seq<Entry>) {
    exists tail :: Torn(p, tail) && wal == Frames(p, es) + tail
  }

  ghost predicate MemInv(p: Primitives, mem: Memory, wal: Bytes, es: seq<Entry>)
    requires FullReplay(p, es).Ok?
  {
    && wal == Frames(p, es)
    && mem.st == FullReplay(p, es).value.st
    && mem.lastApplied == FullReplay(p, es).value.lastApplied
    && 0 < mem.nextLsn && forall i | 0 <= i < |es| :: es[i].lsn < mem.nextLsn
  }

  ghost predicate InvAt(p: Primitives, s: System, ledger: seq<Posted>, used: set<string>, es: seq<Entry>, m: nat) {
    && LogInv(p, s.disk, es, m, ledger, used)
    && OnDisk(p, s.disk.wal, es)
    && (s.mem.Some? ==> MemInv(p, s.mem.value, s.disk.wal, es))
  }

  ghost predicate Inv(p: Primitives, s: System, ledger: seq<Posted>, used: set<string>) {
    exists es, m :: InvAt(p, s, ledger, used, es, m)
  }

  // ----- order of LSNs -----

  lemma {:induction false} OrderedIncreasing(es: seq<Entry>, prev: int)
    requires Ordered(es) && (|es| > 0 ==> prev < es[0].lsn)
    ensures Increasing(es, prev)
    decreases |es|
  {
    if |es| > 0 {
      assert forall i | 0 <= i < |es[1..]| :: es[1..][i] == es[i + 1];
      OrderedIncreasing(es[1..], es[0].lsn);
    }
  }

  lemma TransactionLsns(txid: string, lsn: int, ops: seq<Op>)
    ensures forall i | 0 <= i < |Transaction(txid, lsn, ops)| ::
      && Transaction(txid, lsn, ops)[i].lsn == lsn + i
      && (Transaction(txid, lsn, ops)[i].body.Commit? <==> i == |ops| + 1)
  {
  }

  lemma OrderedExtends(es: seq<Entry>, txid: string, lsn: int, ops: seq<Op>)
    requires Ordered(es) && 0 < lsn && forall i | 0 <= i < |es| :: es[i].lsn < lsn
    ensures Ordered(es + Transaction(txid, lsn, ops))
  {
    var more := Transaction(txid, lsn, ops);
    var all := es + more;
    TransactionLsns(txid, lsn, ops);
    hide Transaction;
    forall i | 0 <= i < |all| ensures 0 < all[i].lsn {
      assert all[i] == if i < |es| then es[i] else more[i - |es|];
    }
    forall i, j | 0 <= i < j < |all| ensures all[i].lsn < all[j].lsn {
      assert all[i] == if i < |es| then es[i] else more[i - |es|];
      assert all[j] == if j < |es| then es[j] else more[j - |es|];
    }
  }

  // ----- prefixes -----

  // Entries after the last COMMIT change nothing that is applied.
  lemma {:induction false} TailKeepsState(p: Primitives, es: seq<Entry>, m: nat)
    requires FullReplay(p, es).Ok? && m <= |es| && NoCommits(es, m)
    ensures FullReplay(p, es[..m]).Ok?
    ensures FullReplay(p, es[..m]).value.st == FullReplay(p, es).value.st
    ensures FullReplay(p, es[..m]).value.lastApplied == FullReplay(p, es).value.lastApplied
    ensures FullReplay(p, es[..m]).value.begun <= FullReplay(p, es).value.begun
    decreases |es|
  {
    if m == |es| {
      assert es[..m] == es;
    } else {
      var init, e := es[..|es| - 1], es[|es| - 1];
      TailKeepsState(p, init, m);
      assert init[..m] == es[..m];
      assert !e.body.Commit?;
    }
  }

  lemma {:induction false} TailKeepsPosts(p: Primitives, es: seq<Entry>, m: nat)
    requires m <= |es| && NoCommits(es, m)
    ensures Posts(p, es[..m]) == Posts(p, es)
    decreases |es|
  {
    hide Frames, OpsOf;
    if m == |es| {
      assert es[..m] == es;
    } else {
      TailKeepsPosts(p, es[..|es| - 1], m);
      assert es[..|es| - 1][..m] == es[..m];
    }
  }

  lemma {:induction false} NotBegunNoOps(p: Primitives, es: seq<Entry>, txid: string)
    requires FullReplay(p, es).Ok? && txid !in FullReplay(p, es).value.begun
    ensures OpsOf(es, txid) == []
    decreases |es|
  {
    if |es| > 0 {
      NotBegunNoOps(p, es[..|es| - 1], txid);
      ReplayConsistent(p, es[..|es| - 1]);
    }
  }

  lemma {:induction false} OpsOfOpening(es: seq<Entry>, txid: string, lsn: int, ops: seq<Op>)
    ensures OpsOf(es + Opening(txid, lsn, ops), txid) == OpsOf(es, txid) + ops
    decreases |ops|
  {
    if |ops| == 0 {
      var e := Entry(lsn, txid, Begin);
      assert Opening(txid, lsn, ops) == [e];
      assert (es + [e])[..|es|] == es;
    } else {
      var init, op := ops[..|ops| - 1], ops[|ops| - 1];
      assert init + [op] == ops;
      OpsOfOpening(es, txid, lsn, init);
      OpeningSnoc(txid, lsn, init, op);
      hide Opening;
      var e := Entry(lsn + 1 + |init|, txid, Put(op));
      var all := es + Opening(txid, lsn, ops);
      assert all == es + Opening(txid, lsn, init) + [e];
      assert all[..|all| - 1] == es + Opening(txid, lsn, init);
    }
  }

  lemma PostsSnoc(p: Primitives, es: seq<Entry>, e: Entry)
    ensures Posts(p, es + [e]) == Posts(p, es) +
      if e.body.Commit? then [Posted(Tx(e.txid, OpsOf(es, e.txid)), |Frames(p, es + [e])|)] else []
  {
    hide OpsOf, Frames;
    assert (es + [e])[..|es|] == es;
  }

  lemma OpeningHasNoCommit(es: seq<Entry>, txid: string, lsn: int, ops: seq<Op>)
    ensures NoCommits(es + Opening(txid, lsn, ops), |es|)
  {
  }

  // A whole fresh transaction adds itself to the ledger its log stands for.
  lemma TransactionAddsToLedger(p: Primitives, es: seq<Entry>, txid: string, lsn: int, ops: seq<Op>)
    requires FullReplay(p, es).Ok? && txid !in FullReplay(p, es).value.begun
    ensures var g := es + Transaction(txid, lsn, ops);
      Posts(p, g) == Posts(p, es) + [Posted(Tx(txid, ops), |Frames(p, g)|)]
  {
    hide FullReplay, Opening, OpsOf, Posts, NoCommits, Frames;
    NotBegunNoOps(p, es, txid);
    OpsOfOpening(es, txid, lsn, ops);
    assert [] + ops == ops;
    var init := es + Opening(txid, lsn, ops);
    var e := Closing(txid, lsn, ops);
    assert es + Transaction(txid, lsn, ops) == init + [e];
    PostsSnoc(p, init, e);
    OpeningHasNoCommit(es, txid, lsn, ops);
    TailKeepsPosts(p, init, |es|);
    assert init[..|es|] == es;
  }

  // ----- what a log means -----

  lemma {:induction false} TxsOfPosts(p: Primitives, es: seq<Entry>)
    ensures Txs(Posts(p, es)) == CommittedTxs(es)
  {
    hide OpsOf, Frames;
    if |es| > 0 { TxsOfPosts(p, es[..|es| - 1]); }
  }

  // What is pending during replay is what was logged for the transaction.
  lemma {:induction false} PendingIsLogged(p: Primitives, es: seq<Entry>, txid: string)
    requires FullReplay(p, es).Ok? && txid in FullReplay(p, es).value.pending
    ensures FullReplay(p, es).value.pending[txid] == OpsOf(es, txid)
    decreases |es|
  {
    if |es| > 0 {
      hide ApplyOps, Committed;
      var init, e := es[..|es| - 1], es[|es| - 1];
      if txid in FullReplay(p, init).value.pending {
        PendingIsLogged(p, init, txid);
      } else {
        NotBegunNoOps(p, init, txid);
      }
    }
  }

  /** Replaying a log gives the in-order fold of the transactions it reads back as committed. */
  lemma {:induction false} ReplayIsFold(p: Primitives, es: seq<Entry>)
    requires FullReplay(p, es).Ok? && forall i | 0 <= i < |es| :: 0 < es[i].lsn
    ensures Fold(p, CommittedTxs(es)) == Ok(FullReplay(p, es).value.st)
    decreases |es|
  {
    hide OpsOf, Committed;
    if |es| > 0 {
      var init, e := es[..|es| - 1], es[|es| - 1];
      ReplayIsFold(p, init);
      if e.body.Commit? {
        PendingIsLogged(p, init, e.txid);
        ReplayConsistent(p, init);
        var txs, tx := CommittedTxs(init), Tx(e.txid, OpsOf(init, e.txid));
        assert (txs + [tx])[..|txs|] == txs;
      } else {
        assert CommittedTxs(init) + [] == CommittedTxs(init);
      }
    }
  }

  lemma {:induction false} BegunGrows(p: Primitives, es: seq<Entry>, k: nat)
    requires FullReplay(p, es).Ok? && k <= |es|
    ensures FullReplay(p, es[..k]).Ok?
    ensures FullReplay(p, es[..k]).value.begun <= FullReplay(p, es).value.begun
    decreases |es|
  {
    if k == |es| {
      assert es[..k] == es;
    } else {
      var init := es[..|es| - 1];
      BegunGrows(p, init, k);
      assert init[..k] == es[..k];
    }
  }

  lemma CoveredExtends(p: Primitives, doc: Option<Checkpoint>, es: seq<Entry>, m: nat, es': seq<Entry>, m': nat)
    requires Covered(p, doc, es, m) && m <= |es| && m <= m' && m <= |es'| && es'[..m] == es[..m]
    ensures Covered(p, doc, es', m')
  {
    if doc.Some? {
      var j :| 0 <= j <= m && CoveredAt(p, doc.value, es, j);
      assert es'[..j] == es'[..m][..j] == es[..j];
      assert CoveredAt(p, doc.value, es', j);
    }
  }

  lemma AllFitAppend(p: Primitives, a: seq<Entry>, b: seq<Entry>)
    requires AllFit(p, a) && AllFit(p, b)
    ensures AllFit(p, a + b)
  {
  }

  // Cutting the log at or after the synced byte keeps every synced entry.
  lemma {:induction false} SyncedFramesSurvive(p: Primitives, es: seq<Entry>, m: nat, n: nat)
    requires m <= |es| && |Frames(p, es[..m])| <= n
    ensures m <= WholeFrames(p, es, n)
    decreases m
  {
    hide Frame;
    if m > 0 {
      assert es[..m][0] == es[0] && es[..m][1..] == es[1..][..m - 1];
      SyncedFramesSurvive(p, es[1..], m - 1, n - |Frame(p, es[0])|);
    }
  }

  lemma CutTorn(p: Primitives, tail: Bytes, n: nat)
    requires Torn(p, tail) && n <= |tail|
    ensures Torn(p, tail[..n])
  {
    hide Frame;
    if tail[..n] != [] {
      var e :| Fits(p, e) && |tail| < |Frame(p, e)| && tail == Frame(p, e)[..|tail|];
      assert tail[..n] == Frame(p, e)[..n];
    }
  }

  lemma {:induction false} AllWhole(p: Primitives, es: seq<Entry>, n: nat)
    requires |Frames(p, es)| <= n
    ensures WholeFrames(p, es, n) == |es|
    decreases |es|
  {
    hide Frame;
    if |es| > 0 { AllWhole(p, es[1..], n - |Frame(p, es[0])|); }
  }

  lemma CutDisk(p: Primitives, wal: Bytes, es: seq<Entry>, n: nat)
    requires p.Valid() && AllFit(p, es) && OnDisk(p, wal, es) && n <= |wal|
    ensures OnDisk(p, wal[..n], es[..WholeFrames(p, es, n)])
  {
    hide Frame, Frames, WholeFrames, Torn;
    var tail :| Torn(p, tail) && wal == Frames(p, es) + tail;
    var k := WholeFrames(p, es, n);
    if n <= |Frames(p, es)| {
      var cut := CutFrames(p, es, n);
      assert wal[..n] == Frames(p, es)[..n];
    } else {
      AllWhole(p, es, n);
      assert es[..k] == es;
      CutTorn(p, tail, n - |Frames(p, es)|);
      assert wal[..n] == Frames(p, es) + tail[..n - |Frames(p, es)|];
    }
  }

  // ----- cutting the ledger with the log -----

  lemma FramesOfPrefix(p: Primitives, es: seq<Entry>, m: nat)
    requires m <= |es|
    ensures |Frames(p, es[..m])| <= |Frames(p, es)|
  {
    hide Frames;
    assert es == es[..m] + es[m..];
    FramesAppend(p, es[..m], es[m..]);
  }

  lemma LongerPrefix(p: Primitives, es: seq<Entry>, a: nat, b: nat)
    requires a <= b <= |es|
    ensures |Frames(p, es[..a])| <= |Frames(p, es[..b])|
  {
    hide Frames;
    FramesOfPrefix(p, es[..b], a);
    assert es[..b][..a] == es[..a];
  }

  // Every post ends within the log.
  lemma {:induction false} PostsEnd(p: Primitives, es: seq<Entry>)
    ensures forall i | 0 <= i < |Posts(p, es)| :: Posts(p, es)[i].end <= |Frames(p, es)|
  {
    hide OpsOf, Frames;
    if |es| > 0 {
      PostsEnd(p, es[..|es| - 1]);
      FramesOfPrefix(p, es, |es| - 1);
    }
  }

  lemma {:induction false} WholeFramesInit(p: Primitives, es: seq<Entry>, n: nat)
    requires |es| > 0 && n < |Frames(p, es)|
    ensures WholeFrames(p, es, n) == WholeFrames(p, es[..|es| - 1], n)
  {
    hide Frame;
    if |es| == 1 {
      assert es[1..] == [];
    } else if |Frame(p, es[0])| <= n {
      WholeFramesInit(p, es[1..], n - |Frame(p, es[0])|);
      assert es[..|es| - 1][1..] == es[1..][..|es| - 2];
    }
  }

  /** Cutting the file cuts the ledger to exactly the transactions whose COMMIT frame is still whole. */
  lemma {:induction false} CutPosts(p: Primitives, es: seq<Entry>, n: nat)
    ensures Kept(Posts(p, es), n) == Posts(p, es[..WholeFrames(p, es, n)])
    decreases |es|
  {
    hide OpsOf, Frames, WholeFrames;
    if |Frames(p, es)| <= n {
      AllWhole(p, es, n);
      assert es[..|es|] == es;
      PostsEnd(p, es);
    } else if |es| > 0 {
      var init := es[..|es| - 1];
      WholeFramesInit(p, es, n);
      CutPosts(p, init, n);
      var k := WholeFrames(p, init, n);
      assert init[..k] == es[..k];
      if es[|es| - 1].body.Commit? {
        assert Posts(p, es)[..|Posts(p, es)| - 1] == Posts(p, init);
      } else {
        assert Posts(p, es) == Posts(p, init);
      }
    } else {
      assert Frames(p, es) == [] by { NoFrames(p); }
    }
  }

  lemma NoFrames(p: Primitives)
    ensures Frames(p, []) == []
  {
  }

  // The post of a COMMIT entry.
  lemma {:induction false} PostOf(p: Primitives, es: seq<Entry>, c: nat) returns (i: nat)
    requires c < |es| && es[c].body.Commit?
    ensures i < |Posts(p, es)| && Posts(p, es)[i].end == |Frames(p, es[..c + 1])|
    decreases |es|
  {
    hide OpsOf, Frames;
    var init := es[..|es| - 1];
    if c == |es| - 1 {
      assert es[..c + 1] == es;
      i := |Posts(p, init)|;
    } else {
      i := PostOf(p, init, c);
      assert init[..c + 1] == es[..c + 1];
    }
  }

  // The COMMIT entry of a post.
  lemma {:induction false} CommitOf(p: Primitives, es: seq<Entry>, i: nat) returns (c: nat)
    requires i < |Posts(p, es)|
    ensures c < |es| && es[c].body.Commit? && Posts(p, es)[i].end == |Frames(p, es[..c + 1])|
    decreases |es|
  {
    hide OpsOf, Frames;
    var init := es[..|es| - 1];
    if i < |Posts(p, init)| {
      c := CommitOf(p, init, i);
      assert init[..c + 1] == es[..c + 1];
    } else {
      c := |es| - 1;
      assert es[..c + 1] == es;
    }
  }

  // When every COMMIT frame is synced, no COMMIT entry follows the entries that are.
  lemma SyncedHoldsCommits(p: Primitives, es: seq<Entry>, synced: nat)
    requires AllSynced(Posts(p, es), synced)
    ensures NoCommits(es, WholeFrames(p, es, synced)) && |Frames(p, es[..WholeFrames(p, es, synced)])| <= synced
  {
    hide Frames, Posts, WholeFrames;
    var m := WholeFrames(p, es, synced);
    WholeFramesMaximal(p, es, synced);
    forall c | m <= c < |es| ensures !es[c].body.Commit? {
      LongerPrefix(p, es, m + 1, c + 1);
      if es[c].body.Commit? {
        var i := PostOf(p, es, c);
      }
    }
  }
}
