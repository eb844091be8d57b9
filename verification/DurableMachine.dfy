/** durable_runtime.py as a machine over steps: commits, uncommitted appends, checkpoints,
    reopening, and two ways to die at any byte of an append. A killed process leaves what it
    wrote in the file, synced or not; a power loss takes back any part that was never synced.
    Beside every run stands the ledger, the plain list of transactions whose COMMIT frame
    survived whole; the machine is shown to refine it. */
module DurableMachine {
  import opened Common
  import opened WalFormat
  import opened Replay

  datatype Checkpoint = Checkpoint(
    records: seq<Record>, edges: seq<Edge>, txids: set<string>, lastApplied: int, stateSha: Bytes)

  // The log file, how much of it is known to be on stable storage, and the checkpoint file.
  datatype Disk = Disk(wal: Bytes, synced: nat, checkpoint: Option<Checkpoint>)

  datatype Memory = Memory(st: State, lastApplied: int, nextLsn: int)

  datatype System = System(disk: Disk, mem: Option<Memory>)

  datatype Inflight =
    | Nothing | Committing(txid: string, ops: seq<Op>) | Appending(txid: string, ops: seq<Op>)

  datatype Event =
    | CommitTx(txid: string, ops: seq<Op>)
    | AppendUncommitted(txid: string, ops: seq<Op>)
    | TakeCheckpoint(doc: Checkpoint)
    | Open(repair: bool)
    | Close
    | Kill(inflight: Inflight, keep: nat)
    | Crash(inflight: Inflight, keep: nat)

  datatype OpenError = WalError(scan: ScanError) | StateError(replay: ReplayError)

  // ----- disk operations -----

  function FitCount(p: Primitives, es: seq<Entry>): (k: nat)
    ensures k <= |es| && AllFit(p, es[..k])
    ensures k < |es| ==> !Fits(p, es[k])
  {
    if |es| == 0 || !Fits(p, es[0]) then 0
    else
      var k := 1 + FitCount(p, es[1..]);
      assert forall i | 0 < i < k :: es[i] == es[1..][i - 1];
      k
  }

  // The bytes an append writes: whole frames, up to the first that is too large.
  function Written(p: Primitives, es: seq<Entry>): Bytes {
    Frames(p, es[..FitCount(p, es)])
  }

  function Append(p: Primitives, d: Disk, es: seq<Entry>): Disk {
    var wal := d.wal + Written(p, es);
    d.(wal := wal, synced := if AllFit(p, es) then |wal| else d.synced)
  }

  function RecordOps(rs: seq<Record>): (ops: seq<Op>)
    ensures |ops| == |rs|
  {
    seq(|rs|, i requires 0 <= i < |rs| => PutRecord(rs[i]))
  }

  function EdgeOps(es: seq<Edge>): (ops: seq<Op>)
    ensures |ops| == |es|
  {
    seq(|es|, i requires 0 <= i < |es| => PutEdge(es[i]))
  }

  function LoadCheckpoint(p: Primitives, doc: Option<Checkpoint>): Result<(State, int), ReplayError> {
    match doc
    case None => Ok((EMPTY, 0))
    case Some(cp) =>
      if p.sha256(p.encodeState(cp.records, cp.edges, cp.txids)) != cp.stateSha then Err(CheckpointShaMismatch)
      else match ApplyOps(p, EMPTY, RecordOps(cp.records) + EdgeOps(cp.edges))
        case Err(x) => Err(x)
        case Ok(st) => Ok((st.(txids := cp.txids), cp.lastApplied))
  }

  function MaxLsn(es: seq<Entry>): int {
    if |es| == 0 then 0 else Max(MaxLsn(es[..|es| - 1]), es[|es| - 1].lsn)
  }

  // Cutting off a torn tail and syncing the shorter file.
  function Repaired(d: Disk, good: nat, tail: nat): Disk
    requires good <= |d.wal|
  {
    if tail == 0 then d else d.(wal := d.wal[..good], synced := good)
  }

  function OpenDisk(p: Primitives, d: Disk, repair: bool): (Disk, Result<Memory, OpenError>) {
    match LoadCheckpoint(p, d.checkpoint)
    case Err(x) => (d, Err(StateError(x)))
    case Ok((st, lsn)) =>
      match Parse(p, d.wal, 0)
      case Err(x) => (d, Err(WalError(x)))
      case Ok(scan) =>
        if scan.tail > 0 && !repair then (d, Err(WalError(TruncatedTail)))
        else
          var d' := Repaired(d, scan.good, scan.tail);
          match ReplayLog(p, lsn, Start(st, lsn), scan.entries)
          case Err(x) => (d', Err(StateError(x)))
          case Ok(r) => (d', Ok(Memory(r.st, r.lastApplied, MaxLsn(scan.entries) + 1)))
  }

  // ----- steps -----

  // Whether committing ops passes validation against the shadow of the current state.
  predicate Admissible(p: Primitives, mem: Memory, ops: seq<Op>) {
    |ops| > 0 && ApplyOps(p, mem.st, ops).Ok?
  }

  function CommitStep(p: Primitives, s: System, txid: string, ops: seq<Op>): System
    requires s.mem.Some?
  {
    var mem := s.mem.value;
    if !Admissible(p, mem, ops) then s
    else
      var es := Transaction(txid, mem.nextLsn, ops);
      var next := mem.nextLsn + |es|;
      var disk := Append(p, s.disk, es);
      if !AllFit(p, es) then System(disk, Some(mem.(nextLsn := next)))
      else
        var st := ApplyOps(p, mem.st, ops).value;
        System(disk, Some(Memory(st.(txids := st.txids + {txid}), next - 1, next)))
  }

  function UncommittedStep(p: Primitives, s: System, txid: string, ops: seq<Op>): System
    requires s.mem.Some?
  {
    var mem := s.mem.value;
    if ApplyOps(p, mem.st, ops).Err? then s
    else
      var es := Opening(txid, mem.nextLsn, ops);
      System(Append(p, s.disk, es), Some(mem.(nextLsn := mem.nextLsn + |es|)))
  }

  // The entries a session was appending when it died.
  function InflightEntries(p: Primitives, s: System, inflight: Inflight): seq<Entry> {
    if s.mem.None? then []
    else match inflight
      case Nothing => []
      case Committing(txid, ops) =>
        if Admissible(p, s.mem.value, ops) then Transaction(txid, s.mem.value.nextLsn, ops) else []
      case Appending(txid, ops) =>
        if ApplyOps(p, s.mem.value.st, ops).Ok? then Opening(txid, s.mem.value.nextLsn, ops) else []
  }

  // The log file with all that the session was appending when it died.
  function Unfinished(p: Primitives, s: System, inflight: Inflight): Bytes {
    s.disk.wal + Written(p, InflightEntries(p, s, inflight))
  }

  // How much of the file is left: at least the floor, and beyond it whatever part was kept.
  function Left(wal: Bytes, floor: nat, keep: nat): (n: nat)
    ensures n <= |wal|
  {
    Min(|wal|, Max(keep, floor))
  }

  // The process dies: every byte written before stays in the file, and any prefix of the append
  // in flight. Nothing more is synced than was before, because opening syncs no log it need not repair.
  function KillStep(p: Primitives, s: System, inflight: Inflight, keep: nat): System {
    var wal := Unfinished(p, s, inflight);
    System(s.disk.(wal := wal[..Left(wal, |s.disk.wal|, keep)]), None)
  }

  // The power fails: every synced byte stays and any further prefix of what was written. What is
  // read back afterwards came from stable storage, so all of it counts as synced.
  function CrashStep(p: Primitives, s: System, inflight: Inflight, keep: nat): System {
    var wal := Unfinished(p, s, inflight);
    var n := Left(wal, s.disk.synced, keep);
    System(s.disk.(wal := wal[..n], synced := n), None)
  }

  /** A checkpoint document of a state: it lists the records and edges of the state and no others.
      Loading does not care about their order or about repeats; the runtime writes each once. */
  ghost predicate Describes(p: Primitives, cp: Checkpoint, st: State, lsn: int) {
    && (forall r :: r in cp.records <==> r.recordId in st.records && st.records[r.recordId] == r)
    && (forall e :: e in cp.edges <==> e in st.edges)
    && cp.txids == st.txids
    && cp.lastApplied == lsn
    && cp.stateSha == p.sha256(p.encodeState(cp.records, cp.edges, cp.txids))
  }

  ghost function Step(p: Primitives, s: System, ev: Event): System {
    match ev
    case CommitTx(txid, ops) => if s.mem.None? then s else CommitStep(p, s, txid, ops)
    case AppendUncommitted(txid, ops) => if s.mem.None? then s else UncommittedStep(p, s, txid, ops)
    case TakeCheckpoint(cp) =>
      if s.mem.Some? && Describes(p, cp, s.mem.value.st, s.mem.value.lastApplied)
      then s.(disk := s.disk.(checkpoint := Some(cp)))
      else s
    case Open(repair) =>
      if s.mem.Some? then s
      else var r := OpenDisk(p, s.disk, repair); System(r.0, if r.1.Ok? then Some(r.1.value) else None)
    case Close => s.(mem := None)
    case Kill(inflight, keep) => KillStep(p, s, inflight, keep)
    case Crash(inflight, keep) => CrashStep(p, s, inflight, keep)
  }

  // ----- the ledger -----

  // A committed transaction and where in the log file its COMMIT frame ends.
  datatype Posted = Posted(tx: Tx, end: nat)

  function Txs(ledger: seq<Posted>): (txs: seq<Tx>)
    ensures |txs| == |ledger|
  {
    seq(|ledger|, i requires 0 <= i < |ledger| => ledger[i].tx)
  }

  // What the first n bytes of the log still hold of a ledger.
  function Kept(ledger: seq<Posted>, n: nat): seq<Posted> {
    if |ledger| == 0 || ledger[|ledger| - 1].end <= n then ledger else Kept(ledger[..|ledger| - 1], n)
  }

  // No COMMIT frame lies above the synced part of the log.
  ghost predicate AllSynced(ledger: seq<Posted>, synced: nat) {
    forall i | 0 <= i < |ledger| :: ledger[i].end <= synced
  }

  // Would this transaction be accepted on top of the ledger, and every frame of it written?
  ghost predicate Accepted(p: Primitives, s: System, ledger: seq<Posted>, tx: Tx) {
    && s.mem.Some?
    && |tx.ops| > 0
    && Fold(p, Txs(ledger)).Ok? && ApplyOps(p, Fold(p, Txs(ledger)).value, tx.ops).Ok?
    && AllFit(p, Transaction(tx.txid, s.mem.value.nextLsn, tx.ops))
  }

  ghost function Posting(p: Primitives, s: System, tx: Tx): Posted
    requires s.mem.Some?
  {
    Posted(tx, |s.disk.wal| + |Frames(p, Transaction(tx.txid, s.mem.value.nextLsn, tx.ops))|)
  }

  // The ledger with the transaction, if accepted.
  ghost function Entered(p: Primitives, s: System, ledger: seq<Posted>, tx: Tx): seq<Posted> {
    if Accepted(p, s, ledger, tx) then ledger + [Posting(p, s, tx)] else ledger
  }

  // The ledger if all that was in flight reaches the file.
  ghost function WithInflight(p: Primitives, s: System, ledger: seq<Posted>, inflight: Inflight): seq<Posted> {
    match inflight
    case Committing(txid, ops) => Entered(p, s, ledger, Tx(txid, ops))
    case _ => ledger
  }

  ghost function LedgerStep(p: Primitives, s: System, ledger: seq<Posted>, ev: Event): seq<Posted> {
    match ev
    case CommitTx(txid, ops) => Entered(p, s, ledger, Tx(txid, ops))
    case Kill(inflight, keep) =>
      Kept(WithInflight(p, s, ledger, inflight), Left(Unfinished(p, s, inflight), |s.disk.wal|, keep))
    case Crash(inflight, keep) =>
      Kept(WithInflight(p, s, ledger, inflight), Left(Unfinished(p, s, inflight), s.disk.synced, keep))
    case _ => ledger
  }

  // The commit that this event asks for returns a receipt: the tests the commit itself makes.
  ghost predicate Receipted(p: Primitives, s: System, ev: Event) {
    && ev.CommitTx? && s.mem.Some? && Admissible(p, s.mem.value, ev.ops)
    && AllFit(p, Transaction(ev.txid, s.mem.value.nextLsn, ev.ops))
  }

  // ----- runs -----

  function Created(p: Primitives): System {
    var sha := p.sha256(p.encodeState([], [], {}));
    System(Disk([], 0, Some(Checkpoint([], [], {}, 0, sha))), None)
  }

  ghost function Run(p: Primitives, evs: seq<Event>): (System, seq<Posted>) {
    if |evs| == 0 then (Created(p), [])
    else
      var (s, ledger) := Run(p, evs[..|evs| - 1]);
      var ev := evs[|evs| - 1];
      (Step(p, s, ev), LedgerStep(p, s, ledger, ev))
  }

  function InflightTxids(inflight: Inflight): set<string> {
    match inflight
    case Nothing => {}
    case Committing(txid, _) => {txid}
    case Appending(txid, _) => {txid}
  }

  function EventTxids(ev: Event): set<string> {
    match ev
    case CommitTx(txid, _) => {txid}
    case AppendUncommitted(txid, _) => {txid}
    case Kill(inflight, _) => InflightTxids(inflight)
    case Crash(inflight, _) => InflightTxids(inflight)
    case _ => {}
  }

  function UsedTxids(evs: seq<Event>): set<string> {
    if |evs| == 0 then {} else UsedTxids(evs[..|evs| - 1]) + EventTxids(evs[|evs| - 1])
  }

  // Every transaction id is drawn fresh (uuid4) and is not empty.
  ghost predicate FreshRun(evs: seq<Event>) {
    |evs| > 0 ==>
      && FreshRun(evs[..|evs| - 1])
      && "" !in EventTxids(evs[|evs| - 1])
      && EventTxids(evs[|evs| - 1]) !! UsedTxids(evs[..|evs| - 1])
  }

  // A checkpoint that takes effect is taken only while no COMMIT frame lies above the synced part.
  ghost predicate SafeStep(p: Primitives, s: System, ledger: seq<Posted>, ev: Event) {
    ev.TakeCheckpoint? && s.mem.Some? && Describes(p, ev.doc, s.mem.value.st, s.mem.value.lastApplied) ==>
      AllSynced(ledger, s.disk.synced)
  }

  ghost predicate SafeRun(p: Primitives, evs: seq<Event>) {
    |evs| > 0 ==>
      && SafeRun(p, evs[..|evs| - 1])
      && SafeStep(p, Run(p, evs[..|evs| - 1]).0, Run(p, evs[..|evs| - 1]).1, evs[|evs| - 1])
  }
}
