/** The classes of durable_runtime.py: the log file, the runtime whose fields the methods
    update, and the transaction builder. Every method is proved to be a step of the machine. */
module DurableRuntime {
  import opened Common
  import opened WalFormat
  import opened Replay
  import opened DurableMachine
  import opened Sorting
  import opened StateOrder
  import opened LittleEndian

  datatype WalScan = WalScan(entries: seq<Entry>, frameCount: nat, lastGood: nat, tailRepaired: nat, maxLsn: int)

  /** The files of the durable directory, which outlive every session. */
  class Storage {
    const p: Primitives
    var wal: Bytes
    var synced: nat
    var checkpoint: Option<Checkpoint>

    constructor (p: Primitives)
      ensures this.p == p && Contents() == Created(p).disk
    {
      this.p := p;
      wal, synced := [], 0;
      checkpoint := Some(Checkpoint([], [], {}, 0, p.sha256(p.encodeState([], [], {}))));
    }

    ghost function Contents(): Disk
      reads this
    {
      Disk(wal, synced, checkpoint)
    }

    // Writes frame after frame; a frame that is too large stops the append before the sync.
    method AppendEntries(es: seq<Entry>) returns (ok: bool)
      modifies this
      ensures ok <==> AllFit(p, es)
      ensures Contents() == Append(p, old(Contents()), es)
    {
      var i := 0;
      ghost var before := wal;
      while i < |es|
        invariant 0 <= i <= |es|
        invariant AllFit(p, es[..i])
        invariant wal == before + Frames(p, es[..i])
        invariant synced == old(synced) && checkpoint == old(checkpoint)
      {
        if !Fits(p, es[i]) {
          FitCountIs(p, es, i);
          return false;
        }
        AppendFrame(p, before, es, i);
        wal := wal + Frame(p, es[i]);
        i := i + 1;
      }
      assert es[..i] == es;
      FitCountIs(p, es, i);
      synced := |wal|;
      return true;
    }

    // Reads frames forward; a torn tail is cut off and the shorter file synced.
    method Scan(repair: bool) returns (r: Result<WalScan, ScanError>)
      modifies this
      ensures match r
        case Err(x) =>
          && Contents() == old(Contents())
          && (Parse(p, old(wal), 0) == Err(x)
              || (x == TruncatedTail && !repair && Parse(p, old(wal), 0).Ok? && Parse(p, old(wal), 0).value.tail > 0))
        case Ok(s) =>
          && Parse(p, old(wal), 0) == Ok(Parsed(s.entries, s.lastGood, s.tailRepaired))
          && (s.tailRepaired == 0 || repair)
          && s.frameCount == |s.entries|
          && s.maxLsn == MaxLsn(s.entries)
          && Contents() == Repaired(old(Contents()), s.lastGood, s.tailRepaired)
    {
      hide Parse, MaxLsn;
      var entries, pos, prev, maxLsn, done := [], 0, 0, 0, false;
      PrependNothing(Parse(p, wal, 0));
      assert wal[0..] == wal;
      assert MaxLsn([]) == 0 by { MaxLsnSnoc([], Entry(0, "", Begin)); }
      while !done
        invariant 0 <= pos <= |wal|
        invariant Parse(p, wal, 0) == Prepend(entries, pos, Parse(p, wal[pos..], prev))
        invariant maxLsn == MaxLsn(entries)
        invariant done ==> Parse(p, wal[pos..], prev) == Ok(Parsed([], 0, |wal| - pos))
        invariant Contents() == old(Contents())
        decreases !done, |wal| - pos
      {
        var header := wal[pos..Min(pos + HEADER_BYTES, |wal|)];
        ParseHeader(p, wal, pos, prev);
        if |header| < HEADER_BYTES {
          done := true;
        } else if header[..4] != MAGIC {
          return Err(MagicMismatch);
        } else {
          var n := FromLE(header[4..8]);
          if n <= 0 || n > MAX_WAL_FRAME_BYTES {
            return Err(LengthInvalid);
          }
          var payload := wal[pos + HEADER_BYTES..Min(pos + HEADER_BYTES + n, |wal|)];
          if |payload| < n {
            done := true;
          } else if p.sha256(payload) != header[8..] {
            return Err(ChecksumMismatch);
          } else {
            var decoded := p.decode(payload);
            if decoded.None? {
              return Err(JsonInvalid);
            }
            var e := decoded.value;
            if e.lsn <= prev {
              return Err(LsnOrder);
            }
            PrependStep(entries, pos, e, HEADER_BYTES + n, Parse(p, wal[pos + HEADER_BYTES + n..], e.lsn));
            MaxLsnSnoc(entries, e);
            prev, maxLsn := e.lsn, Max(maxLsn, e.lsn);
            entries := entries + [e];
            pos := pos + HEADER_BYTES + n;
          }
        }
      }
      var tail := |wal| - pos;
      assert entries + [] == entries;
      if tail > 0 {
        if !repair {
          return Err(TruncatedTail);
        }
        wal, synced := wal[..pos], pos;
      }
      return Ok(WalScan(entries, |entries|, pos, tail, maxLsn));
    }
  }

  // The result of a scan that has already taken some entries.
  function Prepend(es: seq<Entry>, n: nat, r: Result<Parsed, ScanError>): Result<Parsed, ScanError> {
    match r
    case Err(x) => Err(x)
    case Ok(q) => Ok(Parsed(es + q.entries, n + q.good, q.tail))
  }

  lemma PrependNothing(r: Result<Parsed, ScanError>)
    ensures Prepend([], 0, r) == r
  {
    if r.Ok? { assert [] + r.value.entries == r.value.entries; }
  }

  lemma PrependStep(es: seq<Entry>, n: nat, e: Entry, k: nat, r: Result<Parsed, ScanError>)
    ensures Prepend(es, n, Prepend([e], k, r)) == Prepend(es + [e], n + k, r)
  {
    if r.Ok? { assert es + ([e] + r.value.entries) == es + [e] + r.value.entries; }
  }

  lemma MaxLsnSnoc(es: seq<Entry>, e: Entry)
    ensures MaxLsn([]) == 0
    ensures MaxLsn(es + [e]) == Max(MaxLsn(es), e.lsn)
  {
    assert (es + [e])[..|es|] == es;
  }

  // One turn of the scan, read off the file at a position.
  lemma ParseHeader(p: Primitives, wal: Bytes, pos: nat, prev: int)
    requires pos <= |wal|
    ensures var r := Parse(p, wal[pos..], prev);
      if |wal| < pos + HEADER_BYTES then r == Ok(Parsed([], 0, |wal| - pos))
      else
        var header := wal[pos..pos + HEADER_BYTES];
        if header[..4] != MAGIC then r == Err(MagicMismatch)
        else
          var n := FromLE(header[4..8]);
          if n == 0 || n > MAX_WAL_FRAME_BYTES then r == Err(LengthInvalid)
          else if |wal| < pos + HEADER_BYTES + n then r == Ok(Parsed([], 0, |wal| - pos))
          else
            var payload := wal[pos + HEADER_BYTES..pos + HEADER_BYTES + n];
            if p.sha256(payload) != header[8..] then r == Err(ChecksumMismatch)
            else match p.decode(payload)
              case None => r == Err(JsonInvalid)
              case Some(e) =>
                if e.lsn <= prev then r == Err(LsnOrder)
                else r == Prepend([e], HEADER_BYTES + n, Parse(p, wal[pos + HEADER_BYTES + n..], e.lsn))
  {
    var data := wal[pos..];
    ParseTurn(p, data, prev);
    hide Parse, FromLE, Prepend;
    if |data| >= HEADER_BYTES {
      Reslice(wal, pos, 0, 4);
      Reslice(wal, pos, 4, 8);
      Reslice(wal, pos, 8, HEADER_BYTES);
      assert data[..4] == data[0..4];
      var header := wal[pos..pos + HEADER_BYTES];
      assert header[..4] == header[0..4] && header[8..] == header[8..HEADER_BYTES];
      var n := FromLE(data[4..8]);
      if HEADER_BYTES + n <= |data| {
        Reslice(wal, pos, HEADER_BYTES, HEADER_BYTES + n);
        assert data[HEADER_BYTES + n..] == wal[pos + HEADER_BYTES + n..];
      }
    }
  }

  lemma ParseTurn(p: Primitives, data: Bytes, prev: int)
    ensures var r := Parse(p, data, prev);
      if |data| < HEADER_BYTES then r == Ok(Parsed([], 0, |data|))
      else if data[..4] != MAGIC then r == Err(MagicMismatch)
      else
        var n := FromLE(data[4..8]);
        if n == 0 || n > MAX_WAL_FRAME_BYTES then r == Err(LengthInvalid)
        else if |data| < HEADER_BYTES + n then r == Ok(Parsed([], 0, |data|))
        else
          var payload := data[HEADER_BYTES..HEADER_BYTES + n];
          if p.sha256(payload) != data[8..HEADER_BYTES] then r == Err(ChecksumMismatch)
          else match p.decode(payload)
            case None => r == Err(JsonInvalid)
            case Some(e) =>
              if e.lsn <= prev then r == Err(LsnOrder)
              else r == Prepend([e], HEADER_BYTES + n, Parse(p, data[HEADER_BYTES + n..], e.lsn))
  {
    hide FromLE;
  }

  lemma Reslice(s: Bytes, pos: nat, a: nat, b: nat)
    requires a <= b && pos + b <= |s|
    ensures s[pos..][a..b] == s[pos + a..pos + b]
    ensures b <= HEADER_BYTES <= |s| - pos ==> s[pos..pos + HEADER_BYTES][a..b] == s[pos + a..pos + b]
  {
    if b <= HEADER_BYTES <= |s| - pos {
      assert s[pos..pos + HEADER_BYTES] == s[pos..][..HEADER_BYTES];
      assert s[pos..][..HEADER_BYTES][a..b] == s[pos + a..pos + b];
    }
  }

  lemma {:induction false} FitCountIs(p: Primitives, es: seq<Entry>, k: nat)
    requires k <= |es| && AllFit(p, es[..k]) && (k < |es| ==> !Fits(p, es[k]))
    ensures FitCount(p, es) == k
    ensures AllFit(p, es) <==> k == |es|
    decreases k
  {
    if k > 0 {
      assert es[1..][..k - 1] == es[..k][1..];
      assert es[..k][0] == es[0];
      FitCountIs(p, es[1..], k - 1);
    }
    if k == |es| { assert es[..k] == es; }
  }

  lemma AppendFrame(p: Primitives, before: Bytes, es: seq<Entry>, i: nat)
    requires i < |es| && AllFit(p, es[..i]) && Fits(p, es[i])
    ensures AllFit(p, es[..i + 1])
    ensures before + Frames(p, es[..i + 1]) == before + Frames(p, es[..i]) + Frame(p, es[i])
  {
    hide Frame;
    assert es[..i + 1] == es[..i] + [es[i]];
    FramesAppend(p, es[..i], [es[i]]);
    assert Frames(p, [es[i]]) == Frame(p, es[i]) + Frames(p, []);
  }

  datatype Receipt = Receipt(txid: string, commitLsn: int, opCount: nat, recordCount: nat, edgeCount: nat, stateSha: Bytes)

  datatype RuntimeError = NotOpen | TransactionClosed | EmptyTransaction | Rejected(why: ReplayError) | FrameTooLarge | Broken(OpenError)

  // The transactions recovery saw committed, applied, and left pending.
  datatype Recovery = Recovery(commitsSeen: nat, replayed: nat, ignored: nat)

  lemma ListedOnce(recs: seq<Record>, ids: seq<string>, records: map<string, Record>)
    requires Distinct(ids) && |recs| == |ids| && forall id :: id in ids <==> id in records
    requires forall j | 0 <= j < |ids| :: ids[j] in records && recs[j] == records[ids[j]] && recs[j].recordId == ids[j]
    ensures Distinct(recs) && forall r :: r in recs <==> r.recordId in records && records[r.recordId] == r
  {
    forall r: Record | r.recordId in records && records[r.recordId] == r ensures r in recs {
      var j :| 0 <= j < |ids| && ids[j] == r.recordId;
      assert recs[j] == r;
    }
  }

  class DurableDatabaseRuntime {
    const p: Primitives
    const storage: Storage
    var records: map<string, Record>
    var edges: seq<Edge>
    var edgeKeys: set<Edge>
    var txids: set<string>
    var lastApplied: int
    var nextLsn: int
    var isOpen: bool
    var mergedOverlay: seq<Edge>

    // The edge list holds each edge of the key set once, and records are filed by id.
    ghost predicate Coherent()
      reads this`edges, this`edgeKeys, this`records
    {
      && Distinct(edges)
      && (forall e :: e in edges <==> e in edgeKeys)
      && (forall id | id in records :: records[id].recordId == id)
    }

    // An open session has merged its edges into the graph in key order.
    ghost predicate Valid()
      reads this
    {
      storage.p == p && Coherent() && (isOpen ==> EdgesInOrder(mergedOverlay, edgeKeys))
    }

    ghost function Overlay(): State
      reads this
    {
      State(records, edgeKeys, txids)
    }

    ghost function Snapshot(): System
      reads this, storage
    {
      System(storage.Contents(), if isOpen then Some(Memory(Overlay(), lastApplied, nextLsn)) else None)
    }

    constructor (storage: Storage)
      ensures Valid() && this.storage == storage && !isOpen
    {
      this.storage, p := storage, storage.p;
      records, edges, edgeKeys, txids := map[], [], {}, {};
      lastApplied, nextLsn, isOpen, mergedOverlay := 0, 1, false, [];
    }

    method ApplyOperation(op: Op) returns (r: Result<(), ReplayError>)
      requires Coherent()
      modifies this`records, this`edges, this`edgeKeys
      ensures Coherent()
      ensures match ApplyOp(p, old(Overlay()), op)
        case Err(x) => r == Err(x) && Overlay() == old(Overlay()) && edges == old(edges)
        case Ok(st) => r == Ok(()) && Overlay() == st
    {
      match op {
        case PutRecord(rec) =>
          if p.sha256(rec.payload) != rec.sha {
            return Err(PayloadShaMismatch);
          }
          if rec.recordId in records && records[rec.recordId] != rec {
            return Err(RecordConflict);
          }
          records := records[rec.recordId := rec];
        case PutEdge(e) =>
          if e !in edgeKeys {
            edgeKeys := edgeKeys + {e};
            edges := edges + [e];
          } else {
            assert edgeKeys + {e} == edgeKeys;
          }
      }
      return Ok(());
    }

    method ApplyAll(ops: seq<Op>) returns (r: Result<(), ReplayError>)
      requires Coherent()
      modifies this`records, this`edges, this`edgeKeys
      ensures Coherent()
      ensures match ApplyOps(p, old(Overlay()), ops)
        case Err(x) => r == Err(x)
        case Ok(st) => r == Ok(()) && Overlay() == st
    {
      hide ApplyOps, ApplyOp;
      ghost var start := Overlay();
      ApplyNone(p, start);
      for i := 0 to |ops|
        invariant Coherent()
        invariant ApplyOps(p, start, ops[..i]) == Ok(Overlay())
      {
        ApplyPrefix(p, start, ops, i);
        r := ApplyOperation(ops[i]);
        if r.Err? {
          return;
        }
      }
      assert ops[..|ops|] == ops;
      return Ok(());
    }

    // The shadow run: the same checks on copies, so that nothing invalid is ever logged.
    method ValidateOperations(ops: seq<Op>) returns (r: Result<(), ReplayError>)
      ensures match ApplyOps(p, Overlay(), ops)
        case Err(x) => r == Err(x)
        case Ok(_) => r == Ok(())
    {
      hide ApplyOps;
      var shadowRecords, shadowEdges := records, edgeKeys;
      ApplyNone(p, Overlay());
      for i := 0 to |ops|
        invariant ApplyOps(p, Overlay(), ops[..i]) == Ok(State(shadowRecords, shadowEdges, txids))
      {
        ApplyPrefix(p, Overlay(), ops, i);
        match ops[i] {
          case PutRecord(rec) =>
            if p.sha256(rec.payload) != rec.sha {
              return Err(PayloadShaMismatch);
            }
            if rec.recordId in shadowRecords && shadowRecords[rec.recordId] != rec {
              return Err(RecordConflict);
            }
            shadowRecords := shadowRecords[rec.recordId := rec];
          case PutEdge(e) =>
            shadowEdges := shadowEdges + {e};
        }
      }
      assert ops[..|ops|] == ops;
      return Ok(());
    }

    method WalEntry(txid: string, body: Body) returns (e: Entry)
      modifies this`nextLsn
      ensures e == Entry(old(nextLsn), txid, body) && nextLsn == old(nextLsn) + 1
    {
      e := Entry(nextLsn, txid, body);
      nextLsn := nextLsn + 1;
    }

    method OpeningEntries(txid: string, ops: seq<Op>) returns (es: seq<Entry>)
      modifies this`nextLsn
      ensures es == Opening(txid, old(nextLsn), ops)
      ensures nextLsn == old(nextLsn) + |es|
    {
      var e := WalEntry(txid, Begin);
      es := [e];
      for i := 0 to |ops|
        invariant nextLsn == old(nextLsn) + 1 + i && |es| == i + 1
        invariant es[0] == Entry(old(nextLsn), txid, Begin)
        invariant forall j | 0 <= j < i :: es[j + 1] == Entry(old(nextLsn) + 1 + j, txid, Put(ops[j]))
      {
        e := WalEntry(txid, Put(ops[i]));
        es := es + [e];
      }
    }

    method RebuildMergedGraph()
      requires Coherent()
      modifies this`mergedOverlay
      ensures EdgesInOrder(mergedOverlay, edgeKeys)
    {
      mergedOverlay := Sort(edges, EdgeLe);
      EdgeOrder();
      SortSorts(edges, EdgeLe);
      SortDistinct(edges, EdgeLe);
    }

    // Bringing a durable transaction into memory.
    method Publish(tx: Tx, lsn: int)
      requires Coherent() && ApplyOps(p, Overlay(), tx.ops).Ok?
      modifies this`records, this`edges, this`edgeKeys, this`txids, this`lastApplied, this`mergedOverlay
      ensures Coherent() && EdgesInOrder(mergedOverlay, edgeKeys)
      ensures Ok(Overlay()) == Committed(p, old(Overlay()), tx)
      ensures lastApplied == lsn
    {
      hide ApplyOps;
      var a := ApplyAll(tx.ops);
      txids := txids + {tx.txid};
      lastApplied := lsn;
      RebuildMergedGraph();
    }

    method Commit(txid: string, ops: seq<Op>) returns (r: Result<Receipt, RuntimeError>)
      requires Valid()
      modifies this`records, this`edges, this`edgeKeys, this`txids, this`lastApplied, this`nextLsn,
        this`mergedOverlay, storage
      ensures Valid()
      ensures Snapshot() == Step(p, old(Snapshot()), CommitTx(txid, ops))
      ensures r.Ok? <==> (
        && old(isOpen)
        && Admissible(p, old(Memory(Overlay(), lastApplied, nextLsn)), ops)
        && AllFit(p, Transaction(txid, old(nextLsn), ops)))
      ensures r.Ok? ==> (
        && isOpen && txid in txids && old(nextLsn) < lastApplied
        && r.value == Receipt(txid, lastApplied, |ops|, |records|, |edges|, r.value.stateSha)
        && IsStateSha(p, Overlay(), r.value.stateSha))
    {
      hide Opening, AllFit, Append, ApplyOps, EdgesInOrder, Coherent, IsStateSha;
      if !isOpen {
        return Err(NotOpen);
      }
      if |ops| == 0 {
        return Err(EmptyTransaction);
      }
      var v := ValidateOperations(ops);
      if v.Err? {
        return Err(Rejected(v.error));
      }
      var es := OpeningEntries(txid, ops);
      var closing := WalEntry(txid, WalFormat.Commit(|ops|));
      es := es + [closing];
      assert es == Transaction(txid, old(nextLsn), ops);
      var ok := storage.AppendEntries(es);
      if !ok {
        return Err(FrameTooLarge);
      }
      Publish(Tx(txid, ops), closing.lsn);
      var sha := StateSha256();
      return Ok(Receipt(txid, lastApplied, |ops|, |records|, |edges|, sha));
    }

    method AppendUncommittedTransaction(txid: string, ops: seq<Op>) returns (ok: bool)
      requires Valid()
      modifies this`nextLsn, storage
      ensures Valid()
      ensures Snapshot() == Step(p, old(Snapshot()), AppendUncommitted(txid, ops))
    {
      if !isOpen {
        return false;
      }
      var v := ValidateOperations(ops);
      if v.Err? {
        return false;
      }
      hide Opening, AllFit, Append, ApplyOps;
      var es := OpeningEntries(txid, ops);
      ok := storage.AppendEntries(es);
    }

    // The canonical payload: records by id, edges by key, each listed once.
    method StatePayload() returns (recs: seq<Record>, es: seq<Edge>)
      requires Coherent()
      ensures IsPayload(recs, es, Overlay())
    {
      hide RecordLe, EdgeLe;
      var ids := Enumerate(records.Keys);
      recs := [];
      for i := 0 to |ids|
        invariant |recs| == i && forall j | 0 <= j < i :: recs[j] == records[ids[j]] && recs[j].recordId == ids[j]
      {
        recs := recs + [records[ids[i]]];
      }
      ListedOnce(recs, ids, records);
      RecordOrder();
      SortSorts(recs, RecordLe);
      SortDistinct(recs, RecordLe);
      recs := Sort(recs, RecordLe);
      EdgeOrder();
      SortSorts(edges, EdgeLe);
      SortDistinct(edges, EdgeLe);
      es := Sort(edges, EdgeLe);
    }

    method StateSha256() returns (sha: Bytes)
      requires Coherent()
      ensures IsStateSha(p, Overlay(), sha)
    {
      hide IsPayload;
      var recs, es := StatePayload();
      return p.sha256(p.encodeState(recs, es, txids));
    }

    // Checkpoint: the payload and its digest replace the old document in one step.
    method TakeCheckpointNow() returns (doc: Option<Checkpoint>)
      requires Valid()
      modifies storage`checkpoint
      ensures doc.Some? == isOpen
      ensures doc.Some? ==> Describes(p, doc.value, Overlay(), lastApplied)
      ensures doc.Some? ==> IsPayload(doc.value.records, doc.value.edges, Overlay())
      ensures doc.Some? ==> Snapshot() == Step(p, old(Snapshot()), TakeCheckpoint(doc.value))
      ensures doc.None? ==> Snapshot() == old(Snapshot())
    {
      if !isOpen {
        return None;
      }
      var recs, es := StatePayload();
      var cp := Checkpoint(recs, es, txids, lastApplied, p.sha256(p.encodeState(recs, es, txids)));
      storage.checkpoint := Some(cp);
      return Some(cp);
    }

    method LoadCheckpointFile() returns (r: Result<int, ReplayError>)
      requires !isOpen
      modifies this`records, this`edges, this`edgeKeys, this`txids, this`lastApplied
      ensures Coherent()
      ensures match LoadCheckpoint(p, storage.checkpoint)
        case Err(x) => r == Err(x)
        case Ok((st, lsn)) => r == Ok(lsn) && Overlay() == st && lastApplied == lsn
    {
      hide ApplyOps;
      records, edges, edgeKeys, txids, lastApplied := map[], [], {}, {}, 0;
      if storage.checkpoint.None? {
        return Ok(0);
      }
      var cp := storage.checkpoint.value;
      if p.sha256(p.encodeState(cp.records, cp.edges, cp.txids)) != cp.stateSha {
        return Err(CheckpointShaMismatch);
      }
      var a := ApplyAll(RecordOps(cp.records) + EdgeOps(cp.edges));
      if a.Err? {
        return Err(a.error);
      }
      txids, lastApplied := cp.txids, cp.lastApplied;
      return Ok(lastApplied);
    }

    method RecoverFromWal(entries: seq<Entry>, ckpt: int) returns (r: Result<Recovery, ReplayError>)
      requires Coherent() && lastApplied == ckpt
      modifies this`records, this`edges, this`edgeKeys, this`txids, this`lastApplied
      ensures Coherent()
      ensures match ReplayLog(p, ckpt, Start(old(Overlay()), ckpt), entries)
        case Err(x) => r == Err(x)
        case Ok(f) =>
          r == Ok(Recovery(f.commitsSeen, f.replayed, |f.pending|)) && Overlay() == f.st && lastApplied == f.lastApplied
    {
      hide ApplyOps, ReplayLog;
      var pending: map<string, seq<Op>> := map[];
      var begun: set<string> := {};
      var commitsSeen, replayed := 0, 0;
      ghost var start := Start(Overlay(), ckpt);
      ReplayNone(p, ckpt, start);
      for i := 0 to |entries|
        invariant Coherent()
        invariant ReplayLog(p, ckpt, start, entries[..i])
          == Ok(Recovering(pending, begun, Overlay(), lastApplied, commitsSeen, replayed))
      {
        var e := entries[i];
        ReplayPrefix(p, ckpt, start, entries, i);
        if e.txid == "" {
          return Err(TxidMissing);
        }
        match e.body {
          case Begin =>
            if e.txid in begun || e.txid in pending {
              return Err(DuplicateBegin);
            }
            begun := begun + {e.txid};
            pending := pending[e.txid := []];
          case Put(op) =>
            if e.txid !in pending {
              return Err(OpWithoutBegin);
            }
            pending := pending[e.txid := pending[e.txid] + [op]];
          case Commit(opCount) =>
            if e.txid !in pending {
              return Err(CommitWithoutBegin);
            }
            var ops := pending[e.txid];
            if opCount != |ops| {
              return Err(OpCountMismatch);
            }
            pending := pending - {e.txid};
            commitsSeen := commitsSeen + 1;
            if e.lsn > ckpt && e.txid !in txids {
              var a := ApplyAll(ops);
              if a.Err? {
                return Err(a.error);
              }
              txids := txids + {e.txid};
              lastApplied := Max(lastApplied, e.lsn);
              replayed := replayed + 1;
            }
          case Unknown =>
            return Err(UnknownKind);
        }
      }
      assert entries[..|entries|] == entries;
      return Ok(Recovery(commitsSeen, replayed, |pending|));
    }

    method OpenNow(repair: bool) returns (r: Result<(), OpenError>)
      requires Valid()
      modifies this`records, this`edges, this`edgeKeys, this`txids, this`lastApplied, this`nextLsn,
        this`mergedOverlay, this`isOpen, storage
      ensures Valid()
      ensures Snapshot() == Step(p, old(Snapshot()), Open(repair))
      ensures r.Ok? <==> isOpen
      ensures !old(isOpen) ==> r.Ok? == OpenDisk(p, old(storage.Contents()), repair).1.Ok?
    {
      hide ApplyOps, ReplayLog, Parse, LoadCheckpoint, MaxLsn, EdgesInOrder, Coherent;
      if isOpen {
        return Ok(());
      }
      var loaded := LoadCheckpointFile();
      if loaded.Err? {
        return Err(StateError(loaded.error));
      }
      var scanned := storage.Scan(repair);
      if scanned.Err? {
        return Err(WalError(scanned.error));
      }
      var scan := scanned.value;
      nextLsn := scan.maxLsn + 1;
      var recovered := RecoverFromWal(scan.entries, loaded.value);
      if recovered.Err? {
        return Err(StateError(recovered.error));
      }
      RebuildMergedGraph();
      isOpen := true;
      return Ok(());
    }

    method CloseNow()
      requires Valid()
      modifies this`isOpen
      ensures Valid()
      ensures Snapshot() == Step(p, old(Snapshot()), Close)
    {
      isOpen := false;
    }
  }

  lemma ReplayNone(p: Primitives, ckpt: int, start: Recovering)
    ensures ReplayLog(p, ckpt, start, []) == Ok(start)
  {
  }

  lemma {:induction false} ReplayErrorPersists(p: Primitives, ckpt: int, start: Recovering, es: seq<Entry>, k: nat)
    requires k <= |es| && ReplayLog(p, ckpt, start, es[..k]).Err?
    ensures ReplayLog(p, ckpt, start, es) == ReplayLog(p, ckpt, start, es[..k])
    decreases |es|
  {
    hide ReplayEntry;
    if k == |es| {
      assert es[..k] == es;
    } else {
      assert es[..|es| - 1][..k] == es[..k];
      ReplayErrorPersists(p, ckpt, start, es[..|es| - 1], k);
    }
  }

  lemma ReplayPrefix(p: Primitives, ckpt: int, start: Recovering, es: seq<Entry>, i: nat)
    requires i < |es| && ReplayLog(p, ckpt, start, es[..i]).Ok?
    ensures ReplayLog(p, ckpt, start, es[..i + 1])
      == ReplayEntry(p, ckpt, ReplayLog(p, ckpt, start, es[..i]).value, es[i])
    ensures ReplayLog(p, ckpt, start, es[..i + 1]).Err? ==>
      ReplayLog(p, ckpt, start, es) == ReplayLog(p, ckpt, start, es[..i + 1])
  {
    hide ReplayEntry;
    assert es[..i + 1][..i] == es[..i];
    if ReplayLog(p, ckpt, start, es[..i + 1]).Err? { ReplayErrorPersists(p, ckpt, start, es, i + 1); }
  }

  // round() to the nearest whole number, halves to the even one.
  function RoundHalfEven(x: real): int {
    var f := x.Floor;
    var d := x - f as real;
    if d < 0.5 || (d == 0.5 && f % 2 == 0) then f else f + 1
  }

  datatype BuildError = Closed | EmptyRecordId | NegativeNode | WeightOutOfRange | BadEdgeType

  /** The builder clients use: it only ever collects well-formed operations. */
  class DurableTransaction {
    const runtime: DurableDatabaseRuntime
    var ops: seq<Op>
    var closed: bool

    constructor (runtime: DurableDatabaseRuntime)
      ensures this.runtime == runtime && ops == [] && !closed
    {
      this.runtime := runtime;
      ops, closed := [], false;
    }

    method PutRecord(recordId: string, nodeId: int, payload: Bytes) returns (r: Result<(), BuildError>)
      modifies this`ops
      ensures r.Ok? <==> !closed && recordId != "" && 0 <= nodeId
      ensures r.Err? ==> ops == old(ops)
      ensures r.Ok? ==> ops == old(ops) + [Op.PutRecord(Record(recordId, nodeId, payload, runtime.p.sha256(payload)))]
    {
      if closed {
        return Err(Closed);
      }
      if recordId == "" {
        return Err(EmptyRecordId);
      }
      if nodeId < 0 {
        return Err(NegativeNode);
      }
      ops := ops + [Op.PutRecord(Record(recordId, nodeId, payload, runtime.p.sha256(payload)))];
      return Ok(());
    }

    method PutEdge(src: int, dst: int, edgeType: int, weight: real) returns (r: Result<(), BuildError>)
      modifies this`ops
      ensures r.Ok? <==> !closed && 1 <= edgeType <= 10 && 0 <= src && 0 <= dst && 0.0 <= weight <= 1.0
      ensures r.Err? ==> ops == old(ops)
      ensures r.Ok? ==> |ops| == |old(ops)| + 1 && ops[..|old(ops)|] == old(ops) && ops[|old(ops)|].PutEdge?
      ensures r.Ok? ==> var e := ops[|old(ops)|].edge;
        && e.src == src && e.dst == dst && e.edgeType == edgeType
        && -0.5 <= weight * 1_000_000.0 - e.weight as real <= 0.5
        && (e.weight as real - weight * 1_000_000.0 in [-0.5, 0.5] ==> e.weight % 2 == 0)
    {
      if closed {
        return Err(Closed);
      }
      if edgeType < 1 || 10 < edgeType {
        return Err(BadEdgeType);
      }
      if src < 0 || dst < 0 {
        return Err(NegativeNode);
      }
      if weight < 0.0 || 1.0 < weight {
        return Err(WeightOutOfRange);
      }
      var million := RoundHalfEven(weight * 1_000_000.0);
      ops := ops + [Op.PutEdge(Edge(src, dst, edgeType, million))];
      return Ok(());
    }

    // Committing closes the transaction whether or not it succeeds.
    method CommitAndClose(txid: string) returns (r: Result<Receipt, RuntimeError>)
      requires runtime.Valid()
      modifies this`closed, runtime, runtime.storage
      ensures closed && ops == old(ops) && runtime.Valid()
      ensures old(closed) ==> r == Err(TransactionClosed) && runtime.Snapshot() == old(runtime.Snapshot())
      ensures !old(closed) ==> runtime.Snapshot() == Step(runtime.p, old(runtime.Snapshot()), CommitTx(txid, ops))
    {
      if closed {
        return Err(TransactionClosed);
      }
      closed := true;
      r := runtime.Commit(txid, ops);
    }

    method Abort()
      modifies this`closed, this`ops
      ensures closed && ops == []
    {
      closed, ops := true, [];
    }
  }

  lemma ApplyNone(p: Primitives, st: State)
    ensures ApplyOps(p, st, []) == Ok(st)
  {
  }

  lemma {:induction false} ErrorPersists(p: Primitives, st: State, ops: seq<Op>, k: nat)
    requires k <= |ops| && ApplyOps(p, st, ops[..k]).Err?
    ensures ApplyOps(p, st, ops) == ApplyOps(p, st, ops[..k])
    decreases |ops|
  {
    if k == |ops| {
      assert ops[..k] == ops;
    } else {
      assert ops[..|ops| - 1][..k] == ops[..k];
      ErrorPersists(p, st, ops[..|ops| - 1], k);
    }
  }

  // Running one operation more; a failure there is the failure of the whole list.
  lemma ApplyPrefix(p: Primitives, st: State, ops: seq<Op>, i: nat)
    requires i < |ops| && ApplyOps(p, st, ops[..i]).Ok?
    ensures ApplyOps(p, st, ops[..i + 1]) == ApplyOp(p, ApplyOps(p, st, ops[..i]).value, ops[i])
    ensures ApplyOps(p, st, ops[..i + 1]).Err? ==> ApplyOps(p, st, ops) == ApplyOps(p, st, ops[..i + 1])
  {
    assert ops[..i + 1][..i] == ops[..i];
    hide ApplyOp;
    if ApplyOps(p, st, ops[..i + 1]).Err? { ErrorPersists(p, st, ops, i + 1); }
  }
}
