/** The append-only patch chain of g1g2_patch_chain_compaction.py over the matrix model: logging,
    compaction and rollback bundles. */
module MatrixChain {
  import opened Common
  import opened Layers
  import opened Bits
  import opened Dictionaries
  import opened MatrixDelta

  datatype Event = Event(number: nat, key: int, row: int, col: int, before: int, after: int)

  function Writes(log: seq<Event>): seq<Write<int>> {
    seq(|log|, i requires 0 <= i < |log| => Write(log[i].key, log[i].after))
  }

  lemma WritesSnoc(log: seq<Event>, e: Event)
    ensures Writes(log + [e]) == Writes(log) + [Write(e.key, e.after)]
  {
  }

  ghost predicate Contiguous(log: seq<Event>) {
    forall i | 0 <= i < |log| :: log[i].number == i
  }

  // Every event recorded what the chain showed at its cell just before it.
  ghost predicate Honest(n: nat, exceptions: map<int, int>, log: seq<Event>) {
    forall i | 0 <= i < |log| ::
      && log[i].key == Key(n, log[i].row, log[i].col)
      && log[i].before == Shown(n, LastWriter(Writes(log[..i])), exceptions, log[i].row, log[i].col)
  }

  /** The first event on a cell recorded the base value, so the log can restore every cell. */
  lemma FirstEventHoldsBase(n: nat, exceptions: map<int, int>, log: seq<Event>, i: nat)
    requires Honest(n, exceptions, log) && i < |log|
    requires forall j | 0 <= j < i :: log[j].key != log[i].key
    ensures log[i].before == Shown(n, map[], exceptions, log[i].row, log[i].col)
  {
    var ws := Writes(log[..i]);
    LastWriterWins(ws, log[i].key);
    assert forall j :: 0 <= j < |ws| ==> ws[j].cell == log[j].key;
  }

  // ----- compaction -----

  /** Every query inside the columns is answered as before, whatever the overlay. */
  lemma CompactKeepsQueries(n: nat, overlay: map<int, int>, exceptions: map<int, int>, row: int, col: int)
    requires 0 <= col < n
    ensures Shown(n, map[], Compacted(overlay, exceptions, Rule(n)), row, col) == Shown(n, overlay, exceptions, row, col)
  {
    var after := Compacted(overlay, exceptions, Rule(n));
    CompactedKeepsView(overlay, exceptions, Rule(n), Key(n, row, col));
    ShownIsView(n, overlay, exceptions, row, col);
    ShownIsView(n, map[], after, row, col);
  }

  /** The compacted model rebuilds the very bytes the chain rebuilt. */
  lemma CompactKeepsBytes(n: nat, overlay: map<int, int>, exceptions: map<int, int>, before: seq<bv8>, after: seq<bv8>)
    requires Bitmap(before, n, overlay, exceptions)
    requires Bitmap(after, n, map[], Compacted(overlay, exceptions, Rule(n)))
    ensures before == after
  {
    hide View, Rule, Compacted, Bitmap;
    var kept := Compacted(overlay, exceptions, Rule(n));
    forall k: nat | k < n * n ensures View(overlay, exceptions, Rule(n), k) == View(map[], kept, Rule(n), k) {
      CompactedKeepsView(overlay, exceptions, Rule(n), k);
    }
    BitmapsAgree(before, overlay, exceptions, after, map[], kept, n);
  }

  /** Outside the columns, exactly when: a cell that compaction reverts to the rule of divmod(key)
      must show that value under the rule of the row and column asked for. */
  lemma CompactKeepsQueryIff(n: nat, overlay: map<int, int>, exceptions: map<int, int>, row: int, col: int)
    requires n > 0
    ensures var k := Key(n, row, col);
      (Shown(n, map[], Compacted(overlay, exceptions, Rule(n)), row, col) == Shown(n, overlay, exceptions, row, col)) <==>
      (k in Candidates(overlay, exceptions) && View(overlay, exceptions, Rule(n), k) == Rule(n)(k) ==>
         RuleValue(row, col) == Rule(n)(k))
  {
    hide RuleValue;
  }

  /** The chain does not check bounds: column 1 of a 1-by-1 matrix aliases row 1, and compaction
      changes what it shows. */
  lemma OutsideQueryChanges()
    ensures var overlay: map<int, int> := map[Key(1, 0, 1) := 0];
      && Shown(1, overlay, map[], 0, 1) == 0
      && Shown(1, map[], Compacted(overlay, map[], Rule(1)), 0, 1) == 1
  {
    RuleCorner();
    hide RuleValue, Compacted;
    var overlay: map<int, int> := map[Key(1, 0, 1) := 0];
    assert Rule(1)(1) == RuleValue(1, 0);
    CompactedKeepsView(overlay, map[], Rule(1), 1);
  }

  lemma RuleCorner()
    ensures RuleValue(0, 1) == 1 && RuleValue(1, 0) == 0
  {
    LowBitsAre();
    hide LowBits;
  }

  lemma LowBitsAre()
    ensures LowBits(0) == 0 && LowBits(1) == 1 && LowBits(2654435761) == 1 && LowBits(1315423911) == 7
  {
    assert 2654435761 % 8 == 1 && 1315423911 % 8 == 7;
  }

  // ----- the base of a chain -----

  // Where a dictionary of patches says nothing new.
  ghost predicate Silent(p: map<int, int>, e: map<int, int>, n: nat, k: int) {
    k in p ==> p[k] == View(map[], e, Rule(n), k)
  }

  // What a fresh chain shows at a cell is what its base shows there.
  ghost predicate Agrees(p: map<int, int>, e: map<int, int>, n: nat, row: int, col: int) {
    Shown(n, map[], e, row, col) == Shown(n, p, e, row, col)
  }

  lemma AgreesIffSilent(p: map<int, int>, e: map<int, int>, n: nat, row: int, col: int)
    requires 0 <= col < n
    ensures Agrees(p, e, n, row, col) <==> Silent(p, e, n, Key(n, row, col))
    ensures Key(n, row, col) !in p ==> Silent(p, e, n, Key(n, row, col))
  {
    hide Rule, Shown, Key;
    ShownIsView(n, map[], e, row, col);
    ShownIsView(n, p, e, row, col);
  }

  lemma KeyBack(n: nat, k: int)
    requires n > 0
    ensures 0 <= k % n < n && Key(n, k / n, k % n) == k
    ensures 0 <= k < n * n ==> 0 <= k / n < n
  {
    var q := k / n;
    assert k == n * q + k % n;
    assert q >= n ==> n * q >= n * n;
    assert q < 0 ==> n * q <= 0 - n;
  }

  lemma AgreeInColumnsIff(n: nat, p: map<int, int>, e: map<int, int>)
    requires n > 0
    ensures (forall row, col | 0 <= col < n :: Agrees(p, e, n, row, col)) <==> (forall k | k in p :: Silent(p, e, n, k))
  {
    hide Agrees, Silent, Key;
    forall row, col | 0 <= col < n
      ensures Agrees(p, e, n, row, col) <==> Silent(p, e, n, Key(n, row, col))
      ensures Key(n, row, col) !in p ==> Silent(p, e, n, Key(n, row, col))
    {
      AgreesIffSilent(p, e, n, row, col);
    }
    forall k | k in p ensures 0 <= k % n < n && (Agrees(p, e, n, k / n, k % n) <==> Silent(p, e, n, k)) {
      KeyBack(n, k);
      AgreesIffSilent(p, e, n, k / n, k % n);
    }
  }

  lemma AgreeInsideIff(n: nat, p: map<int, int>, e: map<int, int>)
    requires n > 0
    ensures (forall row, col | 0 <= row < n && 0 <= col < n :: Agrees(p, e, n, row, col)) <==>
            (forall k | k in p && 0 <= k < n * n :: Silent(p, e, n, k))
  {
    hide Agrees, Silent, Key;
    forall row, col | 0 <= row < n && 0 <= col < n
      ensures Agrees(p, e, n, row, col) <==> Silent(p, e, n, Key(n, row, col))
      ensures Key(n, row, col) !in p ==> Silent(p, e, n, Key(n, row, col))
      ensures 0 <= Key(n, row, col) < n * n
    {
      AgreesIffSilent(p, e, n, row, col);
      KeyInside(n, row, col);
    }
    forall k | k in p && 0 <= k < n * n
      ensures 0 <= k / n < n && 0 <= k % n < n && (Agrees(p, e, n, k / n, k % n) <==> Silent(p, e, n, k))
    {
      KeyBack(n, k);
      AgreesIffSilent(p, e, n, k / n, k % n);
    }
  }

  /** A chain reads the exceptions of its base and never its patches. Exactly when that does not
      show: a fresh chain answers as its base does iff every patch of the base repeats the value
      underneath it - over all rows for all patches, inside the matrix for the patches there. */
  lemma FreshChainShowsBaseIff(n: nat, p: map<int, int>, e: map<int, int>)
    ensures n > 0 ==>
      ((forall row, col | 0 <= col < n :: Agrees(p, e, n, row, col)) <==> (forall k | k in p :: Silent(p, e, n, k)))
    ensures (forall row, col | 0 <= row < n && 0 <= col < n :: Agrees(p, e, n, row, col)) <==>
            (forall k | k in p && 0 <= k < n * n :: Silent(p, e, n, k))
  {
    hide Agrees, Silent;
    if n > 0 {
      AgreeInColumnsIff(n, p, e);
      AgreeInsideIff(n, p, e);
    }
  }

  /** The bytes agree exactly when every patch inside the matrix keeps the bit underneath it. */
  lemma FreshChainBytesIff(n: nat, p: map<int, int>, e: map<int, int>, chain: seq<bv8>, base: seq<bv8>)
    requires Bitmap(chain, n, map[], e) && Bitmap(base, n, p, e)
    ensures chain == base <==>
      forall k | k in p && 0 <= k < n * n :: (p[k] == 0 <==> View(map[], e, Rule(n), k) == 0)
  {
    hide Rule, BitGet;
    if chain == base {
      forall k | k in p && 0 <= k < n * n ensures p[k] == 0 <==> View(map[], e, Rule(n), k) == 0 {
        assert BitGet(chain, k) == BitGet(base, k);
      }
    }
    if forall k | k in p && 0 <= k < n * n :: (p[k] == 0 <==> View(map[], e, Rule(n), k) == 0) {
      BitsDecideBytes(chain, base);
    }
  }

  /** A base that patched cell 0 to 0 shows 0 there; a chain over it shows the rule's 1. */
  lemma PatchedBaseIsIgnored()
    ensures Shown(1, map[0 := 0], map[], 0, 0) == 0 && Shown(1, map[], map[], 0, 0) == 1
  {
    RuleOrigin();
    hide RuleValue, Key;
    assert Key(1, 0, 0) == 0 by { OriginKey(); }
  }

  lemma OriginKey()
    ensures Key(1, 0, 0) == 0
  {
  }

  lemma RuleOrigin()
    ensures RuleValue(0, 0) == 1
  {
    LowBitsAre();
    hide LowBits;
  }

  datatype CompactError = ZeroDivision

  datatype Receipt = Receipt(eventsBefore: nat, overlayBefore: nat, exceptionsBefore: nat, exceptionsAfter: nat, reverted: nat)

  datatype RollbackBundle = RollbackBundle(n: nat, baseExceptions: seq<Write<int>>, log: seq<Event>)

  datatype BundleError = NonContiguous

  /** The compaction loop: candidate keys in order, each kept iff its final value differs from the rule. */
  method CompactExceptions(n: nat, overlay: map<int, int>, exceptions: map<int, int>)
    returns (r: Result<map<int, int>, CompactError>, reverted: nat)
    ensures r.Err? <==> n == 0 && Candidates(overlay, exceptions) != {}
    ensures r.Ok? ==>
      && r.value == Compacted(overlay, exceptions, Rule(n))
      && |r.value| + reverted == |Candidates(overlay, exceptions)|
  {
    hide RuleValue, Candidates, Compacted, Restrict, View, Rule;
    ghost var target := Compacted(overlay, exceptions, Rule(n));
    var candidates := SortedKeys(Candidates(overlay, exceptions));
    var after: map<int, int> := map[];
    reverted := 0;
    NoKeys(target);
    for i := 0 to |candidates|
      invariant i > 0 ==> n > 0
      invariant after == Restrict(target, candidates[..i])
      invariant |after| + reverted == i
    {
      var key := candidates[i];
      FirstUse(candidates, i);
      if n == 0 {
        return Err(ZeroDivision), reverted;
      }
      var row, col := key / n, key % n;
      var final := if key in overlay then overlay[key] else if key in exceptions then exceptions[key] else RuleValue(row, col);
      FinalIsView(n, overlay, exceptions, key);
      CompactedAt(overlay, exceptions, Rule(n), key);
      RestrictSnoc(target, candidates[..i], key);
      if final != RuleValue(row, col) {
        after := after[key := final];
      } else {
        reverted := reverted + 1;
      }
      assert candidates[..i + 1] == candidates[..i] + [key];
    }
    assert candidates[..|candidates|] == candidates;
    CompactedInside(overlay, exceptions, Rule(n));
    RestrictAll(target, candidates);
    KeyCount(candidates, Candidates(overlay, exceptions));
    return Ok(after), reverted;
  }

  lemma FinalIsView(n: nat, overlay: map<int, int>, exceptions: map<int, int>, key: int)
    requires n > 0
    ensures View(overlay, exceptions, Rule(n), key) ==
      if key in overlay then overlay[key] else if key in exceptions then exceptions[key] else RuleValue(key / n, key % n)
    ensures Rule(n)(key) == RuleValue(key / n, key % n)
  {
    hide RuleValue;
  }

  class MatrixPatchChain {
    const base: MatrixG1G2DeltaModel
    var patchLog: seq<Event>
    var overlay: map<int, int>
    var queryCount: nat
    var rebuildCount: nat

    // What every reachable chain keeps: numbered events, and the overlay their writes leave.
    ghost predicate Valid()
      reads this`patchLog, this`overlay
    {
      Contiguous(patchLog) && overlay == LastWriter(Writes(patchLog))
    }

    constructor (base: MatrixG1G2DeltaModel)
      ensures this.base == base && patchLog == [] && overlay == map[] && Valid()
      ensures queryCount == 0 && rebuildCount == 0
      ensures Honest(base.n, base.exceptions, patchLog)
    {
      this.base, patchLog, overlay, queryCount, rebuildCount := base, [], map[], 0, 0;
    }

    method Query(row: int, col: int) returns (value: int, layer: Source)
      modifies this`queryCount
      ensures queryCount == old(queryCount) + 1
      ensures value == Shown(base.n, overlay, base.exceptions, row, col)
      ensures layer.G4Patch? <==> Key(base.n, row, col) in overlay
      ensures layer.G1Rule? <==> Key(base.n, row, col) !in overlay && Key(base.n, row, col) !in base.exceptions
    {
      queryCount := queryCount + 1;
      var key := Key(base.n, row, col);
      if key in overlay {
        return overlay[key], G4Patch;
      }
      if key in base.exceptions {
        return base.exceptions[key], G2Exception;
      }
      return RuleValue(row, col), G1Rule;
    }

    method AppendPatch(row: int, col: int, value: int) returns (event: Event)
      requires Valid()
      modifies this`patchLog, this`overlay, this`queryCount
      ensures queryCount == old(queryCount) + 1
      ensures Valid()
      ensures patchLog == old(patchLog) + [event]
      ensures overlay == old(overlay)[Key(base.n, row, col) := value % 2]
      ensures old(Honest(base.n, base.exceptions, patchLog)) ==> Honest(base.n, base.exceptions, patchLog)
    {
      hide RuleValue, LastWriter, Writes, View;
      var key := Key(base.n, row, col);
      var before, layer := Query(row, col);
      event := Event(|patchLog|, key, row, col, before, value % 2);
      ghost var log := patchLog;
      WritesSnoc(log, event);
      LastWriterSnoc(Writes(log), Write(key, event.after));
      patchLog := patchLog + [event];
      overlay := overlay[key := event.after];
      if Honest(base.n, base.exceptions, log) {
        HonestSnoc(base.n, base.exceptions, log, event);
      }
    }

    method RebuildBytes() returns (bytes: seq<bv8>)
      modifies this`rebuildCount
      ensures rebuildCount == old(rebuildCount) + 1
      ensures Bitmap(bytes, base.n, overlay, base.exceptions)
    {
      rebuildCount := rebuildCount + 1;
      bytes := Rebuild(base.n, overlay, base.exceptions);
    }

    method MakeRollbackBundle() returns (b: RollbackBundle)
      ensures b.n == base.n && b.log == patchLog
      ensures IncreasingCells(b.baseExceptions) && LastWriter(b.baseExceptions) == base.exceptions
    {
      var items := SortedItems(base.exceptions);
      return RollbackBundle(base.n, items, patchLog);
    }

    static method FromRollbackBundle(b: RollbackBundle) returns (r: Result<MatrixPatchChain, BundleError>)
      ensures r.Ok? <==> Contiguous(b.log)
      ensures r.Ok? ==>
        && fresh(r.value) && fresh(r.value.base) && r.value.Valid()
        && r.value.base.n == b.n && r.value.base.exceptions == LastWriter(b.baseExceptions) && r.value.base.patches == map[]
        && r.value.patchLog == b.log && r.value.overlay == LastWriter(Writes(b.log))
    {
      hide LastWriter, Writes;
      var exceptions := Collect(b.baseExceptions);
      var base := new MatrixG1G2DeltaModel(b.n, exceptions, map[]);
      var chain := new MatrixPatchChain(base);
      for i := 0 to |b.log|
        invariant chain.base == base && base.exceptions == exceptions && base.patches == map[]
        invariant chain.patchLog == b.log[..i] && chain.Valid()
      {
        var event := b.log[i];
        if event.number != |chain.patchLog| {
          return Err(NonContiguous);
        }
        WritesSnoc(chain.patchLog, event);
        LastWriterSnoc(Writes(chain.patchLog), Write(event.key, event.after));
        assert b.log[..i + 1] == b.log[..i] + [event];
        chain.patchLog := chain.patchLog + [event];
        chain.overlay := chain.overlay[event.key := event.after];
      }
      assert b.log[..|b.log|] == b.log;
      return Ok(chain);
    }

    method Compact() returns (r: Result<MatrixG1G2DeltaModel, CompactError>, receipt: Receipt)
      ensures r.Err? <==> base.n == 0 && Candidates(overlay, base.exceptions) != {}
      ensures r.Ok? ==>
        && fresh(r.value) && r.value.n == base.n && r.value.patches == map[]
        && r.value.exceptions == Compacted(overlay, base.exceptions, Rule(base.n))
        && receipt.eventsBefore == |patchLog| && receipt.overlayBefore == |overlay|
        && receipt.exceptionsBefore == |base.exceptions| && receipt.exceptionsAfter == |r.value.exceptions|
        && receipt.exceptionsAfter + receipt.reverted == |Candidates(overlay, base.exceptions)|
    {
      hide Candidates, Compacted;
      receipt := Receipt(|patchLog|, |overlay|, |base.exceptions|, 0, 0);
      var kept, reverted := CompactExceptions(base.n, overlay, base.exceptions);
      if kept.Err? {
        return Err(kept.error), receipt;
      }
      var after := kept.value;
      var compacted := new MatrixG1G2DeltaModel(base.n, after, map[]);
      receipt := Receipt(|patchLog|, |overlay|, |base.exceptions|, |after|, reverted);
      return Ok(compacted), receipt;
    }
  }

  lemma HonestSnoc(n: nat, exceptions: map<int, int>, log: seq<Event>, e: Event)
    requires Honest(n, exceptions, log)
    requires e.key == Key(n, e.row, e.col) && e.before == Shown(n, LastWriter(Writes(log)), exceptions, e.row, e.col)
    ensures Honest(n, exceptions, log + [e])
  {
    hide Writes, LastWriter, Shown, Key;
    var all := log + [e];
    forall i | 0 <= i < |all|
      ensures all[i].key == Key(n, all[i].row, all[i].col)
      ensures all[i].before == Shown(n, LastWriter(Writes(all[..i])), exceptions, all[i].row, all[i].col)
    {
      assert all[..i] == if i == |log| then log else log[..i];
    }
  }

  /** Exporting a rollback bundle and reading it back restores base, log and overlay. */
  method RollbackRestores(chain: MatrixPatchChain) returns (restored: MatrixPatchChain)
    requires chain.Valid()
    ensures fresh(restored) && restored.Valid()
    ensures restored.base.n == chain.base.n && restored.base.exceptions == chain.base.exceptions
    ensures restored.patchLog == chain.patchLog && restored.overlay == chain.overlay
  {
    var bundle := chain.MakeRollbackBundle();
    var r := MatrixPatchChain.FromRollbackBundle(bundle);
    restored := r.value;
  }
}
