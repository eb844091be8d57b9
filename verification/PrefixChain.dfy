/** The append-only patch chain of g1g2_patch_chain_compaction.py over the prefix model. */
module PrefixChain {
  import opened Common
  import opened Layers
  import opened Dictionaries
  import opened PrefixDelta

  datatype Event = Event(number: nat, idx: int, beforeDigest: string, after: string)

  function Writes(log: seq<Event>): seq<Write<string>> {
    seq(|log|, i requires 0 <= i < |log| => Write(log[i].idx, log[i].after))
  }

  lemma WritesSnoc(log: seq<Event>, e: Event)
    ensures Writes(log + [e]) == Writes(log) + [Write(e.idx, e.after)]
  {
  }

  ghost predicate Contiguous(log: seq<Event>) {
    forall i | 0 <= i < |log| :: log[i].number == i
  }

  // Every event recorded the digest of what the chain showed at its index just before it.
  ghost predicate Honest(sha256: string -> string, prefix: string, exceptions: map<int, string>, log: seq<Event>) {
    forall i | 0 <= i < |log| ::
      log[i].beforeDigest == sha256(View(LastWriter(Writes(log[..i])), exceptions, Rule(prefix), log[i].idx))
  }

  lemma HonestSnoc(sha256: string -> string, prefix: string, exceptions: map<int, string>, log: seq<Event>, e: Event)
    requires Honest(sha256, prefix, exceptions, log)
    requires e.beforeDigest == sha256(View(LastWriter(Writes(log)), exceptions, Rule(prefix), e.idx))
    ensures Honest(sha256, prefix, exceptions, log + [e])
  {
    hide Writes, LastWriter, View, Rule;
    var all := log + [e];
    forall i | 0 <= i < |all|
      ensures all[i].beforeDigest == sha256(View(LastWriter(Writes(all[..i])), exceptions, Rule(prefix), all[i].idx))
    {
      assert all[..i] == if i == |log| then log else log[..i];
    }
  }

  /** The compacted model rebuilds the very text the chain rebuilt, for every count. */
  lemma CompactKeepsText(overlay: map<int, string>, exceptions: map<int, string>, prefix: string, count: nat)
    ensures Text(map[], Compacted(overlay, exceptions, Rule(prefix)), prefix, count) == Text(overlay, exceptions, prefix, count)
  {
    hide View, Rule, Compacted;
    var kept := Compacted(overlay, exceptions, Rule(prefix));
    forall k: nat | k < count ensures View(map[], kept, Rule(prefix), k) == View(overlay, exceptions, Rule(prefix), k) {
      CompactedKeepsView(overlay, exceptions, Rule(prefix), k);
    }
    TextAgrees(map[], kept, overlay, exceptions, prefix, count);
  }

  // ----- the base of a chain -----

  // Where a dictionary of patches says nothing new.
  ghost predicate Silent(p: map<int, string>, e: map<int, string>, prefix: string, k: int) {
    k in p ==> p[k] == View(map[], e, Rule(prefix), k)
  }

  lemma SilentIsSame(p: map<int, string>, e: map<int, string>, prefix: string, k: int)
    ensures Silent(p, e, prefix, k) <==> View(map[], e, Rule(prefix), k) == View(p, e, Rule(prefix), k)
    ensures k !in p ==> Silent(p, e, prefix, k)
  {
    hide Rule;
  }

  // A fresh chain rebuilds the text its base rebuilds.
  ghost predicate SameText(p: map<int, string>, e: map<int, string>, prefix: string, count: nat) {
    Text(map[], e, prefix, count) == Text(p, e, prefix, count)
  }

  /** A chain never reads the patches of its base. It answers every query as its base does, and
      rebuilds the same text for every count, exactly when those patches repeat what is underneath. */
  lemma FreshChainShowsBaseIff(p: map<int, string>, e: map<int, string>, prefix: string)
    ensures (forall idx :: View(map[], e, Rule(prefix), idx) == View(p, e, Rule(prefix), idx)) <==>
            (forall k | k in p :: Silent(p, e, prefix, k))
    ensures (forall count: nat :: SameText(p, e, prefix, count)) <==>
            (forall k: nat | k in p :: Silent(p, e, prefix, k))
  {
    hide View, Rule, Silent, Text;
    forall k ensures Silent(p, e, prefix, k) <==> View(map[], e, Rule(prefix), k) == View(p, e, Rule(prefix), k)
      ensures k !in p ==> Silent(p, e, prefix, k)
    {
      SilentIsSame(p, e, prefix, k);
    }
    if forall k: nat | k in p :: Silent(p, e, prefix, k) {
      forall count: nat ensures SameText(p, e, prefix, count) {
        TextAgrees(map[], e, p, e, prefix, count);
      }
    }
    if forall count: nat :: SameText(p, e, prefix, count) {
      forall k: nat | k in p ensures Silent(p, e, prefix, k) {
        TextDecides(p, e, prefix, k);
      }
    }
  }

  // One more record of the text tells which record it was.
  lemma TextDecides(p: map<int, string>, e: map<int, string>, prefix: string, k: nat)
    requires SameText(p, e, prefix, k) && SameText(p, e, prefix, k + 1)
    ensures View(map[], e, Rule(prefix), k) == View(p, e, Rule(prefix), k)
  {
    hide View, Rule;
    var a, b := View(map[], e, Rule(prefix), k), View(p, e, Rule(prefix), k);
    var t := Text(p, e, prefix, k);
    assert t + a == t + b;
    assert (t + a)[|t|..] == a && (t + b)[|t|..] == b;
  }

  /** A base that patched record 0 shows the patch; a chain over it shows the template. */
  lemma PatchedBaseIsIgnored(prefix: string)
    ensures View(map[0 := ""], map[], Rule(prefix), 0) == ""
    ensures View(map[], map[], Rule(prefix), 0) == RuleRecord(prefix, 0) != ""
  {
  }

  datatype RollbackBundle = RollbackBundle(count: nat, prefix: string, baseExceptions: seq<Write<string>>, log: seq<Event>)

  datatype BundleError = NonContiguous

  datatype Receipt = Receipt(eventsBefore: nat, overlayBefore: nat, exceptionsBefore: nat, exceptionsAfter: nat, reverted: nat)

  /** The compaction loop over candidate indices. */
  method CompactExceptions(prefix: string, overlay: map<int, string>, exceptions: map<int, string>)
    returns (after: map<int, string>, reverted: nat)
    ensures after == Compacted(overlay, exceptions, Rule(prefix))
    ensures |after| + reverted == |Candidates(overlay, exceptions)|
  {
    hide RuleRecord, Candidates, Compacted, Restrict;
    ghost var target := Compacted(overlay, exceptions, Rule(prefix));
    var candidates := SortedKeys(Candidates(overlay, exceptions));
    after, reverted := map[], 0;
    NoKeys(target);
    for i := 0 to |candidates|
      invariant after == Restrict(target, candidates[..i])
      invariant |after| + reverted == i
    {
      var idx := candidates[i];
      FirstUse(candidates, i);
      var final := if idx in overlay then overlay[idx] else if idx in exceptions then exceptions[idx] else RuleRecord(prefix, idx);
      CompactedAt(overlay, exceptions, Rule(prefix), idx);
      RestrictSnoc(target, candidates[..i], idx);
      if final != RuleRecord(prefix, idx) {
        after := after[idx := final];
      } else {
        reverted := reverted + 1;
      }
      assert candidates[..i + 1] == candidates[..i] + [idx];
    }
    assert candidates[..|candidates|] == candidates;
    CompactedInside(overlay, exceptions, Rule(prefix));
    RestrictAll(target, candidates);
    KeyCount(candidates, Candidates(overlay, exceptions));
  }

  class PrefixPatchChain {
    const base: PrefixFamilyG1G2DeltaModel
    var patchLog: seq<Event>
    var overlay: map<int, string>
    var queryCount: nat
    var rebuildCount: nat

    ghost predicate Valid()
      reads this`patchLog, this`overlay
    {
      Contiguous(patchLog) && overlay == LastWriter(Writes(patchLog))
    }

    constructor (base: PrefixFamilyG1G2DeltaModel)
      ensures this.base == base && patchLog == [] && overlay == map[] && Valid()
      ensures queryCount == 0 && rebuildCount == 0
    {
      this.base, patchLog, overlay, queryCount, rebuildCount := base, [], map[], 0, 0;
    }

    method Query(idx: int) returns (value: string)
      modifies this`queryCount
      ensures queryCount == old(queryCount) + 1
      ensures value == View(overlay, base.exceptions, Rule(base.prefix), idx)
    {
      queryCount := queryCount + 1;
      if idx in overlay {
        return overlay[idx];
      }
      if idx in base.exceptions {
        return base.exceptions[idx];
      }
      return RuleRecord(base.prefix, idx);
    }

    method AppendPatch(sha256: string -> string, idx: int, record: string) returns (event: Event)
      requires Valid()
      modifies this`patchLog, this`overlay, this`queryCount
      ensures queryCount == old(queryCount) + 1
      ensures Valid()
      ensures patchLog == old(patchLog) + [event] && event.idx == idx && event.after == record
      ensures overlay == old(overlay)[idx := record]
      ensures old(Honest(sha256, base.prefix, base.exceptions, patchLog)) ==>
        Honest(sha256, base.prefix, base.exceptions, patchLog)
    {
      hide LastWriter, Writes, View;
      var before := Query(idx);
      event := Event(|patchLog|, idx, sha256(before), record);
      ghost var log := patchLog;
      WritesSnoc(log, event);
      LastWriterSnoc(Writes(log), Write(idx, record));
      patchLog := patchLog + [event];
      overlay := overlay[idx := record];
      if Honest(sha256, base.prefix, base.exceptions, log) {
        HonestSnoc(sha256, base.prefix, base.exceptions, log, event);
      }
    }

    method RebuildBytes() returns (text: string)
      modifies this`rebuildCount
      ensures rebuildCount == old(rebuildCount) + 1
      ensures text == Text(overlay, base.exceptions, base.prefix, base.count)
    {
      rebuildCount := rebuildCount + 1;
      text := Rebuild(overlay, base.exceptions, base.prefix, base.count);
    }

    method MakeRollbackBundle() returns (b: RollbackBundle)
      ensures b.count == base.count && b.prefix == base.prefix && b.log == patchLog
      ensures IncreasingCells(b.baseExceptions) && LastWriter(b.baseExceptions) == base.exceptions
    {
      var items := SortedItems(base.exceptions);
      return RollbackBundle(base.count, base.prefix, items, patchLog);
    }

    static method FromRollbackBundle(b: RollbackBundle) returns (r: Result<PrefixPatchChain, BundleError>)
      ensures r.Ok? <==> Contiguous(b.log)
      ensures r.Ok? ==>
        && fresh(r.value) && fresh(r.value.base) && r.value.Valid()
        && r.value.base.count == b.count && r.value.base.prefix == b.prefix
        && r.value.base.exceptions == LastWriter(b.baseExceptions) && r.value.base.patches == map[]
        && r.value.patchLog == b.log && r.value.overlay == LastWriter(Writes(b.log))
    {
      hide LastWriter, Writes;
      var exceptions := Collect(b.baseExceptions);
      var base := new PrefixFamilyG1G2DeltaModel(b.count, b.prefix, exceptions, map[]);
      var chain := new PrefixPatchChain(base);
      for i := 0 to |b.log|
        invariant chain.base == base && base.exceptions == exceptions && base.patches == map[]
        invariant chain.patchLog == b.log[..i] && chain.Valid()
      {
        var event := b.log[i];
        if event.number != |chain.patchLog| {
          return Err(NonContiguous);
        }
        WritesSnoc(chain.patchLog, event);
        LastWriterSnoc(Writes(chain.patchLog), Write(event.idx, event.after));
        assert b.log[..i + 1] == b.log[..i] + [event];
        chain.patchLog := chain.patchLog + [event];
        chain.overlay := chain.overlay[event.idx := event.after];
      }
      assert b.log[..|b.log|] == b.log;
      return Ok(chain);
    }

    method Compact() returns (compacted: PrefixFamilyG1G2DeltaModel, receipt: Receipt)
      ensures fresh(compacted) && compacted.count == base.count && compacted.prefix == base.prefix && compacted.patches == map[]
      ensures compacted.exceptions == Compacted(overlay, base.exceptions, Rule(base.prefix))
      ensures receipt.eventsBefore == |patchLog| && receipt.overlayBefore == |overlay|
      ensures receipt.exceptionsBefore == |base.exceptions| && receipt.exceptionsAfter == |compacted.exceptions|
      ensures receipt.exceptionsAfter + receipt.reverted == |Candidates(overlay, base.exceptions)|
    {
      hide Candidates, Compacted;
      var after, reverted := CompactExceptions(base.prefix, overlay, base.exceptions);
      compacted := new PrefixFamilyG1G2DeltaModel(base.count, base.prefix, after, map[]);
      receipt := Receipt(|patchLog|, |overlay|, |base.exceptions|, |after|, reverted);
    }
  }

  /** Exporting a rollback bundle and reading it back restores base, log and overlay. */
  method RollbackRestores(chain: PrefixPatchChain) returns (restored: PrefixPatchChain)
    requires chain.Valid()
    ensures fresh(restored) && restored.Valid()
    ensures restored.base.count == chain.base.count && restored.base.prefix == chain.base.prefix
    ensures restored.base.exceptions == chain.base.exceptions
    ensures restored.patchLog == chain.patchLog && restored.overlay == chain.overlay
  {
    var bundle := chain.MakeRollbackBundle();
    var r := PrefixPatchChain.FromRollbackBundle(bundle);
    restored := r.value;
  }
}
