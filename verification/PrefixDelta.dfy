/** The prefix-record model of g1g2_delta_patch.py: a family of text records given by a template,
    exceptions and patches. */
module PrefixDelta {
  import opened Layers

  function Decimal(n: nat): string {
    if n < 10 then [Digit(n)] else Decimal(n / 10) + [Digit(n % 10)]
  }

  function Digit(d: nat): char
    requires d < 10
  {
    "0123456789"[d]
  }

  function Zeros(n: int): string {
    if n <= 0 then "" else "0" + Zeros(n - 1)
  }

  // A decimal number zero-padded to a width, its sign counted in the width.
  function Padded(i: int, width: nat): string {
    if i < 0 then "-" + Zeros(width - 1 - |Decimal(-i)|) + Decimal(-i)
    else Zeros(width - |Decimal(i)|) + Decimal(i)
  }

  function RuleRecord(prefix: string, idx: int): string {
    prefix + Padded(idx, 10) + "|TYPE=A|STATUS=OK|VALUE=" + Padded(idx % 97, 2) + "\n"
  }

  function Rule(prefix: string): int -> string {
    idx => RuleRecord(prefix, idx)
  }

  // The records shown for the first `count` indices, one after another.
  function Text(patches: map<int, string>, exceptions: map<int, string>, prefix: string, count: nat): string {
    if count == 0 then ""
    else Text(patches, exceptions, prefix, count - 1) + View(patches, exceptions, Rule(prefix), count - 1)
  }

  lemma {:induction false} TextAgrees(p1: map<int, string>, e1: map<int, string>, p2: map<int, string>, e2: map<int, string>,
                                      prefix: string, count: nat)
    requires forall k: nat | k < count :: View(p1, e1, Rule(prefix), k) == View(p2, e2, Rule(prefix), k)
    ensures Text(p1, e1, prefix, count) == Text(p2, e2, prefix, count)
  {
    hide Rule, View;
    if count > 0 { TextAgrees(p1, e1, p2, e2, prefix, count - 1); }
  }

  function Joined(parts: seq<string>): string {
    if |parts| == 0 then "" else Joined(parts[..|parts| - 1]) + parts[|parts| - 1]
  }

  lemma JoinedSnoc(parts: seq<string>, p: string)
    ensures Joined(parts + [p]) == Joined(parts) + p
  {
    assert (parts + [p])[..|parts|] == parts;
  }

  /** The rebuild loop that both the model and the chain run. */
  method Rebuild(patches: map<int, string>, exceptions: map<int, string>, prefix: string, count: nat) returns (text: string)
    ensures text == Text(patches, exceptions, prefix, count)
  {
    hide RuleRecord;
    var parts: seq<string> := [];
    for idx := 0 to count
      invariant Joined(parts) == Text(patches, exceptions, prefix, idx)
    {
      var part := if idx in patches then patches[idx] else if idx in exceptions then exceptions[idx] else RuleRecord(prefix, idx);
      JoinedSnoc(parts, part);
      parts := parts + [part];
    }
    return Joined(parts);
  }

  class PrefixFamilyG1G2DeltaModel {
    const count: nat
    const prefix: string
    var exceptions: map<int, string>
    var patches: map<int, string>
    var rebuildCount: nat
    var queryCount: nat

    constructor (count: nat, prefix: string, exceptions: map<int, string>, patches: map<int, string>)
      ensures this.count == count && this.prefix == prefix && this.exceptions == exceptions && this.patches == patches
      ensures rebuildCount == 0 && queryCount == 0
    {
      this.count, this.prefix, this.exceptions, this.patches := count, prefix, exceptions, patches;
      rebuildCount, queryCount := 0, 0;
    }

    method Query(idx: int) returns (value: string)
      modifies this`queryCount
      ensures value == View(patches, exceptions, Rule(prefix), idx)
      ensures queryCount == old(queryCount) + 1
    {
      queryCount := queryCount + 1;
      if idx in patches {
        return patches[idx];
      }
      if idx in exceptions {
        return exceptions[idx];
      }
      return RuleRecord(prefix, idx);
    }

    method ApplyPatch(idx: int, record: string) returns (before: string)
      modifies this`patches, this`queryCount
      ensures patches == old(patches)[idx := record]
      ensures before == View(old(patches), exceptions, Rule(prefix), idx)
    {
      before := Query(idx);
      patches := patches[idx := record];
    }

    method RebuildBytes() returns (text: string)
      modifies this`rebuildCount
      ensures text == Text(patches, exceptions, prefix, count)
      ensures rebuildCount == old(rebuildCount) + 1
    {
      rebuildCount := rebuildCount + 1;
      text := Rebuild(patches, exceptions, prefix, count);
    }
  }
}
