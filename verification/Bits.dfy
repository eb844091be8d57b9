/** Bitmaps as g1g2_delta_patch.py keeps them: bit k is bit k%8 of byte k/8. */
module Bits {

  function Mask(i: nat): bv8
    requires i < 8
  {
    1 << i
  }

  function Bit(b: bv8, i: nat): bv8
    requires i < 8
  {
    (b >> i) & 1
  }

  function BitGet(buf: seq<bv8>, k: nat): (v: int)
    requires k < 8 * |buf|
    ensures v == 0 || v == 1
  {
    if Bit(buf[k / 8], k % 8) == 1 then 1 else 0
  }

  // The shift, case by case.
  function Pick(b: bv8, i: nat): bv8
    requires i < 8
  {
    match i
    case 0 => b & 1
    case 1 => (b >> 1) & 1
    case 2 => (b >> 2) & 1
    case 3 => (b >> 3) & 1
    case 4 => (b >> 4) & 1
    case 5 => (b >> 5) & 1
    case 6 => (b >> 6) & 1
    case _ => (b >> 7) & 1
  }

  function One(i: nat): bv8
    requires i < 8
  {
    match i
    case 0 => 1
    case 1 => 2
    case 2 => 4
    case 3 => 8
    case 4 => 16
    case 5 => 32
    case 6 => 64
    case _ => 128
  }

  lemma PickIs(b: bv8, i: nat)
    requires i < 8
    ensures Pick(b, i) == Bit(b, i) && One(i) == Mask(i)
  {
  }

  lemma PickAfterOr(b: bv8, i: nat, j: nat)
    requires i < 8 && j < 8
    ensures Pick(b | One(i), j) == if i == j then 1 else Pick(b, j)
  {
  }

  lemma PickAfterClear(b: bv8, i: nat, j: nat)
    requires i < 8 && j < 8
    ensures Pick(b & !One(i), j) == if i == j then 0 else Pick(b, j)
  {
  }

  /** Setting or clearing one bit of a byte leaves its other bits. */
  lemma OneBitChanges(b: bv8, i: nat, j: nat)
    requires i < 8 && j < 8
    ensures Bit(b | Mask(i), j) == if i == j then 1 else Bit(b, j)
    ensures Bit(b & !Mask(i), j) == if i == j then 0 else Bit(b, j)
  {
    hide *;
    PickIs(b | Mask(i), j);
    PickIs(b | Mask(i), i);
    PickIs(b & !Mask(i), j);
    PickIs(b, j);
    PickAfterOr(b, i, j);
    PickAfterClear(b, i, j);
  }

  lemma ZeroBits(i: nat)
    requires i < 8
    ensures Bit(0, i) == 0
  {
    PickIs(0, i);
  }

  lemma PickDecides(a: bv8, b: bv8)
    requires Pick(a, 0) == Pick(b, 0) && Pick(a, 1) == Pick(b, 1) && Pick(a, 2) == Pick(b, 2) && Pick(a, 3) == Pick(b, 3)
    requires Pick(a, 4) == Pick(b, 4) && Pick(a, 5) == Pick(b, 5) && Pick(a, 6) == Pick(b, 6) && Pick(a, 7) == Pick(b, 7)
    ensures a == b
  {
  }

  lemma BitIsZeroOrOne(b: bv8, i: nat)
    requires i < 8
    ensures Bit(b, i) == 0 || Bit(b, i) == 1
  {
    var p := b >> i;
    assert p & 1 == 0 || p & 1 == 1;
  }

  lemma SamePick(a: seq<bv8>, b: seq<bv8>, at: nat, i: nat)
    requires |a| == |b| && at < |a| && i < 8
    requires BitGet(a, 8 * at + i) == BitGet(b, 8 * at + i)
    ensures Pick(a[at], i) == Pick(b[at], i)
  {
    hide Bit, Pick;
    var k := 8 * at + i;
    assert k / 8 == at && k % 8 == i;
    BitIsZeroOrOne(a[at], i);
    BitIsZeroOrOne(b[at], i);
    PickIs(a[at], i);
    PickIs(b[at], i);
  }

  /** Bitmaps of one size that agree bit by bit are the same bytes. */
  lemma BitsDecideBytes(a: seq<bv8>, b: seq<bv8>)
    requires |a| == |b| && forall k: nat | k < 8 * |a| :: BitGet(a, k) == BitGet(b, k)
    ensures a == b
  {
    hide BitGet, Pick;
    forall at | 0 <= at < |a| ensures a[at] == b[at] {
      forall i: nat | i < 8 ensures Pick(a[at], i) == Pick(b[at], i) { SamePick(a, b, at, i); }
      PickDecides(a[at], b[at]);
    }
  }

  // ----- which bit is which -----

  function Pow2(i: nat): (p: nat)
    ensures 0 < p
  {
    if i == 0 then 1 else 2 * Pow2(i - 1)
  }

  // The value of the first i bits of byte `at`, bit j counting 2^j.
  function BitSum(buf: seq<bv8>, at: nat, i: nat): nat
    requires at < |buf| && i <= 8
  {
    if i == 0 then 0 else BitSum(buf, at, i - 1) + Pow2(i - 1) * BitGet(buf, 8 * at + i - 1)
  }

  /** A byte is the sum of its bits: bit 8*at + j of the bitmap counts 2^j in byte `at`. */
  lemma ByteIsSum(buf: seq<bv8>, at: nat)
    requires at < |buf|
    ensures buf[at] as int == BitSum(buf, at, 8)
  {
    hide BitGet, Pick, BitSum, Value, Bit;
    var b := buf[at];
    ValueIs(b);
    PickOf(buf, at, 0);
    PickOf(buf, at, 1);
    PickOf(buf, at, 2);
    PickOf(buf, at, 3);
    PickOf(buf, at, 4);
    PickOf(buf, at, 5);
    PickOf(buf, at, 6);
    PickOf(buf, at, 7);
    SumOfPicks(b);
    Eight(buf, at);
  }

  lemma ValueIs(b: bv8)
    ensures Value(b) == b as int
  {
  }

  lemma PickOf(buf: seq<bv8>, at: nat, j: nat)
    requires at < |buf| && j < 8
    ensures BitGet(buf, 8 * at + j) == Value(Pick(buf[at], j))
  {
    assert Value(0) == 0 && Value(1) == 1;
    hide Bit, Pick, Value;
    var k := 8 * at + j;
    assert k / 8 == at && k % 8 == j;
    BitIsZeroOrOne(buf[at], j);
    PickIs(buf[at], j);
  }

  lemma Halve(b: bv8)
    ensures b as int == 2 * ((b >> 1) as int) + (b & 1) as int
  {
  }

  lemma ShiftOn(b: bv8)
    ensures (b >> 1) >> 1 == b >> 2 && (b >> 2) >> 1 == b >> 3 && (b >> 3) >> 1 == b >> 4 && (b >> 4) >> 1 == b >> 5
    ensures (b >> 5) >> 1 == b >> 6 && (b >> 6) >> 1 == b >> 7 && (b >> 7) >> 1 == 0
  {
  }

  function Value(b: bv8): int {
    b as int
  }

  lemma HalveValue(b: bv8)
    ensures Value(b) == 2 * Value(b >> 1) + Value(b & 1)
  {
    Halve(b);
  }

  lemma LowPicks(b: bv8)
    ensures Value(b) == Value(Pick(b, 0)) + 2 * Value(Pick(b, 1)) + 4 * Value(Pick(b, 2)) + 8 * Value(Pick(b, 3))
      + 16 * Value(b >> 4)
  {
    ShiftOn(b);
    hide Value;
    HalveValue(b);
    HalveValue(b >> 1);
    HalveValue(b >> 2);
    HalveValue(b >> 3);
  }

  lemma HighPicks(b: bv8)
    ensures Value(b >> 4) == Value(Pick(b, 4)) + 2 * Value(Pick(b, 5)) + 4 * Value(Pick(b, 6)) + 8 * Value(Pick(b, 7))
  {
    ShiftOn(b);
    assert Value(0) == 0;
    hide Value;
    HalveValue(b >> 4);
    HalveValue(b >> 5);
    HalveValue(b >> 6);
    HalveValue(b >> 7);
  }

  lemma SumOfPicks(b: bv8)
    ensures Value(b) == Value(Pick(b, 0)) + 2 * Value(Pick(b, 1)) + 4 * Value(Pick(b, 2)) + 8 * Value(Pick(b, 3))
      + 16 * Value(Pick(b, 4)) + 32 * Value(Pick(b, 5)) + 64 * Value(Pick(b, 6)) + 128 * Value(Pick(b, 7))
  {
    hide Value, Pick;
    LowPicks(b);
    HighPicks(b);
  }

  lemma Powers()
    ensures Pow2(0) == 1 && Pow2(1) == 2 && Pow2(2) == 4 && Pow2(3) == 8
    ensures Pow2(4) == 16 && Pow2(5) == 32 && Pow2(6) == 64 && Pow2(7) == 128
  {
    assert Pow2(3) == 8;
    assert Pow2(5) == 32;
  }

  lemma SumStep(buf: seq<bv8>, at: nat, i: nat)
    requires at < |buf| && 0 < i <= 8
    ensures BitSum(buf, at, i) == BitSum(buf, at, i - 1) + Pow2(i - 1) * BitGet(buf, 8 * at + i - 1)
  {
  }

  lemma Eight(buf: seq<bv8>, at: nat)
    requires at < |buf|
    ensures BitSum(buf, at, 8) == BitGet(buf, 8 * at) + 2 * BitGet(buf, 8 * at + 1) + 4 * BitGet(buf, 8 * at + 2)
      + 8 * BitGet(buf, 8 * at + 3) + 16 * BitGet(buf, 8 * at + 4) + 32 * BitGet(buf, 8 * at + 5)
      + 64 * BitGet(buf, 8 * at + 6) + 128 * BitGet(buf, 8 * at + 7)
  {
    assert BitSum(buf, at, 0) == 0;
    Powers();
    hide BitGet, BitSum, Pow2;
    SumStep(buf, at, 1);
    SumStep(buf, at, 2);
    SumStep(buf, at, 3);
    SumStep(buf, at, 4);
    SumStep(buf, at, 5);
    SumStep(buf, at, 6);
    SumStep(buf, at, 7);
    SumStep(buf, at, 8);
  }

  lemma SamePlace(j: nat, k: nat)
    ensures j == k <==> (j / 8 == k / 8 && j % 8 == k % 8)
  {
  }

  // The byte with bit i set to the low bit of v.
  function Put(b: bv8, i: nat, v: int): bv8
    requires i < 8
  {
    if v % 2 == 1 then b | Mask(i) else b & !Mask(i)
  }

  lemma PutBit(b: bv8, i: nat, v: int, j: nat)
    requires i < 8 && j < 8
    ensures Bit(Put(b, i, v), j) == if i == j then (if v % 2 == 1 then 1 else 0) else Bit(b, j)
  {
    hide Bit, Mask;
    OneBitChanges(b, i, j);
  }

  lemma ByteWrite(before: seq<bv8>, after: seq<bv8>, k: nat, v: int, j: nat)
    requires k < 8 * |before| && j < 8 * |before|
    requires after == before[k / 8 := Put(before[k / 8], k % 8, v)]
    ensures BitGet(after, j) == if j == k then v % 2 else BitGet(before, j)
  {
    hide Bit, Put;
    PutBit(before[k / 8], k % 8, v, j % 8);
    SamePlace(j, k);
  }

  /** bit_set: only the low bit of the value counts, and only bit k changes. */
  method BitSet(buf: array<bv8>, k: nat, value: int)
    requires k < 8 * buf.Length
    modifies buf
    ensures forall j: nat | j < 8 * buf.Length ::
      BitGet(buf[..], j) == if j == k then value % 2 else BitGet(old(buf[..]), j)
  {
    hide BitGet, Bit, Mask;
    ghost var before := buf[..];
    var byteAt, bitAt := k / 8, k % 8;
    if value % 2 == 1 {
      buf[byteAt] := buf[byteAt] | Mask(bitAt);
    } else {
      buf[byteAt] := buf[byteAt] & !Mask(bitAt);
    }
    forall j: nat | j < 8 * buf.Length ensures BitGet(buf[..], j) == if j == k then value % 2 else BitGet(before, j) {
      ByteWrite(before, buf[..], k, value, j);
    }
  }
}
