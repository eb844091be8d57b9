/** The matrix model of g1g2_delta_patch.py: an n-by-n bit matrix given by a rule, exceptions
    and patches, and the bitmap it rebuilds. */
module MatrixDelta {
  import opened Common
  import opened Layers
  import opened Bits

  datatype Source = G1Rule | G2Exception | G4Patch

  function LowBits(x: int): bv8 {
    (x % 8) as bv8
  }

  // The rule reads the low three bits of a mix of row and column, which the low three bits of
  // each operand decide.
  function RuleValue(row: int, col: int): (v: int)
    ensures v == 0 || v == 1
  {
    var mixed := LowBits(row * 1315423911) ^ LowBits(col * 2654435761) ^ LowBits(row + col);
    if mixed == 0 || mixed == 3 then 1 else 0
  }

  function Key(n: nat, row: int, col: int): int {
    row * n + col
  }

  // The rule as a function of the key, for the cell divmod(key, n) names.
  function Rule(n: nat): int -> int {
    k => if n == 0 then 0 else RuleValue(k / n, k % n)
  }

  // What a query of (row, col) shows: keyed layers over the rule at that row and column.
  function Shown(n: nat, patches: map<int, int>, exceptions: map<int, int>, row: int, col: int): int {
    View(patches, exceptions, _ => RuleValue(row, col), Key(n, row, col))
  }

  lemma Quotient(n: nat, q: int, r: int, q': int, r': int)
    requires 0 <= r < n && 0 <= r' < n && n * q + r == n * q' + r'
    ensures q == q' && r == r'
  {
    var d := q - q';
    assert n * d == n * q - n * q';
    assert d >= 1 ==> n * d >= n;
    assert d <= -1 ==> n * d + n <= 0;
  }

  lemma KeyNames(n: nat, row: int, col: int)
    requires 0 <= col < n
    ensures Key(n, row, col) / n == row && Key(n, row, col) % n == col
  {
    var k := Key(n, row, col);
    assert k == n * (k / n) + k % n;
    Quotient(n, k / n, k % n, row, col);
  }

  /** Inside the columns a query shows the view of its key, and keys name cells one to one. */
  lemma ShownIsView(n: nat, patches: map<int, int>, exceptions: map<int, int>, row: int, col: int)
    requires 0 <= col < n
    ensures Shown(n, patches, exceptions, row, col) == View(patches, exceptions, Rule(n), Key(n, row, col))
  {
    KeyNames(n, row, col);
  }

  lemma KeyInside(n: nat, row: nat, col: nat)
    requires row < n && col < n
    ensures 0 <= Key(n, row, col) < n * n
  {
    assert row * n <= (n - 1) * n;
    assert (n - 1) * n == n * n - n;
    assert row * n >= 0;
  }

  // ----- the rebuilt bitmap -----

  function BitmapBytes(n: nat): (len: nat)
    ensures n * n <= 8 * len < n * n + 8
  {
    (n * n + 7) / 8
  }

  // Bit k is set iff the view of cell k is not zero; the padding is zero.
  ghost predicate Bitmap(buf: seq<bv8>, n: nat, patches: map<int, int>, exceptions: map<int, int>) {
    && |buf| == BitmapBytes(n)
    && forall k: nat | k < 8 * |buf| :: BitGet(buf, k) == CellBit(n, patches, exceptions, k)
  }

  function CellBit(n: nat, patches: map<int, int>, exceptions: map<int, int>, k: int): int {
    if k < n * n && View(patches, exceptions, Rule(n), k) != 0 then 1 else 0
  }

  /** Models that show the same cells rebuild the same bytes. */
  lemma BitmapsAgree(a: seq<bv8>, pa: map<int, int>, ea: map<int, int>, b: seq<bv8>, pb: map<int, int>, eb: map<int, int>, n: nat)
    requires Bitmap(a, n, pa, ea) && Bitmap(b, n, pb, eb)
    requires forall k: nat | k < n * n :: View(pa, ea, Rule(n), k) == View(pb, eb, Rule(n), k)
    ensures a == b
  {
    hide BitGet, View, Rule;
    BitsDecideBytes(a, b);
  }

  // The bits that byte `at` of the bitmap stands for, cell 8*at + j counting 2^j.
  function CellSum(n: nat, patches: map<int, int>, exceptions: map<int, int>, at: nat, j: nat): int {
    if j == 0 then 0
    else CellSum(n, patches, exceptions, at, j - 1) + Pow2(j - 1) * CellBit(n, patches, exceptions, 8 * at + j - 1)
  }

  lemma {:induction false} CellSumIs(buf: seq<bv8>, n: nat, patches: map<int, int>, exceptions: map<int, int>, at: nat, j: nat)
    requires Bitmap(buf, n, patches, exceptions) && at < |buf| && j <= 8
    ensures CellSum(n, patches, exceptions, at, j) == BitSum(buf, at, j)
    decreases j
  {
    hide BitGet, CellBit;
    if j > 0 { CellSumIs(buf, n, patches, exceptions, at, j - 1); }
  }

  /** The bytes of a rebuilt bitmap: as many as hold n*n bits, each the sum of its cells. */
  lemma BitmapBytesAre(buf: seq<bv8>, n: nat, patches: map<int, int>, exceptions: map<int, int>, at: nat)
    requires Bitmap(buf, n, patches, exceptions) && at < |buf|
    ensures |buf| == (n * n + 7) / 8
    ensures buf[at] as int == CellSum(n, patches, exceptions, at, 8)
  {
    hide BitGet, CellBit;
    CellSumIs(buf, n, patches, exceptions, at, 8);
    ByteIsSum(buf, at);
  }

  class MatrixG1G2DeltaModel {
    const n: nat
    var exceptions: map<int, int>
    var patches: map<int, int>
    var rebuildCount: nat
    var queryCount: nat

    constructor (n: nat, exceptions: map<int, int>, patches: map<int, int>)
      ensures this.n == n && this.exceptions == exceptions && this.patches == patches
      ensures rebuildCount == 0 && queryCount == 0
    {
      this.n, this.exceptions, this.patches, rebuildCount, queryCount := n, exceptions, patches, 0, 0;
    }

    method Query(row: int, col: int) returns (value: int, layer: Source)
      modifies this`queryCount
      ensures value == Shown(n, patches, exceptions, row, col)
      ensures layer.G4Patch? <==> Key(n, row, col) in patches
      ensures layer.G1Rule? <==> Key(n, row, col) !in patches && Key(n, row, col) !in exceptions
      ensures queryCount == old(queryCount) + 1
    {
      queryCount := queryCount + 1;
      var k := Key(n, row, col);
      if k in patches {
        return patches[k], G4Patch;
      }
      if k in exceptions {
        return exceptions[k], G2Exception;
      }
      return RuleValue(row, col), G1Rule;
    }

    // Patches hold one bit of the value given.
    method ApplyPatch(row: int, col: int, value: int) returns (before: int, after: int)
      modifies this`patches, this`queryCount
      ensures patches == old(patches)[Key(n, row, col) := value % 2]
      ensures before == Shown(n, old(patches), exceptions, row, col)
      ensures after == Shown(n, patches, exceptions, row, col) == value % 2
    {
      var k := Key(n, row, col);
      var layer;
      before, layer := Query(row, col);
      patches := patches[k := value % 2];
      after := patches[k];
    }

    method RebuildBytes() returns (bytes: seq<bv8>)
      modifies this`rebuildCount
      ensures Bitmap(bytes, n, patches, exceptions)
      ensures rebuildCount == old(rebuildCount) + 1
    {
      rebuildCount := rebuildCount + 1;
      bytes := Rebuild(n, patches, exceptions);
    }
  }

  // Cells below done show their bit; nothing else is set yet.
  ghost predicate Filled(buf: seq<bv8>, n: nat, patches: map<int, int>, exceptions: map<int, int>, done: int) {
    forall k: nat | k < 8 * |buf| :: BitGet(buf, k) == if k < done then CellBit(n, patches, exceptions, k) else 0
  }

  lemma ZerosFilled(buf: seq<bv8>, n: nat, patches: map<int, int>, exceptions: map<int, int>)
    requires forall i | 0 <= i < |buf| :: buf[i] == 0
    ensures Filled(buf, n, patches, exceptions, 0)
  {
    forall k: nat | k < 8 * |buf| ensures BitGet(buf, k) == 0 { ZeroBits(k % 8); }
  }

  lemma FilledNext(before: seq<bv8>, after: seq<bv8>, n: nat, patches: map<int, int>, exceptions: map<int, int>, k: nat)
    requires Filled(before, n, patches, exceptions, k) && k < n * n && k < 8 * |before| && |after| == |before|
    requires forall j: nat | j < 8 * |after| ::
      BitGet(after, j) == if j == k && View(patches, exceptions, Rule(n), k) != 0 then 1 else BitGet(before, j)
    ensures Filled(after, n, patches, exceptions, k + 1)
  {
    hide BitGet, View, Rule;
  }

  // The key of a cell, the value shown there, and the key of the next cell.
  lemma CellIs(n: nat, patches: map<int, int>, exceptions: map<int, int>, row: nat, col: nat)
    requires row < n && col < n
    ensures var k := row * n + col;
      && k == Key(n, row, col) && 0 <= k < n * n && Key(n, row, col + 1) == k + 1
      && View(patches, exceptions, Rule(n), k) ==
           if k in patches then patches[k] else if k in exceptions then exceptions[k] else RuleValue(row, col)
  {
    hide RuleValue;
    KeyInside(n, row, col);
    ShownIsView(n, patches, exceptions, row, col);
  }

  lemma RowIs(n: nat, row: nat)
    ensures Key(n, 0, 0) == 0 && Key(n, row, n) == Key(n, row + 1, 0)
  {
  }

  /** The double loop over rows and columns that both the model and the chain run. */
  method Rebuild(n: nat, patches: map<int, int>, exceptions: map<int, int>) returns (bytes: seq<bv8>)
    ensures Bitmap(bytes, n, patches, exceptions)
  {
    hide BitGet, Rule, CellBit, Filled, Key, View, RuleValue;
    var out := new bv8[BitmapBytes(n)](i => 0);
    ZerosFilled(out[..], n, patches, exceptions);
    RowIs(n, 0);
    for row := 0 to n
      invariant Filled(out[..], n, patches, exceptions, Key(n, row, 0))
    {
      var base := row * n;
      for col := 0 to n
        invariant Filled(out[..], n, patches, exceptions, Key(n, row, col))
      {
        var k := base + col;
        CellIs(n, patches, exceptions, row, col);
        var v := if k in patches then patches[k] else if k in exceptions then exceptions[k] else RuleValue(row, col);
        ghost var before := out[..];
        if v != 0 {
          BitSet(out, k, 1);
        }
        FilledNext(before, out[..], n, patches, exceptions, k);
      }
      RowIs(n, row);
    }
    bytes := out[..];
    FilledIsBitmap(bytes, n, patches, exceptions);
  }

  lemma FilledIsBitmap(buf: seq<bv8>, n: nat, patches: map<int, int>, exceptions: map<int, int>)
    requires |buf| == BitmapBytes(n) && Filled(buf, n, patches, exceptions, Key(n, n, 0))
    ensures Bitmap(buf, n, patches, exceptions)
  {
    hide BitGet, View, Rule;
    assert Key(n, n, 0) == n * n;
  }

  // ----- patching the bitmap in place -----

  // One bit of every value written.
  ghost predicate OneBit(ws: seq<Write<int>>) {
    forall i | 0 <= i < |ws| :: ws[i].value == 0 || ws[i].value == 1
  }

  // A negative bit index counts from the end of the buffer.
  function Place(k: int, bits: nat): int {
    if k < 0 then k + bits else k
  }

  /** Bit -1 is the last of the buffer and bit -bits the first. */
  lemma PlaceFromEnd(j: int, bits: nat)
    requires 0 < j <= bits
    ensures 0 <= Place(-j, bits) < bits && Place(-j, bits) + j == bits && Place(bits - j, bits) == Place(-j, bits)
  {
  }

  function Placed(ws: seq<Write<int>>, bits: nat): seq<Write<int>> {
    seq(|ws|, i requires 0 <= i < |ws| => Write(Place(ws[i].cell, bits), ws[i].value))
  }

  lemma PlacedSnoc(ws: seq<Write<int>>, i: nat, bits: nat)
    requires i < |ws|
    ensures Placed(ws[..i + 1], bits) == Placed(ws[..i], bits) + [Write(Place(ws[i].cell, bits), ws[i].value)]
  {
  }

  datatype IndexError = IndexError

  /** direct_apply_to_original: sets each patched bit in turn. It fails exactly when an index is
      out of range on either side; otherwise each bit holds the last value written to it. */
  method DirectApply(original: seq<bv8>, records: seq<Write<int>>) returns (r: Result<seq<bv8>, IndexError>)
    ensures r.Ok? <==> forall i | 0 <= i < |records| :: -8 * |original| <= records[i].cell < 8 * |original|
    ensures r.Ok? ==> |r.value| == |original|
    ensures r.Ok? ==> Overwritten(original, r.value, Placed(records, 8 * |original|))
  {
    hide BitGet, LastWriter, Placed;
    var out := new bv8[|original|](i requires 0 <= i < |original| => original[i]);
    var bits := 8 * |original|;
    assert out[..] == original;
    NoWrites();
    NonePlaced(records, bits);
    for i := 0 to |records|
      invariant forall j | 0 <= j < i :: -bits <= records[j].cell < bits
      invariant Overwritten(original, out[..], Placed(records[..i], bits))
    {
      if records[i].cell < -bits || records[i].cell >= bits {
        return Err(IndexError);
      }
      var k := Place(records[i].cell, bits);
      PlacedSnoc(records, i, bits);
      LastWriterSnoc(Placed(records[..i], bits), Write(k, records[i].value));
      BitSet(out, k, records[i].value);
    }
    assert records[..|records|] == records;
    return Ok(out[..]);
  }

  lemma NonePlaced(ws: seq<Write<int>>, bits: nat)
    ensures Placed(ws[..0], bits) == []
  {
  }

  // Bits named by a write hold the low bit of the last value written; the others are as before.
  ghost predicate Overwritten(before: seq<bv8>, after: seq<bv8>, ws: seq<Write<int>>) {
    && |after| == |before|
    && forall k: nat | k < 8 * |before| ::
      BitGet(after, k) == if k in LastWriter(ws) then LastWriter(ws)[k] % 2 else BitGet(before, k)
  }

  lemma NoWrites()
    ensures LastWriter<int>([]) == map[]
  {
  }

  lemma {:induction false} LastWriterBits(ws: seq<Write<int>>, k: int)
    requires OneBit(ws)
    ensures k in LastWriter(ws) ==> LastWriter(ws)[k] == 0 || LastWriter(ws)[k] == 1
  {
    if |ws| > 0 { LastWriterBits(ws[..|ws| - 1], k); }
  }

  lemma PlacedInside(ws: seq<Write<int>>, bits: nat)
    requires forall k | k in LastWriter(ws) :: 0 <= k
    ensures Placed(ws, bits) == ws
  {
    forall i | 0 <= i < |ws| ensures 0 <= ws[i].cell {
      LastWriterWins(ws, ws[i].cell);
    }
  }

  /** Patching the rebuilt bitmap bit by bit gives the bitmap of the patched model. */
  lemma DirectApplyIsPatch(original: seq<bv8>, bytes: seq<bv8>, n: nat, patches: map<int, int>, exceptions: map<int, int>,
                           records: seq<Write<int>>)
    requires Bitmap(original, n, patches, exceptions) && OneBit(records)
    requires forall k | k in LastWriter(records) :: 0 <= k < n * n
    requires Overwritten(original, bytes, Placed(records, 8 * |original|))
    ensures Bitmap(bytes, n, patches + LastWriter(records), exceptions)
  {
    PlacedInside(records, 8 * |original|);
    hide LastWriter, Placed, Bitmap;
    OverwrittenIsPatch(original, bytes, n, patches, exceptions, records);
  }

  lemma OverwrittenIsPatch(original: seq<bv8>, bytes: seq<bv8>, n: nat, patches: map<int, int>, exceptions: map<int, int>,
                           records: seq<Write<int>>)
    requires Bitmap(original, n, patches, exceptions) && OneBit(records)
    requires forall k | k in LastWriter(records) :: 0 <= k < n * n
    requires Overwritten(original, bytes, records)
    ensures Bitmap(bytes, n, patches + LastWriter(records), exceptions)
  {
    hide BitGet, LastWriter, Rule, OneBit, BitmapBytes;
    forall k: nat | k < 8 * |bytes|
      ensures BitGet(bytes, k) == CellBit(n, patches + LastWriter(records), exceptions, k)
    {
      LastWriterBits(records, k);
    }
  }
}
