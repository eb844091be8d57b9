/** Hot patch bundles of g1g2_hot_patch_xfer.py: export, apply, invert, for matrices and for
    prefix families. Digests are parameters; bundles are values in place of their JSON text. */
module HotPatch {
  import opened Common
  import opened Layers
  import opened HotPatchCore
  import M = MatrixDelta
  import P = PrefixDelta

  const FORMAT := "UBDB_G1G2_HOT_PATCH_XFER_V00J7"

  datatype MatrixOp = MatrixOp(number: int, row: int, col: int, key: int, before: int, after: int)

  datatype PrefixOp = PrefixOp(number: int, idx: int, beforeDigest: string, before: string, after: string)

  datatype Content =
    | MatrixContent(n: nat, baseState: string, targetState: string, matrixOps: seq<MatrixOp>)
    | PrefixContent(count: nat, prefix: string, baseState: string, targetState: string, prefixOps: seq<PrefixOp>)

  datatype Envelope = Envelope(format: string, content: Content, contentDigest: string, provenance: string)

  // The digests: of a rebuilt bitmap, of a text, of a bundle's content.
  datatype Env = Env(bitmap: seq<bv8> -> string, text: string -> string, content: Content -> string)

  datatype Error =
    BadFormat | DigestMismatch | NoOperations | NonContiguous
    | WrongKind | IdentityMismatch | StateMismatch | OutOfBounds | KeyMismatch | BeforeMismatch

  datatype Receipt = Receipt(operations: nat, contentDigest: string, baseState: string, targetState: string, rebuilds: int)

  predicate Numbered(c: Content) {
    match c
    case MatrixContent(_, _, _, ops) => forall i | 0 <= i < |ops| :: ops[i].number == i
    case PrefixContent(_, _, _, _, ops) => forall i | 0 <= i < |ops| :: ops[i].number == i
  }

  function Size(c: Content): nat {
    match c
    case MatrixContent(_, _, _, ops) => |ops|
    case PrefixContent(_, _, _, _, ops) => |ops|
  }

  function Sealed(env: Env, c: Content, provenance: string): Envelope {
    Envelope(FORMAT, c, env.content(c), provenance)
  }

  function ParseBundle(env: Env, b: Envelope): Result<Content, Error> {
    if b.format != FORMAT then Err(BadFormat)
    else if b.contentDigest != env.content(b.content) then Err(DigestMismatch)
    else if Size(b.content) == 0 then Err(NoOperations)
    else if !Numbered(b.content) then Err(NonContiguous)
    else Ok(b.content)
  }

  /** What a seal is worth: sealed content parses exactly when its operations are numbered and
      there is one; without any, it is refused as having none. */
  lemma SealedParsesIff(env: Env, c: Content, provenance: string)
    ensures ParseBundle(env, Sealed(env, c, provenance)).Ok? <==> Size(c) > 0 && Numbered(c)
    ensures ParseBundle(env, Sealed(env, c, provenance)) ==
      if Size(c) == 0 then Err(NoOperations) else if Numbered(c) then Ok(c) else Err(NonContiguous)
  {
  }

  // ----- matrix operations -----

  predicate Inside(n: nat, row: int, col: int) {
    0 <= row < n && 0 <= col < n
  }

  // A plan lists (row, column, value).
  type MatrixPlan = seq<(int, int, int)>

  ghost predicate PlanInside(n: nat, plan: MatrixPlan) {
    forall i | 0 <= i < |plan| :: 0 <= plan[i].0 < n && 0 <= plan[i].1 < n
  }

  function PlanWrites(n: nat, plan: MatrixPlan): seq<Write<int>> {
    seq(|plan|, i requires 0 <= i < |plan| => Write(M.Key(n, plan[i].0, plan[i].1), plan[i].2 % 2))
  }

  function LowBit(): int -> int {
    v => v % 2
  }

  function Project(ops: seq<MatrixOp>): seq<Op<int>> {
    seq(|ops|, i requires 0 <= i < |ops| => Op(ops[i].key, ops[i].before, ops[i].after))
  }

  ghost predicate Placed(n: nat, ops: seq<MatrixOp>) {
    forall i | 0 <= i < |ops| :: 0 <= ops[i].row < n && 0 <= ops[i].col < n && ops[i].key == M.Key(n, ops[i].row, ops[i].col)
  }

  // Applying operations to the patches of a model.
  function ApplyMatrix(n: nat, p: map<int, int>, e: map<int, int>, ops: seq<MatrixOp>): Result<map<int, int>, Error>
    decreases |ops|
  {
    if |ops| == 0 then Ok(p)
    else
      var op := ops[0];
      if !Inside(n, op.row, op.col) then Err(OutOfBounds)
      else if op.key != M.Key(n, op.row, op.col) then Err(KeyMismatch)
      else if M.Shown(n, p, e, op.row, op.col) != op.before then Err(BeforeMismatch)
      else ApplyMatrix(n, p[op.key := op.after % 2], e, ops[1..])
  }

  lemma ApplyMatrixStep(n: nat, p: map<int, int>, e: map<int, int>, ops: seq<MatrixOp>, i: nat)
    requires i < |ops|
    ensures var op := ops[i];
      ApplyMatrix(n, p, e, ops[i..]) ==
        if !Inside(n, op.row, op.col) then Err(OutOfBounds)
        else if op.key != M.Key(n, op.row, op.col) then Err(KeyMismatch)
        else if M.Shown(n, p, e, op.row, op.col) != op.before then Err(BeforeMismatch)
        else ApplyMatrix(n, p[op.key := op.after % 2], e, ops[i + 1..])
  {
    hide M.Shown, M.Key, Inside;
    assert ops[i..][1..] == ops[i + 1..];
  }

  /** Application succeeds iff every operation is in bounds under its own key and the optimistic
      replay goes through; it then stores what the replay stores. */
  lemma {:induction false} ApplyMatrixIsReplay(n: nat, p: map<int, int>, e: map<int, int>, ops: seq<MatrixOp>)
    ensures ApplyMatrix(n, p, e, ops).Ok? <==> (Placed(n, ops) && Replay(p, e, M.Rule(n), LowBit(), Project(ops)).Some?)
    ensures ApplyMatrix(n, p, e, ops).Ok? ==>
      Replay(p, e, M.Rule(n), LowBit(), Project(ops)) == Some(ApplyMatrix(n, p, e, ops).value)
    decreases |ops|
  {
    hide M.Shown, M.Key, M.Rule, View;
    if |ops| > 0 {
      var op := ops[0];
      assert Project(ops)[1..] == Project(ops[1..]);
      if Inside(n, op.row, op.col) && op.key == M.Key(n, op.row, op.col) {
        M.ShownIsView(n, p, e, op.row, op.col);
        ApplyMatrixIsReplay(n, p[op.key := op.after % 2], e, ops[1..]);
        PlacedCons(n, ops);
      }
    }
  }

  lemma PlacedCons(n: nat, ops: seq<MatrixOp>)
    requires |ops| > 0 && Inside(n, ops[0].row, ops[0].col) && ops[0].key == M.Key(n, ops[0].row, ops[0].col)
    ensures Placed(n, ops) <==> Placed(n, ops[1..])
  {
    hide M.Key;
    var rest := ops[1..];
    assert forall i :: 0 <= i < |rest| ==> rest[i] == ops[i + 1];
    assert Placed(n, rest) ==> forall i | 0 < i < |ops| :: ops[i] == rest[i - 1];
  }

  // What build_inverse_bundle writes: last first, renumbered, before and after exchanged.
  function InverseMatrix(ops: seq<MatrixOp>): seq<MatrixOp> {
    seq(|ops|, i requires 0 <= i < |ops| =>
      var raw := ops[|ops| - 1 - i];
      MatrixOp(i, raw.row, raw.col, raw.key, raw.after, raw.before))
  }

  lemma InverseMatrixProjects(ops: seq<MatrixOp>)
    ensures Project(InverseMatrix(ops)) == Undone(Project(ops))
  {
    var q := Project(ops);
    forall i | 0 <= i < |ops| ensures Project(InverseMatrix(ops))[i] == Undone(q)[i] {
      UndoneAt(q, i);
    }
  }

  lemma InverseMatrixPlaced(n: nat, ops: seq<MatrixOp>)
    requires Placed(n, ops)
    ensures Placed(n, InverseMatrix(ops))
  {
    hide M.Key, Inside;
  }

  // The operations an export records.
  ghost predicate ExportedMatrix(n: nat, p: map<int, int>, e: map<int, int>, plan: MatrixPlan, ops: seq<MatrixOp>) {
    && |ops| == |plan| && Placed(n, ops)
    && (forall i | 0 <= i < |ops| :: ops[i].number == i)
    && Project(ops) == Exported(p, e, M.Rule(n), PlanWrites(n, plan))
  }

  lemma PlanIsNormal(n: nat, plan: MatrixPlan)
    ensures Normal(LowBit(), PlanWrites(n, plan)) && Idempotent(LowBit())
  {
  }

  /** For any plan, repeated cells included: applying the exported operations to their base succeeds
      and reaches the plan's last writes; applying the inverse to that succeeds; and afterwards every
      touched cell shows the low bit of what it showed, every other cell what it showed. */
  lemma MatrixRoundTrip(n: nat, p: map<int, int>, e: map<int, int>, plan: MatrixPlan, ops: seq<MatrixOp>)
    requires ExportedMatrix(n, p, e, plan, ops)
    ensures var q := p + LastWriter(PlanWrites(n, plan));
      && ApplyMatrix(n, p, e, ops) == Ok(q)
      && ApplyMatrix(n, q, e, InverseMatrix(ops)).Ok?
      && Restored(p, ApplyMatrix(n, q, e, InverseMatrix(ops)).value, e, M.Rule(n), LowBit(), PlanWrites(n, plan))
  {
    hide M.Rule, View, Restored;
    var ws := PlanWrites(n, plan);
    var q := Target(p, ws);
    PlanIsNormal(n, plan);
    TargetIsLastWriter(p, ws);
    ReplayExported(p, e, M.Rule(n), LowBit(), ws);
    ApplyMatrixIsReplay(n, p, e, ops);
    UndoExported(p, e, M.Rule(n), LowBit(), ws);
    InverseMatrixProjects(ops);
    InverseMatrixPlaced(n, ops);
    ApplyMatrixIsReplay(n, q, e, InverseMatrix(ops));
  }

  /** The inverse restores the whole view iff every cell the plan names showed a bit. */
  lemma MatrixInverseRestoresIff(n: nat, p: map<int, int>, e: map<int, int>, plan: MatrixPlan, ops: seq<MatrixOp>)
    requires ExportedMatrix(n, p, e, plan, ops)
    ensures var q := p + LastWriter(PlanWrites(n, plan));
      var back := ApplyMatrix(n, q, e, InverseMatrix(ops));
      && back.Ok?
      && ((forall k :: View(back.value, e, M.Rule(n), k) == View(p, e, M.Rule(n), k)) <==>
          (forall k | Touched(PlanWrites(n, plan), k) :: View(p, e, M.Rule(n), k) == 0 || View(p, e, M.Rule(n), k) == 1))
  {
    hide M.Rule, View, Restored, ExportedMatrix, Touched;
    MatrixRoundTrip(n, p, e, plan, ops);
    var ws := PlanWrites(n, plan);
    var back := ApplyMatrix(n, p + LastWriter(ws), e, InverseMatrix(ops)).value;
    RestoredIff(p, back, e, M.Rule(n), LowBit(), ws);
    assert forall v: int :: LowBit()(v) == v <==> v == 0 || v == 1;
  }

  /** An exception holding 5 does not come back: the inverse stores 5 masked to 1. */
  lemma WideExceptionIsNotRestored(ops: seq<MatrixOp>)
    requires ExportedMatrix(1, map[], map[0 := 5], [(0, 0, 0)], ops)
    ensures View(map[], map[0 := 5], M.Rule(1), 0) == 5
    ensures var back := ApplyMatrix(1, LastWriter(PlanWrites(1, [(0, 0, 0)])), map[0 := 5], InverseMatrix(ops));
      back.Ok? && View(back.value, map[0 := 5], M.Rule(1), 0) == 1
  {
    WideView();
    hide M.Rule, ExportedMatrix, View, PlanWrites, ApplyMatrix, LastWriter, Touched;
    var ws := PlanWrites(1, [(0, 0, 0)]);
    MatrixRoundTrip(1, map[], map[0 := 5], [(0, 0, 0)], ops);
    assert map[] + LastWriter(ws) == LastWriter(ws);
    assert LowBit()(5) == 1;
  }

  lemma WideView()
    ensures View(map[], map[0 := 5], M.Rule(1), 0) == 5
    ensures Touched(PlanWrites(1, [(0, 0, 0)]), 0)
  {
    hide M.Rule;
    assert PlanWrites(1, [(0, 0, 0)])[0].cell == 0;
  }

  /** Inverting twice gives the same content back for every bundle that parses. */
  lemma InverseMatrixTwice(ops: seq<MatrixOp>)
    requires forall i | 0 <= i < |ops| :: ops[i].number == i
    ensures InverseMatrix(InverseMatrix(ops)) == ops
  {
  }

  // ----- prefix operations -----

  // A plan of (index, record) writes.
  ghost predicate PrefixPlanInside(count: nat, plan: seq<Write<string>>) {
    forall i | 0 <= i < |plan| :: 0 <= plan[i].cell < count
  }

  function Same(): string -> string {
    r => r
  }

  function ProjectPrefix(ops: seq<PrefixOp>): seq<Op<string>> {
    seq(|ops|, i requires 0 <= i < |ops| => Op(ops[i].idx, ops[i].before, ops[i].after))
  }

  ghost predicate PlacedPrefix(env: Env, count: nat, ops: seq<PrefixOp>) {
    forall i | 0 <= i < |ops| :: 0 <= ops[i].idx < count && ops[i].beforeDigest == env.text(ops[i].before)
  }

  function ApplyPrefix(env: Env, count: nat, prefix: string, p: map<int, string>, e: map<int, string>, ops: seq<PrefixOp>)
    : Result<map<int, string>, Error>
    decreases |ops|
  {
    if |ops| == 0 then Ok(p)
    else
      var op := ops[0];
      var current := View(p, e, P.Rule(prefix), op.idx);
      if !(0 <= op.idx < count) then Err(OutOfBounds)
      else if env.text(current) != op.beforeDigest then Err(BeforeMismatch)
      else if current != op.before then Err(BeforeMismatch)
      else ApplyPrefix(env, count, prefix, p[op.idx := op.after], e, ops[1..])
  }

  lemma ApplyPrefixStep(env: Env, count: nat, prefix: string, p: map<int, string>, e: map<int, string>, ops: seq<PrefixOp>, i: nat)
    requires i < |ops|
    ensures var op := ops[i]; var current := View(p, e, P.Rule(prefix), op.idx);
      ApplyPrefix(env, count, prefix, p, e, ops[i..]) ==
        if !(0 <= op.idx < count) then Err(OutOfBounds)
        else if env.text(current) != op.beforeDigest then Err(BeforeMismatch)
        else if current != op.before then Err(BeforeMismatch)
        else ApplyPrefix(env, count, prefix, p[op.idx := op.after], e, ops[i + 1..])
  {
    hide P.Rule, View;
    assert ops[i..][1..] == ops[i + 1..];
  }

  /** Application succeeds iff indices are in bounds, the digests are those of the expected records
      and the optimistic replay goes through. */
  lemma {:induction false} ApplyPrefixIsReplay(env: Env, count: nat, prefix: string, p: map<int, string>, e: map<int, string>,
                                               ops: seq<PrefixOp>)
    ensures ApplyPrefix(env, count, prefix, p, e, ops).Ok? <==>
      (PlacedPrefix(env, count, ops) && Replay(p, e, P.Rule(prefix), Same(), ProjectPrefix(ops)).Some?)
    ensures ApplyPrefix(env, count, prefix, p, e, ops).Ok? ==>
      Replay(p, e, P.Rule(prefix), Same(), ProjectPrefix(ops)) == Some(ApplyPrefix(env, count, prefix, p, e, ops).value)
    decreases |ops|
  {
    hide P.Rule, View;
    if |ops| > 0 {
      var op := ops[0];
      assert ProjectPrefix(ops)[1..] == ProjectPrefix(ops[1..]);
      ApplyPrefixIsReplay(env, count, prefix, p[op.idx := op.after], e, ops[1..]);
      PlacedPrefixCons(env, count, ops);
    }
  }

  lemma PlacedPrefixCons(env: Env, count: nat, ops: seq<PrefixOp>)
    requires |ops| > 0
    ensures PlacedPrefix(env, count, ops) <==>
      (0 <= ops[0].idx < count && ops[0].beforeDigest == env.text(ops[0].before) && PlacedPrefix(env, count, ops[1..]))
  {
    var rest := ops[1..];
    assert forall i :: 0 <= i < |rest| ==> rest[i] == ops[i + 1];
    assert PlacedPrefix(env, count, rest) ==> forall i | 0 < i < |ops| :: ops[i] == rest[i - 1];
  }

  function InversePrefix(env: Env, ops: seq<PrefixOp>): seq<PrefixOp> {
    seq(|ops|, i requires 0 <= i < |ops| =>
      var raw := ops[|ops| - 1 - i];
      PrefixOp(i, raw.idx, env.text(raw.after), raw.after, raw.before))
  }

  lemma InversePrefixProjects(env: Env, ops: seq<PrefixOp>)
    ensures ProjectPrefix(InversePrefix(env, ops)) == Undone(ProjectPrefix(ops))
  {
    var q := ProjectPrefix(ops);
    forall i | 0 <= i < |ops| ensures ProjectPrefix(InversePrefix(env, ops))[i] == Undone(q)[i] {
      UndoneAt(q, i);
    }
  }

  ghost predicate ExportedPrefix(env: Env, count: nat, prefix: string, p: map<int, string>, e: map<int, string>,
                                 plan: seq<Write<string>>, ops: seq<PrefixOp>) {
    && |ops| == |plan| && PlacedPrefix(env, count, ops)
    && (forall i | 0 <= i < |ops| :: ops[i].number == i)
    && ProjectPrefix(ops) == Exported(p, e, P.Rule(prefix), plan)
  }

  /** For prefix records the inverse always restores the original view, for any plan. */
  lemma PrefixRoundTrip(env: Env, count: nat, prefix: string, p: map<int, string>, e: map<int, string>,
                        plan: seq<Write<string>>, ops: seq<PrefixOp>)
    requires ExportedPrefix(env, count, prefix, p, e, plan, ops)
    ensures var q := p + LastWriter(plan);
      var back := ApplyPrefix(env, count, prefix, q, e, InversePrefix(env, ops));
      && ApplyPrefix(env, count, prefix, p, e, ops) == Ok(q)
      && back.Ok?
      && forall k :: View(back.value, e, P.Rule(prefix), k) == View(p, e, P.Rule(prefix), k)
  {
    hide P.Rule, View, Touched;
    var q := Target(p, plan);
    assert Normal(Same(), plan) && Idempotent(Same());
    TargetIsLastWriter(p, plan);
    ReplayExported(p, e, P.Rule(prefix), Same(), plan);
    ApplyPrefixIsReplay(env, count, prefix, p, e, ops);
    UndoExported(p, e, P.Rule(prefix), Same(), plan);
    InversePrefixProjects(env, ops);
    assert PlacedPrefix(env, count, InversePrefix(env, ops));
    ApplyPrefixIsReplay(env, count, prefix, q, e, InversePrefix(env, ops));
  }

  /** Inverting twice gives the same content back iff the digests were those of the expected records. */
  lemma InversePrefixTwice(env: Env, ops: seq<PrefixOp>)
    requires forall i | 0 <= i < |ops| :: ops[i].number == i
    ensures InversePrefix(env, InversePrefix(env, ops)) == ops <==>
      (forall i | 0 <= i < |ops| :: ops[i].beforeDigest == env.text(ops[i].before))
  {
    var twice := InversePrefix(env, InversePrefix(env, ops));
    assert forall i | 0 <= i < |ops| ::
      twice[i] == PrefixOp(i, ops[i].idx, env.text(ops[i].before), ops[i].before, ops[i].after);
    if twice == ops {
      assert forall i | 0 <= i < |ops| :: ops[i] == twice[i];
    }
  }

  // ----- bundles -----

  function InverseContent(env: Env, c: Content): Content {
    match c
    case MatrixContent(n, base, target, ops) => MatrixContent(n, target, base, InverseMatrix(ops))
    case PrefixContent(count, prefix, base, target, ops) => PrefixContent(count, prefix, target, base, InversePrefix(env, ops))
  }

  /** A rebuilt state's digest, whatever bytes its bitmap turns out to be. */
  ghost predicate StateDigest(env: Env, n: nat, p: map<int, int>, e: map<int, int>, digest: string) {
    forall bytes: seq<bv8> | M.Bitmap(bytes, n, p, e) :: digest == env.bitmap(bytes)
  }

  lemma DigestOf(env: Env, n: nat, p: map<int, int>, e: map<int, int>, bytes: seq<bv8>)
    requires M.Bitmap(bytes, n, p, e)
    ensures StateDigest(env, n, p, e, env.bitmap(bytes))
  {
    hide M.Bitmap;
    forall other: seq<bv8> | M.Bitmap(other, n, p, e) ensures other == bytes {
      M.BitmapsAgree(other, p, e, bytes, p, e, n);
    }
  }

  method CloneMatrix(model: M.MatrixG1G2DeltaModel) returns (c: M.MatrixG1G2DeltaModel)
    ensures fresh(c) && c.n == model.n && c.exceptions == model.exceptions && c.patches == model.patches && c.rebuildCount == 0
  {
    c := new M.MatrixG1G2DeltaModel(model.n, model.exceptions, model.patches);
  }

  // One more operation recorded: the plan's remainder starts at the next cell.
  lemma ExportStep(n: nat, p: map<int, int>, e: map<int, int>, plan: MatrixPlan, i: nat, ops: seq<MatrixOp>, op: MatrixOp)
    requires i < |plan| && Inside(n, plan[i].0, plan[i].1)
    requires var k := M.Key(n, plan[i].0, plan[i].1);
      op.key == k && op.before == M.Shown(n, p, e, plan[i].0, plan[i].1) && op.after == plan[i].2 % 2
    ensures var p' := p[op.key := op.after];
      Project(ops) + Exported(p, e, M.Rule(n), PlanWrites(n, plan[i..]))
        == Project(ops + [op]) + Exported(p', e, M.Rule(n), PlanWrites(n, plan[i + 1..]))
  {
    hide M.Rule, View, M.Key, M.Shown;
    M.ShownIsView(n, p, e, plan[i].0, plan[i].1);
    var ws := PlanWrites(n, plan[i..]);
    assert ws[0] == Write(op.key, op.after);
    assert ws[1..] == PlanWrites(n, plan[i + 1..]);
    assert Project(ops + [op]) == Project(ops) + [Op(op.key, op.before, op.after)];
  }

  lemma ExportDone(n: nat, p: map<int, int>, e: map<int, int>, plan: MatrixPlan, ops: seq<MatrixOp>)
    ensures Project(ops) + Exported(p, e, M.Rule(n), PlanWrites(n, plan[|plan|..])) == Project(ops)
    ensures Project([]) + Exported(p, e, M.Rule(n), PlanWrites(n, plan[0..])) == Exported(p, e, M.Rule(n), PlanWrites(n, plan))
  {
    hide M.Rule;
    assert plan[0..] == plan && plan[|plan|..] == [];
  }

  method ExportMatrixBundle(env: Env, model: M.MatrixG1G2DeltaModel, plan: MatrixPlan, provenance: string)
    returns (r: Result<Envelope, Error>)
    ensures r.Ok? <==> PlanInside(model.n, plan)
    ensures r.Err? ==> r.error == OutOfBounds
    ensures r.Ok? ==>
      var c := r.value.content;
      && r.value == Sealed(env, c, provenance) && c.MatrixContent? && c.n == model.n
      && ExportedMatrix(model.n, model.patches, model.exceptions, plan, c.matrixOps)
      && StateDigest(env, model.n, model.patches, model.exceptions, c.baseState)
      && StateDigest(env, model.n, model.patches + LastWriter(PlanWrites(model.n, plan)), model.exceptions, c.targetState)
      && ParseBundle(env, r.value) == (if |plan| > 0 then Ok(c) else Err(NoOperations))
  {
    hide M.Bitmap, M.Rule, LastWriter, PlanWrites, StateDigest, PlanInside, Placed, Project, Exported, ParseBundle;
    var base := CloneMatrix(model);
    var baseBytes := base.RebuildBytes();
    DigestOf(env, model.n, model.patches, model.exceptions, baseBytes);
    var target := CloneMatrix(model);
    var recorded := RecordPlan(target, plan);
    if recorded.Err? {
      return Err(recorded.error);
    }
    var targetBytes := target.RebuildBytes();
    DigestOf(env, model.n, target.patches, model.exceptions, targetBytes);
    var c := MatrixContent(model.n, env.bitmap(baseBytes), env.bitmap(targetBytes), recorded.value);
    SealedParsesIff(env, c, provenance);
    return Ok(Sealed(env, c, provenance));
  }

  /** The export loop: each cell is bounds-checked, read, patched and recorded. */
  method RecordPlan(target: M.MatrixG1G2DeltaModel, plan: MatrixPlan) returns (r: Result<seq<MatrixOp>, Error>)
    modifies target`patches, target`queryCount
    ensures r.Ok? <==> PlanInside(target.n, plan)
    ensures r.Err? ==> r.error == OutOfBounds
    ensures r.Ok? ==>
      && ExportedMatrix(target.n, old(target.patches), target.exceptions, plan, r.value)
      && target.patches == old(target.patches) + LastWriter(PlanWrites(target.n, plan))
  {
    hide M.Key, M.Shown, M.Rule, LastWriter, Exported, Project, PlanWrites;
    var ops: seq<MatrixOp> := [];
    ghost var n, p, e := target.n, target.patches, target.exceptions;
    ExportDone(n, p, e, plan, []);
    TargetDone(p, n, plan);
    for i := 0 to |plan|
      invariant |ops| == i && Placed(n, ops) && forall j | 0 <= j < i :: ops[j].number == j
      invariant forall j | 0 <= j < i :: Inside(n, plan[j].0, plan[j].1)
      invariant Project(ops) + Exported(target.patches, e, M.Rule(n), PlanWrites(n, plan[i..])) == Exported(p, e, M.Rule(n), PlanWrites(n, plan))
      invariant Target(target.patches, PlanWrites(n, plan[i..])) == Target(p, PlanWrites(n, plan))
    {
      var row, col, after := plan[i].0, plan[i].1, plan[i].2 % 2;
      if !Inside(target.n, row, col) {
        return Err(OutOfBounds);
      }
      var before, layer := target.Query(row, col);
      ghost var patches := target.patches;
      var was, now := target.ApplyPatch(row, col, after);
      var op := MatrixOp(i, row, col, M.Key(target.n, row, col), before, after);
      ExportStep(n, patches, e, plan, i, ops, op);
      TargetStep(patches, n, plan, i);
      ops := ops + [op];
    }
    ExportDone(n, target.patches, e, plan, ops);
    TargetDone(target.patches, n, plan);
    TargetIsLastWriter(p, PlanWrites(n, plan));
    return Ok(ops);
  }

  lemma TargetStep(p: map<int, int>, n: nat, plan: MatrixPlan, i: nat)
    requires i < |plan|
    ensures Target(p, PlanWrites(n, plan[i..])) ==
      Target(p[M.Key(n, plan[i].0, plan[i].1) := plan[i].2 % 2], PlanWrites(n, plan[i + 1..]))
  {
    hide M.Key;
    assert PlanWrites(n, plan[i..])[1..] == PlanWrites(n, plan[i + 1..]);
  }

  lemma TargetDone(p: map<int, int>, n: nat, plan: MatrixPlan)
    ensures Target(p, PlanWrites(n, plan[|plan|..])) == p
    ensures plan[0..] == plan
  {
  }

  method ApplyMatrixBundleHot(env: Env, model: M.MatrixG1G2DeltaModel, bundle: Envelope, currentState: string)
    returns (r: Result<(M.MatrixG1G2DeltaModel, Receipt), Error>)
    ensures var parsed := ParseBundle(env, bundle);
      if parsed.Err? then r == Err(parsed.error)
      else if !bundle.content.MatrixContent? then r == Err(WrongKind)
      else if bundle.content.n != model.n then r == Err(IdentityMismatch)
      else if bundle.content.baseState != currentState then r == Err(StateMismatch)
      else match ApplyMatrix(model.n, model.patches, model.exceptions, bundle.content.matrixOps)
        case Err(error) => r == Err(error)
        case Ok(patches) =>
          && r.Ok? && fresh(r.value.0) && r.value.0.n == model.n
          && r.value.0.exceptions == model.exceptions && r.value.0.patches == patches
          && r.value.1 == Receipt(|bundle.content.matrixOps|, bundle.contentDigest, bundle.content.baseState,
                                  bundle.content.targetState, 0)
  {
    hide M.Key, M.Shown, Inside, ApplyMatrix;
    var parsed := ParseBundle(env, bundle);
    if parsed.Err? {
      return Err(parsed.error);
    }
    var content := parsed.value;
    if !content.MatrixContent? {
      return Err(WrongKind);
    }
    if content.n != model.n {
      return Err(IdentityMismatch);
    }
    if content.baseState != currentState {
      return Err(StateMismatch);
    }
    var target := CloneMatrix(model);
    var rebuildsBefore := target.rebuildCount;
    var ops := content.matrixOps;
    ghost var n, p, e := model.n, model.patches, model.exceptions;
    assert ops[0..] == ops;
    for i := 0 to |ops|
      invariant fresh(target) && target.n == n && target.exceptions == e && target.rebuildCount == rebuildsBefore
      invariant model.patches == p && model.exceptions == e
      invariant ApplyMatrix(n, target.patches, e, ops[i..]) == ApplyMatrix(n, p, e, ops)
    {
      var raw := ops[i];
      ApplyMatrixStep(n, target.patches, e, ops, i);
      if !Inside(target.n, raw.row, raw.col) {
        return Err(OutOfBounds);
      }
      if raw.key != M.Key(target.n, raw.row, raw.col) {
        return Err(KeyMismatch);
      }
      var current, layer := target.Query(raw.row, raw.col);
      if current != raw.before {
        return Err(BeforeMismatch);
      }
      var was, now := target.ApplyPatch(raw.row, raw.col, raw.after);
    }
    ApplyNothing(n, target.patches, e);
    assert ops[|ops|..] == [];
    var receipt := Receipt(|ops|, bundle.contentDigest, content.baseState, content.targetState,
                           target.rebuildCount - rebuildsBefore);
    return Ok((target, receipt));
  }

  lemma ApplyNothing(n: nat, p: map<int, int>, e: map<int, int>)
    ensures ApplyMatrix(n, p, e, []) == Ok(p)
  {
  }

  method BuildInverseBundle(env: Env, bundle: Envelope, provenance: string) returns (r: Result<Envelope, Error>)
    ensures r == match ParseBundle(env, bundle)
      case Err(error) => Err(error)
      case Ok(c) => Ok(Sealed(env, InverseContent(env, c), provenance))
  {
    var parsed := ParseBundle(env, bundle);
    if parsed.Err? {
      return Err(parsed.error);
    }
    match parsed.value
    case MatrixContent(n, base, target, ops) =>
      var inverse: seq<MatrixOp> := [];
      for i := 0 to |ops|
        invariant |inverse| == i && forall j | 0 <= j < i :: inverse[j] == InverseMatrix(ops)[j]
      {
        var raw := ops[|ops| - 1 - i];
        inverse := inverse + [MatrixOp(i, raw.row, raw.col, raw.key, raw.after, raw.before)];
      }
      assert inverse == InverseMatrix(ops);
      return Ok(Sealed(env, MatrixContent(n, target, base, inverse), provenance));
    case PrefixContent(count, prefix, base, target, ops) =>
      var inverse: seq<PrefixOp> := [];
      for i := 0 to |ops|
        invariant |inverse| == i && forall j | 0 <= j < i :: inverse[j] == InversePrefix(env, ops)[j]
      {
        var raw := ops[|ops| - 1 - i];
        inverse := inverse + [PrefixOp(i, raw.idx, env.text(raw.after), raw.after, raw.before)];
      }
      assert inverse == InversePrefix(env, ops);
      return Ok(Sealed(env, PrefixContent(count, prefix, target, base, inverse), provenance));
  }

  /** Inverting an inverted bundle gives the original content: for matrices always, for prefix
      records iff every digest was that of its record. */
  lemma InverseTwice(env: Env, c: Content)
    requires Numbered(c)
    ensures c.MatrixContent? ==> InverseContent(env, InverseContent(env, c)) == c
    ensures c.PrefixContent? ==>
      (InverseContent(env, InverseContent(env, c)) == c <==>
        (forall i | 0 <= i < |c.prefixOps| :: c.prefixOps[i].beforeDigest == env.text(c.prefixOps[i].before)))
  {
    hide InverseMatrix, InversePrefix;
    match c
    case MatrixContent(_, _, _, ops) => InverseMatrixTwice(ops);
    case PrefixContent(_, _, _, _, ops) => InversePrefixTwice(env, ops);
  }

  method ExportPrefixBundle(env: Env, model: P.PrefixFamilyG1G2DeltaModel, plan: seq<Write<string>>, provenance: string)
    returns (r: Result<Envelope, Error>)
    ensures r.Ok? <==> PrefixPlanInside(model.count, plan)
    ensures r.Err? ==> r.error == OutOfBounds
    ensures r.Ok? ==>
      var c := r.value.content;
      && r.value == Sealed(env, c, provenance) && c.PrefixContent? && c.count == model.count && c.prefix == model.prefix
      && ExportedPrefix(env, model.count, model.prefix, model.patches, model.exceptions, plan, c.prefixOps)
      && c.baseState == env.text(P.Text(model.patches, model.exceptions, model.prefix, model.count))
      && c.targetState == env.text(P.Text(model.patches + LastWriter(plan), model.exceptions, model.prefix, model.count))
      && ParseBundle(env, r.value) == (if |plan| > 0 then Ok(c) else Err(NoOperations))
  {
    hide P.Rule, P.Text, View, LastWriter, Exported, ProjectPrefix, ParseBundle;
    var base := new P.PrefixFamilyG1G2DeltaModel(model.count, model.prefix, model.exceptions, model.patches);
    var baseText := base.RebuildBytes();
    var target := new P.PrefixFamilyG1G2DeltaModel(model.count, model.prefix, model.exceptions, model.patches);
    var ops: seq<PrefixOp> := [];
    ghost var prefix, p, e := model.prefix, model.patches, model.exceptions;
    PrefixExportDone(prefix, p, e, plan, []);
    for i := 0 to |plan|
      invariant fresh(target) && target.count == model.count && target.prefix == prefix && target.exceptions == e
      invariant model.patches == p && model.exceptions == e
      invariant |ops| == i && PlacedPrefix(env, model.count, ops) && forall j | 0 <= j < i :: ops[j].number == j
      invariant forall j | 0 <= j < i :: 0 <= plan[j].cell < model.count
      invariant ProjectPrefix(ops) + Exported(target.patches, e, P.Rule(prefix), plan[i..]) == Exported(p, e, P.Rule(prefix), plan)
      invariant Target(target.patches, plan[i..]) == Target(p, plan)
    {
      var idx, after := plan[i].cell, plan[i].value;
      if idx < 0 || idx >= target.count {
        return Err(OutOfBounds);
      }
      var before := target.Query(idx);
      ghost var patches := target.patches;
      var was := target.ApplyPatch(idx, after);
      var op := PrefixOp(i, idx, env.text(before), before, after);
      PrefixExportStep(prefix, patches, e, plan, i, ops, op);
      ops := ops + [op];
    }
    PrefixExportDone(prefix, target.patches, e, plan, ops);
    TargetIsLastWriter(p, plan);
    var targetText := target.RebuildBytes();
    var c := PrefixContent(model.count, model.prefix, env.text(baseText), env.text(targetText), ops);
    SealedParsesIff(env, c, provenance);
    return Ok(Sealed(env, c, provenance));
  }

  lemma PrefixExportStep(prefix: string, p: map<int, string>, e: map<int, string>, plan: seq<Write<string>>, i: nat,
                         ops: seq<PrefixOp>, op: PrefixOp)
    requires i < |plan|
    requires op.idx == plan[i].cell && op.before == View(p, e, P.Rule(prefix), op.idx) && op.after == plan[i].value
    ensures ProjectPrefix(ops) + Exported(p, e, P.Rule(prefix), plan[i..])
         == ProjectPrefix(ops + [op]) + Exported(p[op.idx := op.after], e, P.Rule(prefix), plan[i + 1..])
    ensures Target(p, plan[i..]) == Target(p[op.idx := op.after], plan[i + 1..])
  {
    hide P.Rule, View;
    assert plan[i..][1..] == plan[i + 1..];
    assert ProjectPrefix(ops + [op]) == ProjectPrefix(ops) + [Op(op.idx, op.before, op.after)];
  }

  lemma PrefixExportDone(prefix: string, p: map<int, string>, e: map<int, string>, plan: seq<Write<string>>, ops: seq<PrefixOp>)
    ensures ProjectPrefix(ops) + Exported(p, e, P.Rule(prefix), plan[|plan|..]) == ProjectPrefix(ops)
    ensures ProjectPrefix([]) + Exported(p, e, P.Rule(prefix), plan[0..]) == Exported(p, e, P.Rule(prefix), plan)
    ensures Target(p, plan[|plan|..]) == p && plan[0..] == plan
  {
    hide P.Rule;
    assert plan[0..] == plan && plan[|plan|..] == [];
  }

  method ApplyPrefixBundleHot(env: Env, model: P.PrefixFamilyG1G2DeltaModel, bundle: Envelope, currentState: string)
    returns (r: Result<(P.PrefixFamilyG1G2DeltaModel, Receipt), Error>)
    ensures var parsed := ParseBundle(env, bundle);
      if parsed.Err? then r == Err(parsed.error)
      else if !bundle.content.PrefixContent? then r == Err(WrongKind)
      else if bundle.content.count != model.count || bundle.content.prefix != model.prefix then r == Err(IdentityMismatch)
      else if bundle.content.baseState != currentState then r == Err(StateMismatch)
      else match ApplyPrefix(env, model.count, model.prefix, model.patches, model.exceptions, bundle.content.prefixOps)
        case Err(error) => r == Err(error)
        case Ok(patches) =>
          && r.Ok? && fresh(r.value.0) && r.value.0.count == model.count && r.value.0.prefix == model.prefix
          && r.value.0.exceptions == model.exceptions && r.value.0.patches == patches
          && r.value.1 == Receipt(|bundle.content.prefixOps|, bundle.contentDigest, bundle.content.baseState,
                                  bundle.content.targetState, 0)
  {
    hide P.Rule, View, ApplyPrefix;
    var parsed := ParseBundle(env, bundle);
    if parsed.Err? {
      return Err(parsed.error);
    }
    var content := parsed.value;
    if !content.PrefixContent? {
      return Err(WrongKind);
    }
    if content.count != model.count || content.prefix != model.prefix {
      return Err(IdentityMismatch);
    }
    if content.baseState != currentState {
      return Err(StateMismatch);
    }
    var target := new P.PrefixFamilyG1G2DeltaModel(model.count, model.prefix, model.exceptions, model.patches);
    var rebuildsBefore := target.rebuildCount;
    var ops := content.prefixOps;
    ghost var p, e := model.patches, model.exceptions;
    assert ops[0..] == ops;
    for i := 0 to |ops|
      invariant fresh(target) && target.count == model.count && target.prefix == model.prefix && target.exceptions == e
      invariant target.rebuildCount == rebuildsBefore && model.patches == p && model.exceptions == e
      invariant ApplyPrefix(env, model.count, model.prefix, target.patches, e, ops[i..])
             == ApplyPrefix(env, model.count, model.prefix, p, e, ops)
    {
      var raw := ops[i];
      ApplyPrefixStep(env, model.count, model.prefix, target.patches, e, ops, i);
      if raw.idx < 0 || raw.idx >= target.count {
        return Err(OutOfBounds);
      }
      var current := target.Query(raw.idx);
      if env.text(current) != raw.beforeDigest {
        return Err(BeforeMismatch);
      }
      if current != raw.before {
        return Err(BeforeMismatch);
      }
      var was := target.ApplyPatch(raw.idx, raw.after);
    }
    ApplyNoPrefix(env, model.count, model.prefix, target.patches, e);
    assert ops[|ops|..] == [];
    var receipt := Receipt(|ops|, bundle.contentDigest, content.baseState, content.targetState,
                           target.rebuildCount - rebuildsBefore);
    return Ok((target, receipt));
  }

  lemma ApplyNoPrefix(env: Env, count: nat, prefix: string, p: map<int, string>, e: map<int, string>)
    ensures ApplyPrefix(env, count, prefix, p, e, []) == Ok(p)
  {
  }

  // The digest a caller passes as the current state: that of the bytes the model rebuilds. It is
  // the only digest the state has.
  method CurrentMatrixState(env: Env, model: M.MatrixG1G2DeltaModel) returns (digest: string)
    ensures StateDigest(env, model.n, model.patches, model.exceptions, digest)
    ensures forall d | StateDigest(env, model.n, model.patches, model.exceptions, d) :: d == digest
  {
    hide M.Bitmap;
    var copy := CloneMatrix(model);
    var bytes := copy.RebuildBytes();
    DigestOf(env, model.n, model.patches, model.exceptions, bytes);
    return env.bitmap(bytes);
  }

  /** The whole exchange: export, apply to the state the model is in, invert, apply to the state the
      patched model is in, with each state's digest taken from its own rebuilt bytes. It goes
      through for every non-empty plan inside the matrix; an empty one exports a bundle that is
      refused, and a plan that leaves the matrix does not export. */
  method PatchAndUndoMatrix(env: Env, model: M.MatrixG1G2DeltaModel, plan: MatrixPlan)
    returns (r: Result<(M.MatrixG1G2DeltaModel, M.MatrixG1G2DeltaModel), Error>)
    ensures !PlanInside(model.n, plan) ==> r == Err(OutOfBounds)
    ensures PlanInside(model.n, plan) && |plan| == 0 ==> r == Err(NoOperations)
    ensures PlanInside(model.n, plan) && |plan| > 0 ==> r.Ok?
    ensures r.Ok? ==>
      var (patched, back) := r.value;
      && patched.n == back.n == model.n && patched.exceptions == back.exceptions == model.exceptions
      && patched.patches == model.patches + LastWriter(PlanWrites(model.n, plan))
      && Restored(model.patches, back.patches, model.exceptions, M.Rule(model.n), LowBit(), PlanWrites(model.n, plan))
  {
    hide M.Rule, PlanInside, PlanWrites, Restored, StateDigest, ApplyMatrix, Placed, Exported, Project, ParseBundle, InverseMatrix;
    var exported := ExportMatrixBundle(env, model, plan, "");
    if exported.Err? {
      return Err(exported.error);
    }
    var bundle := exported.value;
    ghost var c := bundle.content;
    MatrixRoundTrip(model.n, model.patches, model.exceptions, plan, c.matrixOps);
    var current := CurrentMatrixState(env, model);
    var applied := ApplyMatrixBundleHot(env, model, bundle, current);
    if applied.Err? {
      return Err(applied.error);
    }
    var patched := applied.value.0;
    var inverted := BuildInverseBundle(env, bundle, "");
    InverseParses(env, c);
    current := CurrentMatrixState(env, patched);
    var undone := ApplyMatrixBundleHot(env, patched, inverted.value, current);
    return Ok((patched, undone.value.0));
  }

  lemma InverseParses(env: Env, c: Content)
    requires Size(c) > 0
    ensures ParseBundle(env, Sealed(env, InverseContent(env, c), "")) == Ok(InverseContent(env, c))
  {
    SealedParsesIff(env, InverseContent(env, c), "");
  }

  method CurrentPrefixState(env: Env, model: P.PrefixFamilyG1G2DeltaModel) returns (digest: string)
    ensures digest == env.text(P.Text(model.patches, model.exceptions, model.prefix, model.count))
  {
    hide P.Text;
    var copy := new P.PrefixFamilyG1G2DeltaModel(model.count, model.prefix, model.exceptions, model.patches);
    var text := copy.RebuildBytes();
    return env.text(text);
  }

  /** The same exchange for prefix records; the original view always comes back. */
  method PatchAndUndoPrefix(env: Env, model: P.PrefixFamilyG1G2DeltaModel, plan: seq<Write<string>>)
    returns (r: Result<(P.PrefixFamilyG1G2DeltaModel, P.PrefixFamilyG1G2DeltaModel), Error>)
    ensures !PrefixPlanInside(model.count, plan) ==> r == Err(OutOfBounds)
    ensures PrefixPlanInside(model.count, plan) && |plan| == 0 ==> r == Err(NoOperations)
    ensures PrefixPlanInside(model.count, plan) && |plan| > 0 ==> r.Ok?
    ensures r.Ok? ==>
      var (patched, back) := r.value;
      && patched.prefix == back.prefix == model.prefix && patched.exceptions == back.exceptions == model.exceptions
      && patched.patches == model.patches + LastWriter(plan)
      && forall k :: View(back.patches, back.exceptions, P.Rule(back.prefix), k)
                  == View(model.patches, model.exceptions, P.Rule(model.prefix), k)
  {
    hide P.Rule, P.Text, View, PrefixPlanInside, ApplyPrefix, PlacedPrefix, Exported, ProjectPrefix, ParseBundle, InversePrefix;
    var exported := ExportPrefixBundle(env, model, plan, "");
    if exported.Err? {
      return Err(exported.error);
    }
    var bundle := exported.value;
    ghost var c := bundle.content;
    PrefixRoundTrip(env, model.count, model.prefix, model.patches, model.exceptions, plan, c.prefixOps);
    var current := CurrentPrefixState(env, model);
    var applied := ApplyPrefixBundleHot(env, model, bundle, current);
    if applied.Err? {
      return Err(applied.error);
    }
    var patched := applied.value.0;
    var inverted := BuildInverseBundle(env, bundle, "");
    InverseParses(env, c);
    current := CurrentPrefixState(env, patched);
    var undone := ApplyPrefixBundleHot(env, patched, inverted.value, current);
    return Ok((patched, undone.value.0));
  }
}
