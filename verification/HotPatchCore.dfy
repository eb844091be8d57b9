/** The heart of g1g2_hot_patch_xfer.py, the same for matrices and prefix records: operations that
    carry the value they expect and the value they write, replayed over layers. A model stores
    the normal form of a written value: its low bit in a matrix, the record itself in a prefix family. */
module HotPatchCore {
  import opened Common
  import opened Layers

  datatype Op<V> = Op(cell: int, before: V, after: V)

  // The operations an export records for a plan.
  function Exported<V>(p: map<int, V>, e: map<int, V>, rule: int -> V, plan: seq<Write<V>>): (ops: seq<Op<V>>)
    ensures |ops| == |plan|
    decreases |plan|
  {
    if |plan| == 0 then []
    else
      [Op(plan[0].cell, View(p, e, rule, plan[0].cell), plan[0].value)]
      + Exported(p[plan[0].cell := plan[0].value], e, rule, plan[1..])
  }

  // Optimistic replay: each operation insists on the value it saw when exported.
  function Replay<V(==)>(p: map<int, V>, e: map<int, V>, rule: int -> V, norm: V -> V, ops: seq<Op<V>>): Option<map<int, V>>
    decreases |ops|
  {
    if |ops| == 0 then Some(p)
    else if View(p, e, rule, ops[0].cell) != ops[0].before then None
    else Replay(p[ops[0].cell := norm(ops[0].after)], e, rule, norm, ops[1..])
  }

  function Target<V>(p: map<int, V>, plan: seq<Write<V>>): map<int, V>
    decreases |plan|
  {
    if |plan| == 0 then p else Target(p[plan[0].cell := plan[0].value], plan[1..])
  }

  function Undo<V>(op: Op<V>): Op<V> {
    Op(op.cell, op.after, op.before)
  }

  // All operations undone, last first.
  function Undone<V>(ops: seq<Op<V>>): (r: seq<Op<V>>)
    ensures |r| == |ops|
    decreases |ops|
  {
    if |ops| == 0 then [] else Undone(ops[1..]) + [Undo(ops[0])]
  }

  ghost predicate Touched<V>(plan: seq<Write<V>>, k: int) {
    exists i :: 0 <= i < |plan| && plan[i].cell == k
  }

  // Values a model stores as they are.
  ghost predicate Normal<V>(norm: V -> V, plan: seq<Write<V>>) {
    forall i | 0 <= i < |plan| :: norm(plan[i].value) == plan[i].value
  }

  ghost predicate Idempotent<V(!new)>(norm: V -> V) {
    forall v :: norm(norm(v)) == norm(v)
  }

  lemma {:induction false} TargetSnoc<V>(p: map<int, V>, plan: seq<Write<V>>, w: Write<V>)
    ensures Target(p, plan + [w]) == Target(p, plan)[w.cell := w.value]
    decreases |plan|
  {
    if |plan| > 0 {
      assert (plan + [w])[1..] == plan[1..] + [w];
      TargetSnoc(p[plan[0].cell := plan[0].value], plan[1..], w);
    } else {
      assert plan + [w] == [w];
    }
  }

  /** A plan leaves the last write of every cell it names. */
  lemma {:induction false} TargetIsLastWriter<V>(p: map<int, V>, plan: seq<Write<V>>)
    ensures Target(p, plan) == p + LastWriter(plan)
    decreases |plan|
  {
    if |plan| > 0 {
      var init, last := plan[..|plan| - 1], plan[|plan| - 1];
      assert plan == init + [last];
      TargetSnoc(p, init, last);
      TargetIsLastWriter(p, init);
    } else {
      assert p + map[] == p;
    }
  }

  /** Replaying an export on the state it was made from succeeds and reaches the plan's target. */
  lemma {:induction false} ReplayExported<V>(p: map<int, V>, e: map<int, V>, rule: int -> V, norm: V -> V, plan: seq<Write<V>>)
    requires Normal(norm, plan)
    ensures Replay(p, e, rule, norm, Exported(p, e, rule, plan)) == Some(Target(p, plan))
    decreases |plan|
  {
    if |plan| > 0 {
      var p' := p[plan[0].cell := plan[0].value];
      var ops := Exported(p, e, rule, plan);
      assert ops[1..] == Exported(p', e, rule, plan[1..]);
      ReplayExported(p', e, rule, norm, plan[1..]);
    }
  }

  lemma {:induction false} ReplaySnoc<V>(p: map<int, V>, e: map<int, V>, rule: int -> V, norm: V -> V, ops: seq<Op<V>>, op: Op<V>)
    ensures Replay(p, e, rule, norm, ops + [op]) ==
      match Replay(p, e, rule, norm, ops)
      case None => None
      case Some(q) => if View(q, e, rule, op.cell) != op.before then None else Some(q[op.cell := norm(op.after)])
    decreases |ops|
  {
    if |ops| > 0 {
      assert (ops + [op])[1..] == ops[1..] + [op];
      ReplaySnoc(p[ops[0].cell := norm(ops[0].after)], e, rule, norm, ops[1..], op);
    } else {
      assert (ops + [op])[1..] == [];
    }
  }

  // The view after undoing: touched cells hold the normal form of what they held.
  ghost predicate Restored<V>(p: map<int, V>, q: map<int, V>, e: map<int, V>, rule: int -> V, norm: V -> V, plan: seq<Write<V>>) {
    forall k :: View(q, e, rule, k) == if Touched(plan, k) then norm(View(p, e, rule, k)) else View(p, e, rule, k)
  }

  /** Replaying the undone export on the target always succeeds, repeated cells included. */
  lemma {:induction false} UndoExported<V(!new)>(p: map<int, V>, e: map<int, V>, rule: int -> V, norm: V -> V, plan: seq<Write<V>>)
    requires Normal(norm, plan) && Idempotent(norm)
    ensures var r := Replay(Target(p, plan), e, rule, norm, Undone(Exported(p, e, rule, plan)));
      r.Some? && Restored(p, r.value, e, rule, norm, plan)
    decreases |plan|
  {
    if |plan| > 0 {
      var w := plan[0];
      var p' := p[w.cell := w.value];
      var ops := Exported(p, e, rule, plan);
      assert ops[1..] == Exported(p', e, rule, plan[1..]);
      UndoExported(p', e, rule, norm, plan[1..]);
      var undone := Undone(ops[1..]);
      ReplaySnoc(Target(p, plan), e, rule, norm, undone, Undo(ops[0]));
      var q := Replay(Target(p, plan), e, rule, norm, undone).value;
      StepBack(p, e, rule, norm, plan, q);
    }
  }

  lemma StepBack<V(!new)>(p: map<int, V>, e: map<int, V>, rule: int -> V, norm: V -> V, plan: seq<Write<V>>, q: map<int, V>)
    requires |plan| > 0 && Normal(norm, plan) && Idempotent(norm)
    requires Restored(p[plan[0].cell := plan[0].value], q, e, rule, norm, plan[1..])
    ensures var w := plan[0];
      && View(q, e, rule, w.cell) == w.value
      && Restored(p, q[w.cell := norm(View(p, e, rule, w.cell))], e, rule, norm, plan)
  {
    var w := plan[0];
    var p' := p[w.cell := w.value];
    var q' := q[w.cell := norm(View(p, e, rule, w.cell))];
    forall k ensures View(q', e, rule, k) == if Touched(plan, k) then norm(View(p, e, rule, k)) else View(p, e, rule, k) {
      TouchedCons(plan, k);
      assert View(q, e, rule, k) == if Touched(plan[1..], k) then norm(View(p', e, rule, k)) else View(p', e, rule, k);
    }
  }

  lemma TouchedCons<V>(plan: seq<Write<V>>, k: int)
    requires |plan| > 0
    ensures Touched(plan, k) <==> (plan[0].cell == k || Touched(plan[1..], k))
  {
    if Touched(plan, k) && plan[0].cell != k {
      var i :| 0 <= i < |plan| && plan[i].cell == k;
      assert plan[1..][i - 1] == plan[i];
    }
    if Touched(plan[1..], k) {
      var i :| 0 <= i < |plan[1..]| && plan[1..][i].cell == k;
      assert plan[i + 1].cell == k;
    }
  }

  /** The original view comes back everywhere iff every touched cell showed a value the model
      stores as it is. */
  lemma RestoredIff<V>(p: map<int, V>, q: map<int, V>, e: map<int, V>, rule: int -> V, norm: V -> V, plan: seq<Write<V>>)
    requires Restored(p, q, e, rule, norm, plan)
    ensures (forall k :: View(q, e, rule, k) == View(p, e, rule, k)) <==>
      (forall k | Touched(plan, k) :: norm(View(p, e, rule, k)) == View(p, e, rule, k))
  {
    hide View, Touched;
    if forall k :: View(q, e, rule, k) == View(p, e, rule, k) {
      forall k | Touched(plan, k) ensures norm(View(p, e, rule, k)) == View(p, e, rule, k) {
        assert View(q, e, rule, k) == View(p, e, rule, k);
      }
    }
  }

  lemma {:induction false} UndoneAt<V>(ops: seq<Op<V>>, i: nat)
    requires i < |ops|
    ensures Undone(ops)[i] == Undo(ops[|ops| - 1 - i])
    decreases |ops|
  {
    if i < |ops| - 1 { UndoneAt(ops[1..], i); }
  }

  /** Undoing twice gives the operations back. */
  lemma UndoneTwice<V>(ops: seq<Op<V>>)
    ensures Undone(Undone(ops)) == ops
  {
    forall i | 0 <= i < |ops| ensures Undone(Undone(ops))[i] == ops[i] {
      UndoneAt(Undone(ops), i);
      UndoneAt(ops, |ops| - 1 - i);
    }
  }
}
