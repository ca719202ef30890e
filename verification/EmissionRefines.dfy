/** The main result about emission: on a memory that stores an IR state, the emitted stream runs to
    a memory that stores the state the IR reaches. */
module EmissionRefines {
  import opened Arithmetic
  import opened Types
  import opened Machine
  import opened EclipseIR
  import opened Emission
  import opened EmissionCorrect
  import opened EmittedMoves
  import opened EmittedCompute

  /** The operation has an emitter case, or needs no instruction. */
  predicate Emittable(ty: Typing, op: IrOp) { op.ReturnOp? || EmitOp(ty, Place(ty), op).Some? }

  /** What the machine does for one operation: nothing when there is no instruction. */
  function ExecOp<F>(f: Fpu<F>, ty: Typing, m: Mem, op: IrOp): Option<Mem> {
    match EmitOp(ty, Place(ty), op)
    case Some(i) => Exec(f, m, i)
    case None => Some(m)
  }

  /** One operation: the machine faults exactly on a subview whose address is not 16-byte aligned,
      and otherwise follows the IR. */
  lemma OpRefines<F>(f: Fpu<F>, ty: Typing, m: Mem, st: State, op: IrOp)
    requires Fits(ty) && Sim(m, ty, st) && Emittable(ty, op) && EvalOp(f, ty, st, op).Some?
    ensures var m' := ExecOp(f, ty, m, op);
      && (m'.Some? <==> Aligned(ty, op))
      && (m'.Some? ==> Sim(m'.value, ty, EvalOp(f, ty, st, op).value))
  {
    hide Place, Fits, Sim, Exec, Elements, Value;
    match op
    case Load(v, b) => LoadRefines(f, ty, m, st, op);
    case Store(b, v) => StoreRefines(f, ty, m, st, op);
    case MatmulOp(_, _, _, _, _, _) => MatmulRefines(f, ty, m, st, op);
    case EwiseOp(_, _, _, _) => EwiseRefines(f, ty, m, st, op);
    case ActOp(_, _, _) => ActRefines(f, ty, m, st, op);
    case ReduceOp(_, _, _) => ReduceRefines(f, ty, m, st, op);
    case SyncOp => SyncDoesNothing(f, m);
    case ReturnOp(_) =>
  }

  lemma SyncDoesNothing<F>(f: Fpu<F>, m: Mem)
    ensures Exec(f, m, Sync) == Some(m)
  {
  }

  lemma LoadRefines<F>(f: Fpu<F>, ty: Typing, m: Mem, st: State, op: IrOp)
    requires Fits(ty) && Sim(m, ty, st) && op.Load? && Emittable(ty, op) && EvalOp(f, ty, st, op).Some?
    ensures var m' := ExecOp(f, ty, m, op);
      && (m'.Some? <==> Aligned(ty, op))
      && (m'.Some? ==> Sim(m'.value, ty, EvalOp(f, ty, st, op).value))
  {
    hide Place, Fits, Sim, Exec, EvalOp;
    match op.src
    case CastOf(Base(r)) =>
      CastView(ty, st, r);
      WellTypedRun(f, ty, st, op);
      LoadWhole(f, ty, m, st, r, op.dst);
    case SubOf(CastOf(Base(r)), Fixed(ro), Fixed(co), _, _) =>
      WellTypedRun(f, ty, st, op);
      LoadWindow(f, ty, m, st, op, r, ro, co);
    case _ =>
  }

  lemma WellTypedRun<F>(f: Fpu<F>, ty: Typing, st: State, op: IrOp)
    requires EvalOp(f, ty, st, op).Some?
    ensures WellTyped(ty, op)
  {
  }

  lemma StoreRefines<F>(f: Fpu<F>, ty: Typing, m: Mem, st: State, op: IrOp)
    requires Fits(ty) && Sim(m, ty, st) && op.Store? && Emittable(ty, op) && EvalOp(f, ty, st, op).Some?
    ensures var m' := ExecOp(f, ty, m, op);
      m'.Some? && Sim(m'.value, ty, EvalOp(f, ty, st, op).value)
  {
    hide Place, Fits, Sim, Exec;
    match op.to
    case CastOf(Base(r)) =>
      CastView(ty, st, r);
      StoreWhole(f, ty, m, st, r, op.from);
    case _ =>
  }

  /** The whole stream. */
  lemma {:induction false} StreamRefines<F>(f: Fpu<F>, ty: Typing, m: Mem, st: State, ops: seq<IrOp>)
    requires Fits(ty) && Sim(m, ty, st) && EvalOps(f, ty, st, ops).Some?
    requires forall k | 0 <= k < |ops| :: Emittable(ty, ops[k])
    ensures var m' := Run(f, m, Emit(ty, Place(ty), ops));
      && (m'.Some? <==> forall k | 0 <= k < |ops| :: Aligned(ty, ops[k]))
      && (m'.Some? ==> Sim(m'.value, ty, EvalOps(f, ty, st, ops).value))
    decreases ops
  {
    hide Place, Fits, Sim, Exec, EvalOp, EmitOp, Aligned;
    if ops != [] {
      OpRefines(f, ty, m, st, ops[0]);
      var m1 := ExecOp(f, ty, m, ops[0]);
      RunFirst(f, ty, m, ops);
      assert forall k | 0 <= k < |ops| - 1 :: ops[1..][k] == ops[k + 1];
      if m1.Some? {
        StreamRefines(f, ty, m1.value, EvalOp(f, ty, st, ops[0]).value, ops[1..]);
        assert (forall k | 0 <= k < |ops| :: Aligned(ty, ops[k]))
          <==> forall k | 0 <= k < |ops| - 1 :: Aligned(ty, ops[1..][k]);
      }
    }
  }

  /** Where the IR divides by zero, the machine aborts. */
  lemma {:induction false} StreamAborts<F>(f: Fpu<F>, ty: Typing, m: Mem, st: State, ops: seq<IrOp>, k: nat)
    requires Fits(ty) && Sim(m, ty, st) && k < |ops| && EvalOps(f, ty, st, ops[..k]).Some?
    requires Traps(f, ty, EvalOps(f, ty, st, ops[..k]).value, ops[k])
    requires forall j | 0 <= j < |ops| :: Emittable(ty, ops[j]) && Aligned(ty, ops[j])
    ensures Run(f, m, Emit(ty, Place(ty), ops)).None?
    decreases k
  {
    hide Place, Fits, Sim, Exec, EvalOp, EmitOp, Aligned, Traps;
    RunFirst(f, ty, m, ops);
    if k == 0 {
      assert ops[..0] == [];
      EwiseAborts(f, ty, m, st, ops[0]);
    } else {
      assert ops[..k][1..] == ops[1..][..k - 1] && ops[..k][0] == ops[0];
      OpRefines(f, ty, m, st, ops[0]);
      var m1 := ExecOp(f, ty, m, ops[0]);
      if m1.Some? {
        StreamAborts(f, ty, m1.value, EvalOp(f, ty, st, ops[0]).value, ops[1..], k - 1);
      }
    }
  }

  lemma RunFirst<F>(f: Fpu<F>, ty: Typing, m: Mem, ops: seq<IrOp>)
    requires ops != []
    ensures var m1 := ExecOp(f, ty, m, ops[0]);
      Run(f, m, Emit(ty, Place(ty), ops)) == if m1.Some? then Run(f, m1.value, Emit(ty, Place(ty), ops[1..])) else None
  {
    hide Place, Exec, EmitOp;
    var rest := Emit(ty, Place(ty), ops[1..]);
    match EmitOp(ty, Place(ty), ops[0])
    case Some(i) => assert ([i] + rest)[0] == i && ([i] + rest)[1..] == rest;
    case None => assert [] + rest == rest;
  }
}
