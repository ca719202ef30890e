/** Emitted MATMUL, elementwise, ACT and REDUCE instructions compute the elements the IR says. */
module EmittedCompute {
  import opened Arithmetic
  import opened Types
  import opened Machine
  import opened EclipseIR
  import opened Emission
  import opened StepValues
  import opened EmissionCorrect
  import opened EmittedMoves

  /** No word of buffer `out` overlaps the word at `a`. */
  ghost predicate Away(ty: Typing, out: Buf, a: int)
    requires out < |ty.buf|
  {
    forall k: nat | k < Size(ty.buf[out]) :: Apart(At(ty, out) + 2 * k, a)
  }

  /** Step `s` computes element `x`, the e-th word of buffer `out`, and reads nothing else of `out`. */
  ghost predicate Serves(m: Mem, ty: Typing, out: Buf, s: Step, x: Element, e: nat)
    requires out < |ty.buf|
  {
    && s.op == x.op && s.from == Sram && s.to == Sram && s.dsts == [At(ty, out) + 2 * e]
    && Reachable(Sram, s.srcs) && Fetch(m, s.srcs) == x.inputs
    && forall j | 0 <= j < |s.srcs| :: s.srcs[j] == At(ty, out) + 2 * e || Away(ty, out, s.srcs[j])
  }

  /** One source word of a step. */
  ghost predicate SourceWordOf(m: Mem, ty: Typing, out: Buf, a: int, w: Word, e: nat)
    requires out < |ty.buf|
  {
    In(Sram, a) && In(Sram, a + 1) && Load16(m, a) == w && (a == At(ty, out) + 2 * e || Away(ty, out, a))
  }

  lemma OtherBufWord(m: Mem, ty: Typing, st: State, out: Buf, b: Buf, at: nat, e: nat)
    requires Fits(ty) && Sim(m, ty, st) && b in st.bufs && at < |st.bufs[b]| && out < |ty.buf| && b != out
    ensures WordInside(ty, b, at) && SourceWordOf(m, ty, out, At(ty, b) + 2 * at, st.bufs[b][at], e)
  {
    hide Load16, Full, Place, Fits, Apart, Size, Holds;
    BufWord(m, ty, st, b, at);
    forall k: nat | k < Size(ty.buf[out])
      ensures Apart(At(ty, out) + 2 * k, At(ty, b) + 2 * at)
    {
      BufsApart(ty, out, b, k, at);
    }
  }

  lemma OwnWord(m: Mem, ty: Typing, st: State, out: Buf, e: nat)
    requires Fits(ty) && Sim(m, ty, st) && out in st.bufs && e < |st.bufs[out]|
    ensures out < |ty.buf| && WordInside(ty, out, e)
    ensures SourceWordOf(m, ty, out, At(ty, out) + 2 * e, st.bufs[out][e], e)
  {
    hide Load16, Full, Place, Fits, Apart, Size, Holds;
    BufWord(m, ty, st, out, e);
  }

  /** A step whose sources are source words serves its element. */
  lemma ServesFromWords(m: Mem, ty: Typing, out: Buf, s: Step, x: Element, e: nat)
    requires out < |ty.buf| && s.op == x.op && s.from == Sram && s.to == Sram && s.dsts == [At(ty, out) + 2 * e]
    requires |s.srcs| == |x.inputs| && forall j | 0 <= j < |s.srcs| :: SourceWordOf(m, ty, out, s.srcs[j], x.inputs[j], e)
    ensures Serves(m, ty, out, s, x, e)
  {
    hide Load16, Away, In, At;
  }

  /** Steps that serve all elements of `out` compute them. */
  lemma ServedComputes<F>(f: Fpu<F>, m: Mem, ty: Typing, out: Buf, steps: seq<Step>, xs: seq<Element>)
    requires Fits(ty) && out < |ty.buf| && |steps| == |xs| == Size(ty.buf[out])
    requires forall e | 0 <= e < |xs| :: Serves(m, ty, out, steps[e], xs[e], e) && Value(f, xs[e]).Some?
    ensures Computes(f, m, steps, xs, At(ty, out))
  {
    hide Value, Fetch, Place, Fits, Size, In, U32, Serves, At;
    forall e: nat | e < |xs|
      ensures
        && steps[e].op == xs[e].op && steps[e].dsts == [At(ty, out) + 2 * e]
        && Reachable(steps[e].from, steps[e].srcs) && Reachable(steps[e].to, steps[e].dsts)
        && Fetch(m, steps[e].srcs) == xs[e].inputs
        && forall k | 0 <= k < e :: AllApart([At(ty, out) + 2 * k], steps[e].srcs)
    {
      SizedWordInside(ty, out, e);
      ServedStep(m, ty, out, steps[e], xs[e], e);
    }
  }

  lemma ServedStep(m: Mem, ty: Typing, out: Buf, s: Step, x: Element, e: nat)
    requires out < |ty.buf| && e < Size(ty.buf[out]) && Serves(m, ty, out, s, x, e) && WordInside(ty, out, e)
    ensures s.op == x.op && s.dsts == [At(ty, out) + 2 * e] && Fetch(m, s.srcs) == x.inputs
    ensures Reachable(s.from, s.srcs) && Reachable(s.to, s.dsts)
    ensures forall k: nat | k < e :: AllApart([At(ty, out) + 2 * k], s.srcs)
  {
    hide Fetch, Place, Size, In, U32, At;
    forall k: nat | k < e
      ensures AllApart([At(ty, out) + 2 * k], s.srcs)
    {
      forall y | y in s.srcs
        ensures Apart(At(ty, out) + 2 * k, y)
      {
        var j :| 0 <= j < |s.srcs| && s.srcs[j] == y;
      }
    }
  }

  /** The effect of such an instruction. */
  lemma ComputedOp<F>(f: Fpu<F>, ty: Typing, m: Mem, st: State, out: Buf, i: Instr, xs: seq<Element>)
    requires Fits(ty) && Sim(m, ty, st) && out < |ty.buf| && Asserts(i) && |Steps(i)| == |xs| == Size(ty.buf[out])
    requires forall e | 0 <= e < |xs| :: Serves(m, ty, out, Steps(i)[e], xs[e], e) && Value(f, xs[e]).Some?
    ensures Exec(f, m, i).Some?
    ensures Sim(Exec(f, m, i).value, ty, st.(bufs := st.bufs[out := Values(f, xs)]))
  {
    hide Asserts, Steps, Serves, Computes, Value, Fits, Full, Size, At, Fetch, RangesApart, DoSteps, Holds;
    ServedComputes(f, m, ty, out, Steps(i), xs);
    ComputesResult(f, m, Steps(i), xs, At(ty, out));
    SimAfterBuf(m, Exec(f, m, i).value, ty, st, out, Values(f, xs));
  }

  /** The hypotheses under which a compute operation has an effect. */
  ghost predicate Ready<F>(f: Fpu<F>, ty: Typing, m: Mem, st: State, op: IrOp) {
    && Fits(ty) && Sim(m, ty, st) && WellTyped(ty, op)
    && Elements(ty, st, op).Some?
    && forall e | 0 <= e < |Elements(ty, st, op).value| :: Value(f, Elements(ty, st, op).value[e]).Some?
  }

  /* ---- elementwise ---- */

  lemma EwiseEmitted(ty: Typing, op: IrOp)
    requires Fits(ty) && op.EwiseOp? && WellTyped(ty, op)
    ensures var d := EmitOp(ty, Place(ty), op);
      && d.Some? && d.value.Ewise? && d.value.op == op.kind && Asserts(d.value)
      && var p := d.value.ew;
        && p.dstAddr == At(ty, op.out) && p.lhsAddr == At(ty, op.lhs) && p.rhsAddr == At(ty, op.rhs)
        && p.cols == ty.buf[op.out].cols && p.rhsBlk == ty.buf[op.rhs].cols
        && p.rhsStride == (if ty.buf[op.rhs].rows == 1 then 0 else ty.buf[op.rhs].cols)
        && |Steps(d.value)| == Size(ty.buf[op.out])
  {
    hide Place, Fits, U32;
    BufferBounds(ty, op.out);
    BufferBounds(ty, op.lhs);
    BufferBounds(ty, op.rhs);
    SmallU32(ty.buf[op.out].rows);
    SmallU32(ty.buf[op.out].cols);
    SmallU32(ty.buf[op.rhs].cols);
    SmallU32(Size(ty.buf[op.out]));
  }

  /** The right operand of element `e` lies inside its buffer. */
  lemma BroadcastInside(shape: Shape, small: Shape, e: nat)
    requires e < Size(shape) && shape.cols > 0 && small.cols > 0 && (small.rows == 1 || small.rows == shape.rows)
    ensures 0 <= e / shape.cols * (if small.rows == 1 then 0 else small.cols) + e % small.cols < Size(small)
  {
    RowOf(e, shape.rows, shape.cols);
    if small.rows != 1 {
      RowMajor(e / shape.cols, e % small.cols, small.rows, small.cols);
      MulMonotone(small.cols, 0, e / shape.cols);
    }
  }

  /** Index of the right operand's word for element `e`. */
  function RhsIndex(ty: Typing, op: IrOp, e: nat): int
    requires op.EwiseOp? && WellTyped(ty, op)
  {
    var shape, small := ty.buf[op.out], ty.buf[op.rhs];
    e / shape.cols * (if small.rows == 1 then 0 else small.cols) + e % small.cols
  }

  lemma RhsInside(ty: Typing, op: IrOp, e: nat)
    requires Fits(ty) && op.EwiseOp? && WellTyped(ty, op) && e < Size(ty.buf[op.out])
    ensures 0 <= RhsIndex(ty, op, e) < Size(ty.buf[op.rhs])
  {
    hide Place, Fits, Size;
    BufferBounds(ty, op.out);
    BufferBounds(ty, op.rhs);
    BroadcastInside(ty.buf[op.out], ty.buf[op.rhs], e);
  }

  lemma WordAddress(ty: Typing, b: Buf, at: nat)
    requires Fits(ty) && b < |ty.buf| && at < Size(ty.buf[b])
    ensures U32(At(ty, b) + 2 * at) == At(ty, b) + 2 * at
  {
    hide Place, Fits, Size;
    BufferBounds(ty, b);
    SmallU32(At(ty, b) + 2 * at);
  }

  lemma EwiseRhsIs(ty: Typing, op: IrOp, d: EwiseParam, e: nat)
    requires op.EwiseOp? && WellTyped(ty, op) && d.cols == ty.buf[op.out].cols > 0 && d.rhsBlk == ty.buf[op.rhs].cols > 0
    requires d.rhsStride == (if ty.buf[op.rhs].rows == 1 then 0 else ty.buf[op.rhs].cols)
    requires 0 <= RhsIndex(ty, op, e) < TWO_32
    ensures EwiseRhsAt(d, e) == U32(d.rhsAddr + 2 * RhsIndex(ty, op, e))
  {
    assert RhsIndex(ty, op, e) == e / d.cols * d.rhsStride + e % d.rhsBlk;
    hide RhsIndex, WellTyped, Size;
    SmallU32(RhsIndex(ty, op, e));
  }

  lemma EwiseStepAt(op: EwiseKind, d: EwiseParam, e: nat)
    requires Asserts(Ewise(op, d)) && e < |Steps(Ewise(op, d))|
    ensures d.cols != 0 && d.rhsBlk != 0 && Steps(Ewise(op, d))[e] == EwiseStep(op, d, e)
  {
    hide U32, EwiseStep;
  }

  lemma EwiseStepIs(ty: Typing, op: IrOp, e: nat)
    requires Fits(ty) && op.EwiseOp? && WellTyped(ty, op) && e < Size(ty.buf[op.out])
    ensures 0 <= RhsIndex(ty, op, e) < Size(ty.buf[op.rhs])
    ensures var i := EmitOp(ty, Place(ty), op);
      && i.Some? && Asserts(i.value) && e < |Steps(i.value)|
      && Steps(i.value)[e] == Step(Arith(op.kind), Sram, [At(ty, op.lhs) + 2 * e, At(ty, op.rhs) + 2 * RhsIndex(ty, op, e)],
                                   Sram, [At(ty, op.out) + 2 * e])
  {
    hide Place, Fits, Size, EmitOp, U32, At, Steps, Asserts, RhsIndex, EwiseRhsAt;
    EwiseEmitted(ty, op);
    var d := EmitOp(ty, Place(ty), op).value.ew;
    RhsInside(ty, op, e);
    EwiseStepAt(op.kind, d, e);
    BufferBounds(ty, op.out);
    BufferBounds(ty, op.rhs);
    EwiseRhsIs(ty, op, d, e);
    WordAddress(ty, op.lhs, e);
    WordAddress(ty, op.out, e);
    WordAddress(ty, op.rhs, RhsIndex(ty, op, e));
  }

  lemma EwiseElementIs(ty: Typing, m: Mem, st: State, op: IrOp, e: nat)
    requires Sim(m, ty, st) && op.EwiseOp? && WellTyped(ty, op) && Elements(ty, st, op).Some?
    requires e < Size(ty.buf[op.out]) && 0 <= RhsIndex(ty, op, e) < Size(ty.buf[op.rhs])
    ensures e < |Elements(ty, st, op).value| && op.lhs in st.bufs && op.rhs in st.bufs
    ensures e < |st.bufs[op.lhs]| && RhsIndex(ty, op, e) < |st.bufs[op.rhs]|
    ensures Elements(ty, st, op).value[e]
      == Element(Arith(op.kind), [st.bufs[op.lhs][e], st.bufs[op.rhs][RhsIndex(ty, op, e)]])
  {
    hide Sim, Size;
    SimSizes(m, ty, st, op.lhs);
    SimSizes(m, ty, st, op.rhs);
  }

  lemma EwiseServes(ty: Typing, m: Mem, st: State, op: IrOp, e: nat)
    requires Fits(ty) && Sim(m, ty, st) && op.EwiseOp? && WellTyped(ty, op) && Elements(ty, st, op).Some?
    requires e < Size(ty.buf[op.out])
    ensures var i, xs := EmitOp(ty, Place(ty), op), Elements(ty, st, op).value;
      && i.Some? && Asserts(i.value) && e < |Steps(i.value)| && e < |xs|
      && Serves(m, ty, op.out, Steps(i.value)[e], xs[e], e)
  {
    hide Place, Fits, Sim, Size, Elements, EmitOp, Asserts, Steps, RhsIndex, SourceWordOf, Serves, At;
    EwiseStepIs(ty, op, e);
    EwiseElementIs(ty, m, st, op, e);
    OtherBufWord(m, ty, st, op.out, op.lhs, e, e);
    OtherBufWord(m, ty, st, op.out, op.rhs, RhsIndex(ty, op, e), e);
    ServesFromWords(m, ty, op.out, Steps(EmitOp(ty, Place(ty), op).value)[e], Elements(ty, st, op).value[e], e);
  }

  lemma SimSizes(m: Mem, ty: Typing, st: State, b: Buf)
    requires Sim(m, ty, st) && b in st.bufs
    ensures b < |ty.buf| && |st.bufs[b]| == Size(ty.buf[b])
  {
  }

  /** From steps that serve the elements to the IR's result. */
  lemma ServedOp<F>(f: Fpu<F>, ty: Typing, m: Mem, st: State, op: IrOp)
    requires Ready(f, ty, m, st, op) && (op.MatmulOp? || op.EwiseOp? || op.ActOp? || op.ReduceOp?)
    requires var i, xs := EmitOp(ty, Place(ty), op), Elements(ty, st, op).value;
      && i.Some? && Asserts(i.value) && |Steps(i.value)| == |xs| == Size(ty.buf[op.out])
      && forall e | 0 <= e < |xs| :: Serves(m, ty, op.out, Steps(i.value)[e], xs[e], e)
    ensures Refines(f, ty, m, st, op)
  {
    hide Place, Fits, Sim, Size, Elements, EmitOp, Asserts, Steps, Serves, Exec, Value;
    ComputedOp(f, ty, m, st, op.out, EmitOp(ty, Place(ty), op).value, Elements(ty, st, op).value);
  }

  /** The emitted instruction does to memory what the operation does to the state. */
  ghost predicate Refines<F>(f: Fpu<F>, ty: Typing, m: Mem, st: State, op: IrOp) {
    var i, st' := EmitOp(ty, Place(ty), op), EvalOp(f, ty, st, op);
    && i.Some? && st'.Some?
    && Exec(f, m, i.value).Some? && Sim(Exec(f, m, i.value).value, ty, st'.value)
  }

  lemma EwiseRefines<F>(f: Fpu<F>, ty: Typing, m: Mem, st: State, op: IrOp)
    requires Ready(f, ty, m, st, op) && op.EwiseOp?
    ensures Refines(f, ty, m, st, op)
  {
    hide Place, Fits, Sim, Size, EmitOp, Asserts, Steps, Serves, Refines, Value, EwiseElement;
    EwiseEmitted(ty, op);
    forall e: nat | e < Size(ty.buf[op.out])
      ensures e < |Steps(EmitOp(ty, Place(ty), op).value)| && e < |Elements(ty, st, op).value|
      ensures Serves(m, ty, op.out, Steps(EmitOp(ty, Place(ty), op).value)[e], Elements(ty, st, op).value[e], e)
    {
      EwiseServes(ty, m, st, op, e);
    }
    ServedOp(f, ty, m, st, op);
  }

  /** Where an element has no value, the instruction aborts. */
  lemma ServedAborts<F>(f: Fpu<F>, m: Mem, ty: Typing, out: Buf, steps: seq<Step>, xs: seq<Element>, e: nat)
    requires Fits(ty) && out < |ty.buf| && |steps| == |xs| == Size(ty.buf[out]) && e < |xs| && Value(f, xs[e]).None?
    requires forall k | 0 <= k < |xs| :: Serves(m, ty, out, steps[k], xs[k], k)
    ensures DoSteps(f, m, steps).None?
  {
    hide Eval, Fetch, Place, Fits, Size, In, U32, Serves, At, AllApart, WordInside;
    forall k | 0 <= k < |xs|
      ensures steps[k].dsts == [At(ty, out) + 2 * k] && steps[k].op == xs[k].op && Fetch(m, steps[k].srcs) == xs[k].inputs
      ensures forall l: nat | l < k :: AllApart([At(ty, out) + 2 * l], steps[k].srcs)
    {
      SizedWordInside(ty, out, k);
      ServedStep(m, ty, out, steps[k], xs[k], k);
    }
    NoResult(f, m, steps, e);
  }

  lemma EwiseAborts<F>(f: Fpu<F>, ty: Typing, m: Mem, st: State, op: IrOp)
    requires Fits(ty) && Sim(m, ty, st) && Traps(f, ty, st, op)
    ensures var i := EmitOp(ty, Place(ty), op); i.Some? && Exec(f, m, i.value).None?
  {
    hide Place, Fits, Sim, Size, EmitOp, Asserts, Steps, Serves, Value, EwiseElement, DoSteps;
    EwiseEmitted(ty, op);
    var i, xs := EmitOp(ty, Place(ty), op).value, Elements(ty, st, op).value;
    forall e: nat | e < Size(ty.buf[op.out])
      ensures e < |Steps(i)| && e < |xs| && Serves(m, ty, op.out, Steps(i)[e], xs[e], e)
    {
      EwiseServes(ty, m, st, op, e);
    }
    var e :| 0 <= e < |xs| && Value(f, xs[e]).None?;
    ServedAborts(f, m, ty, op.out, Steps(i), xs, e);
  }

  /* ---- activation ---- */

  lemma ActStepIs(ty: Typing, op: IrOp, e: nat)
    requires Fits(ty) && op.ActOp? && WellTyped(ty, op) && e < Size(ty.buf[op.out])
    ensures var i := EmitOp(ty, Place(ty), op);
      && i.Some? && Asserts(i.value) && |Steps(i.value)| == Size(ty.buf[op.out])
      && Steps(i.value)[e] == Step(Activate(op.act), Sram, [At(ty, op.arg) + 2 * e], Sram, [At(ty, op.out) + 2 * e])
  {
    hide Place, Fits, Size, In, U32;
    SizedWordInside(ty, op.arg, e);
    SizedWordInside(ty, op.out, e);
    BufferBounds(ty, op.arg);
    BufferBounds(ty, op.out);
    SmallU32(Size(ty.buf[op.arg]));
  }

  lemma ActServes(ty: Typing, m: Mem, st: State, op: IrOp, e: nat)
    requires Fits(ty) && Sim(m, ty, st) && op.ActOp? && WellTyped(ty, op) && Elements(ty, st, op).Some?
    requires e < Size(ty.buf[op.out])
    ensures var i, xs := EmitOp(ty, Place(ty), op), Elements(ty, st, op).value;
      && i.Some? && Asserts(i.value) && |Steps(i.value)| == |xs| == Size(ty.buf[op.out])
      && Serves(m, ty, op.out, Steps(i.value)[e], xs[e], e)
  {
    hide Place, Fits, Sim, Size, EmitOp, Asserts, Steps, SourceWordOf, Serves, At;
    ActStepIs(ty, op, e);
    SimSizes(m, ty, st, op.arg);
    OtherBufWord(m, ty, st, op.out, op.arg, e, e);
    ServesFromWords(m, ty, op.out, Steps(EmitOp(ty, Place(ty), op).value)[e], Elements(ty, st, op).value[e], e);
  }

  lemma ActRefines<F>(f: Fpu<F>, ty: Typing, m: Mem, st: State, op: IrOp)
    requires Ready(f, ty, m, st, op) && op.ActOp?
    ensures Refines(f, ty, m, st, op)
  {
    hide Place, Fits, Sim, EmitOp, Asserts, Steps, Serves, Refines, Value;
    NonEmptySize(ty, op.out);
    forall e: nat | e < Size(ty.buf[op.out])
      ensures EmitOp(ty, Place(ty), op).Some? && Asserts(EmitOp(ty, Place(ty), op).value)
      ensures |Steps(EmitOp(ty, Place(ty), op).value)| == |Elements(ty, st, op).value| == Size(ty.buf[op.out])
      ensures Serves(m, ty, op.out, Steps(EmitOp(ty, Place(ty), op).value)[e], Elements(ty, st, op).value[e], e)
    {
      ActServes(ty, m, st, op, e);
    }
    ActServes(ty, m, st, op, 0);
    ServedOp(f, ty, m, st, op);
  }

  lemma NonEmptySize(ty: Typing, b: Buf)
    requires Fits(ty) && b < |ty.buf|
    ensures 0 < Size(ty.buf[b])
  {
    hide Place;
    BufferBounds(ty, b);
  }

  /* ---- reduction ---- */

  /** The sources of the fold over row `e`. */
  function RowWords(ty: Typing, op: IrOp, e: nat): seq<int>
    requires op.ReduceOp? && WellTyped(ty, op)
  {
    seq(ty.buf[op.arg].cols, j requires j >= 0 => At(ty, op.arg) + 2 * (e * ty.buf[op.arg].cols + j))
  }

  lemma ReduceAddress(ty: Typing, op: IrOp, e: nat, j: nat)
    requires Fits(ty) && op.ReduceOp? && WellTyped(ty, op) && e < ty.buf[op.arg].rows && j < ty.buf[op.arg].cols
    ensures 0 <= e * ty.buf[op.arg].cols + j < Size(ty.buf[op.arg])
    ensures U32(U32(At(ty, op.arg) + 2 * U32(e * ty.buf[op.arg].cols)) + 2 * j)
      == At(ty, op.arg) + 2 * (e * ty.buf[op.arg].cols + j)
  {
    hide Place, Fits, U32;
    var shape := ty.buf[op.arg];
    RowMajor(e, j, shape.rows, shape.cols);
    RowMajor(e, 0, shape.rows, shape.cols);
    MulMonotone(shape.cols, 0, e);
    BufferBounds(ty, op.arg);
    SmallU32(e * shape.cols);
    SmallU32(At(ty, op.arg) + 2 * (e * shape.cols));
    SmallU32(At(ty, op.arg) + 2 * (e * shape.cols + j));
  }

  lemma ReduceStepIs(ty: Typing, op: IrOp, e: nat)
    requires Fits(ty) && op.ReduceOp? && WellTyped(ty, op) && e < Size(ty.buf[op.out])
    ensures var i := EmitOp(ty, Place(ty), op);
      && i.Some? && Asserts(i.value) && |Steps(i.value)| == Size(ty.buf[op.out])
      && Steps(i.value)[e] == Step(Fold(op.red), Sram, RowWords(ty, op, e), Sram, [At(ty, op.out) + 2 * e])
  {
    hide Place, Fits, In, U32;
    BufferBounds(ty, op.arg);
    BufferBounds(ty, op.out);
    SmallU32(ty.buf[op.arg].rows);
    SmallU32(ty.buf[op.arg].cols);
    SizedWordInside(ty, op.out, e);
    var i := EmitOp(ty, Place(ty), op).value;
    forall j: nat | j < ty.buf[op.arg].cols
      ensures Steps(i)[e].srcs[j] == RowWords(ty, op, e)[j]
    {
      ReduceAddress(ty, op, e, j);
    }
    assert Steps(i)[e].srcs == RowWords(ty, op, e);
  }

  lemma ReduceServes(ty: Typing, m: Mem, st: State, op: IrOp, e: nat)
    requires Fits(ty) && Sim(m, ty, st) && op.ReduceOp? && WellTyped(ty, op) && Elements(ty, st, op).Some?
    requires e < Size(ty.buf[op.out])
    ensures var i, xs := EmitOp(ty, Place(ty), op), Elements(ty, st, op).value;
      && i.Some? && Asserts(i.value) && |Steps(i.value)| == |xs| == Size(ty.buf[op.out])
      && Serves(m, ty, op.out, Steps(i.value)[e], xs[e], e)
  {
    hide Place, Fits, Sim, EmitOp, Asserts, Steps, SourceWordOf, Serves, At, WordInside, U32;
    ReduceStepIs(ty, op, e);
    SimSizes(m, ty, st, op.arg);
    var cols := ty.buf[op.arg].cols;
    var s, x := Steps(EmitOp(ty, Place(ty), op).value)[e], Elements(ty, st, op).value[e];
    RowInside(e, ty.buf[op.arg].rows, cols);
    forall j: nat | j < cols
      ensures SourceWordOf(m, ty, op.out, s.srcs[j], x.inputs[j], e)
    {
      ReduceAddress(ty, op, e, j);
      OtherBufWord(m, ty, st, op.out, op.arg, e * cols + j, e);
    }
    ServesFromWords(m, ty, op.out, s, x, e);
  }

  lemma ReduceRefines<F>(f: Fpu<F>, ty: Typing, m: Mem, st: State, op: IrOp)
    requires Ready(f, ty, m, st, op) && op.ReduceOp?
    ensures Refines(f, ty, m, st, op)
  {
    hide Place, Fits, Sim, EmitOp, Asserts, Steps, Serves, Refines, Value, Elements;
    NonEmptySize(ty, op.out);
    forall e: nat | e < Size(ty.buf[op.out])
      ensures EmitOp(ty, Place(ty), op).Some? && Asserts(EmitOp(ty, Place(ty), op).value)
      ensures |Steps(EmitOp(ty, Place(ty), op).value)| == |Elements(ty, st, op).value| == Size(ty.buf[op.out])
      ensures Serves(m, ty, op.out, Steps(EmitOp(ty, Place(ty), op).value)[e], Elements(ty, st, op).value[e], e)
    {
      ReduceServes(ty, m, st, op, e);
    }
    ReduceServes(ty, m, st, op, 0);
    ServedOp(f, ty, m, st, op);
  }

  /* ---- matrix product ---- */

  lemma {:induction false} MatmulRowsLength(d: MatmulParam, m: nat)
    ensures |MatmulRows(d, m)| == m * d.N
    decreases m
  {
    hide MatmulStep;
    if m > 0 {
      MatmulRowsLength(d, m - 1);
      assert m * d.N == (m - 1) * d.N + d.N;
    }
  }

  lemma {:induction false} MatmulRowsAt(d: MatmulParam, m: nat, i: nat, j: nat)
    requires i < m && j < d.N
    ensures 0 <= i * d.N + j < |MatmulRows(d, m)| && MatmulRows(d, m)[i * d.N + j] == MatmulStep(d, i, j)
    decreases m
  {
    hide MatmulStep;
    MatmulRowsLength(d, m - 1);
    MulMonotone(d.N, 0, i);
    if i < m - 1 {
      MatmulRowsAt(d, m - 1, i, j);
    }
  }

  lemma Split(e: nat, n: nat)
    requires n > 0
    ensures e == (e / n) * n + e % n
  {
  }

  /** Step `e` computes element (e / N, e % N). */
  lemma MatmulStepAt(d: MatmulParam, e: nat, i: nat, j: nat)
    requires d.N > 0 && e < d.M * d.N && i == e / d.N && j == e % d.N
    ensures |MatmulSteps(d)| == d.M * d.N && MatmulSteps(d)[e] == MatmulStep(d, i, j)
  {
    hide MatmulStep, MatmulRows;
    RowOf(e, d.M, d.N);
    MatmulRowsLength(d, d.M);
    MatmulRowsAt(d, d.M, i, j);
    Split(e, d.N);
  }

  function LhsIndex(ty: Typing, op: IrOp, i: nat, k: nat): nat
    requires op.MatmulOp? && WellTyped(ty, op)
  {
    if op.transA then k * Dims(ty, op).0 + i else i * Dims(ty, op).1 + k
  }

  function RhsAtIndex(ty: Typing, op: IrOp, k: nat, j: nat): nat
    requires op.MatmulOp? && WellTyped(ty, op)
  {
    if op.transB then j * Dims(ty, op).1 + k else k * Dims(ty, op).2 + j
  }

  lemma MatmulSizes(ty: Typing, op: IrOp)
    requires Fits(ty) && op.MatmulOp? && WellTyped(ty, op)
    ensures var (M, K, N) := Dims(ty, op);
      && 1 <= M < 0x4000_0000 && 1 <= K < 0x4000_0000 && 1 <= N < 0x4000_0000
      && Size(ty.buf[op.lhs]) == M * K && Size(ty.buf[op.rhs]) == K * N && Size(ty.buf[op.out]) == M * N
  {
    hide Fits, At, U32;
    BufferBounds(ty, op.lhs);
    BufferBounds(ty, op.rhs);
    BufferBounds(ty, op.out);
  }

  lemma MatmulBufs(ty: Typing, op: IrOp)
    requires op.MatmulOp? && WellTyped(ty, op)
    ensures op.lhs < |ty.buf| && op.rhs < |ty.buf| && op.out < |ty.buf|
    ensures op.lhs != op.out && op.rhs != op.out && op.lhs != op.rhs
  {
    hide Dims;
  }

  lemma MatmulDims(ty: Typing, op: IrOp)
    requires Fits(ty) && op.MatmulOp? && WellTyped(ty, op)
    ensures var d := Dims(ty, op); U32(d.0) == d.0 && U32(d.1) == d.1 && U32(d.2) == d.2
    ensures op.lhs < |ty.buf| && op.rhs < |ty.buf| && op.out < |ty.buf|
    ensures op.lhs != op.out && op.rhs != op.out && op.lhs != op.rhs
  {
    MatmulBufs(ty, op);
    MatmulSizes(ty, op);
    hide Fits, Dims, Size, WellTyped, U32;
    SmallU32(Dims(ty, op).0);
    SmallU32(Dims(ty, op).1);
    SmallU32(Dims(ty, op).2);
  }

  lemma MatmulIndices(ty: Typing, op: IrOp, i: nat, k: nat, j: nat)
    requires Fits(ty) && op.MatmulOp? && WellTyped(ty, op)
    requires i < Dims(ty, op).0 && k < Dims(ty, op).1 && j < Dims(ty, op).2
    ensures LhsIndex(ty, op, i, k) < Size(ty.buf[op.lhs])
    ensures RhsAtIndex(ty, op, k, j) < Size(ty.buf[op.rhs])
  {
    hide Size, Fits;
    var (M, K, N) := Dims(ty, op);
    MatmulSizes(ty, op);
    if op.transA { RowMajor(k, i, K, M); } else { RowMajor(i, k, M, K); }
    if op.transB { RowMajor(j, k, N, K); } else { RowMajor(k, j, K, N); }
  }

  function MatmulDescriptor(ty: Typing, op: IrOp): MatmulParam
    requires Fits(ty) && op.MatmulOp? && WellTyped(ty, op)
  {
    var (M, K, N) := Dims(ty, op);
    MatmulParam(U32(At(ty, op.out)), U32(At(ty, op.rhs)), U32(At(ty, op.lhs)), U32(M), U32(K), U32(N),
                if op.acc then 1 else 0, op.transA, op.transB)
  }

  /** The fields hold the addresses and dimensions themselves. */
  ghost predicate Plainly(ty: Typing, op: IrOp, d: MatmulParam)
    requires op.MatmulOp? && WellTyped(ty, op)
  {
    && d.dstAddr == At(ty, op.out) && d.rhsAddr == At(ty, op.rhs) && d.lhsAddr == At(ty, op.lhs)
    && d.M == Dims(ty, op).0 && d.K == Dims(ty, op).1 && d.N == Dims(ty, op).2
    && (d.accumulate != 0 <==> op.acc) && d.transA == op.transA && d.transB == op.transB
  }

  lemma MatmulEmitted(ty: Typing, op: IrOp)
    requires Fits(ty) && op.MatmulOp? && WellTyped(ty, op)
    ensures EmitOp(ty, Place(ty), op) == Some(Matmul(MatmulDescriptor(ty, op))) && Asserts(Matmul(MatmulDescriptor(ty, op)))
    ensures Plainly(ty, op, MatmulDescriptor(ty, op))
  {
    hide Place, Fits, U32, Size, Dims, Asserts, WellTyped, EmitOp, MatmulDescriptor;
    MatmulDims(ty, op);
    MatmulFields(ty, op);
    EmittedMatmul(ty, op);
    MatmulApart(ty, op, MatmulDescriptor(ty, op));
  }

  lemma EmittedMatmul(ty: Typing, op: IrOp)
    requires Fits(ty) && op.MatmulOp? && WellTyped(ty, op)
    ensures EmitOp(ty, Place(ty), op) == Some(Matmul(MatmulDescriptor(ty, op)))
  {
    hide Place, Fits, U32, Dims;
  }

  lemma MatmulFields(ty: Typing, op: IrOp)
    requires Fits(ty) && op.MatmulOp? && WellTyped(ty, op)
    ensures Plainly(ty, op, MatmulDescriptor(ty, op))
  {
    hide Place, Fits, U32, Size, Dims, WellTyped;
    MatmulDims(ty, op);
    BufferBounds(ty, op.out);
    BufferBounds(ty, op.lhs);
    BufferBounds(ty, op.rhs);
  }

  /** The operands do not overlap. */
  lemma MatmulApart(ty: Typing, op: IrOp, d: MatmulParam)
    requires Fits(ty) && op.MatmulOp? && WellTyped(ty, op)
    requires Plainly(ty, op, d)
    ensures Asserts(Matmul(d))
  {
    hide Place, Fits, U32, Size, Dims;
    MatmulSizes(ty, op);
    BufferBounds(ty, op.out);
    BufferBounds(ty, op.lhs);
    BufferBounds(ty, op.rhs);
    Ends(At(ty, op.out), d.M * d.N);
    Ends(At(ty, op.lhs), d.M * d.K);
    Ends(At(ty, op.rhs), d.K * d.N);
    BufferAway(ty, op.out, op.lhs);
    BufferAway(ty, op.out, op.rhs);
    BufferAway(ty, op.lhs, op.rhs);
  }

  lemma Ends(a: int, n: int)
    requires SRAM_ADDR <= a && 0 <= n && a + 2 * n <= SRAM_ADDR + SRAM_SIZE
    ensures U32(a + 2 * U32(n)) == a + 2 * n
  {
  }

  /** The source addresses of the step for element `e`. */
  function MatmulSources(ty: Typing, op: IrOp, e: nat): seq<int>
    requires op.MatmulOp? && WellTyped(ty, op) && Dims(ty, op).2 > 0
  {
    var (M, K, N) := Dims(ty, op);
    seq(K, k requires k >= 0 => At(ty, op.lhs) + 2 * LhsIndex(ty, op, e / N, k))
      + seq(K, k requires k >= 0 => At(ty, op.rhs) + 2 * RhsAtIndex(ty, op, k, e % N))
      + (if op.acc then [At(ty, op.out) + 2 * e] else [])
  }

  lemma MatmulAddresses(ty: Typing, op: IrOp, d: MatmulParam, i: nat, k: nat, j: nat)
    requires Fits(ty) && op.MatmulOp? && WellTyped(ty, op)
    requires EmitOp(ty, Place(ty), op) == Some(Matmul(d))
    requires i < Dims(ty, op).0 && k < Dims(ty, op).1 && j < Dims(ty, op).2
    ensures LhsAt(d, i, k) == At(ty, op.lhs) + 2 * LhsIndex(ty, op, i, k)
    ensures RhsAt(d, k, j) == At(ty, op.rhs) + 2 * RhsAtIndex(ty, op, k, j)
  {
    hide Place, Fits, U32, Size, Dims, EmitOp, Asserts;
    MatmulEmitted(ty, op);
    MatmulIndices(ty, op, i, k, j);
    var x, y := LhsIndex(ty, op, i, k), RhsAtIndex(ty, op, k, j);
    assert LhsAt(d, i, k) == U32(d.lhsAddr + 2 * U32(x)) && RhsAt(d, k, j) == U32(d.rhsAddr + 2 * U32(y));
    hide LhsAt, RhsAt, LhsIndex, RhsAtIndex, WellTyped;
    SizedWordInside(ty, op.lhs, x);
    SizedWordInside(ty, op.rhs, y);
  }

  lemma MatmulStepIs(ty: Typing, op: IrOp, e: nat)
    requires Fits(ty) && op.MatmulOp? && WellTyped(ty, op) && e < Size(ty.buf[op.out])
    ensures var i := EmitOp(ty, Place(ty), op);
      && Dims(ty, op).2 > 0
      && i.Some? && Asserts(i.value) && |Steps(i.value)| == Size(ty.buf[op.out])
      && Steps(i.value)[e] == Step(Dot(Dims(ty, op).1, op.acc), Sram, MatmulSources(ty, op, e), Sram, [At(ty, op.out) + 2 * e])
  {
    hide Place, Fits, U32, Size, Dims, EmitOp, Asserts, LhsAt, RhsAt, LhsIndex, RhsAtIndex, MatmulSteps, At;
    MatmulEmitted(ty, op);
    MatmulSizes(ty, op);
    var (M, K, N) := Dims(ty, op);
    var d := EmitOp(ty, Place(ty), op).value.mm;
    var i, j := e / N, e % N;
    RowOf(e, M, N);
    Split(e, N);
    MatmulStepAt(d, e, i, j);
    SizedWordInside(ty, op.out, e);
    assert DstAt(d, i, j) == At(ty, op.out) + 2 * e;
    forall k: nat | k < K
      ensures LhsAt(d, i, k) == At(ty, op.lhs) + 2 * LhsIndex(ty, op, i, k)
      ensures RhsAt(d, k, j) == At(ty, op.rhs) + 2 * RhsAtIndex(ty, op, k, j)
    {
      MatmulAddresses(ty, op, d, i, k, j);
    }
    assert MatmulStep(d, i, j).srcs == MatmulSources(ty, op, e);
  }

  lemma LhsSource(ty: Typing, m: Mem, st: State, op: IrOp, i: nat, k: nat, e: nat)
    requires Fits(ty) && Sim(m, ty, st) && op.MatmulOp? && WellTyped(ty, op) && op.lhs in st.bufs
    requires i < Dims(ty, op).0 && k < Dims(ty, op).1
    ensures SourceWordOf(m, ty, op.out, At(ty, op.lhs) + 2 * LhsIndex(ty, op, i, k),
                         LhsWord(st.bufs[op.lhs], Dims(ty, op).0, Dims(ty, op).1, op.transA, i, k), e)
  {
    hide Sim, Size, Dims, Fits, SourceWordOf, At;
    MatmulDims(ty, op);
    MatmulSizes(ty, op);
    MatmulIndices(ty, op, i, k, 0);
    SimSizes(m, ty, st, op.lhs);
    OtherBufWord(m, ty, st, op.out, op.lhs, LhsIndex(ty, op, i, k), e);
  }

  lemma RhsSource(ty: Typing, m: Mem, st: State, op: IrOp, k: nat, j: nat, e: nat)
    requires Fits(ty) && Sim(m, ty, st) && op.MatmulOp? && WellTyped(ty, op) && op.rhs in st.bufs
    requires k < Dims(ty, op).1 && j < Dims(ty, op).2
    ensures SourceWordOf(m, ty, op.out, At(ty, op.rhs) + 2 * RhsAtIndex(ty, op, k, j),
                         RhsWord(st.bufs[op.rhs], Dims(ty, op).1, Dims(ty, op).2, op.transB, k, j), e)
  {
    hide Sim, Size, Dims, Fits, SourceWordOf, At;
    MatmulDims(ty, op);
    MatmulSizes(ty, op);
    MatmulIndices(ty, op, 0, k, j);
    SimSizes(m, ty, st, op.rhs);
    OtherBufWord(m, ty, st, op.out, op.rhs, RhsAtIndex(ty, op, k, j), e);
  }

  lemma MatmulElementAt(ty: Typing, m: Mem, st: State, op: IrOp, e: nat)
    requires Fits(ty) && Sim(m, ty, st) && op.MatmulOp? && WellTyped(ty, op) && Elements(ty, st, op).Some?
    requires e < Size(ty.buf[op.out])
    ensures op.lhs in st.bufs && op.rhs in st.bufs
    ensures op.acc ==> op.out in st.bufs && e < |st.bufs[op.out]|
    ensures Dims(ty, op).2 > 0 && |Elements(ty, st, op).value| == Size(ty.buf[op.out])
    ensures Elements(ty, st, op).value[e]
      == MatmulElement(st.bufs[op.lhs], st.bufs[op.rhs], if op.acc then st.bufs[op.out] else [],
                       Dims(ty, op).0, Dims(ty, op).1, Dims(ty, op).2, op, e)
  {
    hide Sim, Dims, Fits, Size, MatmulElement;
    MatmulSizes(ty, op);
  }

  lemma MatmulServes(ty: Typing, m: Mem, st: State, op: IrOp, e: nat)
    requires Fits(ty) && Sim(m, ty, st) && op.MatmulOp? && WellTyped(ty, op) && Elements(ty, st, op).Some?
    requires e < Size(ty.buf[op.out])
    ensures var i, xs := EmitOp(ty, Place(ty), op), Elements(ty, st, op).value;
      && i.Some? && Asserts(i.value) && |Steps(i.value)| == |xs| == Size(ty.buf[op.out])
      && Serves(m, ty, op.out, Steps(i.value)[e], xs[e], e)
  {
    hide Place, Fits, Sim, Size, Dims, Elements, EmitOp, WellTyped, Asserts, Steps, Serves, SourceWordOf, At, LhsWord, RhsWord,
      LhsIndex, RhsAtIndex;
    MatmulDims(ty, op);
    MatmulStepIs(ty, op, e);
    MatmulElementAt(ty, m, st, op, e);
    var (M, K, N) := Dims(ty, op);
    DivMod(ty, op, e);
    var s, x := Steps(EmitOp(ty, Place(ty), op).value)[e], Elements(ty, st, op).value[e];
    forall j: nat | j < |s.srcs|
      ensures SourceWordOf(m, ty, op.out, s.srcs[j], x.inputs[j], e)
    {
      if j < K {
        LhsSource(ty, m, st, op, e / N, j, e);
      } else if j < 2 * K {
        RhsSource(ty, m, st, op, j - K, e % N, e);
      } else {
        OwnWord(m, ty, st, op.out, e);
      }
    }
    ServesFromWords(m, ty, op.out, s, x, e);
  }

  lemma DivMod(ty: Typing, op: IrOp, e: nat)
    requires Fits(ty) && op.MatmulOp? && WellTyped(ty, op) && e < Size(ty.buf[op.out])
    ensures Dims(ty, op).2 > 0 && 0 <= e / Dims(ty, op).2 < Dims(ty, op).0
  {
    hide Fits, Dims, Size;
    MatmulSizes(ty, op);
    RowOf(e, Dims(ty, op).0, Dims(ty, op).2);
  }

  lemma MatmulRefines<F>(f: Fpu<F>, ty: Typing, m: Mem, st: State, op: IrOp)
    requires Ready(f, ty, m, st, op) && op.MatmulOp?
    ensures Refines(f, ty, m, st, op)
  {
    hide Place, Fits, Sim, Size, EmitOp, Asserts, Steps, Serves, Refines, Value, Elements, Dims;
    NonEmptySize(ty, op.out);
    forall e: nat | e < Size(ty.buf[op.out])
      ensures EmitOp(ty, Place(ty), op).Some? && Asserts(EmitOp(ty, Place(ty), op).value)
      ensures |Steps(EmitOp(ty, Place(ty), op).value)| == |Elements(ty, st, op).value| == Size(ty.buf[op.out])
      ensures Serves(m, ty, op.out, Steps(EmitOp(ty, Place(ty), op).value)[e], Elements(ty, st, op).value[e], e)
    {
      MatmulServes(ty, m, st, op, e);
    }
    MatmulServes(ty, m, st, op, 0);
    ServedOp(f, ty, m, st, op);
  }
}
