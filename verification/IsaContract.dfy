/** What the compute instructions leave in SRAM, as sections 4 to 7 of `docs/spec/isa.md` describe
    them, kind codes as numbers, for operands inside SRAM. */
module IsaContract {
  import opened Arithmetic
  import opened Types
  import opened Machine
  import opened EclipseIR
  import opened StepValues
  import opened EmissionCorrect
  import LoweredOps
  import ReduceFold
  import Broadcast
  import Emission
  import EmittedCompute
  import CModel

  /** `n` words from `base` on lie inside SRAM. */
  predicate InSram(base: int, n: nat) { SRAM_ADDR <= base && base + 2 * n <= SRAM_ADDR + SRAM_SIZE }

  /** The output is in front of the input, or apart from it: nothing is overwritten before it is read. */
  predicate ReadFirst(dst: int, n: nat, src: int, k: nat) { dst <= src || RangesApart(dst, n, src, k) }

  /** Element `k` of the operand at `base`. */
  function At<F>(f: Fpu<F>, m: Mem, base: int, k: int): F { f.dec(Load16(m, base + 2 * k)) }

  /** The instruction completes, and the words of this memory apart from its `n` results stay. */
  ghost predicate Completes(m: Mem, r: Option<Mem>, dst: int, n: nat) {
    && r.Some? && Full(r.value)
    && forall b: int, k: nat {:trigger Row(b, k)} | RangesApart(dst, n, b, k) :: Fetch(r.value, Row(b, k)) == Fetch(m, Row(b, k))
  }

  lemma InSramWord(base: int, n: nat, k: nat)
    requires InSram(base, n) && k < n
    ensures Reachable(Sram, [base + 2 * k]) && In(Sram, base + 2 * k) && In(Sram, base + 2 * k + 1) && U32(base + 2 * k) == base + 2 * k
  {
  }

  lemma IndexedWord(base: int, n: nat, k: nat)
    requires InSram(base, n) && k < n
    ensures Reachable(Sram, [base + 2 * k]) && U32(base + 2 * U32(k)) == base + 2 * k
  {
    InSramWord(base, n, k);
    Emission.NoWrap(k);
  }

  lemma HeldWord(m: Mem, base: int, t: Tensor, e: nat)
    requires Holds(m, base, t) && e < |t|
    ensures Load16(m, base + 2 * e) == t[e]
  {
    hide Load16;
    assert Fetch(m, Row(base, |t|))[e] == Load16(m, base + 2 * e);
  }

  /** An instruction of one-word steps leaves their values. */
  lemma InstrLeaves<F>(f: Fpu<F>, m: Mem, i: Instr, xs: seq<Element>, dst: int)
    requires Full(m) && Asserts(i) && Computes(f, m, Steps(i), xs, dst)
    ensures Completes(m, Exec(f, m, i), dst, |xs|)
    ensures forall e: nat | e < |xs| :: Value(f, xs[e]) == Some(Load16(Exec(f, m, i).value, dst + 2 * e))
  {
    hide Full, Load16, Value, DoSteps, Holds, Computes, Steps, Asserts;
    ComputesResult(f, m, Steps(i), xs, dst);
    HaveValues(f, m, Steps(i), xs, dst);
    var m' := DoSteps(f, m, Steps(i)).value;
    forall e: nat | e < |xs|
      ensures Value(f, xs[e]) == Some(Load16(m', dst + 2 * e))
    {
      HeldWord(m', dst, Values(f, xs), e);
    }
  }

  lemma HaveValues<F>(f: Fpu<F>, m: Mem, steps: seq<Step>, xs: seq<Element>, dst: int)
    requires Computes(f, m, steps, xs, dst)
    ensures forall e | 0 <= e < |xs| :: Value(f, xs[e]).Some?
  {
  }

  /** Step `s` computes element `x` into the word at `base + 2 * e`, and no earlier result is in its way. */
  ghost predicate ComputesAt<F>(f: Fpu<F>, m: Mem, s: Step, x: Element, base: int, e: nat) {
    && s.op == x.op && s.dsts == [base + 2 * e]
    && Reachable(s.from, s.srcs) && Reachable(s.to, s.dsts)
    && Fetch(m, s.srcs) == x.inputs && Value(f, x).Some?
    && forall k | 0 <= k < e :: AllApart([base + 2 * k], s.srcs)
  }

  lemma AllCompute<F>(f: Fpu<F>, m: Mem, steps: seq<Step>, xs: seq<Element>, base: int)
    requires |steps| == |xs| && forall e: nat | e < |xs| :: ComputesAt(f, m, steps[e], xs[e], base, e)
    ensures Computes(f, m, steps, xs, base)
  {
    hide Reachable, Fetch, Value, AllApart;
  }

  /* ---- ACT ---- */

  function ActElements(m: Mem, d: ActParam, kind: ActKind): seq<Element> {
    seq(d.n, e requires e >= 0 => Element(Activate(kind), [Load16(m, d.srcAddr + 2 * e)]))
  }

  lemma ActStepComputes(m: Mem, d: ActParam, kind: ActKind, e: nat)
    requires InSram(d.srcAddr, d.n) && InSram(d.dstAddr, d.n) && ReadFirst(d.dstAddr, d.n, d.srcAddr, d.n) && e < d.n
    ensures ActStep(d, kind, e) == Step(Activate(kind), Sram, [d.srcAddr + 2 * e], Sram, [d.dstAddr + 2 * e])
    ensures Reachable(Sram, [d.srcAddr + 2 * e]) && Reachable(Sram, [d.dstAddr + 2 * e])
    ensures Fetch(m, [d.srcAddr + 2 * e]) == [Load16(m, d.srcAddr + 2 * e)]
    ensures forall k | 0 <= k < e :: AllApart([d.dstAddr + 2 * k], [d.srcAddr + 2 * e])
  {
    InSramWord(d.srcAddr, d.n, e);
    InSramWord(d.dstAddr, d.n, e);
    hide Load16, U32, In;
  }

  lemma ActComputes<F>(f: Fpu<F>, m: Mem, d: ActParam, kind: ActKind)
    requires InSram(d.srcAddr, d.n) && InSram(d.dstAddr, d.n) && ReadFirst(d.dstAddr, d.n, d.srcAddr, d.n)
    requires ActKindOf(d.kind) == Some(kind)
    ensures Computes(f, m, Steps(Act(d)), ActElements(m, d, kind), d.dstAddr)
  {
    hide Load16, Reachable, AllApart, InSram, ReadFirst, ActStep, Fetch, Computes;
    var steps, xs := Steps(Act(d)), ActElements(m, d, kind);
    forall e: nat | e < d.n
      ensures ComputesAt(f, m, steps[e], xs[e], d.dstAddr, e)
    {
      ActStepComputes(m, d, kind, e);
      ActValueIs(f, d.kind, Load16(m, d.srcAddr + 2 * e));
    }
    AllCompute(f, m, steps, xs, d.dstAddr);
  }

  /** What ACT stores for `x`: kind 0 is relu, 1 exp, 2 the reciprocal square root, 3 silu. */
  function ActResult<F>(f: Fpu<F>, kind: Dword, x: F): F
    requires kind < 4
  {
    if kind == 0 then (if f.gt(x, f.zero) then x else f.zero)
    else if kind == 1 then f.exp(x)
    else if kind == 2 then f.rsqrt(x)
    else f.silu(x)
  }

  lemma ActValueIs<F>(f: Fpu<F>, code: Dword, w: Word)
    requires code < 4
    ensures ActKindOf(code).Some? && Value(f, Element(Activate(ActKindOf(code).value), [w])) == Some(f.enc(ActResult(f, code, f.dec(w))))
  {
  }

  lemma NoSuchKind<F>(f: Fpu<F>, m: Mem, d: ActParam)
    requires d.kind >= 4
    ensures Exec(f, m, Act(d)).None?
  {
  }

  /** There is no kind but these four. */
  lemma ActLeaves<F>(f: Fpu<F>, m: Mem, d: ActParam)
    requires Full(m) && InSram(d.srcAddr, d.n) && InSram(d.dstAddr, d.n) && ReadFirst(d.dstAddr, d.n, d.srcAddr, d.n)
    ensures d.kind >= 4 ==> Exec(f, m, Act(d)).None?
    ensures d.kind < 4 ==> Completes(m, Exec(f, m, Act(d)), d.dstAddr, d.n)
    ensures d.kind < 4 ==> forall e: nat | e < d.n ::
      Load16(Exec(f, m, Act(d)).value, d.dstAddr + 2 * e) == f.enc(ActResult(f, d.kind, At(f, m, d.srcAddr, e)))
  {
    hide Full, Load16, Exec, Completes, InSram, ReadFirst, Steps, Computes, Value, ActResult, Fetch;
    if d.kind >= 4 {
      NoSuchKind(f, m, d);
    }
    if d.kind < 4 {
      var kind := ActKindOf(d.kind).value;
      var xs := ActElements(m, d, kind);
      ActComputes(f, m, d, kind);
      InstrLeaves(f, m, Act(d), xs, d.dstAddr);
      forall e: nat | e < d.n
        ensures Value(f, xs[e]) == Some(f.enc(ActResult(f, d.kind, At(f, m, d.srcAddr, e))))
      {
        ActValueIs(f, d.kind, Load16(m, d.srcAddr + 2 * e));
      }
    }
  }

  /* ---- ELEMENTWISE ---- */

  /** s(i): where in the right operand element `e` of the output finds its partner. */
  function Partner(d: EwiseParam, e: nat): int
    requires d.cols != 0 && d.rhsBlk != 0
  {
    e / d.cols * d.rhsStride + e % d.cols % d.rhsBlk
  }

  /** Words the right operand has to have. */
  function RhsWords(d: EwiseParam): nat
    requires d.rows != 0
  {
    MulMonotone(d.rhsStride, 0, d.rows - 1);
    (d.rows - 1) * d.rhsStride + d.rhsBlk
  }

  /** Operands inside SRAM that the output does not overwrite too early. */
  ghost predicate EwisePlaced(d: EwiseParam) {
    && d.rows != 0 && d.cols != 0 && d.rhsBlk != 0 && d.cols % d.rhsBlk == 0
    && InSram(d.dstAddr, d.rows * d.cols) && InSram(d.lhsAddr, d.rows * d.cols) && InSram(d.rhsAddr, RhsWords(d))
    && ReadFirst(d.dstAddr, d.rows * d.cols, d.lhsAddr, d.rows * d.cols)
    && RangesApart(d.dstAddr, d.rows * d.cols, d.rhsAddr, RhsWords(d))
  }

  lemma PartnerInside(d: EwiseParam, e: nat)
    requires d.rows != 0 && d.cols != 0 && d.rhsBlk != 0 && d.cols % d.rhsBlk == 0 && e < d.rows * d.cols
    ensures 0 <= Partner(d, e) < RhsWords(d) && Partner(d, e) == e / d.cols * d.rhsStride + e % d.rhsBlk
  {
    var r, c := e / d.cols, e % d.cols;
    RowOf(e, d.rows, d.cols);
    Broadcast.PositionInBlock(r, c, d.cols, d.rhsBlk);
    assert r * d.cols + c == e;
    MulMonotone(d.rhsStride, r, d.rows - 1);
    MulMonotone(d.rhsStride, 0, r);
  }

  lemma EwiseAddresses(d: EwiseParam, e: nat)
    requires EwisePlaced(d) && e < d.rows * d.cols
    ensures 0 <= Partner(d, e) < RhsWords(d)
    ensures U32(d.lhsAddr + 2 * e) == d.lhsAddr + 2 * e && U32(d.dstAddr + 2 * e) == d.dstAddr + 2 * e
    ensures EwiseRhsAt(d, e) == d.rhsAddr + 2 * Partner(d, e)
  {
    hide U32;
    PartnerInside(d, e);
    InSramWord(d.lhsAddr, d.rows * d.cols, e);
    InSramWord(d.dstAddr, d.rows * d.cols, e);
    InSramWord(d.rhsAddr, RhsWords(d), Partner(d, e));
    Emission.NoWrap(Partner(d, e));
  }

  function EwiseInputs(m: Mem, d: EwiseParam, e: nat): seq<Word>
    requires d.cols != 0 && d.rhsBlk != 0
  {
    [Load16(m, d.lhsAddr + 2 * e), Load16(m, d.rhsAddr + 2 * Partner(d, e))]
  }

  lemma EwiseStepIs(op: EwiseKind, d: EwiseParam, e: nat)
    requires EwisePlaced(d) && e < d.rows * d.cols
    ensures EwiseStep(op, d, e)
      == Step(Arith(op), Sram, [d.lhsAddr + 2 * e, d.rhsAddr + 2 * Partner(d, e)], Sram, [d.dstAddr + 2 * e])
  {
    assert d.cols != 0 && d.rhsBlk != 0;
    hide U32, EwiseRhsAt, Partner, RhsWords, EwisePlaced;
    EwiseAddresses(d, e);
  }

  lemma EwiseReachable(d: EwiseParam, e: nat)
    requires EwisePlaced(d) && e < d.rows * d.cols
    ensures Reachable(Sram, [d.lhsAddr + 2 * e, d.rhsAddr + 2 * Partner(d, e)]) && Reachable(Sram, [d.dstAddr + 2 * e])
  {
    EwiseAddresses(d, e);
    InSramWord(d.lhsAddr, d.rows * d.cols, e);
    InSramWord(d.dstAddr, d.rows * d.cols, e);
    InSramWord(d.rhsAddr, RhsWords(d), Partner(d, e));
    hide U32, In, EwiseRhsAt, Partner, RhsWords, EwisePlaced;
  }

  lemma EwiseApart(d: EwiseParam, e: nat, k: nat)
    requires EwisePlaced(d) && k < e < d.rows * d.cols
    ensures AllApart([d.dstAddr + 2 * k], [d.lhsAddr + 2 * e, d.rhsAddr + 2 * Partner(d, e)])
  {
    EwiseAddresses(d, e);
    var n, w, p := d.rows * d.cols, RhsWords(d), Partner(d, e);
    assert ReadFirst(d.dstAddr, n, d.lhsAddr, n) && RangesApart(d.dstAddr, n, d.rhsAddr, w) && k < e < n && 0 <= p < w;
    hide U32, EwiseRhsAt, Partner, RhsWords, EwisePlaced;
  }

  lemma EwiseFetch(m: Mem, d: EwiseParam, e: nat)
    requires d.cols != 0 && d.rhsBlk != 0
    ensures Fetch(m, [d.lhsAddr + 2 * e, d.rhsAddr + 2 * Partner(d, e)]) == EwiseInputs(m, d, e)
  {
    hide Load16, Partner;
  }

  lemma EwiseStepComputes(m: Mem, op: EwiseKind, d: EwiseParam, e: nat)
    requires EwisePlaced(d) && e < d.rows * d.cols
    ensures var s := EwiseStep(op, d, e);
      && s.op == Arith(op) && s.from == Sram && s.to == Sram && s.dsts == [d.dstAddr + 2 * e]
      && Reachable(Sram, s.srcs) && Reachable(Sram, s.dsts) && Fetch(m, s.srcs) == EwiseInputs(m, d, e)
      && forall k | 0 <= k < e :: AllApart([d.dstAddr + 2 * k], s.srcs)
  {
    assert d.cols != 0 && d.rhsBlk != 0;
    hide EwisePlaced, Reachable, AllApart, EwiseStep, Partner, EwiseInputs, Fetch;
    EwiseStepIs(op, d, e);
    EwiseReachable(d, e);
    EwiseFetch(m, d, e);
    forall k | 0 <= k < e
      ensures AllApart([d.dstAddr + 2 * k], EwiseStep(op, d, e).srcs)
    {
      EwiseApart(d, e, k);
    }
  }

  lemma EwiseSteps(op: EwiseKind, d: EwiseParam)
    requires EwisePlaced(d)
    ensures Asserts(Ewise(op, d)) && |Steps(Ewise(op, d))| == d.rows * d.cols
    ensures forall e: nat | e < d.rows * d.cols :: Steps(Ewise(op, d))[e] == EwiseStep(op, d, e)
  {
    hide EwiseStep, U32, RhsWords;
    Emission.NoWrap(d.rows * d.cols);
  }

  /** No element is divided by zero. */
  ghost predicate NoZero<F>(f: Fpu<F>, m: Mem, op: EwiseKind, d: EwiseParam)
    requires d.cols != 0 && d.rhsBlk != 0
  {
    op == Div ==> forall e: nat | e < d.rows * d.cols :: !f.eq(At(f, m, d.rhsAddr, Partner(d, e)), f.zero)
  }

  lemma ArithValueIs<F>(f: Fpu<F>, op: EwiseKind, l: Word, r: Word)
    requires op == Div ==> !f.eq(f.dec(r), f.zero)
    ensures Value(f, Element(Arith(op), [l, r])) == Some(LoweredOps.Combine(f, op, (l, r)))
  {
  }

  function EwiseElements(m: Mem, op: EwiseKind, d: EwiseParam): seq<Element>
    requires d.cols != 0 && d.rhsBlk != 0
  {
    seq(d.rows * d.cols, e requires 0 <= e < d.rows * d.cols => Element(Arith(op), EwiseInputs(m, d, e)))
  }

  lemma EwiseElementComputes<F>(f: Fpu<F>, m: Mem, op: EwiseKind, d: EwiseParam, e: nat)
    requires EwisePlaced(d) && NoZero(f, m, op, d) && e < d.rows * d.cols
    ensures ComputesAt(f, m, EwiseStep(op, d, e), Element(Arith(op), EwiseInputs(m, d, e)), d.dstAddr, e)
  {
    hide Load16, Value, Fetch, LoweredOps.Combine, Partner, EwiseStep, AllApart, Reachable;
    EwiseStepComputes(m, op, d, e);
    ArithValueIs(f, op, Load16(m, d.lhsAddr + 2 * e), Load16(m, d.rhsAddr + 2 * Partner(d, e)));
  }

  lemma EwiseComputes<F>(f: Fpu<F>, m: Mem, op: EwiseKind, d: EwiseParam)
    requires EwisePlaced(d) && NoZero(f, m, op, d)
    ensures Asserts(Ewise(op, d)) && d.cols != 0 && d.rhsBlk != 0
    ensures Computes(f, m, Steps(Ewise(op, d)), EwiseElements(m, op, d), d.dstAddr)
  {
    hide Steps, Asserts, EwiseStep, ComputesAt, Computes, NoZero, EwiseInputs;
    EwiseSteps(op, d);
    var steps, xs := Steps(Ewise(op, d)), EwiseElements(m, op, d);
    forall e: nat | e < |xs|
      ensures ComputesAt(f, m, steps[e], xs[e], d.dstAddr, e)
    {
      EwiseElementComputes(f, m, op, d, e);
    }
    AllCompute(f, m, steps, xs, d.dstAddr);
  }

  lemma ZeroDivisor<F>(f: Fpu<F>, m: Mem, d: EwiseParam, e: nat)
    requires d.cols != 0 && d.rhsBlk != 0 && f.eq(At(f, m, d.rhsAddr, Partner(d, e)), f.zero)
    ensures Eval(f, Arith(Div), EwiseInputs(m, d, e)).None?
  {
  }

  lemma EwiseStops<F>(f: Fpu<F>, m: Mem, d: EwiseParam, e: nat)
    requires EwisePlaced(d) && e < d.rows * d.cols && f.eq(At(f, m, d.rhsAddr, Partner(d, e)), f.zero)
    ensures Exec(f, m, Ewise(Div, d)).None?
  {
    hide Load16, Steps, Asserts, Fetch, Partner, EwiseStep, AllApart, Reachable, DoSteps, Eval, EwiseInputs, At;
    EwiseSteps(Div, d);
    assert d.cols != 0 && d.rhsBlk != 0;
    var steps := Steps(Ewise(Div, d));
    forall k | 0 <= k < e
      ensures steps[k].dsts == [d.dstAddr + 2 * k]
    {
      EwiseStepComputes(m, Div, d, k);
    }
    EwiseStepComputes(m, Div, d, e);
    hide EwisePlaced;
    ZeroDivisor(f, m, d, e);
    NoResult(f, m, steps, e);
  }

  lemma EwiseRuns<F>(f: Fpu<F>, m: Mem, op: EwiseKind, d: EwiseParam)
    requires Full(m) && EwisePlaced(d) && NoZero(f, m, op, d)
    ensures Completes(m, Exec(f, m, Ewise(op, d)), d.dstAddr, d.rows * d.cols)
    ensures forall e: nat | e < d.rows * d.cols ::
      Value(f, EwiseElements(m, op, d)[e]) == Some(Load16(Exec(f, m, Ewise(op, d)).value, d.dstAddr + 2 * e))
  {
    hide Full, Load16, Exec, Steps, Asserts, Computes, Value, EwisePlaced, NoZero, Completes, EwiseInputs;
    EwiseComputes(f, m, op, d);
    InstrLeaves(f, m, Ewise(op, d), EwiseElements(m, op, d), d.dstAddr);
  }

  /** dst[i] = lhs[i] op rhs[s(i)] for every i; a division aborts if and only if some divisor is zero. */
  lemma EwiseLeaves<F>(f: Fpu<F>, m: Mem, op: EwiseKind, d: EwiseParam)
    requires Full(m) && EwisePlaced(d)
    ensures NoZero(f, m, op, d) ==> Completes(m, Exec(f, m, Ewise(op, d)), d.dstAddr, d.rows * d.cols)
    ensures NoZero(f, m, op, d) ==> forall e: nat | e < d.rows * d.cols ::
      Load16(Exec(f, m, Ewise(op, d)).value, d.dstAddr + 2 * e)
        == LoweredOps.Combine(f, op, (Load16(m, d.lhsAddr + 2 * e), Load16(m, d.rhsAddr + 2 * Partner(d, e))))
    ensures !NoZero(f, m, op, d) ==> Exec(f, m, Ewise(op, d)).None?
  {
    hide Full, Load16, Exec, Completes, Value, LoweredOps.Combine, Partner;
    assert d.cols != 0 && d.rhsBlk != 0;
    if NoZero(f, m, op, d) {
      EwiseRuns(f, m, op, d);
      hide EwisePlaced;
      forall e: nat | e < d.rows * d.cols
        ensures Value(f, EwiseElements(m, op, d)[e])
          == Some(LoweredOps.Combine(f, op, (Load16(m, d.lhsAddr + 2 * e), Load16(m, d.rhsAddr + 2 * Partner(d, e)))))
      {
        ArithValueIs(f, op, Load16(m, d.lhsAddr + 2 * e), Load16(m, d.rhsAddr + 2 * Partner(d, e)));
      }
    } else {
      var e: nat :| e < d.rows * d.cols && f.eq(At(f, m, d.rhsAddr, Partner(d, e)), f.zero);
      EwiseStops(f, m, d, e);
    }
  }

  /* ---- REDUCE ---- */

  /** Row `r` of the input. */
  function RowAt(m: Mem, d: ReduceParam, r: nat): (row: seq<Word>)
    ensures |row| == d.cols
  {
    Fetch(m, Row(d.srcAddr + 2 * (r * d.cols), d.cols))
  }

  /** The operands lie inside SRAM, and the output overwrites nothing too early. */
  ghost predicate ReducePlaced(d: ReduceParam) {
    && d.rows != 0 && d.cols != 0
    && InSram(d.srcAddr, d.rows * d.cols) && InSram(d.dstAddr, d.rows)
    && ReadFirst(d.dstAddr, d.rows, d.srcAddr, d.rows * d.cols)
  }

  lemma ReduceWord(d: ReduceParam, r: nat, j: nat)
    requires ReducePlaced(d) && r < d.rows && j < d.cols
    ensures 0 <= r * d.cols && r * d.cols + j < d.rows * d.cols
    ensures U32(U32(d.srcAddr + 2 * U32(r * d.cols)) + 2 * j) == d.srcAddr + 2 * (r * d.cols + j)
    ensures r <= r * d.cols + j
  {
    RowMajor(r, j, d.rows, d.cols);
    RowMajor(r, 0, d.rows, d.cols);
    MulMonotone(d.cols, 0, r);
    MulMonotone(r, 1, d.cols);
    hide U32;
    Emission.NoWrap(r * d.cols);
    Emission.NoWrap(d.srcAddr + 2 * (r * d.cols));
    Emission.NoWrap(d.srcAddr + 2 * (r * d.cols) + 2 * j);
  }

  lemma ReduceSources(m: Mem, kind: ReduceKind, d: ReduceParam, r: nat)
    requires ReducePlaced(d) && r < d.rows
    ensures var s := ReduceStep(d, kind, r);
      && s.op == Fold(kind) && s.from == Sram && s.to == Sram && |s.srcs| == d.cols
      && (forall j: nat | j < d.cols :: s.srcs[j] == d.srcAddr + 2 * (r * d.cols + j))
      && Reachable(Sram, s.srcs) && Fetch(m, s.srcs) == RowAt(m, d, r)
  {
    hide Load16, U32, In;
    var s := ReduceStep(d, kind, r);
    forall j: nat | j < d.cols
      ensures s.srcs[j] == d.srcAddr + 2 * (r * d.cols + j) && In(Sram, s.srcs[j]) && In(Sram, s.srcs[j] + 1)
    {
      ReduceWord(d, r, j);
      InSramWord(d.srcAddr, d.rows * d.cols, r * d.cols + j);
    }
  }

  lemma EarlierApart(d: ReduceParam, kind: ReduceKind, r: nat, k: nat)
    requires ReducePlaced(d) && k < r < d.rows
    ensures AllApart([d.dstAddr + 2 * k], ReduceStep(d, kind, r).srcs)
  {
    hide U32;
    var s := ReduceStep(d, kind, r);
    forall x | x in s.srcs
      ensures Apart(d.dstAddr + 2 * k, x)
    {
      var j: nat :| j < d.cols && s.srcs[j] == x;
      ReduceWord(d, r, j);
    }
  }

  lemma ReduceStepComputes(m: Mem, kind: ReduceKind, d: ReduceParam, r: nat)
    requires ReducePlaced(d) && r < d.rows && kind != Argmax
    ensures var s := ReduceStep(d, kind, r);
      && s.op == Fold(kind) && s.from == Sram && s.to == Sram && s.dsts == [d.dstAddr + 2 * r]
      && Reachable(Sram, s.srcs) && Reachable(Sram, s.dsts) && Fetch(m, s.srcs) == RowAt(m, d, r)
      && forall k | 0 <= k < r :: AllApart([d.dstAddr + 2 * k], s.srcs)
  {
    hide Load16, In, Reachable, RowAt, AllApart;
    ReduceSources(m, kind, d, r);
    InSramWord(d.dstAddr, d.rows, r);
    hide U32;
    forall k | 0 <= k < r
      ensures AllApart([d.dstAddr + 2 * k], ReduceStep(d, kind, r).srcs)
    {
      EarlierApart(d, kind, r, k);
    }
  }

  /** What REDUCE stores for a row: kind 0 is the maximum, 1 the sum, 2 the sum of squares. */
  function ReduceResult<F>(f: Fpu<F>, kind: Dword, row: seq<Word>): F
    requires kind < 3 && row != []
  {
    if kind == 0 then MaxOf(f, row, |row|)
    else if kind == 1 then LoweredOps.LeftSum(f, Decoded(f, row))
    else LoweredOps.LeftSum(f, LoweredOps.Squares(f, Decoded(f, row)))
  }

  lemma ReduceValueIs<F>(f: Fpu<F>, code: Dword, row: seq<Word>)
    requires code < 3 && row != []
    ensures ReduceKindOf(code).Some? && ReduceKindOf(code).value != Argmax
    ensures Value(f, Element(Fold(ReduceKindOf(code).value), row)) == Some(f.enc(ReduceResult(f, code, row)))
  {
    hide MaxOf, Value, LoweredOps.LeftSum;
    LoweredOps.FoldElement(f, ReduceKindOf(code).value, row);
  }

  function ReduceElements(m: Mem, d: ReduceParam, kind: ReduceKind): seq<Element> {
    seq(d.rows, r requires r >= 0 => Element(Fold(kind), RowAt(m, d, r)))
  }

  lemma ReduceComputes<F>(f: Fpu<F>, m: Mem, d: ReduceParam)
    requires ReducePlaced(d) && d.kind < 3 && d.idxAddr == 0
    ensures ReduceKindOf(d.kind).Some? && Asserts(Reduce(d))
    ensures Computes(f, m, Steps(Reduce(d)), ReduceElements(m, d, ReduceKindOf(d.kind).value), d.dstAddr)
  {
    hide ReducePlaced, RowAt, Reachable, AllApart, ReduceStep, Fetch, Computes, Value;
    assert d.rows != 0 && d.cols != 0 by { NonEmptyRows(d); }
    var kind := ReduceKindOf(d.kind).value;
    var steps, xs := Steps(Reduce(d)), ReduceElements(m, d, kind);
    forall r: nat | r < d.rows
      ensures ComputesAt(f, m, steps[r], xs[r], d.dstAddr, r)
    {
      ReduceValueIs(f, d.kind, RowAt(m, d, r));
      ReduceStepComputes(m, kind, d, r);
    }
    AllCompute(f, m, steps, xs, d.dstAddr);
  }

  lemma NonEmptyRows(d: ReduceParam)
    requires ReducePlaced(d)
    ensures d.rows != 0 && d.cols != 0
  {
  }

  /** dst[r] is the fold of row r, rounded once, and idx must be 0. */
  lemma ReduceLeaves<F>(f: Fpu<F>, m: Mem, d: ReduceParam)
    requires Full(m) && ReducePlaced(d) && d.kind < 3
    ensures d.idxAddr != 0 ==> Exec(f, m, Reduce(d)).None?
    ensures d.idxAddr == 0 ==> Completes(m, Exec(f, m, Reduce(d)), d.dstAddr, d.rows)
    ensures d.idxAddr == 0 ==> forall r: nat | r < d.rows ::
      Load16(Exec(f, m, Reduce(d)).value, d.dstAddr + 2 * r) == f.enc(ReduceResult(f, d.kind, RowAt(m, d, r)))
  {
    hide Full, Load16, Exec, Steps, Computes, Value, Completes, RowAt, ReduceResult, Asserts;
    NonEmptyRows(d);
    hide ReducePlaced;
    if d.idxAddr == 0 {
      ReduceComputes(f, m, d);
      var xs := ReduceElements(m, d, ReduceKindOf(d.kind).value);
      InstrLeaves(f, m, Reduce(d), xs, d.dstAddr);
      forall r: nat | r < d.rows
        ensures Value(f, xs[r]) == Some(f.enc(ReduceResult(f, d.kind, RowAt(m, d, r))))
      {
        ReduceValueIs(f, d.kind, RowAt(m, d, r));
      }
    } else {
      IndexForbidden(f, m, d);
    }
  }

  lemma IndexForbidden<F>(f: Fpu<F>, m: Mem, d: ReduceParam)
    requires (d.kind != 3 && d.idxAddr != 0) || d.kind > 3
    ensures Exec(f, m, Reduce(d)).None?
  {
  }

  /** `w` is the row's maximum, +0 rather than -0, NaN if there is one. */
  ghost predicate IsRowMax<F(!new)>(f: Fpu<F>, row: seq<Word>, w: Word)
    requires row != []
  {
    exists v :: ReduceFold.IsTop(f, Decoded(f, row), 0, |row|, v) && w == f.enc(v)
  }

  lemma FoldIsRowMax<F(!new)>(f: Fpu<F>, row: seq<Word>)
    requires row != [] && ReduceFold.Ordered(f)
    ensures IsRowMax(f, row, f.enc(MaxOf(f, row, |row|)))
  {
    hide ReduceFold.Ordered, ReduceFold.IsTop, MaxOf;
    ReduceFold.FoldMeaning(f, row, |row|);
  }

  /** Kind 0 leaves the maximum of every row. */
  lemma MaxLeaves<F(!new)>(f: Fpu<F>, m: Mem, d: ReduceParam)
    requires Full(m) && ReducePlaced(d) && d.kind == 0 && d.idxAddr == 0 && ReduceFold.Ordered(f)
    ensures Exec(f, m, Reduce(d)).Some?
    ensures d.cols != 0 && forall r: nat | r < d.rows ::
      IsRowMax(f, RowAt(m, d, r), Load16(Exec(f, m, Reduce(d)).value, d.dstAddr + 2 * r))
  {
    hide Full, Load16, Exec, RowAt, MaxOf, IsRowMax, ReduceFold.Ordered;
    NonEmptyRows(d);
    ReduceLeaves(f, m, d);
    forall r: nat | r < d.rows
      ensures IsRowMax(f, RowAt(m, d, r), Load16(Exec(f, m, Reduce(d)).value, d.dstAddr + 2 * r))
    {
      FoldIsRowMax(f, RowAt(m, d, r));
    }
  }

  function Total(vs: seq<real>): real { if vs == [] then 0.0 else Total(vs[..|vs| - 1]) + vs[|vs| - 1] }

  function SquareTotal(vs: seq<real>): real {
    if vs == [] then 0.0 else SquareTotal(vs[..|vs| - 1]) + vs[|vs| - 1] * vs[|vs| - 1]
  }

  lemma {:induction false} LeftSumIsTotal(f: Fpu<real>, vs: seq<real>)
    requires OverReals(f) && vs != []
    ensures LoweredOps.LeftSum(f, vs) == Total(vs)
    ensures LoweredOps.LeftSum(f, LoweredOps.Squares(f, vs)) == SquareTotal(vs)
    decreases vs
  {
    var n := |vs| - 1;
    var qs := LoweredOps.Squares(f, vs);
    LastSquare(f, vs);
    hide LoweredOps.Squares;
    if n > 0 {
      LeftSumIsTotal(f, vs[..n]);
    } else {
      assert Total(vs[..0]) == 0.0 && SquareTotal(vs[..0]) == 0.0;
    }
  }

  lemma LastSquare(f: Fpu<real>, vs: seq<real>)
    requires OverReals(f) && vs != []
    ensures var qs := LoweredOps.Squares(f, vs);
      |qs| == |vs| && qs[..|vs| - 1] == LoweredOps.Squares(f, vs[..|vs| - 1]) && qs[|vs| - 1] == vs[|vs| - 1] * vs[|vs| - 1]
  {
  }

  /** With exact arithmetic, kind 1 leaves the sum of every row and kind 2 the sum of its squares. */
  lemma SumLeaves(f: Fpu<real>, m: Mem, d: ReduceParam)
    requires Full(m) && ReducePlaced(d) && (d.kind == 1 || d.kind == 2) && d.idxAddr == 0 && OverReals(f)
    ensures Exec(f, m, Reduce(d)).Some?
    ensures forall r: nat | r < d.rows ::
      Load16(Exec(f, m, Reduce(d)).value, d.dstAddr + 2 * r)
        == f.enc(if d.kind == 1 then Total(Decoded(f, RowAt(m, d, r))) else SquareTotal(Decoded(f, RowAt(m, d, r))))
  {
    hide Full, Load16, Exec, RowAt, Total, SquareTotal, LoweredOps.LeftSum, LoweredOps.Squares, OverReals;
    NonEmptyRows(d);
    ReduceLeaves(f, m, d);
    forall r: nat | r < d.rows
      ensures f.enc(ReduceResult(f, d.kind, RowAt(m, d, r)))
        == f.enc(if d.kind == 1 then Total(Decoded(f, RowAt(m, d, r))) else SquareTotal(Decoded(f, RowAt(m, d, r))))
    {
      LeftSumIsTotal(f, Decoded(f, RowAt(m, d, r)));
    }
  }

  /* ---- ARGMAX ---- */

  /** The index output has two words a row, apart from values and input. */
  ghost predicate ArgmaxPlaced(d: ReduceParam) {
    && ReducePlaced(d) && InSram(d.idxAddr, 2 * d.rows)
    && RangesApart(d.idxAddr, 2 * d.rows, d.dstAddr, d.rows) && RangesApart(d.idxAddr, 2 * d.rows, d.srcAddr, d.rows * d.cols)
  }

  function ArgmaxDsts(d: ReduceParam, r: nat): seq<int> {
    [d.dstAddr + 2 * r, d.idxAddr + 4 * r, d.idxAddr + 4 * r + 2]
  }

  lemma ArgmaxStepIs(m: Mem, d: ReduceParam, r: nat)
    requires ArgmaxPlaced(d) && r < d.rows
    ensures var s := ReduceStep(d, Argmax, r);
      && s.op == Fold(Argmax) && s.from == Sram && s.to == Sram && s.dsts == ArgmaxDsts(d, r)
      && Reachable(Sram, s.srcs) && Reachable(Sram, s.dsts) && Fetch(m, s.srcs) == RowAt(m, d, r)
  {
    hide Load16, In, RowAt;
    ReduceSources(m, Argmax, d, r);
    InSramWord(d.dstAddr, d.rows, r);
    InSramWord(d.idxAddr, 2 * d.rows, 2 * r);
    InSramWord(d.idxAddr, 2 * d.rows, 2 * r + 1);
    hide U32;
    assert ReduceStep(d, Argmax, r).dsts == ArgmaxDsts(d, r);
  }

  lemma ArgmaxApart(d: ReduceParam, k: nat, r: nat)
    requires ArgmaxPlaced(d) && k < r < d.rows
    ensures AllApart(ArgmaxDsts(d, k), ReduceStep(d, Argmax, r).srcs) && AllApart(ArgmaxDsts(d, k), ArgmaxDsts(d, r))
  {
    hide U32;
    var s := ReduceStep(d, Argmax, r);
    forall x | x in s.srcs
      ensures forall y | y in ArgmaxDsts(d, k) :: Apart(y, x)
    {
      var j: nat :| j < d.cols && s.srcs[j] == x;
      ReduceWord(d, r, j);
    }
  }

  lemma ArgmaxWorks<F>(f: Fpu<F>, m: Mem, d: ReduceParam, r: nat)
    requires ArgmaxPlaced(d) && r < d.rows
    ensures Works(f, m, ReduceStep(d, Argmax, r)) && SelfApart(ArgmaxDsts(d, r))
  {
    hide Load16, In, RowAt, Reachable, ReduceStep, ArgmaxOf;
    ArgmaxStepIs(m, d, r);
    NonEmptyRows(d);
  }

  lemma ArgmaxSteps(d: ReduceParam)
    requires ArgmaxPlaced(d) && d.kind == 3
    ensures Asserts(Reduce(d)) && |Steps(Reduce(d))| == d.rows && d.cols != 0
    ensures forall r: nat | r < d.rows :: Steps(Reduce(d))[r] == ReduceStep(d, Argmax, r)
  {
    hide ReduceStep;
  }

  lemma ArgmaxOrderly<F>(f: Fpu<F>, m: Mem, d: ReduceParam)
    requires ArgmaxPlaced(d) && d.kind == 3
    ensures Asserts(Reduce(d)) && Orderly(Steps(Reduce(d)))
    ensures forall r | 0 <= r < |Steps(Reduce(d))| :: Works(f, m, Steps(Reduce(d))[r])
  {
    hide Asserts, Steps, ReduceStep, AllApart, SelfApart, Works, ArgmaxDsts;
    ArgmaxSteps(d);
    var steps := Steps(Reduce(d));
    forall r: nat | r < d.rows
      ensures Works(f, m, steps[r]) && steps[r].dsts == ArgmaxDsts(d, r) && SelfApart(steps[r].dsts)
    {
      ArgmaxWorks(f, m, d, r);
      ArgmaxStepIs(m, d, r);
    }
    forall k, r | 0 <= k < r < d.rows
      ensures AllApart(steps[k].dsts, steps[r].srcs) && AllApart(steps[k].dsts, steps[r].dsts)
    {
      ArgmaxApart(d, k, r);
    }
  }

  lemma ArgmaxWords<F>(f: Fpu<F>, row: seq<Word>)
    requires row != []
    ensures var a := ArgmaxOf(f, row, |row|);
      Eval(f, Fold(Argmax), row) == Some([f.enc(a.value), a.index % 0x1_0000, a.index / 0x1_0000 % 0x1_0000])
  {
    hide ArgmaxOf;
  }

  lemma ThreeWords(m: Mem, a: int, b: int, c: int)
    ensures Fetch(m, [a, b, c]) == [Load16(m, a), Load16(m, b), Load16(m, c)]
  {
    hide Load16;
  }

  lemma WholeIndex(k: nat)
    requires k < TWO_32
    ensures k % 0x1_0000 + 0x1_0000 * (k / 0x1_0000 % 0x1_0000) == k
  {
  }

  /** The three words of one row. */
  lemma ArgmaxStored<F>(f: Fpu<F>, m': Mem, d: ReduceParam, r: nat, row: seq<Word>)
    requires row != [] && |row| < TWO_32 && Eval(f, Fold(Argmax), row) == Some(Fetch(m', ArgmaxDsts(d, r)))
    requires ArgmaxOf(f, row, |row|).index < |row|
    ensures Load16(m', d.dstAddr + 2 * r) == f.enc(ArgmaxOf(f, row, |row|).value)
    ensures Load32(m', d.idxAddr + 4 * r) == ArgmaxOf(f, row, |row|).index
  {
    hide Load16, ArgmaxOf, Eval, Fetch;
    ArgmaxWords(f, row);
    ThreeWords(m', d.dstAddr + 2 * r, d.idxAddr + 4 * r, d.idxAddr + 4 * r + 2);
    WholeIndex(ArgmaxOf(f, row, |row|).index);
  }

  lemma ArgmaxRow<F>(f: Fpu<F>, m: Mem, d: ReduceParam, r: nat)
    requires Full(m) && ArgmaxPlaced(d) && d.kind == 3 && r < d.rows
    ensures Exec(f, m, Reduce(d)).Some?
    ensures Eval(f, Fold(Argmax), RowAt(m, d, r)) == Some(Fetch(Exec(f, m, Reduce(d)).value, ArgmaxDsts(d, r)))
  {
    hide Full, Asserts, Steps, ReduceStep, Orderly, Works, Eval, Fetch, DoSteps, AllApart, Reachable, ArgmaxDsts, RowAt;
    ArgmaxOrderly(f, m, d);
    ArgmaxSteps(d);
    hide ArgmaxPlaced;
    OrderlyResult(f, m, Steps(Reduce(d)));
    ArgmaxStepIs(m, d, r);
  }

  /** Kind 3 leaves the maximum of every row, and the index of its first occurrence, or of the first NaN,
      as a 32-bit number. */
  lemma ArgmaxLeaves<F(!new)>(f: Fpu<F>, m: Mem, d: ReduceParam)
    requires Full(m) && ArgmaxPlaced(d) && d.kind == 3 && ReduceFold.Ordered(f)
    ensures Exec(f, m, Reduce(d)).Some? && d.cols != 0
    ensures forall r: nat | r < d.rows ::
      var m', row := Exec(f, m, Reduce(d)).value, RowAt(m, d, r);
      IsRowMax(f, row, Load16(m', d.dstAddr + 2 * r)) && IsFirstMax(f, row, Load32(m', d.idxAddr + 4 * r))
  {
    hide Full, Load16, Load32, Exec, RowAt, ArgmaxOf, MaxOf, IsRowMax, IsFirstMax, ReduceFold.Ordered, Eval, Fetch, ReduceFold.IsTop, ReduceFold.IsFirst;
    NonEmptyRows(d);
    ArgmaxRow(f, m, d, 0);
    forall r: nat | r < d.rows
      ensures IsRowMax(f, RowAt(m, d, r), Load16(Exec(f, m, Reduce(d)).value, d.dstAddr + 2 * r))
      ensures IsFirstMax(f, RowAt(m, d, r), Load32(Exec(f, m, Reduce(d)).value, d.idxAddr + 4 * r))
    {
      var row := RowAt(m, d, r);
      ArgmaxRow(f, m, d, r);
      FoldIsRowMax(f, row);
      ReduceFold.FoldMeaning(f, row, |row|);
      FirstMax(f, row);
      ArgmaxStored(f, Exec(f, m, Reduce(d)).value, d, r, row);
    }
  }

  /** `k` is the index of the row's first NaN, or of the first element equal to its maximum. */
  ghost predicate IsFirstMax<F(!new)>(f: Fpu<F>, row: seq<Word>, k: nat)
    requires row != []
  {
    exists v :: ReduceFold.IsTop(f, Decoded(f, row), 0, |row|, v) && ReduceFold.IsFirst(f, Decoded(f, row), 0, |row|, v, k)
  }

  lemma FirstMax<F(!new)>(f: Fpu<F>, row: seq<Word>)
    requires row != [] && ReduceFold.Ordered(f)
    ensures ArgmaxOf(f, row, |row|).index < |row| && IsFirstMax(f, row, ArgmaxOf(f, row, |row|).index)
    ensures ArgmaxOf(f, row, |row|).value == MaxOf(f, row, |row|)
  {
    hide ReduceFold.Ordered, ReduceFold.IsTop, MaxOf, ArgmaxOf;
    ReduceFold.FoldMeaning(f, row, |row|);
  }

  /* ---- MATMUL ---- */

  /** Element (i, k) of A and (k, j) of B; a transposed operand is stored as K x M or N x K. */
  function ElementA(d: MatmulParam, i: nat, k: nat): nat { if d.transA then k * d.M + i else i * d.K + k }

  function ElementB(d: MatmulParam, k: nat, j: nat): nat { if d.transB then j * d.K + k else k * d.N + j }

  /** A[i, 0] * B[0, j] + .. from the left, starting from zero. */
  function InnerProduct<F>(f: Fpu<F>, m: Mem, d: MatmulParam, i: nat, j: nat, k: nat): F {
    if k == 0 then f.zero
    else f.add(InnerProduct(f, m, d, i, j, k - 1),
               f.mul(At(f, m, d.lhsAddr, ElementA(d, i, k - 1)), At(f, m, d.rhsAddr, ElementB(d, k - 1, j))))
  }

  ghost predicate MatmulPlaced(d: MatmulParam) {
    && InSram(d.dstAddr, d.M * d.N) && InSram(d.lhsAddr, d.M * d.K) && InSram(d.rhsAddr, d.K * d.N)
    && RangesApart(d.dstAddr, d.M * d.N, d.lhsAddr, d.M * d.K) && RangesApart(d.dstAddr, d.M * d.N, d.rhsAddr, d.K * d.N)
    && RangesApart(d.lhsAddr, d.M * d.K, d.rhsAddr, d.K * d.N)
  }

  lemma ElementsInside(d: MatmulParam, i: nat, k: nat, j: nat)
    requires i < d.M && k < d.K && j < d.N
    ensures 0 <= ElementA(d, i, k) < d.M * d.K && 0 <= ElementB(d, k, j) < d.K * d.N
  {
    RowMajor(i, k, d.M, d.K);
    RowMajor(k, i, d.K, d.M);
    RowMajor(k, j, d.K, d.N);
    RowMajor(j, k, d.N, d.K);
  }

  lemma OperandsAt(d: MatmulParam, i: nat, k: nat, j: nat)
    ensures LhsAt(d, i, k) == U32(d.lhsAddr + 2 * U32(ElementA(d, i, k))) && RhsAt(d, k, j) == U32(d.rhsAddr + 2 * U32(ElementB(d, k, j)))
  {
    hide U32;
  }

  lemma AllInSram(d: MatmulParam)
    requires MatmulPlaced(d)
    ensures InSram(d.dstAddr, d.M * d.N) && InSram(d.lhsAddr, d.M * d.K) && InSram(d.rhsAddr, d.K * d.N)
  {
  }

  lemma MatmulAddresses(d: MatmulParam, i: nat, k: nat, j: nat)
    requires MatmulPlaced(d) && i < d.M && k < d.K && j < d.N
    ensures 0 <= ElementA(d, i, k) < d.M * d.K && 0 <= ElementB(d, k, j) < d.K * d.N
    ensures LhsAt(d, i, k) == d.lhsAddr + 2 * ElementA(d, i, k) && RhsAt(d, k, j) == d.rhsAddr + 2 * ElementB(d, k, j)
    ensures Reachable(Sram, [LhsAt(d, i, k)]) && Reachable(Sram, [RhsAt(d, k, j)])
  {
    hide U32, Reachable, LhsAt, RhsAt, ElementA, ElementB, MatmulPlaced, InSram;
    ElementsInside(d, i, k, j);
    OperandsAt(d, i, k, j);
    AllInSram(d);
    IndexedWord(d.lhsAddr, d.M * d.K, ElementA(d, i, k));
    IndexedWord(d.rhsAddr, d.K * d.N, ElementB(d, k, j));
  }

  lemma ElementPlace(i: nat, j: nat, rows: nat, cols: nat)
    requires i < rows && j < cols
    ensures 0 <= i * cols + j < rows * cols
  {
    RowMajor(i, j, rows, cols);
    MulMonotone(cols, 0, i);
  }

  lemma ResultAt(d: MatmulParam, i: nat, j: nat)
    ensures DstAt(d, i, j) == U32(d.dstAddr + 2 * U32(i * d.N + j))
  {
    hide U32;
  }

  lemma MatmulDst(d: MatmulParam, i: nat, j: nat)
    requires MatmulPlaced(d) && i < d.M && j < d.N
    ensures 0 <= i * d.N + j < d.M * d.N && DstAt(d, i, j) == d.dstAddr + 2 * (i * d.N + j)
    ensures Reachable(Sram, [DstAt(d, i, j)])
  {
    hide U32, Reachable, MatmulPlaced, InSram, DstAt;
    ElementPlace(i, j, d.M, d.N);
    AllInSram(d);
    ResultAt(d, i, j);
    IndexedWord(d.dstAddr, d.M * d.N, i * d.N + j);
  }

  /** Where an operand word of element (i, j) lies: in A, in B, or the word of the output itself. */
  ghost predicate OperandWord(d: MatmulParam, i: nat, j: nat, x: int) {
    || (exists a: nat :: a < d.M * d.K && x == d.lhsAddr + 2 * a)
    || (exists b: nat :: b < d.K * d.N && x == d.rhsAddr + 2 * b)
    || x == d.dstAddr + 2 * (i * d.N + j)
  }

  lemma MatmulSources(d: MatmulParam, i: nat, j: nat)
    requires MatmulPlaced(d) && i < d.M && j < d.N
    ensures var s := MatmulStep(d, i, j);
      && Reachable(Sram, s.srcs) && |s.srcs| == 2 * d.K + (if d.accumulate != 0 then 1 else 0)
      && (forall k: nat | k < d.K :: s.srcs[k] == LhsAt(d, i, k) && s.srcs[d.K + k] == RhsAt(d, k, j))
      && (d.accumulate != 0 ==> s.srcs[2 * d.K] == DstAt(d, i, j))
      && forall x | x in s.srcs :: OperandWord(d, i, j, x)
  {
    hide LhsAt, RhsAt, DstAt, ElementA, ElementB, In, MatmulPlaced;
    var s := MatmulStep(d, i, j);
    MatmulDst(d, i, j);
    forall n | 0 <= n < |s.srcs|
      ensures Reachable(Sram, [s.srcs[n]]) && OperandWord(d, i, j, s.srcs[n])
    {
      if n < 2 * d.K {
        MatmulAddresses(d, i, if n < d.K then n else n - d.K, j);
      }
    }
    EachReachable(s.srcs);
  }

  lemma EachReachable(xs: seq<int>)
    requires forall n | 0 <= n < |xs| :: Reachable(Sram, [xs[n]])
    ensures Reachable(Sram, xs)
  {
    hide In;
    forall n | 0 <= n < |xs|
      ensures In(Sram, xs[n]) && In(Sram, xs[n] + 1)
    {
      assert [xs[n]][0] == xs[n];
    }
  }

  lemma OperandsApart(d: MatmulParam, i: nat, j: nat, k: nat, srcs: seq<int>)
    requires MatmulPlaced(d) && i < d.M && j < d.N && k < i * d.N + j && forall x | x in srcs :: OperandWord(d, i, j, x)
    ensures AllApart([d.dstAddr + 2 * k], srcs)
  {
    MatmulDst(d, i, j);
    forall x | x in srcs
      ensures Apart(d.dstAddr + 2 * k, x)
    {
    }
  }

  lemma NextInner<F>(f: Fpu<F>, m: Mem, d: MatmulParam, i: nat, j: nat, k: nat)
    ensures InnerProduct(f, m, d, i, j, k + 1)
      == f.add(InnerProduct(f, m, d, i, j, k),
               f.mul(f.dec(Load16(m, d.lhsAddr + 2 * ElementA(d, i, k))), f.dec(Load16(m, d.rhsAddr + 2 * ElementB(d, k, j)))))
  {
    hide Load16, ElementA, ElementB;
  }

  lemma NoInner<F>(f: Fpu<F>, m: Mem, d: MatmulParam, i: nat, j: nat)
    ensures InnerProduct(f, m, d, i, j, 0) == f.zero
  {
  }

  /** The machine's running sum over the words it fetches. */
  lemma {:induction false} DotIsInner<F>(f: Fpu<F>, m: Mem, d: MatmulParam, i: nat, j: nat, n: nat)
    requires MatmulPlaced(d) && i < d.M && j < d.N && n <= d.K && 2 * d.K <= |MatmulStep(d, i, j).srcs|
    ensures DotSum(f, Fetch(m, MatmulStep(d, i, j).srcs), d.K, n) == InnerProduct(f, m, d, i, j, n)
    decreases n
  {
    hide Load16, MatmulStep, LhsAt, RhsAt, ElementA, ElementB, MatmulPlaced, Reachable, Fetch, DotSum, InnerProduct;
    var srcs := MatmulStep(d, i, j).srcs;
    if n > 0 {
      DotIsInner(f, m, d, i, j, n - 1);
      MatmulSources(d, i, j);
      MatmulAddresses(d, i, n - 1, j);
      CModel.NextTerm(f, m, srcs, d.K, n - 1);
      NextInner(f, m, d, i, j, n - 1);
    } else {
      NoInner(f, m, d, i, j);
      CModel.NoTerms(f, Fetch(m, srcs), d.K);
    }
  }

  /** What MATMUL stores at (i, j): the inner product, plus the old element if it accumulates. */
  function MatmulResult<F>(f: Fpu<F>, m: Mem, d: MatmulParam, i: nat, j: nat): F {
    var sum := InnerProduct(f, m, d, i, j, d.K);
    if d.accumulate == 0 then sum else f.add(sum, At(f, m, d.dstAddr, i * d.N + j))
  }

  lemma MatmulValueIs<F>(f: Fpu<F>, m: Mem, d: MatmulParam, i: nat, j: nat)
    requires MatmulPlaced(d) && i < d.M && j < d.N
    ensures Value(f, ProductElement(m, d, i, j)) == Some(f.enc(MatmulResult(f, m, d, i, j)))
  {
    hide Load16, MatmulStep, LhsAt, RhsAt, DotSum, InnerProduct, MatmulPlaced, Reachable;
    MatmulSources(d, i, j);
    MatmulDst(d, i, j);
    DotIsInner(f, m, d, i, j, d.K);
  }

  lemma Coordinates(e: nat, rows: nat, cols: nat)
    requires e < rows * cols
    ensures cols > 0 && 0 <= e / cols < rows && e % cols < cols && e == e / cols * cols + e % cols
  {
    PositiveFactors(rows, cols);
    RowOf(e, rows, cols);
    EmittedCompute.Split(e, cols);
  }

  function ProductElement(m: Mem, d: MatmulParam, i: nat, j: nat): Element {
    Element(Dot(d.K, d.accumulate != 0), Fetch(m, MatmulStep(d, i, j).srcs))
  }

  function ElementAt(m: Mem, d: MatmulParam, e: nat): Element
    requires e < d.M * d.N
  {
    Coordinates(e, d.M, d.N);
    ProductElement(m, d, e / d.N, e % d.N)
  }

  function MatmulElements(m: Mem, d: MatmulParam): seq<Element> {
    seq(d.M * d.N, e requires 0 <= e < d.M * d.N => ElementAt(m, d, e))
  }

  lemma ProductAt(m: Mem, d: MatmulParam, i: nat, j: nat)
    requires i < d.M && j < d.N
    ensures 0 <= i * d.N + j < |MatmulElements(m, d)| && MatmulElements(m, d)[i * d.N + j] == ProductElement(m, d, i, j)
  {
    hide ProductElement;
    ElementPlace(i, j, d.M, d.N);
    DivModOfMulAdd(i, j, d.N);
  }

  lemma MatmulElementComputes<F>(f: Fpu<F>, m: Mem, d: MatmulParam, e: nat, i: nat, j: nat)
    requires MatmulPlaced(d) && i < d.M && j < d.N && e == i * d.N + j
    ensures ComputesAt(f, m, MatmulStep(d, i, j), ProductElement(m, d, i, j), d.dstAddr, e)
  {
    MatmulHead(d, i, j);
    hide Load16, MatmulStep, Value, AllApart, Reachable, Fetch, MatmulPlaced, OperandWord;
    MatmulValueIs(f, m, d, i, j);
    MatmulSources(d, i, j);
    MatmulDst(d, i, j);
    forall k | 0 <= k < e
      ensures AllApart([d.dstAddr + 2 * k], MatmulStep(d, i, j).srcs)
    {
      OperandsApart(d, i, j, k, MatmulStep(d, i, j).srcs);
    }
  }

  lemma MatmulHead(d: MatmulParam, i: nat, j: nat)
    ensures var s := MatmulStep(d, i, j);
      s.op == Dot(d.K, d.accumulate != 0) && s.from == Sram && s.to == Sram && s.dsts == [DstAt(d, i, j)]
  {
  }

  lemma MatmulAsserts(d: MatmulParam)
    requires MatmulPlaced(d)
    ensures Asserts(Matmul(d))
  {
    hide U32;
    ExtentSmall(d.dstAddr, d.M * d.N);
    ExtentSmall(d.lhsAddr, d.M * d.K);
    ExtentSmall(d.rhsAddr, d.K * d.N);
  }

  lemma ExtentSmall(base: int, n: nat)
    requires InSram(base, n)
    ensures U32(base + 2 * U32(n)) == base + 2 * n
  {
  }

  lemma MatmulComputes<F>(f: Fpu<F>, m: Mem, d: MatmulParam)
    requires MatmulPlaced(d)
    ensures Asserts(Matmul(d)) && Computes(f, m, Steps(Matmul(d)), MatmulElements(m, d), d.dstAddr)
  {
    hide MatmulPlaced, Asserts, MatmulSteps, MatmulStep, ComputesAt, Computes, ProductElement;
    MatmulAsserts(d);
    MatmulCount(d);
    var steps, xs := Steps(Matmul(d)), MatmulElements(m, d);
    forall e: nat | e < |xs|
      ensures ComputesAt(f, m, steps[e], xs[e], d.dstAddr, e)
    {
      Coordinates(e, d.M, d.N);
      var i, j := e / d.N, e % d.N;
      EmittedCompute.MatmulStepAt(d, e, i, j);
      MatmulElementComputes(f, m, d, e, i, j);
    }
    AllCompute(f, m, steps, xs, d.dstAddr);
  }

  lemma MatmulCount(d: MatmulParam)
    ensures |MatmulSteps(d)| == d.M * d.N
  {
    EmittedCompute.MatmulRowsLength(d, d.M);
  }

  /** Every element of the output in memory `m'` is the result computed from memory `m`. */
  ghost predicate HoldsProduct<F>(f: Fpu<F>, m: Mem, m': Mem, d: MatmulParam) {
    forall i: nat, j: nat | i < d.M && j < d.N :: HoldsElement(f, m, m', d, i, j)
  }

  predicate HoldsElement<F>(f: Fpu<F>, m: Mem, m': Mem, d: MatmulParam, i: nat, j: nat) {
    Load16(m', d.dstAddr + 2 * (i * d.N + j)) == f.enc(MatmulResult(f, m, d, i, j))
  }

  /** The instruction completes, stores the product and changes no other word. */
  ghost predicate Produces<F>(f: Fpu<F>, m: Mem, d: MatmulParam, r: Option<Mem>) {
    Completes(m, r, d.dstAddr, d.M * d.N) && HoldsProduct(f, m, r.value, d)
  }

  /** dst[i, j] is the inner product of row i of A and column j of B, accumulated in float from zero and
      rounded once, plus what dst[i, j] held if the instruction accumulates. */
  lemma MatmulLeaves<F>(f: Fpu<F>, m: Mem, d: MatmulParam)
    requires Full(m) && MatmulPlaced(d)
    ensures Produces(f, m, d, Exec(f, m, Matmul(d)))
  {
    hide Full, Load16, Exec, Steps, Asserts, Computes, Value, MatmulPlaced, MatmulResult, MatmulElements, ProductElement;
    MatmulComputes(f, m, d);
    assert |MatmulElements(m, d)| == d.M * d.N by { ElementCount(m, d); }
    InstrLeaves(f, m, Matmul(d), MatmulElements(m, d), d.dstAddr);
    forall i: nat, j: nat | i < d.M && j < d.N
      ensures HoldsElement(f, m, Exec(f, m, Matmul(d)).value, d, i, j)
    {
      ProductAt(m, d, i, j);
      MatmulValueIs(f, m, d, i, j);
    }
  }

  lemma ElementCount(m: Mem, d: MatmulParam)
    ensures |MatmulElements(m, d)| == d.M * d.N
  {
    hide ElementAt, ProductElement;
  }
}
