/** The elided program of a chain always runs, whatever its erased stores would have kept: in an
    arithmetic that never traps only shapes matter. */
module ElidedRuns {
  import opened Arithmetic
  import opened Types
  import opened Machine
  import opened EclipseIR
  import opened Lowering
  import opened ElideCopies
  import opened Renaming
  import opened ElisionCorrect
  import opened ChainElision
  import opened ChainGroups
  import opened LostRoots
  import opened ChainMeaning
  import LoweredOps

  /* ---- arithmetics in which no divisor is zero ---- */

  predicate IsZero(f: Fpu<int>, x: int) { f.eq(x, f.zero) }

  ghost predicate NeverTraps(f: Fpu<int>) { forall x :: !IsZero(f, x) }

  lemma {:induction false} AlwaysMeans(f: Fpu<int>, root: seq<Shape>, ts: Tensors, ops: seq<Linalg>)
    requires NeverTraps(f) && AllShaped(root, ops) && Present(root, ts)
    ensures Meaning(f, root, ts, ops).Some?
    decreases ops
  {
    hide RootsIn, Shaped, NeverTraps, Output;
    if ops != [] {
      AlwaysMeans(f, root, ts, ops[..|ops| - 1]);
      AlwaysOutputs(f, root, Meaning(f, root, ts, ops[..|ops| - 1]).value, ops[|ops| - 1]);
    }
  }

  lemma AlwaysOutputs(f: Fpu<int>, root: seq<Shape>, ts: Tensors, op: Linalg)
    requires NeverTraps(f) && RootsIn(root, op) && Shaped(root, op) && Present(root, ts)
    ensures Output(f, root, ts, op).Some?
  {
    hide LoweredOps.EwisePair, LoweredOps.Combine;
    if op.LinalgEwise? {
      forall w
        ensures LoweredOps.Divides(f, op.kind, w)
      {
        assert !IsZero(f, f.dec(w));
      }
    }
  }

  /** The program of a chain: the chain and the return. */
  lemma ProgramMeans<F>(f: Fpu<F>, ty: Typing, st: State, ops: seq<Linalg>, result: Root)
    requires AllShaped(ty.root, ops) && Present(ty.root, st.roots) && ChainBufs(ty.root, ops) <= ty.buf && result < |ty.root|
    ensures Yields(EvalOps(f, ty, st, Unroll(Program(ty.root, ops, result))), Meaning(f, ty.root, st.roots, ops))
  {
    hide RootsIn, Shaped, EvalOps, Unroll, ChainItems, ChainBufs, Meaning;
    ChainComputes(f, ty, st, ops);
    var us := Unroll(ChainItems(ty.root, ops));
    UnrollConcat(ChainItems(ty.root, ops), [Leaf(ReturnOp(result))]);
    UnrollOne(Leaf(ReturnOp(result)));
    assert Flat(Leaf(ReturnOp(result))) == [ReturnOp(result)];
    EvalConcat(f, ty, st, us, [ReturnOp(result)]);
    if EvalOps(f, ty, st, us).Some? {
      OneOp(f, ty, EvalOps(f, ty, st, us).value, ReturnOp(result));
    }
  }

  /* ---- a run in which every word is zero ---- */

  function Zeros(n: nat): Tensor { seq(n, k requires k >= 0 => 0) }

  ghost predicate AllZero(ty: Typing, st: State) {
    && (forall r: nat :: r in st.roots <==> r < |ty.root|)
    && (forall r: nat | r < |ty.root| :: st.roots[r] == Zeros(Size(ty.root[r])))
    && (forall b: nat | b in st.bufs :: b < |ty.buf| && st.bufs[b] == Zeros(Size(ty.buf[b])))
  }

  function ZeroState(root: seq<Shape>): State {
    State(map r: nat | 0 <= r < |root| :: Zeros(Size(root[r])), map[])
  }

  /** Everything is read as 1 and stored as 0. */
  function StoresZero(): Fpu<int> {
    var one, two := (x: int) => x, (x: int, y: int) => x;
    Fpu((w: Word) => 1, (x: int) => 0, 0, 0, two, two, two, two, (x: int, y: int) => false, (x: int, y: int) => false,
        (x: int) => false, (x: int) => false, one, one, one)
  }

  lemma {:induction false} ReadsZero(ty: Typing, st: State, v: View)
    requires AllZero(ty, st) && Read(ty, st, v).Some?
    ensures forall e | 0 <= e < |Read(ty, st, v).value| :: Read(ty, st, v).value[e] == 0
    decreases v
  {
    match v
    case Base(_) =>
    case CastOf(s) => ReadsZero(ty, st, s);
    case SubOf(s, ro, co, rows, cols) =>
      ReadsZero(ty, st, s);
      var t, pitch := Read(ty, st, s).value, ViewShape(ty, s).value.cols;
      forall e | 0 <= e < rows * cols
        ensures Window(t, pitch, ro.n, co.n, rows, cols)[e] == 0
      {
        WindowInside(pitch, ro.n, co.n, rows, cols, e);
      }
  }

  lemma ZeroValues(xs: seq<Element>)
    requires forall e | 0 <= e < |xs| :: Value(StoresZero(), xs[e]).Some? && !xs[e].op.Copy?
    ensures Values(StoresZero(), xs) == Zeros(|xs|)
  {
    hide Value, StoresZero;
    forall e | 0 <= e < |xs|
      ensures Values(StoresZero(), xs)[e] == 0
    {
      ZeroValue(xs[e]);
    }
  }

  lemma ZeroValue(x: Element)
    requires Value(StoresZero(), x).Some? && !x.op.Copy?
    ensures Value(StoresZero(), x).value == 0
  {
    hide DotValue, ArithValue, ActValue, MaxOf, SumOf, ArgmaxOf;
  }

  lemma OpKeepsZero(ty: Typing, st: State, op: IrOp)
    requires AllZero(ty, st) && EvalOp(StoresZero(), ty, st, op).Some?
    ensures AllZero(ty, EvalOp(StoresZero(), ty, st, op).value)
  {
    hide Value, Values, Read, StoresZero, ViewShape, FormOf;
    match op
    case Load(v, b) =>
      ReadsZero(ty, st, v);
      assert Read(ty, st, v).value == Zeros(Size(ty.buf[b]));
    case Store(b, v) => StoreKnown(ty, op);
    case SyncOp =>
    case ReturnOp(_) =>
    case _ => ComputesZero(ty, st, op);
  }

  lemma ComputesZero(ty: Typing, st: State, op: IrOp)
    requires AllZero(ty, st) && Computes(op) && EvalOp(StoresZero(), ty, st, op).Some?
    ensures AllZero(ty, EvalOp(StoresZero(), ty, st, op).value)
  {
    hide Value, Values, StoresZero, FormOf, Elements, Size;
    var xs := Elements(ty, st, op).value;
    ElementCount(ty, st, op);
    ElementForms(ty, st, op);
    NeverCopies(ty, op);
    ZeroValues(xs);
  }

  lemma StoreKnown(ty: Typing, op: IrOp)
    requires op.Store? && WellTyped(ty, op) && StoredRoot(op.to).Some?
    ensures StoredRoot(op.to).value < |ty.root| && ty.root[StoredRoot(op.to).value] == ty.buf[op.from]
  {
    assert ViewShape(ty, op.to.source) == ViewShape(ty, op.to);
  }

  /** What is computed per element, and from how many words, depends on the types only. */
  function FormOf(ty: Typing, op: IrOp): (Machine.Op, nat)
    requires Computes(op) && WellTyped(ty, op)
  {
    match op
    case MatmulOp(_, _, _, acc, _, _) => (Dot(Dims(ty, op).1, acc), 2 * Dims(ty, op).1 + if acc then 1 else 0)
    case EwiseOp(kind, _, _, _) => (Arith(kind), 2)
    case ActOp(act, _, _) => (Activate(act), 1)
    case ReduceOp(red, a, _) => (Fold(red), ty.buf[a].cols)
  }

  lemma NeverCopies(ty: Typing, op: IrOp)
    requires Computes(op) && WellTyped(ty, op)
    ensures !FormOf(ty, op).0.Copy?
  {
  }

  lemma ElementCount(ty: Typing, st: State, op: IrOp)
    requires Computes(op) && WellTyped(ty, op) && Elements(ty, st, op).Some?
    ensures |Elements(ty, st, op).value| == Size(ty.buf[op.out])
  {
    hide MatmulElement, EwiseElement;
  }

  lemma ElementForms(ty: Typing, st: State, op: IrOp)
    requires Computes(op) && WellTyped(ty, op) && Elements(ty, st, op).Some?
    ensures forall e | 0 <= e < |Elements(ty, st, op).value| ::
      var x := Elements(ty, st, op).value[e]; (x.op, |x.inputs|) == FormOf(ty, op)
  {
    hide Elements, WellTyped, FormOf;
    forall e | 0 <= e < |Elements(ty, st, op).value|
      ensures var x := Elements(ty, st, op).value[e]; (x.op, |x.inputs|) == FormOf(ty, op)
    {
      if op.MatmulOp? { ProductForm(ty, st, op, e); } else { SimpleForm(ty, st, op, e); }
    }
  }

  lemma SimpleForm(ty: Typing, st: State, op: IrOp, e: nat)
    requires op.EwiseOp? || op.ActOp? || op.ReduceOp?
    requires WellTyped(ty, op) && Elements(ty, st, op).Some? && e < |Elements(ty, st, op).value|
    ensures var x := Elements(ty, st, op).value[e]; (x.op, |x.inputs|) == FormOf(ty, op)
  {
    hide Size;
    if op.ReduceOp? { RowForm(ty, st, op, e); }
  }

  lemma RowForm(ty: Typing, st: State, op: IrOp, i: nat)
    requires op.ReduceOp? && WellTyped(ty, op) && Elements(ty, st, op).Some? && i < |Elements(ty, st, op).value|
    ensures var x := Elements(ty, st, op).value[i]; x.op == Fold(op.red) && |x.inputs| == ty.buf[op.arg].cols
  {
    hide Size;
    var t, cols := st.bufs[op.arg], ty.buf[op.arg].cols;
    RowInside(i, ty.buf[op.arg].rows, cols);
    assert |t| == ty.buf[op.arg].rows * cols by { SizeIs(ty.buf[op.arg]); }
    var from := i * cols;
    SliceLength(t, from, cols);
    assert Elements(ty, st, op).value[i] == Element(Fold(op.red), t[from..from + cols]);
  }

  lemma SizeIs(s: Shape)
    ensures Size(s) == s.rows * s.cols
  {
  }

  lemma SliceLength(t: Tensor, from: int, n: nat)
    requires 0 <= from && from + n <= |t|
    ensures |t[from..from + n]| == n
  {
  }

  lemma ProductForm(ty: Typing, st: State, op: IrOp, e: nat)
    requires op.MatmulOp? && WellTyped(ty, op) && Elements(ty, st, op).Some? && e < |Elements(ty, st, op).value|
    ensures var x := Elements(ty, st, op).value[e]; (x.op, |x.inputs|) == FormOf(ty, op)
  {
    hide LhsWord, RhsWord;
    var (M, K, N) := Dims(ty, op);
    PositiveFactors(M, N);
    assert Elements(ty, st, op).value[e]
      == MatmulElement(st.bufs[op.lhs], st.bufs[op.rhs], if op.acc then st.bufs[op.out] else [], M, K, N, op, e);
  }

  lemma {:induction false} OpsKeepZero(ty: Typing, st: State, ops: seq<IrOp>)
    requires AllZero(ty, st) && EvalOps(StoresZero(), ty, st, ops).Some?
    ensures AllZero(ty, EvalOps(StoresZero(), ty, st, ops).value)
    decreases ops
  {
    hide EvalOp, AllZero, StoresZero;
    if ops != [] {
      OpKeepsZero(ty, st, ops[0]);
      OpsKeepZero(ty, EvalOp(StoresZero(), ty, st, ops[0]).value, ops[1..]);
    }
  }

  lemma ZerosAgree(ty: Typing, st: State, st': State, ops: seq<IrOp>)
    requires AllZero(ty, st) && AllZero(ty, st')
    ensures LoadsAgree(st, st', ops) && forall r :: RootAgrees(st, st', r)
  {
  }

  /** In such a run the elided program follows the original one whatever it reads. */
  lemma {:induction false} ZeroSimulates(ty: Typing, items: seq<Item>, k: nat, st: State, st': State)
    requires Disciplined(items) && k <= |items| == |ElidedSlots(items)| && Inv(ty, items, k, st, st')
    requires AllZero(ty, st) && AllZero(ty, st') && EvalOps(StoresZero(), ty, st, Unroll(items[k..])).Some?
    ensures EvalOps(StoresZero(), ty, st', Unroll(Live(ElidedSlots(items)[k..]))).Some?
    decreases |items| - k
  {
    hide Inv, Disciplined, DeadStore, Flat, MapOps, EvalOps, ElidedSlots, LoadOf, MapItem, Reps, Unroll, Live, AllZero, StoresZero;
    var f := StoresZero();
    if k == |items| {
      NothingLeft(f, ty, items, st, st');
    } else {
      UnrollFrom(items, k);
      LiveFrom(ElidedSlots(items), k);
      SlotForm(items, k);
      EvalConcat(f, ty, st, Flat(items[k]), Unroll(items[k + 1..]));
      var s1 := EvalOps(f, ty, st, Flat(items[k])).value;
      OpsKeepZero(ty, st, Flat(items[k]));
      var rest := Unroll(Live(ElidedSlots(items)[k + 1..]));
      if LoadOf(Matches(items), k) {
        StepLoad(f, ty, items, k, st, st');
        assert [] + rest == rest;
        ZeroSimulates(ty, items, k + 1, s1, st');
      } else if DeadStore(items, k) {
        StepDead(f, ty, items, k, st, st');
        DeadSlot(items, k);
        assert [] + rest == rest;
        ZeroSimulates(ty, items, k + 1, s1, st');
      } else {
        if IsStore(Some(items[k])) {
          StepStore(f, ty, items, k, st, st');
        } else {
          ZerosAgree(ty, st, st', Flat(items[k]));
          StepQuiet(f, ty, items, k, st, st');
        }
        FlatMapped(items[k], Reps(items));
        EvalConcat(f, ty, st', MapOps(Flat(items[k]), Reps(items)), rest);
        OpsKeepZero(ty, st', MapOps(Flat(items[k]), Reps(items)));
        ZeroSimulates(ty, items, k + 1, s1, EvalOps(f, ty, st', MapOps(Flat(items[k]), Reps(items))).value);
      }
    }
  }

  lemma ZeroRuns(ty: Typing, ops: seq<Linalg>, result: Root)
    requires AllShaped(ty.root, ops) && ChainBufs(ty.root, ops) <= ty.buf && result < |ty.root|
    ensures InRoots(ty.root, ops)
    ensures EvalOps(StoresZero(), ty, ZeroState(ty.root), Unroll(Elide(Program(ty.root, ops, result)))).Some?
  {
    hide Shaped, RootsIn, EvalOps, Unroll, Live, ElidedSlots, StoresZero, ChainBufs, Meaning, Disciplined, Reps, Matches, Program;
    var st, items := ZeroState(ty.root), Program(ty.root, ops, result);
    TrapFree();
    ZeroPresent(ty);
    AlwaysMeans(StoresZero(), ty.root, st.roots, ops);
    ProgramMeans(StoresZero(), ty, st, ops, result);
    ProgramDisciplined(ty.root, ops, result);
    SlotCount(items);
    assert items[0..] == items && ElidedSlots(items)[0..] == ElidedSlots(items);
    SameRoots(items, st);
    ZeroSimulates(ty, items, 0, st, st);
  }

  lemma TrapFree()
    ensures NeverTraps(StoresZero())
  {
  }

  lemma ZeroPresent(ty: Typing)
    ensures Present(ty.root, ZeroState(ty.root).roots) && AllZero(ty, ZeroState(ty.root))
  {
    hide Size;
  }

  /* ---- runs of one program on states of one shape ---- */

  ghost predicate Sized(ty: Typing, st: State) {
    && (forall r: nat | r < |ty.root| :: r in st.roots && |st.roots[r]| == Size(ty.root[r]))
    && (forall b: nat | b in st.bufs :: b < |ty.buf| && |st.bufs[b]| == Size(ty.buf[b]))
  }

  lemma {:induction false} ReadsAlike(ty: Typing, st: State, st': State, v: View)
    requires Sized(ty, st) && Sized(ty, st') && ViewShape(ty, v).Some? && Read(ty, st, v).Some?
    ensures Read(ty, st', v).Some? && |Read(ty, st', v).value| == |Read(ty, st, v).value|
    decreases v
  {
    match v
    case Base(_) =>
    case CastOf(s) => ReadsAlike(ty, st, st', s);
    case SubOf(s, _, _, _, _) => ReadsAlike(ty, st, st', s);
  }

  lemma InputsAlike(ty: Typing, st: State, st': State, op: IrOp)
    requires Sized(ty, st) && Sized(ty, st') && st.bufs.Keys == st'.bufs.Keys
    requires Computes(op) && WellTyped(ty, op) && Elements(ty, st, op).Some?
    ensures Elements(ty, st', op).Some?
  {
    hide MatmulElement;
    assert op.MatmulOp? && op.acc ==> |st.bufs[op.out]| == |st'.bufs[op.out]| == Size(ty.buf[op.out]);
  }

  lemma ElementsAlike(f: Fpu<int>, g: Fpu<int>, ty: Typing, st: State, st': State, op: IrOp)
    requires NeverTraps(g) && Sized(ty, st) && Sized(ty, st') && st.bufs.Keys == st'.bufs.Keys
    requires Computes(op) && WellTyped(ty, op) && EvalOp(f, ty, st, op).Some?
    ensures EvalOp(g, ty, st', op).Some?
  {
    hide Size, NeverTraps, Value, Values, Elements, Sized, WellTyped;
    InputsAlike(ty, st, st', op);
    ElementCount(ty, st, op);
    ElementCount(ty, st', op);
    ElementForms(ty, st, op);
    ElementForms(ty, st', op);
    var xs, ys := Elements(ty, st, op).value, Elements(ty, st', op).value;
    forall e | 0 <= e < |ys|
      ensures Value(g, ys[e]).Some?
    {
      ValueAlike(f, g, xs[e], ys[e]);
    }
  }

  lemma ValueAlike(f: Fpu<int>, g: Fpu<int>, x: Element, y: Element)
    requires NeverTraps(g) && x.op == y.op && |x.inputs| == |y.inputs| && Value(f, x).Some?
    ensures Value(g, y).Some?
  {
    hide DotValue, ArithValue, ActValue, MaxOf, SumOf, ArgmaxOf;
    if y.op.Arith? {
      assert !IsZero(g, g.dec(y.inputs[1]));
    }
  }

  lemma OpAlike(f: Fpu<int>, g: Fpu<int>, ty: Typing, st: State, st': State, op: IrOp)
    requires NeverTraps(g) && Sized(ty, st) && Sized(ty, st') && st.bufs.Keys == st'.bufs.Keys && EvalOp(f, ty, st, op).Some?
    ensures var s1, s2 := EvalOp(f, ty, st, op).value, EvalOp(g, ty, st', op);
      s2.Some? && Sized(ty, s1) && Sized(ty, s2.value) && s1.bufs.Keys == s2.value.bufs.Keys
  {
    hide Value, Values, Read, NeverTraps, ViewShape, Sized;
    match op {
      case Load(v, b) => ReadsAlike(ty, st, st', v);
      case Store(b, v) =>
      case SyncOp =>
      case ReturnOp(_) =>
      case _ => ElementsAlike(f, g, ty, st, st', op);
    }
    OpKeepsSizes(f, ty, st, op);
    OpKeepsSizes(g, ty, st', op);
  }

  lemma OpKeepsSizes<F>(f: Fpu<F>, ty: Typing, st: State, op: IrOp)
    requires Sized(ty, st) && EvalOp(f, ty, st, op).Some?
    ensures Sized(ty, EvalOp(f, ty, st, op).value)
  {
    hide Value, Read, ViewShape;
    if op.Store? {
      StoreKnown(ty, op);
    } else if Computes(op) {
      ElementCount(ty, st, op);
    }
  }

  lemma {:induction false} OpsAlike(f: Fpu<int>, g: Fpu<int>, ty: Typing, st: State, st': State, ops: seq<IrOp>)
    requires NeverTraps(g) && Sized(ty, st) && Sized(ty, st') && st.bufs.Keys == st'.bufs.Keys && EvalOps(f, ty, st, ops).Some?
    ensures EvalOps(g, ty, st', ops).Some?
    decreases ops
  {
    hide EvalOp, NeverTraps, Sized;
    if ops != [] {
      OpAlike(f, g, ty, st, st', ops[0]);
      OpsAlike(f, g, ty, EvalOp(f, ty, st, ops[0]).value, EvalOp(g, ty, st', ops[0]).value, ops[1..]);
    }
  }

  lemma {:induction false} OpsKeepSizes<F>(f: Fpu<F>, ty: Typing, st: State, ops: seq<IrOp>)
    requires Sized(ty, st) && EvalOps(f, ty, st, ops).Some?
    ensures Sized(ty, EvalOps(f, ty, st, ops).value)
    decreases ops
  {
    hide EvalOp, Sized;
    if ops != [] {
      OpKeepsSizes(f, ty, st, ops[0]);
      OpsKeepSizes(f, ty, EvalOp(f, ty, st, ops[0]).value, ops[1..]);
    }
  }

  /** Lost roots or not, the elided program of a chain runs. */
  lemma ElidedChainRuns(f: Fpu<int>, ty: Typing, ops: seq<Linalg>, result: Root, st: State)
    requires NeverTraps(f) && AllShaped(ty.root, ops) && ChainBufs(ty.root, ops) <= ty.buf && result < |ty.root|
    requires Present(ty.root, st.roots) && st.bufs == map[]
    ensures InRoots(ty.root, ops)
    ensures EvalOps(f, ty, st, Unroll(Elide(Program(ty.root, ops, result)))).Some?
  {
    hide Shaped, RootsIn, EvalOps, Unroll, Elide, StoresZero, ChainBufs, Program, Size, NeverTraps;
    ZeroRuns(ty, ops, result);
    ZeroPresent(ty);
    OpsAlike(StoresZero(), f, ty, ZeroState(ty.root), st, Unroll(Elide(Program(ty.root, ops, result))));
  }
}
