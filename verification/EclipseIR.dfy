/** The bufferized Eclipse dialect the lowerings produce: DDR roots seen through casts and
    subviews, SRAM buffers, and leaf operations. Tensors are row-major fp16 words. */
module EclipseIR {
  import opened Arithmetic
  import opened Types
  import opened Machine

  /** A function argument or an allocation living in DDR. */
  type Root = nat

  /** A memref.alloc in memory space 0. */
  type Buf = nat

  datatype Shape = Shape(rows: nat, cols: nat)

  type Tensor = seq<Word>

  function Size(s: Shape): nat { s.rows * s.cols }

  /** The types of a function's roots (arguments, then allocations) and of its SRAM buffers, both
      in program order. */
  datatype Typing = Typing(root: seq<Shape>, buf: seq<Shape>)

  /** A subview offset: a constant, or the induction variable of the enclosing loop times a
      constant. */
  datatype Offset = Fixed(n: nat) | Induction(scale: nat)

  datatype View =
    | Base(root: Root)
    | CastOf(source: View)
    | SubOf(source: View, rowOff: Offset, colOff: Offset, rows: nat, cols: nat)

  datatype IrOp =
    | Load(src: View, dst: Buf)
    | Store(from: Buf, to: View)
    | MatmulOp(lhs: Buf, rhs: Buf, out: Buf, acc: bool, transA: bool, transB: bool)
    | EwiseOp(kind: EwiseKind, lhs: Buf, rhs: Buf, out: Buf)
    | ActOp(act: ActKind, arg: Buf, out: Buf)
    | ReduceOp(red: ReduceKind, arg: Buf, out: Buf)
    | SyncOp
    | ReturnOp(result: Root)

  /** An operation of the function body, or an scf.for over a block of them. */
  datatype Item = Leaf(op: IrOp) | For(lb: nat, ub: nat, body: seq<IrOp>)

  /* ---- full unrolling ---- */

  function AtIteration(o: Offset, iv: nat): Offset {
    match o
    case Fixed(_) => o
    case Induction(scale) => Fixed(iv * scale)
  }

  function ViewAt(v: View, iv: nat): View {
    match v
    case Base(_) => v
    case CastOf(s) => CastOf(ViewAt(s, iv))
    case SubOf(s, ro, co, rows, cols) => SubOf(ViewAt(s, iv), AtIteration(ro, iv), AtIteration(co, iv), rows, cols)
  }

  function OpAt(op: IrOp, iv: nat): IrOp {
    match op
    case Load(v, b) => Load(ViewAt(v, iv), b)
    case Store(b, v) => Store(b, ViewAt(v, iv))
    case _ => op
  }

  function BodyAt(body: seq<IrOp>, iv: nat): seq<IrOp> {
    seq(|body|, k requires 0 <= k < |body| => OpAt(body[k], iv))
  }

  function UnrollLoop(body: seq<IrOp>, lb: nat, ub: nat): seq<IrOp>
    decreases ub
  {
    if ub <= lb then [] else UnrollLoop(body, lb, ub - 1) + BodyAt(body, ub - 1)
  }

  function Unroll(items: seq<Item>): seq<IrOp> {
    if items == [] then []
    else (match items[0] case Leaf(op) => [op] case For(lb, ub, body) => UnrollLoop(body, lb, ub)) + Unroll(items[1..])
  }

  /* ---- semantics ---- */

  datatype State = State(roots: map<Root, Tensor>, bufs: map<Buf, Tensor>)

  function ViewShape(ty: Typing, v: View): Option<Shape> {
    match v
    case Base(r) => if r < |ty.root| then Some(ty.root[r]) else None
    case CastOf(s) => ViewShape(ty, s)
    case SubOf(_, _, _, rows, cols) => Some(Shape(rows, cols))
  }

  /** `rows` x `cols` words of `t`, whose rows are `pitch` words long, from (ro, co) on. */
  function Window(t: Tensor, pitch: nat, ro: nat, co: nat, rows: nat, cols: nat): (w: Tensor)
    requires (ro + rows) * pitch <= |t| && co + cols <= pitch
    ensures |w| == rows * cols
  {
    seq(rows * cols, e requires 0 <= e < rows * cols =>
      WindowInside(pitch, ro, co, rows, cols, e);
      t[(ro + e / cols) * pitch + co + e % cols])
  }

  lemma WindowInside(pitch: nat, ro: nat, co: nat, rows: nat, cols: nat, e: nat)
    requires e < rows * cols && co + cols <= pitch
    ensures cols > 0 && e / cols < rows && 0 <= (ro + e / cols) * pitch + co + e % cols < (ro + rows) * pitch
  {
    PositiveFactors(rows, cols);
    RowOf(e, rows, cols);
    RowMajor(ro + e / cols, co + e % cols, ro + rows, pitch);
  }

  /** The words a view denotes. */
  function Read(ty: Typing, st: State, v: View): Option<Tensor> {
    match v
    case Base(r) => if r in st.roots then Some(st.roots[r]) else None
    case CastOf(s) => Read(ty, st, s)
    case SubOf(s, ro, co, rows, cols) =>
      var t, shape := Read(ty, st, s), ViewShape(ty, s);
      if t.Some? && shape.Some? && ro.Fixed? && co.Fixed? && co.n + cols <= shape.value.cols
         && (ro.n + rows) * shape.value.cols <= |t.value|
      then Some(Window(t.value, shape.value.cols, ro.n, co.n, rows, cols))
      else None
  }

  /** One output element of a leaf operation: what is computed from which words. */
  datatype Element = Element(op: Machine.Op, inputs: seq<Word>)

  function LhsWord(lhs: Tensor, M: nat, K: nat, trans: bool, i: nat, k: nat): Word {
    var at := if trans then k * M + i else i * K + k;
    if at < |lhs| then lhs[at] else 0
  }

  function RhsWord(rhs: Tensor, K: nat, N: nat, trans: bool, k: nat, j: nat): Word {
    var at := if trans then j * K + k else k * N + j;
    if at < |rhs| then rhs[at] else 0
  }

  function Dims(ty: Typing, op: IrOp): (nat, nat, nat)
    requires op.MatmulOp? && op.lhs < |ty.buf| && op.rhs < |ty.buf|
  {
    var l, r := ty.buf[op.lhs], ty.buf[op.rhs];
    (if op.transA then l.cols else l.rows, if op.transA then l.rows else l.cols, if op.transB then r.rows else r.cols)
  }

  function MatmulElement(lhs: Tensor, rhs: Tensor, old': Tensor, M: nat, K: nat, N: nat, op: IrOp, e: nat): Element
    requires op.MatmulOp? && N > 0 && (op.acc ==> e < |old'|)
  {
    Element(Dot(K, op.acc),
            seq(K, k requires k >= 0 => LhsWord(lhs, M, K, op.transA, e / N, k))
              + seq(K, k requires k >= 0 => RhsWord(rhs, K, N, op.transB, k, e % N))
              + (if op.acc then [old'[e]] else []))
  }

  function EwiseElement(kind: EwiseKind, lhs: Tensor, rhs: Tensor, shape: Shape, small: Shape, e: nat): Element
    requires shape.cols > 0 && small.cols > 0 && e < |lhs|
  {
    var stride := if small.rows == 1 then 0 else small.cols;
    var s := e / shape.cols * stride + e % small.cols;
    Element(Arith(kind), [lhs[e], if 0 <= s < |rhs| then rhs[s] else 0])
  }

  /** The operand shapes the dialect's verifiers accept. */
  predicate WellTyped(ty: Typing, op: IrOp) {
    match op
    case Load(v, b) =>
      && b < |ty.buf| && ViewShape(ty, v) == Some(ty.buf[b])
    case Store(b, v) =>
      && b < |ty.buf| && ViewShape(ty, v) == Some(ty.buf[b])
    case MatmulOp(l, r, d, _, ta, tb) =>
      && l < |ty.buf| && r < |ty.buf| && d < |ty.buf| && l != r && l != d && r != d
      && (if ta then ty.buf[l].rows else ty.buf[l].cols) == (if tb then ty.buf[r].cols else ty.buf[r].rows)
      && ty.buf[d] == Shape(Dims(ty, op).0, Dims(ty, op).2)
    case EwiseOp(_, l, r, d) =>
      && l < |ty.buf| && r < |ty.buf| && d < |ty.buf| && d != l && d != r && ty.buf[l] == ty.buf[d]
      && (ty.buf[r].rows == 1 || ty.buf[r].rows == ty.buf[d].rows)
      && ty.buf[r].cols > 0 && ty.buf[d].cols > 0 && ty.buf[d].cols % ty.buf[r].cols == 0
    case ActOp(_, a, d) => a < |ty.buf| && d < |ty.buf| && a != d && ty.buf[a] == ty.buf[d]
    case ReduceOp(k, a, d) =>
      && a < |ty.buf| && d < |ty.buf| && a != d && k != Argmax
      && ty.buf[a].rows > 0 && ty.buf[a].cols > 0 && ty.buf[d] == Shape(ty.buf[a].rows, 1)
    case SyncOp => true
    case ReturnOp(r) => r < |ty.root|
  }

  /** The elements of a compute operation, in order; None if an operand is not initialised. */
  function Elements(ty: Typing, st: State, op: IrOp): Option<seq<Element>>
    requires WellTyped(ty, op)
  {
    match op
    case MatmulOp(l, r, d, acc, _, _) =>
      var (M, K, N) := Dims(ty, op);
      if l in st.bufs && r in st.bufs && (acc ==> d in st.bufs && |st.bufs[d]| == M * N) then
        Some(seq(M * N, e requires 0 <= e < M * N => PositiveFactors(M, N);
          MatmulElement(st.bufs[l], st.bufs[r], if acc then st.bufs[d] else [], M, K, N, op, e)))
      else None
    case EwiseOp(kind, l, r, d) =>
      if l in st.bufs && r in st.bufs && |st.bufs[l]| == Size(ty.buf[d]) then
        Some(seq(Size(ty.buf[d]), e requires 0 <= e < Size(ty.buf[d]) =>
          EwiseElement(kind, st.bufs[l], st.bufs[r], ty.buf[d], ty.buf[r], e)))
      else None
    case ActOp(act, a, d) =>
      if a in st.bufs && |st.bufs[a]| == Size(ty.buf[d]) then
        Some(seq(Size(ty.buf[d]), e requires 0 <= e < Size(ty.buf[d]) => Element(Activate(act), [st.bufs[a][e]])))
      else None
    case ReduceOp(red, a, d) =>
      if a in st.bufs && |st.bufs[a]| == Size(ty.buf[a]) then
        Some(seq(ty.buf[a].rows, i requires 0 <= i < ty.buf[a].rows =>
          RowInside(i, ty.buf[a].rows, ty.buf[a].cols);
          Element(Fold(red), st.bufs[a][i * ty.buf[a].cols..i * ty.buf[a].cols + ty.buf[a].cols])))
      else None
    case _ => Some([])
  }

  /** Entry (r, c) of a row-major tensor. */
  function EntryOf(t: Tensor, s: Shape, r: nat, c: nat): Word {
    var at := r * s.cols + c;
    if 0 <= at < |t| then t[at] else 0
  }

  /** A matrix product of M x K by K x N: a transposed operand is stored the other way round, and its
      rows and columns change places. */
  lemma TransposedOperands(ty: Typing, op: IrOp, lhs: Tensor, rhs: Tensor, i: nat, k: nat, j: nat)
    requires op.MatmulOp? && WellTyped(ty, op)
    ensures var (M, K, N) := Dims(ty, op); var l, r, d := ty.buf[op.lhs], ty.buf[op.rhs], ty.buf[op.out];
      && l == (if op.transA then Shape(K, M) else Shape(M, K)) && r == (if op.transB then Shape(N, K) else Shape(K, N))
      && d == Shape(M, N)
      && LhsWord(lhs, M, K, op.transA, i, k) == (if op.transA then EntryOf(lhs, l, k, i) else EntryOf(lhs, l, i, k))
      && RhsWord(rhs, K, N, op.transB, k, j) == (if op.transB then EntryOf(rhs, r, j, k) else EntryOf(rhs, r, k, j))
  {
    var (M, K, N) := Dims(ty, op);
    MulMonotone(M, 0, k);
    MulMonotone(K, 0, i);
    MulMonotone(K, 0, j);
    MulMonotone(N, 0, k);
  }

  lemma RowInside(i: nat, rows: nat, cols: nat)
    requires i < rows
    ensures 0 <= i * cols && i * cols + cols <= rows * cols
  {
    MulMonotone(cols, i + 1, rows);
    MulMonotone(cols, 0, i);
  }

  /** The single word an element comes to; None where the machine asserts. */
  function Value<F>(f: Fpu<F>, x: Element): Option<Word> {
    var r := Eval(f, x.op, x.inputs);
    if r.Some? && |r.value| == 1 then Some(r.value[0]) else None
  }

  function Values<F>(f: Fpu<F>, xs: seq<Element>): Tensor
    requires forall e | 0 <= e < |xs| :: Value(f, xs[e]).Some?
  {
    seq(|xs|, e requires 0 <= e < |xs| => Value(f, xs[e]).value)
  }

  function EvalOp<F>(f: Fpu<F>, ty: Typing, st: State, op: IrOp): Option<State> {
    if !WellTyped(ty, op) then None
    else match op
      case Load(v, b) =>
        var t := Read(ty, st, v);
        if t.Some? && |t.value| == Size(ty.buf[b]) then Some(st.(bufs := st.bufs[b := t.value])) else None
      case Store(b, v) =>
        if b in st.bufs && StoredRoot(v).Some? then Some(st.(roots := st.roots[StoredRoot(v).value := st.bufs[b]])) else None
      case SyncOp => Some(st)
      case ReturnOp(_) => Some(st)
      case _ =>
        var xs := Elements(ty, st, op);
        if xs.Some? && forall e | 0 <= e < |xs.value| :: Value(f, xs.value[e]).Some? then
          Some(st.(bufs := st.bufs[op.out := Values(f, xs.value)]))
        else None
  }

  /** The root a store goes to: its destination must be a cast of a root. */
  function StoredRoot(v: View): Option<Root> {
    match v
    case CastOf(s) => if s.Base? then Some(s.root) else None
    case _ => None
  }

  function EvalOps<F>(f: Fpu<F>, ty: Typing, st: State, ops: seq<IrOp>): Option<State>
    decreases ops
  {
    if ops == [] then Some(st)
    else
      var r := EvalOp(f, ty, st, ops[0]);
      if r.Some? then EvalOps(f, ty, r.value, ops[1..]) else None
  }

  /** An elementwise operation finds its operands, but an element has no value: a division by zero. */
  ghost predicate Traps<F>(f: Fpu<F>, ty: Typing, st: State, op: IrOp) {
    && op.EwiseOp? && WellTyped(ty, op) && Elements(ty, st, op).Some?
    && exists e :: 0 <= e < |Elements(ty, st, op).value| && Value(f, Elements(ty, st, op).value[e]).None?
  }

  /** The run from operation `k` on. */
  lemma EvalFrom<F>(f: Fpu<F>, ty: Typing, st: State, ops: seq<IrOp>, k: nat)
    requires k <= |ops|
    ensures EvalOps(f, ty, st, ops[k..]) ==
      if k == |ops| then Some(st)
      else
        var r := EvalOp(f, ty, st, ops[k]);
        if r.Some? then EvalOps(f, ty, r.value, ops[k + 1..]) else None
  {
    hide EvalOp;
    if k < |ops| {
      assert ops[k..][1..] == ops[k + 1..];
    }
  }

  lemma {:induction false} EvalConcat<F>(f: Fpu<F>, ty: Typing, st: State, xs: seq<IrOp>, ys: seq<IrOp>)
    ensures EvalOps(f, ty, st, xs + ys) ==
      var r := EvalOps(f, ty, st, xs); if r.Some? then EvalOps(f, ty, r.value, ys) else None
    decreases xs
  {
    hide EvalOp;
    if xs == [] {
      assert xs + ys == ys;
    } else {
      assert (xs + ys)[1..] == xs[1..] + ys;
      var r := EvalOp(f, ty, st, xs[0]);
      if r.Some? {
        EvalConcat(f, ty, r.value, xs[1..], ys);
      }
    }
  }

  lemma {:induction false} UnrollConcat(xs: seq<Item>, ys: seq<Item>)
    ensures Unroll(xs + ys) == Unroll(xs) + Unroll(ys)
    decreases xs
  {
    if xs == [] {
      assert xs + ys == ys;
    } else {
      assert (xs + ys)[1..] == xs[1..] + ys;
      UnrollConcat(xs[1..], ys);
    }
  }
}
