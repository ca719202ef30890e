/** What the one-block lowerings (elementwise, activation, reduction) compute on tensors. */
module LoweredOps {
  import opened Arithmetic
  import opened Types
  import opened Machine
  import opened EclipseIR
  import opened Lowering
  import opened MatmulCorrect

  /** A root is loaded whole into a buffer of its shape. */
  lemma LoadRuns<F>(f: Fpu<F>, ty: Typing, st: State, r: Root, b: Buf)
    requires r < |ty.root| && b < |ty.buf| && ty.root[r] == ty.buf[b] && r in st.roots && |st.roots[r]| == Size(ty.root[r])
    ensures EvalOp(f, ty, st, Load(ToDDR(r), b)) == Some(st.(bufs := st.bufs[b := st.roots[r]]))
  {
    RootView(ty, st, r);
  }

  /* ---- elementwise ---- */

  /** Word `e` of the right operand's descriptor pattern. */
  function SmallAt(big: Shape, small: Shape, e: nat): int
    requires big.cols > 0 && small.cols > 0
  {
    e / big.cols * (if small.rows == 1 then 0 else small.cols) + e % small.cols
  }

  /** The two words combined into element `e`. */
  function EwisePair(A: Tensor, B: Tensor, big: Shape, small: Shape, e: nat): (Word, Word)
    requires big.cols > 0 && small.cols > 0
  {
    (WordOf(A, e), WordOf(B, SmallAt(big, small, e)))
  }

  /** The divisor the machine asserts on. */
  predicate Divides<F>(f: Fpu<F>, kind: EwiseKind, rhs: Word) { kind == Div ==> !f.eq(f.dec(rhs), f.zero) }

  /** What linalg.add, sub, mul and div yield for two elements, rounded once. */
  function Combine<F>(f: Fpu<F>, kind: EwiseKind, pair: (Word, Word)): Word {
    match kind
    case Add => f.enc(f.add(f.dec(pair.0), f.dec(pair.1)))
    case Sub => f.enc(f.sub(f.dec(pair.0), f.dec(pair.1)))
    case Mul => f.enc(f.mul(f.dec(pair.0), f.dec(pair.1)))
    case Div => f.enc(f.div(f.dec(pair.0), f.dec(pair.1)))
  }

  datatype EwisePlan = EwisePlan(kind: EwiseKind, big: Root, small: Root, out: Root, l: Buf, r: Buf, d: Buf)

  ghost predicate EwiseTyped(ty: Typing, p: EwisePlan) {
    && p.big < |ty.root| && p.small < |ty.root| && p.out < |ty.root|
    && p.l < |ty.buf| && p.r < |ty.buf| && p.d < |ty.buf| && p.l != p.r && p.l != p.d && p.r != p.d
    && ty.root[p.big] == ty.root[p.out] == ty.buf[p.l] == ty.buf[p.d] && ty.root[p.small] == ty.buf[p.r]
    && ty.buf[p.d].cols > 0 && ty.buf[p.r].cols > 0
    && (ty.buf[p.r].rows == 1 || ty.buf[p.r].rows == ty.buf[p.d].rows) && ty.buf[p.d].cols % ty.buf[p.r].cols == 0
  }

  ghost predicate EwiseOperands(ty: Typing, st: State, p: EwisePlan)
    requires EwiseTyped(ty, p)
  {
    && p.big in st.roots && |st.roots[p.big]| == Size(ty.root[p.big])
    && p.small in st.roots && |st.roots[p.small]| == Size(ty.root[p.small])
  }

  function PairOf(ty: Typing, st: State, p: EwisePlan, e: nat): (Word, Word)
    requires EwiseTyped(ty, p) && EwiseOperands(ty, st, p)
  {
    EwisePair(st.roots[p.big], st.roots[p.small], ty.root[p.out], ty.root[p.small], e)
  }

  ghost predicate NoZeroDivisor<F>(f: Fpu<F>, ty: Typing, st: State, p: EwisePlan)
    requires EwiseTyped(ty, p) && EwiseOperands(ty, st, p)
  {
    forall e: nat | e < Size(ty.root[p.out]) :: Divides(f, p.kind, PairOf(ty, st, p, e).1)
  }

  function EwiseResult<F>(f: Fpu<F>, ty: Typing, st: State, p: EwisePlan): Tensor
    requires EwiseTyped(ty, p) && EwiseOperands(ty, st, p)
  {
    seq(Size(ty.root[p.out]), e requires 0 <= e < Size(ty.root[p.out]) => Combine(f, p.kind, PairOf(ty, st, p, e)))
  }

  function EwiseOps(p: EwisePlan): seq<IrOp> {
    [Load(ToDDR(p.big), p.l), Load(ToDDR(p.small), p.r), SyncOp, EwiseOp(p.kind, p.l, p.r, p.d), SyncOp,
     Store(p.d, ToDDR(p.out))]
  }

  lemma EwiseValue<F>(f: Fpu<F>, ty: Typing, st: State, p: EwisePlan, st2: State, e: nat)
    requires EwiseTyped(ty, p) && EwiseOperands(ty, st, p) && e < Size(ty.root[p.out])
    requires p.l in st2.bufs && p.r in st2.bufs && st2.bufs[p.l] == st.roots[p.big] && st2.bufs[p.r] == st.roots[p.small]
    ensures WellTyped(ty, EwiseOps(p)[3]) && Elements(ty, st2, EwiseOps(p)[3]).Some?
    ensures |Elements(ty, st2, EwiseOps(p)[3]).value| == Size(ty.root[p.out])
    ensures Value(f, Elements(ty, st2, EwiseOps(p)[3]).value[e]) ==
      if Divides(f, p.kind, PairOf(ty, st, p, e).1) then Some(Combine(f, p.kind, PairOf(ty, st, p, e))) else None
  {
    hide Size, ArithValue;
    var xs := Elements(ty, st2, EwiseOps(p)[3]).value;
    var pair := PairOf(ty, st, p, e);
    assert xs[e] == Element(Arith(p.kind), [pair.0, pair.1]);
    ArithElement(f, p.kind, pair.0, pair.1);
  }

  lemma ArithElement<F>(f: Fpu<F>, kind: EwiseKind, l: Word, r: Word)
    ensures Value(f, Element(Arith(kind), [l, r])) == if Divides(f, kind, r) then Some(Combine(f, kind, (l, r))) else None
  {
  }

  /** The lowered elementwise sequence succeeds exactly when no divisor is zero, and then stores the
      combined words into the output root. */
  lemma LoweredEwise<F>(f: Fpu<F>, ty: Typing, st: State, p: EwisePlan)
    requires EwiseTyped(ty, p) && EwiseOperands(ty, st, p)
    ensures var st' := EvalOps(f, ty, st, Unroll(EwiseItems(p.kind, p.big, p.small, p.out, p.l, p.r, p.d)));
      && (st'.Some? <==> NoZeroDivisor(f, ty, st, p))
      && (st'.Some? ==> st'.value.roots == st.roots[p.out := EwiseResult(f, ty, st, p)])
  {
    hide EvalOps, EvalOp, Size, PairOf, Divides, Combine;
    var ops := EwiseOps(p);
    UnrollLeaves(ops);
    LoadRuns(f, ty, st, p.big, p.l);
    var st1 := EvalOp(f, ty, st, ops[0]).value;
    LoadRuns(f, ty, st1, p.small, p.r);
    var st2 := EvalOp(f, ty, st1, ops[1]).value;
    SyncRuns(f, ty, st2);
    assert ops[0..] == ops;
    EvalFrom(f, ty, st, ops, 0);
    EvalFrom(f, ty, st1, ops, 1);
    EvalFrom(f, ty, st2, ops, 2);
    EvalFrom(f, ty, st2, ops, 3);
    EwiseRuns(f, ty, st, p, st2);
    if NoZeroDivisor(f, ty, st, p) {
      var st3 := EvalOp(f, ty, st2, ops[3]).value;
      SyncRuns(f, ty, st3);
      StoreRuns(f, ty, st3, p.d, p.out);
      EvalFrom(f, ty, st3, ops, 4);
      EvalFrom(f, ty, st3, ops, 5);
      EvalFrom(f, ty, EvalOp(f, ty, st3, ops[5]).value, ops, 6);
    }
  }

  lemma EwiseRuns<F>(f: Fpu<F>, ty: Typing, st: State, p: EwisePlan, st2: State)
    requires EwiseTyped(ty, p) && EwiseOperands(ty, st, p)
    requires p.l in st2.bufs && p.r in st2.bufs && st2.bufs[p.l] == st.roots[p.big] && st2.bufs[p.r] == st.roots[p.small]
    ensures EvalOp(f, ty, st2, EwiseOps(p)[3]) ==
      if NoZeroDivisor(f, ty, st, p) then Some(st2.(bufs := st2.bufs[p.d := EwiseResult(f, ty, st, p)])) else None
  {
    hide Size, PairOf, Divides, Combine, Value;
    var op := EwiseOps(p)[3];
    forall e: nat | e < Size(ty.root[p.out])
      ensures Elements(ty, st2, op).Some? && |Elements(ty, st2, op).value| == Size(ty.root[p.out])
      ensures Value(f, Elements(ty, st2, op).value[e]) ==
        if Divides(f, p.kind, PairOf(ty, st, p, e).1) then Some(Combine(f, p.kind, PairOf(ty, st, p, e))) else None
    {
      EwiseValue(f, ty, st, p, st2, e);
    }
    var xs := Elements(ty, st2, op).value;
    if NoZeroDivisor(f, ty, st, p) {
      assert Values(f, xs) == EwiseResult(f, ty, st, p);
    } else {
      var e: nat :| e < Size(ty.root[p.out]) && !Divides(f, p.kind, PairOf(ty, st, p, e).1);
      assert Value(f, xs[e]).None?;
    }
  }

  /* ---- activation and reduction ---- */

  ghost predicate UnaryTyped(ty: Typing, src: Root, out: Root, compute: IrOp, a: Buf, d: Buf) {
    && src < |ty.root| && out < |ty.root| && a < |ty.buf| && d < |ty.buf| && a != d
    && ty.root[src] == ty.buf[a] && ty.root[out] == ty.buf[d] && WellTyped(ty, compute)
    && ((compute.ActOp? && compute.arg == a && compute.out == d) || (compute.ReduceOp? && compute.arg == a && compute.out == d))
  }

  /** Row `i` of a root. */
  function RootRow(t: Tensor, s: Shape, i: nat): (row: seq<Word>)
    requires |t| == Size(s) && i < s.rows
    ensures |row| == s.cols
  {
    RowInside(i, s.rows, s.cols);
    t[i * s.cols..i * s.cols + s.cols]
  }

  /** (..((v0 + v1) + v2) + ..). */
  function LeftSum<F>(f: Fpu<F>, vs: seq<F>): F
    requires vs != []
  {
    if |vs| == 1 then vs[0] else f.add(LeftSum(f, vs[..|vs| - 1]), vs[|vs| - 1])
  }

  function Squares<F>(f: Fpu<F>, vs: seq<F>): seq<F> { seq(|vs|, i requires 0 <= i < |vs| => f.mul(vs[i], vs[i])) }

  /** What a reduction yields for a row, folding from the first element, whatever the output held: the
      sum of the elements or of their squares from the left, or the maximum that ReduceFold is about. */
  function Folded<F>(f: Fpu<F>, kind: ReduceKind, row: seq<Word>): Word
    requires row != []
  {
    match kind
    case MaxKind => f.enc(MaxOf(f, row, |row|))
    case SumKind => f.enc(LeftSum(f, Decoded(f, row)))
    case SquareSum => f.enc(LeftSum(f, Squares(f, Decoded(f, row))))
    case Argmax => f.enc(ArgmaxOf(f, row, |row|).value)
  }

  /** The machine's running sum of the first `n` words is the sum from the left. */
  lemma {:induction false} SumIsLeftSum<F>(f: Fpu<F>, row: seq<Word>, n: nat)
    requires 1 <= n <= |row|
    ensures SumOf(f, false, row, n) == LeftSum(f, Decoded(f, row)[..n])
    ensures SumOf(f, true, row, n) == LeftSum(f, Squares(f, Decoded(f, row))[..n])
    decreases n
  {
    if n > 1 {
      SumIsLeftSum(f, row, n - 1);
      var vs, qs := Decoded(f, row), Squares(f, Decoded(f, row));
      assert vs[..n][..n - 1] == vs[..n - 1] && qs[..n][..n - 1] == qs[..n - 1];
    }
  }

  /** What relu, linalg.exp, linalg.rsqrt and silu yield for an element, rounded once. */
  function Activated<F>(f: Fpu<F>, kind: ActKind, w: Word): Word {
    match kind
    case Relu => if f.gt(f.dec(w), f.zero) then f.enc(f.dec(w)) else f.enc(f.zero)
    case Exp => f.enc(f.exp(f.dec(w)))
    case Rsqrt => f.enc(f.rsqrt(f.dec(w)))
    case Silu => f.enc(f.silu(f.dec(w)))
  }

  lemma ActElement<F>(f: Fpu<F>, kind: ActKind, w: Word)
    ensures Value(f, Element(Activate(kind), [w])) == Some(Activated(f, kind, w))
  {
  }

  lemma FoldElement<F>(f: Fpu<F>, kind: ReduceKind, row: seq<Word>)
    requires row != [] && kind != Argmax
    ensures Value(f, Element(Fold(kind), row)) == Some(Folded(f, kind, row))
  {
    hide MaxOf, SumOf, LeftSum;
    SumIsLeftSum(f, row, |row|);
    assert Decoded(f, row)[..|row|] == Decoded(f, row) && Squares(f, Decoded(f, row))[..|row|] == Squares(f, Decoded(f, row));
  }

  function UnaryResult<F>(f: Fpu<F>, compute: IrOp, t: Tensor, s: Shape): Tensor
    requires (compute.ActOp? || compute.ReduceOp?) && |t| == Size(s) && (compute.ReduceOp? ==> s.cols > 0)
  {
    if compute.ActOp? then seq(Size(s), e requires 0 <= e < Size(s) => Activated(f, compute.act, t[e]))
    else seq(s.rows, i requires 0 <= i < s.rows => Folded(f, compute.red, RootRow(t, s, i)))
  }

  lemma UnaryComputes<F>(f: Fpu<F>, ty: Typing, st: State, src: Root, out: Root, compute: IrOp, a: Buf, d: Buf)
    requires UnaryTyped(ty, src, out, compute, a, d) && a in st.bufs && |st.bufs[a]| == Size(ty.buf[a])
    ensures EvalOp(f, ty, st, compute) == Some(st.(bufs := st.bufs[d := UnaryResult(f, compute, st.bufs[a], ty.buf[a])]))
  {
    hide Size, Value, Activated, Folded, RootRow;
    var t, s := st.bufs[a], ty.buf[a];
    var xs := Elements(ty, st, compute).value;
    forall e: nat | e < |xs|
      ensures Value(f, xs[e]) == Some(UnaryResult(f, compute, t, s)[e])
    {
      if compute.ReduceOp? {
        assert xs[e].inputs == RootRow(t, s, e) by { RowIs(t, s, e); }
        FoldElement(f, compute.red, RootRow(t, s, e));
      } else {
        ActElement(f, compute.act, t[e]);
      }
    }
    assert Values(f, xs) == UnaryResult(f, compute, t, s) by { ResultSize(f, compute, t, s, xs); }
  }

  lemma RowIs(t: Tensor, s: Shape, i: nat)
    requires |t| == Size(s) && i < s.rows
    ensures 0 <= i * s.cols && i * s.cols + s.cols <= |t| && RootRow(t, s, i) == t[i * s.cols..i * s.cols + s.cols]
  {
    RowInside(i, s.rows, s.cols);
  }

  lemma ResultSize<F>(f: Fpu<F>, compute: IrOp, t: Tensor, s: Shape, xs: seq<Element>)
    requires (compute.ActOp? || compute.ReduceOp?) && |t| == Size(s) && (compute.ReduceOp? ==> s.cols > 0)
    requires |xs| == (if compute.ActOp? then Size(s) else s.rows)
    requires forall e: nat | e < |xs| :: Value(f, xs[e]) == Some(UnaryResult(f, compute, t, s)[e])
    ensures Values(f, xs) == UnaryResult(f, compute, t, s)
  {
    hide Value, Folded, Activated;
  }

  /** The lowered activation or reduction always runs, and stores its result into the output root. */
  lemma LoweredUnary<F>(f: Fpu<F>, ty: Typing, st: State, src: Root, out: Root, compute: IrOp, a: Buf, d: Buf)
    requires UnaryTyped(ty, src, out, compute, a, d) && src in st.roots && |st.roots[src]| == Size(ty.root[src])
    ensures var st' := EvalOps(f, ty, st, Unroll(UnaryItems(src, out, compute, a, d)));
      st'.Some? && st'.value.roots == st.roots[out := UnaryResult(f, compute, st.roots[src], ty.root[src])]
  {
    hide EvalOps, EvalOp, Size, UnaryResult;
    var ops := [Load(ToDDR(src), a), SyncOp, compute, SyncOp, Store(d, ToDDR(out))];
    UnrollLeaves(ops);
    LoadRuns(f, ty, st, src, a);
    var st1 := EvalOp(f, ty, st, ops[0]).value;
    SyncRuns(f, ty, st1);
    UnaryComputes(f, ty, st1, src, out, compute, a, d);
    var st2 := EvalOp(f, ty, st1, compute).value;
    SyncRuns(f, ty, st2);
    StoreRuns(f, ty, st2, d, out);
    var st3 := EvalOp(f, ty, st2, ops[4]).value;
    assert ops[0..] == ops;
    EvalFrom(f, ty, st, ops, 0);
    EvalFrom(f, ty, st1, ops, 1);
    EvalFrom(f, ty, st1, ops, 2);
    EvalFrom(f, ty, st2, ops, 3);
    EvalFrom(f, ty, st2, ops, 4);
    EvalFrom(f, ty, st3, ops, 5);
  }
}
