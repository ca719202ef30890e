/** What a chain of linalg operations means on whole tensors, with no buffers, tiles or copies, and
    that the lowered chain computes exactly that. */
module ChainMeaning {
  import opened Types
  import opened Machine
  import opened EclipseIR
  import opened Lowering
  import opened MatmulCorrect
  import opened LoweredOps
  import opened ElisionCorrect
  import opened ChainElision
  import opened ChainGroups

  /** The contents of the DDR roots. */
  type Tensors = map<Root, Tensor>

  /** The operand types the linalg and Eclipse verifiers require. */
  predicate Shaped(root: seq<Shape>, op: Linalg)
    requires RootsIn(root, op)
  {
    match op
    case LinalgMatmul(a, b, c) => Contracts(root, op) && root[c] == Shape(root[a].rows, root[b].cols)
    case LinalgEwise(_, a, b, c) =>
      && root[a] == root[c] && root[c].cols > 0 && root[b].cols > 0
      && (root[b].rows == 1 || root[b].rows == root[c].rows) && root[c].cols % root[b].cols == 0
    case LinalgAct(_, a, c) => root[a] == root[c]
    case LinalgReduce(kind, a, c) => kind != Argmax && root[a].rows > 0 && root[a].cols > 0 && root[c] == Shape(root[a].rows, 1)
  }

  predicate AllShaped(root: seq<Shape>, ops: seq<Linalg>) {
    InRoots(root, ops) && forall k | 0 <= k < |ops| :: Shaped(root, ops[k])
  }

  ghost predicate Present(root: seq<Shape>, ts: Tensors) {
    forall r: nat | r < |root| :: r in ts && |ts[r]| == Size(root[r])
  }

  /** `big` and the broadcast `small` combined, element by element; None if the machine would assert
      on a zero divisor. */
  ghost function Elementwise<F>(f: Fpu<F>, kind: EwiseKind, A: Tensor, B: Tensor, big: Shape, small: Shape): Option<Tensor>
    requires big.cols > 0 && small.cols > 0
  {
    if forall e: nat | e < Size(big) :: Divides(f, kind, EwisePair(A, B, big, small, e).1)
    then Some(seq(Size(big), e requires 0 <= e < Size(big) => Combine(f, kind, EwisePair(A, B, big, small, e))))
    else None
  }

  /** The contents an operation gives its output root. */
  ghost function Output<F>(f: Fpu<F>, root: seq<Shape>, ts: Tensors, op: Linalg): (t: Option<Tensor>)
    requires RootsIn(root, op) && Shaped(root, op) && Present(root, ts)
    ensures t.Some? ==> |t.value| == Size(root[op.out])
  {
    match op
    case LinalgMatmul(a, b, _) =>
      Some(Tile(f, ts[a], ts[b], root[a].cols, root[a].rows, root[b].cols, root[a].cols / TILE_K - 1))
    case LinalgEwise(kind, a, b, _) => Elementwise(f, kind, ts[a], ts[b], root[a], root[b])
    case LinalgAct(act, a, _) => Some(UnaryResult(f, ActOp(act, 0, 1), ts[a], root[a]))
    case LinalgReduce(red, a, _) => Some(UnaryResult(f, ReduceOp(red, 0, 1), ts[a], root[a]))
  }

  /** One operation after the other. */
  ghost function Meaning<F>(f: Fpu<F>, root: seq<Shape>, ts: Tensors, ops: seq<Linalg>): (r: Option<Tensors>)
    requires AllShaped(root, ops) && Present(root, ts)
    ensures r.Some? ==> Present(root, r.value)
  {
    if ops == [] then Some(ts)
    else
      var before, last := Meaning(f, root, ts, ops[..|ops| - 1]), ops[|ops| - 1];
      if before.None? then None
      else
        var t := Output(f, root, before.value, last);
        if t.None? then None else Some(before.value[last.out := t.value])
  }

  /* ---- the lowerings compute it ---- */

  /** The run succeeds exactly where the meaning is defined, and ends with these root contents. */
  ghost predicate Yields(r: Option<State>, ts: Option<Tensors>) {
    (r.Some? <==> ts.Some?) && (r.Some? ==> r.value.roots == ts.value)
  }

  ghost function Updated(ts: Tensors, op: Linalg, t: Option<Tensor>): Option<Tensors> {
    if t.Some? then Some(ts[op.out := t.value]) else None
  }

  lemma {:induction false} LoweredMeans<F>(f: Fpu<F>, ty: Typing, st: State, op: Linalg, base: Buf)
    requires RootsIn(ty.root, op) && Shaped(ty.root, op) && Present(ty.root, st.roots)
    requires base + |NewBufs(ty.root, op)| <= |ty.buf| && ty.buf[base..base + |NewBufs(ty.root, op)|] == NewBufs(ty.root, op)
    ensures Yields(EvalOps(f, ty, st, Unroll(Items(ty.root, op, base))), Updated(st.roots, op, Output(f, ty.root, st.roots, op)))
  {
    hide Items, Unroll, EvalOps, Tile, UnaryResult, Elementwise, Size;
    OwnBufs(ty, op, base);
    match op
    case LinalgMatmul(a, b, c) => MatmulMeans(f, ty, st, op, base);
    case LinalgEwise(kind, a, b, c) => EwiseMeans(f, ty, st, op, base);
    case LinalgAct(act, a, c) => UnaryMeans(f, ty, st, op, base, ActOp(act, base, base + 1), ActOp(act, 0, 1));
    case LinalgReduce(red, a, c) => UnaryMeans(f, ty, st, op, base, ReduceOp(red, base, base + 1), ReduceOp(red, 0, 1));
  }

  /** The types of the buffers a lowering allocated. */
  lemma OwnBufs(ty: Typing, op: Linalg, base: Buf)
    requires RootsIn(ty.root, op) && base + |NewBufs(ty.root, op)| <= |ty.buf|
    requires ty.buf[base..base + |NewBufs(ty.root, op)|] == NewBufs(ty.root, op)
    ensures forall k | 0 <= k < |NewBufs(ty.root, op)| :: ty.buf[base + k] == NewBufs(ty.root, op)[k]
  {
    hide NewBufs;
    var n := |NewBufs(ty.root, op)|;
    forall k | 0 <= k < n
      ensures ty.buf[base + k] == NewBufs(ty.root, op)[k]
    {
      assert ty.buf[base..base + n][k] == ty.buf[base + k];
    }
  }

  lemma MatmulMeans<F>(f: Fpu<F>, ty: Typing, st: State, op: Linalg, base: Buf)
    requires RootsIn(ty.root, op) && Shaped(ty.root, op) && Present(ty.root, st.roots) && op.LinalgMatmul?
    requires base + 3 <= |ty.buf| && forall k | 0 <= k < 3 :: ty.buf[base + k] == NewBufs(ty.root, op)[k]
    ensures Yields(EvalOps(f, ty, st, Unroll(Items(ty.root, op, base))), Updated(st.roots, op, Output(f, ty.root, st.roots, op)))
  {
    hide Unroll, EvalOps, Tile, MatmulItems, Depth;
    var p := PlanFor(ty.root, op, base);
    WholeTiles(ty.root[op.lhs].cols, p);
    assert ty.buf[base + 0] == NewBufs(ty.root, op)[0] && ty.buf[base + 1] == NewBufs(ty.root, op)[1]
      && ty.buf[base + 2] == NewBufs(ty.root, op)[2];
    assert Items(ty.root, op, base) == ItemsOf(p);
    LoweredMatmul(f, ty, st, p);
  }

  lemma EwiseMeans<F>(f: Fpu<F>, ty: Typing, st: State, op: Linalg, base: Buf)
    requires RootsIn(ty.root, op) && Shaped(ty.root, op) && Present(ty.root, st.roots) && op.LinalgEwise?
    requires base + 3 <= |ty.buf| && forall k | 0 <= k < 3 :: ty.buf[base + k] == NewBufs(ty.root, op)[k]
    ensures Yields(EvalOps(f, ty, st, Unroll(Items(ty.root, op, base))), Updated(st.roots, op, Output(f, ty.root, st.roots, op)))
  {
    hide Unroll, EvalOps, EwiseItems, Divides, EwisePair, Combine, Size;
    var p := EwisePlan(op.kind, op.big, op.small, op.out, base, base + 1, base + 2);
    assert ty.buf[base + 0] == NewBufs(ty.root, op)[0] && ty.buf[base + 1] == NewBufs(ty.root, op)[1]
      && ty.buf[base + 2] == NewBufs(ty.root, op)[2];
    LoweredEwise(f, ty, st, p);
    if NoZeroDivisor(f, ty, st, p) {
      var A, B, big, small := st.roots[op.big], st.roots[op.small], ty.root[op.big], ty.root[op.small];
      forall e: nat | e < Size(big)
        ensures Divides(f, op.kind, EwisePair(A, B, big, small, e).1)
      {
        assert Divides(f, p.kind, PairOf(ty, st, p, e).1);
      }
      var t := Elementwise(f, op.kind, A, B, big, small);
      forall e: nat | e < Size(big)
        ensures t.value[e] == EwiseResult(f, ty, st, p)[e]
      {
      }
      assert t.value == EwiseResult(f, ty, st, p);
    }
  }

  lemma UnaryMeans<F>(f: Fpu<F>, ty: Typing, st: State, op: Linalg, base: Buf, compute: IrOp, plain: IrOp)
    requires RootsIn(ty.root, op) && Shaped(ty.root, op) && Present(ty.root, st.roots) && (op.LinalgAct? || op.LinalgReduce?)
    requires base + 2 <= |ty.buf| && forall k | 0 <= k < 2 :: ty.buf[base + k] == NewBufs(ty.root, op)[k]
    requires op.LinalgAct? ==> compute == ActOp(op.act, base, base + 1) && plain == ActOp(op.act, 0, 1)
    requires op.LinalgReduce? ==> compute == ReduceOp(op.red, base, base + 1) && plain == ReduceOp(op.red, 0, 1)
    ensures Yields(EvalOps(f, ty, st, Unroll(Items(ty.root, op, base))),
                   Updated(st.roots, op, Some(UnaryResult(f, plain, st.roots[op.src], ty.root[op.src]))))
  {
    hide Unroll, EvalOps, UnaryItems, Size, Activated, Folded, RootRow;
    assert ty.buf[base + 0] == NewBufs(ty.root, op)[0] && ty.buf[base + 1] == NewBufs(ty.root, op)[1];
    LoweredUnary(f, ty, st, op.src, op.out, compute, base, base + 1);
    assert UnaryResult(f, plain, st.roots[op.src], ty.root[op.src]) == UnaryResult(f, compute, st.roots[op.src], ty.root[op.src]);
  }

  /** The lowered chain, run on buffers of its own, computes what the chain means; it fails exactly
      where the chain divides by zero. */
  lemma {:induction false} ChainComputes<F>(f: Fpu<F>, ty: Typing, st: State, ops: seq<Linalg>)
    requires AllShaped(ty.root, ops) && Present(ty.root, st.roots) && ChainBufs(ty.root, ops) <= ty.buf
    ensures Yields(EvalOps(f, ty, st, Unroll(ChainItems(ty.root, ops))), Meaning(f, ty.root, st.roots, ops))
    decreases ops
  {
    hide Items, NewBufs, EvalOps, Unroll, Output, Shaped, RootsIn;
    if ops == [] {
      Nothing(f, ty, st);
    } else {
      var front, op := ops[..|ops| - 1], ops[|ops| - 1];
      var base := |ChainBufs(ty.root, front)|;
      var prefix := ChainBufs(ty.root, front) + NewBufs(ty.root, op);
      assert ChainBufs(ty.root, ops) == prefix && ty.buf[..|prefix|] == prefix;
      assert ty.buf[base..|prefix|] == prefix[base..];
      ChainComputes(f, ty, st, front);
      UnrollConcat(ChainItems(ty.root, front), Items(ty.root, op, base));
      EvalConcat(f, ty, st, Unroll(ChainItems(ty.root, front)), Unroll(Items(ty.root, op, base)));
      var r := EvalOps(f, ty, st, Unroll(ChainItems(ty.root, front)));
      if r.Some? {
        LoweredMeans(f, ty, r.value, op, base);
      }
    }
  }

  lemma Nothing<F>(f: Fpu<F>, ty: Typing, st: State)
    ensures EvalOps(f, ty, st, Unroll([])) == Some(st)
  {
  }
}
