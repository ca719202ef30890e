/** Which linalg.generic operations the broadcast pattern accepts, and that the descriptor it picks
    reads the operands the affine maps name. */
module Broadcast {
  import opened Arithmetic
  import opened Types
  import opened Machine
  import opened EclipseIR
  import opened Lowering
  import opened MatmulCorrect
  import opened LoweredOps

  /* ---- linalg.generic ---- */

  datatype ExprKind = AddExpr | MulExpr | ModExpr | FloorDivExpr | CeilDivExpr

  datatype AffineExpr =
    | DimExpr(pos: nat)
    | SymbolExpr(pos: nat)
    | ConstantExpr(value: int)
    | BinaryExpr(kind: ExprKind, lhs: AffineExpr, rhs: AffineExpr)

  datatype AffineMap = AffineMap(dims: nat, symbols: nat, results: seq<AffineExpr>)

  /** A memref's shape (a negative extent is dynamic), or another type. */
  datatype OperandType = MemRef(shape: seq<int>) | OtherType

  datatype BodyOp = AddF | SubF | MulF | DivF | OtherOp

  /** A value of the region: a block argument, the result of an operation in the block, or a value
      from outside. */
  datatype BodyValue = Argument(number: nat) | Result(op: BodyOp, operands: seq<BodyValue>) | Outside

  datatype Generic = Generic(
    ins: seq<OperandType>, outs: seq<OperandType>, parallel: seq<bool>, maps: seq<AffineMap>, yielded: seq<BodyValue>)

  /** The value of an affine expression at iteration (d0, d1); symbols have none. */
  function EvalExpr(e: AffineExpr, d0: int, d1: int): Option<int> {
    match e
    case DimExpr(pos) => if pos == 0 then Some(d0) else if pos == 1 then Some(d1) else None
    case SymbolExpr(_) => None
    case ConstantExpr(value) => Some(value)
    case BinaryExpr(kind, l, r) =>
      var x, y := EvalExpr(l, d0, d1), EvalExpr(r, d0, d1);
      if x.None? || y.None? then None
      else match kind
        case AddExpr => Some(x.value + y.value)
        case MulExpr => Some(x.value * y.value)
        case ModExpr => if y.value > 0 then Some(x.value % y.value) else None
        case FloorDivExpr => if y.value > 0 then Some(x.value / y.value) else None
        case CeilDivExpr => if y.value > 0 then Some(-((-x.value) / y.value)) else None
  }

  /** floordiv rounds down, ceildiv up, and mod is what floordiv leaves. */
  lemma AffineDivision(x: int, y: int, d0: int, d1: int)
    requires y > 0
    ensures var l, r := ConstantExpr(x), ConstantExpr(y);
      var down, up := EvalExpr(BinaryExpr(FloorDivExpr, l, r), d0, d1), EvalExpr(BinaryExpr(CeilDivExpr, l, r), d0, d1);
      && down.Some? && y * down.value <= x < y * (down.value + 1)
      && up.Some? && y * (up.value - 1) < x <= y * up.value
      && EvalExpr(BinaryExpr(ModExpr, l, r), d0, d1) == Some(x - y * down.value)
  {
    RoundedDown(x, y);
    RoundedDown(-x, y);
    var p := (-x) / y;
    assert y * -p == -(y * p) && y * (-p - 1) == -(y * p) - y;
  }

  lemma RoundedDown(x: int, y: int)
    requires y > 0
    ensures var q := x / y; y * q <= x < y * q + y == y * (q + 1) && x % y == x - y * q
  {
    var q := x / y;
    assert y * (q + 1) == y * q + y;
  }

  /** The element a rank-2 operand's map selects. */
  function Selected(m: AffineMap, shape: Shape, t: Tensor, r: nat, c: nat): Option<Word> {
    if |m.results| != 2 then None
    else
      var i, j := EvalExpr(m.results[0], r, c), EvalExpr(m.results[1], r, c);
      if i.Some? && j.Some? && 0 <= i.value < shape.rows && 0 <= j.value < shape.cols && |t| == Size(shape)
      then Some(WordOf(t, i.value * shape.cols + j.value)) else None
  }

  function OpKind(op: BodyOp): Option<EwiseKind> {
    match op
    case AddF => Some(Add)
    case SubF => Some(Sub)
    case MulF => Some(Mul)
    case DivF => Some(Div)
    case OtherOp => None
  }

  /** What an arith operation yields for two fp16 values, rounded once. */
  function ArithResult<F>(f: Fpu<F>, op: BodyOp, x: Word, y: Word): Option<Word> {
    match op
    case AddF => Some(f.enc(f.add(f.dec(x), f.dec(y))))
    case SubF => Some(f.enc(f.sub(f.dec(x), f.dec(y))))
    case MulF => Some(f.enc(f.mul(f.dec(x), f.dec(y))))
    case DivF => Some(f.enc(f.div(f.dec(x), f.dec(y))))
    case OtherOp => None
  }

  /** The region on given block arguments; None for what this model gives no meaning to. */
  function EvalBody<F>(f: Fpu<F>, v: BodyValue, args: seq<Option<Word>>): Option<Word> {
    match v
    case Argument(k) => if k < |args| then args[k] else None
    case Outside => None
    case Result(op, operands) =>
      if |operands| != 2 then None
      else
        var x, y := EvalBody(f, operands[0], args), EvalBody(f, operands[1], args);
        if x.Some? && y.Some? then ArithResult(f, op, x.value, y.value) else None
  }

  /** What linalg.generic yielded at (r, c): the two inputs as their maps select them. */
  function GenericElement<F>(f: Fpu<F>, g: Generic, s0: Shape, t0: Tensor, s1: Shape, t1: Tensor, r: nat, c: nat): Option<Word> {
    if |g.maps| != 3 || |g.yielded| != 1 then None
    else EvalBody(f, g.yielded[0], [Selected(g.maps[0], s0, t0, r, c), Selected(g.maps[1], s1, t1, r, c)])
  }

  /* ---- acceptance ---- */

  predicate IsIdentityMap(m: AffineMap) {
    m.dims == 2 && m.symbols == 0 && |m.results| == 2 && m.results[0] == DimExpr(0) && m.results[1] == DimExpr(1)
  }

  predicate IsConstZero(e: AffineExpr) { e == ConstantExpr(0) }

  function MatchModD1(e: AffineExpr): Option<int> {
    match e
    case BinaryExpr(ModExpr, DimExpr(1), ConstantExpr(value)) => Some(value)
    case _ => None
  }

  predicate RhsMapMatches(m: AffineMap, rhs: seq<int>, dst: seq<int>)
    requires |rhs| == 2 && |dst| == 2
  {
    && m.dims == 2 && m.symbols == 0 && |m.results| == 2
    && (if rhs[0] == 1 then IsConstZero(m.results[0]) else m.results[0] == DimExpr(0))
    && (if rhs[1] == 1 then IsConstZero(m.results[1])
        else if rhs[1] == dst[1] then m.results[1] == DimExpr(1) || MatchModD1(m.results[1]) == Some(rhs[1])
        else MatchModD1(m.results[1]) == Some(rhs[1]))
  }

  predicate StaticShape(t: OperandType) { t.MemRef? && forall k | 0 <= k < |t.shape| :: t.shape[k] >= 0 }

  /** The operand the descriptor's lhs comes from, the one its rhs comes from, and the operation. */
  datatype Accepted = Accepted(kind: EwiseKind, big: nat, small: nat)

  function ArgIndex(v: BodyValue): int {
    match v
    case Argument(k) => k
    case _ => -1
  }

  /** matchAndRewrite's conditions, in its order; None is failure(). */
  function Accept(g: Generic): Option<Accepted> {
    if |g.ins| != 2 || |g.outs| != 1 || (exists k | 0 <= k < |g.parallel| :: !g.parallel[k]) then None
    else if |g.yielded| != 1 || !g.yielded[0].Result? || |g.yielded[0].operands| != 2 then None
    else
      var kind := OpKind(g.yielded[0].op);
      var a, b := ArgIndex(g.yielded[0].operands[0]), ArgIndex(g.yielded[0].operands[1]);
      if kind.None? || a < 0 || b < 0 then None
      else if !StaticShape(g.ins[0]) || !StaticShape(g.ins[1]) || !StaticShape(g.outs[0]) || |g.outs[0].shape| != 2 then None
      else if g.ins[0].shape != g.outs[0].shape && g.ins[1].shape != g.outs[0].shape then None
      else
        var big := if g.ins[0].shape == g.outs[0].shape then 0 else 1;
        var small := 1 - big;
        var forwards, swapped := a == big && b == small, a == small && b == big;
        if !forwards && !swapped then None
        else if swapped && kind.value != Add && kind.value != Mul then None
        else
          var rhs, dst := g.ins[small].shape, g.outs[0].shape;
          if |rhs| != 2 || rhs[1] <= 0 || dst[1] % rhs[1] != 0 then None
          else if rhs[0] != 1 && rhs[0] != dst[0] then None
          else if |g.maps| != 3 || !IsIdentityMap(g.maps[big]) || !IsIdentityMap(g.maps[2])
                  || !RhsMapMatches(g.maps[small], rhs, dst) then None
          else Some(Accepted(kind.value, big, small))
  }

  /** The pattern, check by check; on acceptance the generic becomes an elementwise sequence. */
  method MatchAndRewrite(rw: Rewriter, root: seq<Shape>, g: Generic, in0: Root, in1: Root, out: Root) returns (matched: bool)
    requires rw.Valid() && !rw.inLoop && in0 < |root| && in1 < |root| && out < |root|
    modifies rw
    ensures rw.Valid() && !rw.inLoop && matched == Accept(g).Some?
    ensures matched ==>
      var op := Chosen(Accept(g).value, in0, in1, out);
      rw.bufs == old(rw.bufs) + NewBufs(root, op) && rw.body == old(rw.body) + Items(root, op, |old(rw.bufs)|)
    ensures !matched ==> rw.bufs == old(rw.bufs) && rw.body == old(rw.body)
  {
    hide EwiseItems, IsIdentityMap, RhsMapMatches;
    if |g.ins| != 2 || |g.outs| != 1 { return false; }
    for k := 0 to |g.parallel|
      invariant forall i | 0 <= i < k :: g.parallel[i]
    {
      if !g.parallel[k] { return false; }
    }
    if |g.yielded| != 1 { return false; }
    var compute := g.yielded[0];
    if !compute.Result? || |compute.operands| != 2 { return false; }
    var bin := OpKind(compute.op);
    if bin.None? { return false; }
    var aIdx, bIdx := ArgIndex(compute.operands[0]), ArgIndex(compute.operands[1]);
    if aIdx < 0 || bIdx < 0 { return false; }
    var outType := g.outs[0];
    if !StaticShape(g.ins[0]) || !StaticShape(g.ins[1]) || !StaticShape(outType) { return false; }
    if |outType.shape| != 2 { return false; }
    var big, small;
    if g.ins[0].shape == outType.shape {
      big, small := 0, 1;
    } else if g.ins[1].shape == outType.shape {
      big, small := 1, 0;
    } else {
      return false;
    }
    var forwards, swapped := aIdx == big && bIdx == small, aIdx == small && bIdx == big;
    if !forwards && !swapped { return false; }
    if swapped && bin.value != Add && bin.value != Mul { return false; }
    var smallShape := g.ins[small].shape;
    if |smallShape| != 2 || smallShape[1] <= 0 || outType.shape[1] % smallShape[1] != 0 { return false; }
    if smallShape[0] != 1 && smallShape[0] != outType.shape[0] { return false; }
    if |g.maps| != 3 || !IsIdentityMap(g.maps[big]) || !IsIdentityMap(g.maps[2]) { return false; }
    if !RhsMapMatches(g.maps[small], smallShape, outType.shape) { return false; }
    rw.EmitEwiseSequence(root, bin.value, if big == 0 then in0 else in1, if big == 0 then in1 else in0, out);
    return true;
  }

  function Chosen(a: Accepted, in0: Root, in1: Root, out: Root): Linalg {
    if a.big == 0 then LinalgEwise(a.kind, in0, in1, out) else LinalgEwise(a.kind, in1, in0, out)
  }

  /* ---- soundness ---- */

  /** IEEE addition and multiplication commute. */
  ghost predicate Commutes<F(!new)>(f: Fpu<F>) {
    && (forall x, y :: f.add(x, y) == f.add(y, x))
    && (forall x, y :: f.mul(x, y) == f.mul(y, x))
  }

  /** With blk dividing cols, the position of element r*cols+c inside its block is c mod blk. */
  lemma PositionInBlock(r: nat, c: nat, cols: nat, blk: nat)
    requires blk > 0 && cols > 0 && cols % blk == 0 && c < cols
    ensures (r * cols + c) / cols == r && (r * cols + c) % blk == c % blk
  {
    DivModOfMulAdd(r, c, cols);
    var q := cols / blk;
    assert cols == blk * q;
    assert r * cols + c == blk * (r * q + c / blk) + c % blk by {
      assert blk * (r * q + c / blk) == blk * (r * q) + blk * (c / blk);
      assert blk * (r * q) == r * (blk * q);
      assert c == blk * (c / blk) + c % blk;
    }
    ModUnique(r * cols + c, r * q + c / blk, c % blk, blk);
  }

  predicate ShapeIs(t: OperandType, s: Shape) { t == MemRef([s.rows, s.cols]) }

  /** The small operand's map selects exactly the word the descriptor's blk and stride address. */
  lemma SmallMapAddresses(m: AffineMap, big: Shape, small: Shape, t: Tensor, r: nat, c: nat)
    requires r < big.rows && c < big.cols && small.cols > 0 && big.cols % small.cols == 0 && |t| == Size(small)
    requires small.rows == 1 || small.rows == big.rows
    requires RhsMapMatches(m, [small.rows, small.cols], [big.rows, big.cols])
    ensures Selected(m, small, t, r, c) == Some(WordOf(t, SmallAt(big, small, r * big.cols + c)))
  {
    hide Size, WordOf;
    PositionInBlock(r, c, big.cols, small.cols);
    SmallColumn(m, big, small, r, c);
  }

  lemma SmallColumn(m: AffineMap, big: Shape, small: Shape, r: nat, c: nat)
    requires c < big.cols && small.cols > 0
    requires RhsMapMatches(m, [small.rows, small.cols], [big.rows, big.cols])
    ensures EvalExpr(m.results[1], r, c) == Some(c % small.cols)
    ensures EvalExpr(m.results[0], r, c) == Some(if small.rows == 1 then 0 else r)
  {
    if MatchModD1(m.results[1]) == Some(small.cols) {
      ModColumn(m.results[1], small.cols, r, c);
    }
    if small.cols == big.cols { SmallMod(c, big.cols); }
  }

  lemma SmallMod(c: nat, n: nat)
    requires c < n
    ensures c % n == c
  {
  }

  lemma ModColumn(e: AffineExpr, n: nat, r: nat, c: nat)
    requires MatchModD1(e) == Some(n) && n > 0
    ensures EvalExpr(e, r, c) == Some(c % n)
  {
    assert EvalExpr(DimExpr(1), r, c) == Some(c);
    assert EvalExpr(ConstantExpr(n), r, c) == Some(n);
  }

  lemma IdentitySelects(m: AffineMap, shape: Shape, t: Tensor, r: nat, c: nat)
    requires IsIdentityMap(m) && r < shape.rows && c < shape.cols && |t| == Size(shape)
    ensures Selected(m, shape, t, r, c) == Some(WordOf(t, r * shape.cols + c))
  {
    hide Size, WordOf;
  }

  /** The operands of an accepted generic. */
  ghost predicate OperandsAre(g: Generic, s0: Shape, t0: Tensor, s1: Shape, t1: Tensor) {
    && |g.ins| == 2 && ShapeIs(g.ins[0], s0) && ShapeIs(g.ins[1], s1)
    && |t0| == Size(s0) && |t1| == Size(s1)
  }

  /** What acceptance says about the shapes. */
  lemma AcceptedShapes(g: Generic, s0: Shape, t0: Tensor, s1: Shape, t1: Tensor, big: Shape, small: Shape)
    requires Accept(g).Some? && OperandsAre(g, s0, t0, s1, t1)
    requires (big, small) == if Accept(g).value.big == 0 then (s0, s1) else (s1, s0)
    ensures ShapeIs(g.outs[0], big) && small.cols > 0 && big.cols % small.cols == 0
    ensures small.rows == 1 || small.rows == big.rows
    ensures Accept(g).value.small == 1 - Accept(g).value.big && Accept(g).value.big < 2 && |g.maps| == 3
    ensures IsIdentityMap(g.maps[Accept(g).value.big])
    ensures RhsMapMatches(g.maps[Accept(g).value.small], [small.rows, small.cols], [big.rows, big.cols])
  {
    hide IsIdentityMap, RhsMapMatches;
    assert g.outs[0].shape == [big.rows, big.cols];
  }

  lemma SelectedPair(g: Generic, s0: Shape, t0: Tensor, s1: Shape, t1: Tensor, r: nat, c: nat)
    requires Accept(g).Some? && OperandsAre(g, s0, t0, s1, t1)
    ensures |g.maps| == 3
    ensures var a := Accept(g).value;
      var (big, small) := if a.big == 0 then (s0, s1) else (s1, s0);
      var (tb, ts) := if a.big == 0 then (t0, t1) else (t1, t0);
      r < big.rows && c < big.cols ==>
        && small.cols > 0
        && Selected(g.maps[0], s0, t0, r, c) ==
            Some(if a.big == 0 then EwisePair(tb, ts, big, small, r * big.cols + c).0 else EwisePair(tb, ts, big, small, r * big.cols + c).1)
        && Selected(g.maps[1], s1, t1, r, c) ==
            Some(if a.big == 0 then EwisePair(tb, ts, big, small, r * big.cols + c).1 else EwisePair(tb, ts, big, small, r * big.cols + c).0)
  {
    hide Accept, Selected, IsIdentityMap, RhsMapMatches, Size, SmallAt, WordOf;
    var a := Accept(g).value;
    var (big, small) := if a.big == 0 then (s0, s1) else (s1, s0);
    var (tb, ts) := if a.big == 0 then (t0, t1) else (t1, t0);
    AcceptedShapes(g, s0, t0, s1, t1, big, small);
    if r < big.rows && c < big.cols {
      IdentitySelects(g.maps[a.big], big, tb, r, c);
      SmallMapAddresses(g.maps[a.small], big, small, ts, r, c);
    }
  }

  /** The region of an accepted generic combines the big and the small element, in either order. */
  lemma AcceptedBody<F(!new)>(f: Fpu<F>, g: Generic, args: seq<Option<Word>>)
    requires Accept(g).Some? && Commutes(f) && |args| == 2 && args[0].Some? && args[1].Some?
    ensures |g.yielded| == 1
    ensures var a := Accept(g).value;
      a.big < 2 && a.small < 2
      && EvalBody(f, g.yielded[0], args) == Some(Combine(f, a.kind, (args[a.big].value, args[a.small].value)))
  {
    hide IsIdentityMap, RhsMapMatches;
    var v := g.yielded[0];
    assert EvalBody(f, v.operands[0], args) == args[ArgIndex(v.operands[0])];
    assert EvalBody(f, v.operands[1], args) == args[ArgIndex(v.operands[1])];
    assert EvalBody(f, v, args)
      == ArithResult(f, v.op, args[ArgIndex(v.operands[0])].value, args[ArgIndex(v.operands[1])].value);
  }

  /** Every element of an accepted generic is what the descriptor pattern computes for it. */
  lemma AcceptedElement<F(!new)>(f: Fpu<F>, g: Generic, s0: Shape, t0: Tensor, s1: Shape, t1: Tensor, r: nat, c: nat)
    requires Accept(g).Some? && OperandsAre(g, s0, t0, s1, t1) && Commutes(f)
    ensures var a := Accept(g).value;
      var (big, small) := if a.big == 0 then (s0, s1) else (s1, s0);
      var (tb, ts) := if a.big == 0 then (t0, t1) else (t1, t0);
      r < big.rows && c < big.cols ==>
        && small.cols > 0
        && GenericElement(f, g, s0, t0, s1, t1, r, c) == Some(Combine(f, a.kind, EwisePair(tb, ts, big, small, r * big.cols + c)))
  {
    hide Accept, Selected, EwisePair, Combine, OperandsAre, Commutes, EvalBody;
    var a := Accept(g).value;
    var (big, small) := if a.big == 0 then (s0, s1) else (s1, s0);
    if r < big.rows && c < big.cols {
      var (tb, ts) := if a.big == 0 then (t0, t1) else (t1, t0);
      AcceptedShapes(g, s0, t0, s1, t1, big, small);
      SelectedPair(g, s0, t0, s1, t1, r, c);
      AcceptedBody(f, g, [Selected(g.maps[0], s0, t0, r, c), Selected(g.maps[1], s1, t1, r, c)]);
    }
  }

  lemma TwoInputs(g: Generic)
    requires Accept(g).Some?
    ensures |g.ins| == 2
  {
  }

  function PlanOf(a: Accepted, in0: Root, in1: Root, out: Root, base: Buf): EwisePlan {
    if a.big == 0 then EwisePlan(a.kind, in0, in1, out, base, base + 1, base + 2)
    else EwisePlan(a.kind, in1, in0, out, base, base + 1, base + 2)
  }

  /** Roots and buffers have the types of the generic and of the lowering. */
  ghost predicate GenericTyped(ty: Typing, g: Generic, in0: Root, in1: Root, out: Root, base: Buf) {
    && Accept(g).Some? && in0 < |ty.root| && in1 < |ty.root| && out < |ty.root| && base + 2 < |ty.buf|
    && ShapeIs(g.ins[0], ty.root[in0]) && ShapeIs(g.ins[1], ty.root[in1]) && ShapeIs(g.outs[0], ty.root[out])
    && ty.buf[base..base + 3] == NewBufs(ty.root, Chosen(Accept(g).value, in0, in1, out))
  }

  lemma GenericPlanTyped(ty: Typing, g: Generic, in0: Root, in1: Root, out: Root, base: Buf)
    requires GenericTyped(ty, g, in0, in1, out, base) && ty.root[out].cols > 0
    ensures EwiseTyped(ty, PlanOf(Accept(g).value, in0, in1, out, base))
  {
    hide IsIdentityMap, RhsMapMatches;
    assert ty.buf[base] == ty.buf[base..base + 3][0];
    assert ty.buf[base + 1] == ty.buf[base..base + 3][1];
    assert ty.buf[base + 2] == ty.buf[base..base + 3][2];
    assert g.outs[0].shape[0] == ty.root[out].rows && g.outs[0].shape[1] == ty.root[out].cols;
    assert g.ins[0].shape[0] == ty.root[in0].rows && g.ins[0].shape[1] == ty.root[in0].cols;
    assert g.ins[1].shape[0] == ty.root[in1].rows && g.ins[1].shape[1] == ty.root[in1].cols;
  }

  /** Lowering an accepted generic preserves its meaning: the lowered operations succeed exactly when
      no divisor is zero, and leave in the output root what linalg.generic yields at every (r, c). */
  lemma BroadcastSound<F(!new)>(f: Fpu<F>, ty: Typing, st: State, g: Generic, in0: Root, in1: Root, out: Root, base: Buf)
    requires GenericTyped(ty, g, in0, in1, out, base) && ty.root[out].cols > 0 && Commutes(f)
    requires in0 in st.roots && |st.roots[in0]| == Size(ty.root[in0]) && in1 in st.roots && |st.roots[in1]| == Size(ty.root[in1])
    ensures var p := PlanOf(Accept(g).value, in0, in1, out, base);
      var st' := EvalOps(f, ty, st, Unroll(Items(ty.root, Chosen(Accept(g).value, in0, in1, out), base)));
      && EwiseTyped(ty, p) && EwiseOperands(ty, st, p)
      && (st'.Some? <==> NoZeroDivisor(f, ty, st, p))
      && (st'.Some? ==>
          && out in st'.value.roots && (forall s: nat | s != out :: SameRoot(st, st'.value, s))
          && forall r: nat, c: nat | r < ty.root[out].rows && c < ty.root[out].cols ::
              GenericElement(f, g, ty.root[in0], st.roots[in0], ty.root[in1], st.roots[in1], r, c)
                == Some(WordOf(st'.value.roots[out], r * ty.root[out].cols + c)))
  {
    hide Accept, Commutes, EvalOps, Unroll, Combine, EwisePair, GenericElement, NoZeroDivisor, EwiseItems;
    GenericPlanTyped(ty, g, in0, in1, out, base);
    TwoInputs(g);
    var p := PlanOf(Accept(g).value, in0, in1, out, base);
    LoweredEwise(f, ty, st, p);
    forall r: nat, c: nat | r < ty.root[out].rows && c < ty.root[out].cols
      ensures GenericElement(f, g, ty.root[in0], st.roots[in0], ty.root[in1], st.roots[in1], r, c)
        == Some(WordOf(EwiseResult(f, ty, st, p), r * ty.root[out].cols + c))
    {
      AcceptedElement(f, g, ty.root[in0], st.roots[in0], ty.root[in1], st.roots[in1], r, c);
      RowMajor(r, c, ty.root[out].rows, ty.root[out].cols);
      MulMonotone(ty.root[out].cols, 0, r);
    }
  }

  ghost predicate SameRoot(st: State, st': State, r: Root) {
    (r in st'.roots <==> r in st.roots) && (r in st.roots ==> st'.roots[r] == st.roots[r])
  }
}
