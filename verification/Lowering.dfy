/** The linalg lowerings: which Eclipse operations each bufferized linalg operation becomes
    (`compiler/lib/Conversion/ConvertLinalgToEclipse`). */
module Lowering {
  import opened Types
  import opened Machine
  import opened EclipseIR

  const TILE_K := 16

  /** A bufferized linalg operation on DDR roots, after its pattern accepted it. */
  datatype Linalg =
    | LinalgMatmul(lhs: Root, rhs: Root, out: Root)
    | LinalgEwise(kind: EwiseKind, big: Root, small: Root, out: Root)
    | LinalgAct(act: ActKind, src: Root, out: Root)
    | LinalgReduce(red: ReduceKind, src: Root, out: Root)

  function Leaves(ops: seq<IrOp>): seq<Item> { seq(|ops|, k requires 0 <= k < |ops| => Leaf(ops[k])) }

  lemma {:induction false} UnrollLeaves(ops: seq<IrOp>)
    ensures Unroll(Leaves(ops)) == ops
    decreases ops
  {
    if ops != [] {
      assert Leaves(ops)[1..] == Leaves(ops[1..]);
      UnrollLeaves(ops[1..]);
    }
  }

  function ToDDR(r: Root): View { CastOf(Base(r)) }

  /** One K block: both tiles in, then the product into or onto the result tile. */
  function MatmulBlock(a: Root, b: Root, l: Buf, r: Buf, d: Buf, m: nat, n: nat, at: Offset, acc: bool): seq<IrOp> {
    [Load(SubOf(ToDDR(a), Fixed(0), at, m, TILE_K), l), Load(SubOf(ToDDR(b), at, Fixed(0), TILE_K, n), r), SyncOp,
     MatmulOp(l, r, d, acc, false, false), SyncOp]
  }

  /** The first block is peeled off so that nothing is accumulated onto stale SRAM contents. */
  function MatmulItems(a: Root, b: Root, c: Root, l: Buf, r: Buf, d: Buf, m: nat, n: nat, tiles: nat): seq<Item> {
    Leaves(MatmulBlock(a, b, l, r, d, m, n, Fixed(0), false))
      + (if tiles > 1 then [For(1, tiles, MatmulBlock(a, b, l, r, d, m, n, Induction(TILE_K), true))] else [])
      + [Leaf(Store(d, ToDDR(c)))]
  }

  function EwiseItems(kind: EwiseKind, big: Root, small: Root, out: Root, l: Buf, r: Buf, d: Buf): seq<Item> {
    Leaves([Load(ToDDR(big), l), Load(ToDDR(small), r), SyncOp, EwiseOp(kind, l, r, d), SyncOp, Store(d, ToDDR(out))])
  }

  /** The shape shared by lowerAct and lowerReduce. */
  function UnaryItems(src: Root, out: Root, compute: IrOp, a: Buf, d: Buf): seq<Item> {
    Leaves([Load(ToDDR(src), a), SyncOp, compute, SyncOp, Store(d, ToDDR(out))])
  }

  predicate RootsIn(root: seq<Shape>, op: Linalg) {
    match op
    case LinalgMatmul(a, b, c) => a < |root| && b < |root| && c < |root|
    case LinalgEwise(_, a, b, c) => a < |root| && b < |root| && c < |root|
    case LinalgAct(_, a, c) => a < |root| && c < |root|
    case LinalgReduce(_, a, c) => a < |root| && c < |root|
  }

  predicate InRoots(root: seq<Shape>, ops: seq<Linalg>) { forall k | 0 <= k < |ops| :: RootsIn(root, ops[k]) }

  /** llvm_unreachable in the source otherwise. */
  predicate Lowers(root: seq<Shape>, op: Linalg)
    requires RootsIn(root, op)
  {
    op.LinalgMatmul? ==> root[op.lhs].cols % TILE_K == 0
  }

  /** The SRAM buffers a lowering allocates, in order. */
  function NewBufs(root: seq<Shape>, op: Linalg): seq<Shape>
    requires RootsIn(root, op)
  {
    match op
    case LinalgMatmul(a, b, c) =>
      [Shape(root[a].rows, TILE_K), Shape(TILE_K, root[b].cols), Shape(root[a].rows, root[b].cols)]
    case LinalgEwise(_, a, b, c) => [root[a], root[b], root[c]]
    case LinalgAct(_, a, c) => [root[c], root[c]]
    case LinalgReduce(_, a, c) => [root[a], root[c]]
  }

  /** The operations a lowering creates when its first buffer is number `base`. */
  function Items(root: seq<Shape>, op: Linalg, base: Buf): seq<Item>
    requires RootsIn(root, op)
  {
    match op
    case LinalgMatmul(a, b, c) =>
      MatmulItems(a, b, c, base, base + 1, base + 2, root[a].rows, root[b].cols, root[a].cols / TILE_K)
    case LinalgEwise(kind, a, b, c) => EwiseItems(kind, a, b, c, base, base + 1, base + 2)
    case LinalgAct(kind, a, c) => UnaryItems(a, c, ActOp(kind, base, base + 1), base, base + 1)
    case LinalgReduce(kind, a, c) => UnaryItems(a, c, ReduceOp(kind, base, base + 1), base, base + 1)
  }

  /** The function body after creating `ops` at the insertion point. */
  function Inserted(body: seq<Item>, inLoop: bool, ops: seq<IrOp>): seq<Item>
    requires inLoop ==> body != [] && body[|body| - 1].For?
  {
    if inLoop then
      var n := |body| - 1;
      body[..n] + [For(body[n].lb, body[n].ub, body[n].body + ops)]
    else body + Leaves(ops)
  }

  lemma InsertedOne(body: seq<Item>, inLoop: bool, ops: seq<IrOp>, op: IrOp)
    requires inLoop ==> body != [] && body[|body| - 1].For?
    ensures Inserted(body, inLoop, []) == body
    ensures Inserted(Inserted(body, inLoop, ops), inLoop, [op]) == Inserted(body, inLoop, ops + [op])
  {
    if inLoop {
      var n := |body| - 1;
      assert body[n].body + (ops + [op]) == (body[n].body + ops) + [op];
      assert body[n].body + [] == body[n].body;
    } else {
      assert Leaves(ops + [op]) == Leaves(ops) + Leaves([op]);
    }
  }

  lemma OneLeaf(op: IrOp)
    ensures Leaves([op]) == [Leaf(op)]
  {
  }

  /** The builder the patterns drive: new operations go to the insertion point. */
  class Rewriter {
    var bufs: seq<Shape>
    var body: seq<Item>
    /** The insertion point is inside the last operation, an scf.for. */
    var inLoop: bool

    ghost predicate Valid()
      reads this
    {
      inLoop ==> body != [] && body[|body| - 1].For?
    }

    constructor ()
      ensures Valid() && !inLoop && bufs == [] && body == []
    {
      bufs, body, inLoop := [], [], false;
    }

    method Alloc(s: Shape) returns (b: Buf)
      requires Valid()
      modifies this`bufs
      ensures Valid() && b == |old(bufs)| && bufs == old(bufs) + [s]
    {
      b := |bufs|;
      bufs := bufs + [s];
    }

    method Create(op: IrOp)
      requires Valid()
      modifies this`body
      ensures Valid() && body == Inserted(old(body), inLoop, [op])
    {
      if inLoop {
        var n := |body| - 1;
        body := body[..n] + [For(body[n].lb, body[n].ub, body[n].body + [op])];
      } else {
        body := body + [Leaf(op)];
      }
    }

    method CreateBlock(ops: seq<IrOp>)
      requires Valid()
      modifies this`body
      ensures Valid() && body == Inserted(old(body), inLoop, ops)
    {
      hide Inserted, Leaves;
      InsertedOne(body, inLoop, [], SyncOp);
      for k := 0 to |ops|
        invariant Valid() && body == Inserted(old(body), inLoop, ops[..k])
      {
        Create(ops[k]);
        InsertedOne(old(body), inLoop, ops[..k], ops[k]);
        assert ops[..k + 1] == ops[..k] + [ops[k]];
      }
      assert ops[..|ops|] == ops;
    }

    /** matchAndRewrite of the patterns. False stands for the matmul pattern's llvm_unreachable. */
    method Lower(root: seq<Shape>, op: Linalg) returns (ok: bool)
      requires Valid() && !inLoop && RootsIn(root, op)
      modifies this
      ensures Valid() && !inLoop && ok == Lowers(root, op)
      ensures ok ==> bufs == old(bufs) + NewBufs(root, op) && body == old(body) + Items(root, op, |old(bufs)|)
      ensures !ok ==> bufs == old(bufs) && body == old(body)
    {
      if !Lowers(root, op) {
        return false;
      }
      hide Lowers, NewBufs, Items;
      match op {
        case LinalgMatmul(a, b, c) => LowerMatmul(root, a, b, c);
        case LinalgEwise(kind, a, b, c) => LowerEwise(root, kind, a, b, c);
        case LinalgAct(kind, a, c) => LowerAct(root, kind, a, c);
        case LinalgReduce(kind, a, c) => LowerReduce(root, kind, a, c);
      }
      return true;
    }

    method LowerEwise(root: seq<Shape>, kind: EwiseKind, a: Root, b: Root, c: Root)
      requires Valid() && !inLoop && a < |root| && b < |root| && c < |root|
      modifies this
      ensures Valid() && !inLoop
      ensures bufs == old(bufs) + NewBufs(root, LinalgEwise(kind, a, b, c))
      ensures body == old(body) + Items(root, LinalgEwise(kind, a, b, c), |old(bufs)|)
    {
      hide EwiseItems;
      EmitEwiseSequence(root, kind, a, b, c);
    }

    method LowerAct(root: seq<Shape>, kind: ActKind, a: Root, c: Root)
      requires Valid() && !inLoop && a < |root| && c < |root|
      modifies this
      ensures Valid() && !inLoop
      ensures bufs == old(bufs) + NewBufs(root, LinalgAct(kind, a, c))
      ensures body == old(body) + Items(root, LinalgAct(kind, a, c), |old(bufs)|)
    {
      var src := Alloc(root[c]);
      var dst := Alloc(root[c]);
      CreateBlock([Load(ToDDR(a), src), SyncOp, ActOp(kind, src, dst), SyncOp, Store(dst, ToDDR(c))]);
    }

    method LowerReduce(root: seq<Shape>, kind: ReduceKind, a: Root, c: Root)
      requires Valid() && !inLoop && a < |root| && c < |root|
      modifies this
      ensures Valid() && !inLoop
      ensures bufs == old(bufs) + NewBufs(root, LinalgReduce(kind, a, c))
      ensures body == old(body) + Items(root, LinalgReduce(kind, a, c), |old(bufs)|)
    {
      var src := Alloc(root[a]);
      var dst := Alloc(root[c]);
      CreateBlock([Load(ToDDR(a), src), SyncOp, ReduceOp(kind, src, dst), SyncOp, Store(dst, ToDDR(c))]);
    }

    /** emitEwiseSequence. */
    method EmitEwiseSequence(root: seq<Shape>, kind: EwiseKind, big: Root, small: Root, out: Root)
      requires Valid() && !inLoop && big < |root| && small < |root| && out < |root|
      modifies this
      ensures Valid() && !inLoop
      ensures bufs == old(bufs) + [root[big], root[small], root[out]]
      ensures body == old(body) + EwiseItems(kind, big, small, out, |old(bufs)|, |old(bufs)| + 1, |old(bufs)| + 2)
    {
      var l := Alloc(root[big]);
      var r := Alloc(root[small]);
      var d := Alloc(root[out]);
      CreateBlock([Load(ToDDR(big), l), Load(ToDDR(small), r), SyncOp, EwiseOp(kind, l, r, d), SyncOp, Store(d, ToDDR(out))]);
    }

    method LowerMatmul(root: seq<Shape>, a: Root, b: Root, c: Root)
      requires Valid() && !inLoop && a < |root| && b < |root| && c < |root|
      modifies this
      ensures Valid() && !inLoop
      ensures bufs == old(bufs) + NewBufs(root, LinalgMatmul(a, b, c))
      ensures body == old(body) + Items(root, LinalgMatmul(a, b, c), |old(bufs)|)
    {
      hide MatmulBlock, Leaves;
      var m, n, tiles := root[a].rows, root[b].cols, root[a].cols / TILE_K;
      var l := Alloc(Shape(m, TILE_K));
      var r := Alloc(Shape(TILE_K, n));
      var d := Alloc(Shape(m, n));
      CreateBlock(MatmulBlock(a, b, l, r, d, m, n, Fixed(0), false));
      if tiles > 1 {
        CreateLoop(tiles, MatmulBlock(a, b, l, r, d, m, n, Induction(TILE_K), true));
      }
      OneLeaf(Store(d, ToDDR(c)));
      Create(Store(d, ToDDR(c)));
    }

    /** An scf.for from 1 to `ub` around `ops`; the insertion point ends up behind it. */
    method CreateLoop(ub: nat, ops: seq<IrOp>)
      requires Valid() && !inLoop
      modifies this`body, this`inLoop
      ensures Valid() && !inLoop && body == old(body) + [For(1, ub, ops)]
    {
      body := body + [For(1, ub, [])];
      inLoop := true;
      CreateBlock(ops);
      inLoop := false;
      assert [] + ops == ops;
    }

    /** The conversion of a whole function body. */
    method LowerAll(root: seq<Shape>, ops: seq<Linalg>) returns (ok: bool)
      requires Valid() && !inLoop && bufs == [] && body == []
      requires InRoots(root, ops)
      modifies this
      ensures ok <==> forall k | 0 <= k < |ops| :: Lowers(root, ops[k])
      ensures ok ==> bufs == ChainBufs(root, ops) && body == ChainItems(root, ops)
    {
      hide Items, NewBufs, Lowers;
      for k := 0 to |ops|
        invariant Valid() && !inLoop
        invariant forall i | 0 <= i < k :: Lowers(root, ops[i])
        invariant bufs == ChainBufs(root, ops[..k]) && body == ChainItems(root, ops[..k])
      {
        assert ops[..k + 1][..k] == ops[..k];
        var lowered := Lower(root, ops[k]);
        if !lowered {
          return false;
        }
      }
      assert ops[..|ops|] == ops;
      return true;
    }
  }

  function ChainBufs(root: seq<Shape>, ops: seq<Linalg>): seq<Shape>
    requires InRoots(root, ops)
  {
    if ops == [] then [] else ChainBufs(root, ops[..|ops| - 1]) + NewBufs(root, ops[|ops| - 1])
  }

  /** The function body of a chain of operations, every one with buffers of its own. */
  function ChainItems(root: seq<Shape>, ops: seq<Linalg>): seq<Item>
    requires InRoots(root, ops)
  {
    if ops == [] then []
    else
      var front := ops[..|ops| - 1];
      ChainItems(root, front) + Items(root, ops[|ops| - 1], |ChainBufs(root, front)|)
  }
}
