/** Chains of lowered operations have the buffer discipline that eliding copies needs. */
module ChainElision {
  import opened Types
  import opened Machine
  import opened EclipseIR
  import opened Lowering
  import opened ElideCopies
  import opened Renaming
  import opened ElisionCorrect

  /** Every buffer an operation mentions lies in [lo, hi). */
  predicate OpWithin(op: IrOp, lo: Buf, hi: Buf) {
    match op
    case Load(_, b) => lo <= b < hi
    case Store(b, _) => lo <= b < hi
    case MatmulOp(l, r, d, _, _, _) => lo <= l < hi && lo <= r < hi && lo <= d < hi
    case EwiseOp(_, l, r, d) => lo <= l < hi && lo <= r < hi && lo <= d < hi
    case ActOp(_, a, d) => lo <= a < hi && lo <= d < hi
    case ReduceOp(_, a, d) => lo <= a < hi && lo <= d < hi
    case _ => true
  }

  predicate ItemWithin(i: Item, lo: Buf, hi: Buf) { forall k | 0 <= k < |OpsOf(i)| :: OpWithin(OpsOf(i)[k], lo, hi) }

  predicate Within(items: seq<Item>, lo: Buf, hi: Buf) { forall k | 0 <= k < |items| :: ItemWithin(items[k], lo, hi) }

  lemma WritesWithin(i: Item, lo: Buf, hi: Buf, b: Buf)
    requires ItemWithin(i, lo, hi)
    ensures ItemWrites(i, b) ==> lo <= b < hi
    ensures FeedsProduct(i, b) ==> lo <= b < hi
  {
    if ItemWrites(i, b) {
      var k :| 0 <= k < |OpsOf(i)| && Written(OpsOf(i)[k]) == Some(b);
      assert OpWithin(OpsOf(i)[k], lo, hi);
    }
    if FeedsProduct(i, b) {
      var k :| 0 <= k < |OpsOf(i)| && OpsOf(i)[k].MatmulOp? && (OpsOf(i)[k].lhs == b || OpsOf(i)[k].rhs == b);
      assert OpWithin(OpsOf(i)[k], lo, hi);
    }
  }

  lemma OwnBuf(i: Item, lo: Buf, hi: Buf)
    requires ItemWithin(i, lo, hi)
    ensures IsStore(Some(i)) ==> lo <= i.op.from < hi
    ensures LoadKey(i).Some? ==> lo <= LoadedBuf(i) < hi
  {
    if i.Leaf? { assert OpWithin(OpsOf(i)[0], lo, hi); }
  }

  /** Lists that share no buffer can be joined. */
  lemma JoinDisciplined(xs: seq<Item>, ys: seq<Item>, lo: Buf, mid: Buf, hi: Buf)
    requires Disciplined(xs) && Disciplined(ys) && Within(xs, lo, mid) && Within(ys, mid, hi) && lo <= mid <= hi
    ensures Disciplined(xs + ys) && Within(xs + ys, lo, hi)
  {
    hide ItemWrites, FeedsProduct, NoStore, ItemWithin, LoadKey;
    var zs := xs + ys;
    forall i, k | 0 <= i < |zs| && 0 <= k < |zs|
      ensures i < k && IsStore(Some(zs[i])) ==> !ItemWrites(zs[k], zs[i].op.from)
      ensures i != k && LoadKey(zs[i]).Some? ==> !ItemWrites(zs[k], LoadedBuf(zs[i]))
      ensures LoadKey(zs[i]).Some? ==> !FeedsProduct(zs[k], LoadedBuf(zs[i]))
    {
      JoinedPair(xs, ys, lo, mid, hi, i, k);
    }
    forall k | 0 <= k < |zs|
      ensures ItemWithin(zs[k], lo, hi)
      ensures zs[k].For? ==> NoStore(zs[k].body)
    {
      if k < |xs| { Widen(xs[k], lo, mid, lo, hi); } else { Widen(ys[k - |xs|], mid, hi, lo, hi); }
    }
  }

  lemma Widen(i: Item, lo: Buf, hi: Buf, lo': Buf, hi': Buf)
    requires ItemWithin(i, lo, hi) && lo' <= lo && hi <= hi'
    ensures ItemWithin(i, lo', hi')
  {
  }

  lemma JoinedPair(xs: seq<Item>, ys: seq<Item>, lo: Buf, mid: Buf, hi: Buf, i: nat, k: nat)
    requires Disciplined(xs) && Disciplined(ys) && Within(xs, lo, mid) && Within(ys, mid, hi)
    requires i < |xs + ys| && k < |xs + ys|
    ensures i < k && IsStore(Some((xs + ys)[i])) ==> !ItemWrites((xs + ys)[k], (xs + ys)[i].op.from)
    ensures i != k && LoadKey((xs + ys)[i]).Some? ==> !ItemWrites((xs + ys)[k], LoadedBuf((xs + ys)[i]))
    ensures LoadKey((xs + ys)[i]).Some? ==> !FeedsProduct((xs + ys)[k], LoadedBuf((xs + ys)[i]))
  {
    hide ItemWrites, FeedsProduct, NoStore, ItemWithin, LoadKey;
    var zs := xs + ys;
    if i < |xs| { OwnBuf(xs[i], lo, mid); } else { OwnBuf(ys[i - |xs|], mid, hi); }
    if IsStore(Some(zs[i])) {
      if k < |xs| { WritesWithin(xs[k], lo, mid, zs[i].op.from); } else { WritesWithin(ys[k - |xs|], mid, hi, zs[i].op.from); }
    }
    if LoadKey(zs[i]).Some? {
      if k < |xs| { WritesWithin(xs[k], lo, mid, LoadedBuf(zs[i])); } else { WritesWithin(ys[k - |xs|], mid, hi, LoadedBuf(zs[i])); }
    }
  }

  /* ---- the lowerings ---- */

  function BufCount(op: Linalg): nat {
    match op
    case LinalgMatmul(_, _, _) => 3
    case LinalgEwise(_, _, _, _) => 3
    case LinalgAct(_, _, _) => 2
    case LinalgReduce(_, _, _) => 2
  }

  lemma LoweredDisciplined(root: seq<Shape>, op: Linalg, base: Buf)
    requires RootsIn(root, op)
    ensures Disciplined(Items(root, op, base)) && Within(Items(root, op, base), base, base + BufCount(op))
    ensures |NewBufs(root, op)| == BufCount(op)
  {
    if op.LinalgMatmul? {
      MatmulDisciplined(root, op, base);
    } else {
      FlatDisciplined(root, op, base);
    }
  }

  lemma MatmulDisciplined(root: seq<Shape>, op: Linalg, base: Buf)
    requires RootsIn(root, op) && op.LinalgMatmul?
    ensures Disciplined(Items(root, op, base)) && Within(Items(root, op, base), base, base + 3)
  {
    var items := Items(root, op, base);
    forall k | 0 <= k < |items|
      ensures LoadKey(items[k]).None? && ItemWithin(items[k], base, base + 3)
      ensures IsStore(Some(items[k])) ==> k == |items| - 1
      ensures items[k].For? ==> NoStore(items[k].body)
    {
    }
  }

  /** Straight-line items whose loads fill buffers nothing else writes, with one store at the end. */
  lemma StraightDisciplined(ops: seq<IrOp>)
    requires forall i | 0 <= i < |ops| :: !ops[i].MatmulOp? && (ops[i].Store? ==> i == |ops| - 1)
    requires forall i, k | 0 <= i < |ops| && 0 <= k < |ops| && i != k && ops[i].Load? :: Written(ops[k]) != Some(ops[i].dst)
    ensures Disciplined(Leaves(ops))
  {
    hide Written, CastSource;
    var items := Leaves(ops);
    forall k | 0 <= k < |items|
      ensures items[k] == Leaf(ops[k]) && OpsOf(items[k]) == [ops[k]]
    {
    }
  }

  lemma FlatDisciplined(root: seq<Shape>, op: Linalg, base: Buf)
    requires RootsIn(root, op) && !op.LinalgMatmul?
    ensures Disciplined(Items(root, op, base)) && Within(Items(root, op, base), base, base + BufCount(op))
  {
    hide Disciplined, ToDDR;
    match op
    case LinalgEwise(kind, a, b, c) =>
      StraightDisciplined([Load(ToDDR(a), base), Load(ToDDR(b), base + 1), SyncOp,
                           EwiseOp(kind, base, base + 1, base + 2), SyncOp, Store(base + 2, ToDDR(c))]);
    case LinalgAct(kind, a, c) =>
      StraightDisciplined([Load(ToDDR(a), base), SyncOp, ActOp(kind, base, base + 1), SyncOp, Store(base + 1, ToDDR(c))]);
    case LinalgReduce(kind, a, c) =>
      StraightDisciplined([Load(ToDDR(a), base), SyncOp, ReduceOp(kind, base, base + 1), SyncOp, Store(base + 1, ToDDR(c))]);
  }

  lemma {:induction false} ChainDisciplined(root: seq<Shape>, ops: seq<Linalg>)
    requires InRoots(root, ops)
    ensures Disciplined(ChainItems(root, ops)) && Within(ChainItems(root, ops), 0, |ChainBufs(root, ops)|)
    decreases ops
  {
    hide Items, NewBufs, Disciplined, Within, RootsIn;
    if ops == [] {
      EmptyDisciplined();
    } else {
      var front, op := ops[..|ops| - 1], ops[|ops| - 1];
      ChainDisciplined(root, front);
      var base := |ChainBufs(root, front)|;
      LoweredDisciplined(root, op, base);
      JoinDisciplined(ChainItems(root, front), Items(root, op, base), 0, base, base + BufCount(op));
    }
  }

  lemma EmptyDisciplined()
    ensures Disciplined([]) && Within([], 0, 0)
  {
  }

  /** A chain of lowered operations that returns a root. */
  function Program(root: seq<Shape>, ops: seq<Linalg>, result: Root): seq<Item>
    requires InRoots(root, ops)
  {
    ChainItems(root, ops) + [Leaf(ReturnOp(result))]
  }

  lemma ProgramDisciplined(root: seq<Shape>, ops: seq<Linalg>, result: Root)
    requires InRoots(root, ops)
    ensures Disciplined(Program(root, ops, result)) && Returned(Program(root, ops, result), result)
  {
    hide Disciplined, Within, RootsIn;
    ChainDisciplined(root, ops);
    var n := |ChainBufs(root, ops)|;
    ReturnDisciplined(result, n);
    JoinDisciplined(ChainItems(root, ops), [Leaf(ReturnOp(result))], 0, n, n);
    assert Program(root, ops, result)[|ChainItems(root, ops)|] == Leaf(ReturnOp(result));
  }

  lemma ReturnDisciplined(result: Root, n: nat)
    ensures Disciplined([Leaf(ReturnOp(result))]) && Within([Leaf(ReturnOp(result))], n, n)
  {
  }

  /* ---- which roots are read how ---- */

  predicate ReadsWhole(op: Linalg, r: Root) {
    match op
    case LinalgMatmul(_, _, _) => false
    case LinalgEwise(_, a, b, _) => r == a || r == b
    case LinalgAct(_, a, _) => r == a
    case LinalgReduce(_, a, _) => r == a
  }

  predicate ReadsTiled(op: Linalg, r: Root) { op.LinalgMatmul? && (r == op.lhs || r == op.rhs) }

  lemma DeepView(r: Root, s: Root, v: View)
    requires v == ToDDR(s) || (v.SubOf? && v.source == ToDDR(s))
    ensures ReachOf(v, r) == Deeper <==> v.SubOf? && r == s
  {
    assert ReachOf(Base(s), r) == (if r == s then Direct else Elsewhere);
    assert ReachOf(ToDDR(s), r) == (if r == s then OneView else Elsewhere);
  }

  lemma CastKey(s: Root)
    ensures CastSource(ToDDR(s)) == Some(s)
  {
    assert CastSource(Base(s)) == Some(s);
  }

  /** How the items of one lowering read a root. */
  lemma ItemReads(root: seq<Shape>, op: Linalg, base: Buf, k: nat, r: Root)
    requires RootsIn(root, op) && k < |Items(root, op, base)|
    ensures LoadKey(Items(root, op, base)[k]) == Some(r) ==> ReadsWhole(op, r)
    ensures ReadsDeeply(Items(root, op, base)[k], r) ==> ReadsTiled(op, r)
  {
    hide ReachOf;
    var i := Items(root, op, base)[k];
    forall x: nat | x < |OpsOf(i)| && OpsOf(i)[x].Load?
      ensures OpsOf(i)[x].src.CastOf? || OpsOf(i)[x].src.SubOf?
      ensures ReachOf(OpsOf(i)[x].src, r) == Deeper ==> ReadsTiled(op, r)
    {
      LoadForm(root, op, base, k, x, r);
    }
    if i.Leaf? && i.op.Load? && i.op.src.CastOf? {
      CastKey(i.op.src.source.root);
    }
  }

  /** A matmul loads windows of its operands, the other operations load theirs whole. */
  lemma LoadedView(root: seq<Shape>, op: Linalg, base: Buf, k: nat, x: nat)
    requires RootsIn(root, op) && k < |Items(root, op, base)|
    requires x < |OpsOf(Items(root, op, base)[k])| && OpsOf(Items(root, op, base)[k])[x].Load?
    ensures var v := OpsOf(Items(root, op, base)[k])[x].src;
      match op
      case LinalgMatmul(a, b, _) => v.SubOf? && (v.source == ToDDR(a) || v.source == ToDDR(b))
      case LinalgEwise(_, a, b, _) => v == ToDDR(a) || v == ToDDR(b)
      case LinalgAct(_, a, _) => v == ToDDR(a)
      case LinalgReduce(_, a, _) => v == ToDDR(a)
  {
  }

  lemma LoadForm(root: seq<Shape>, op: Linalg, base: Buf, k: nat, x: nat, r: Root)
    requires RootsIn(root, op) && k < |Items(root, op, base)|
    requires x < |OpsOf(Items(root, op, base)[k])| && OpsOf(Items(root, op, base)[k])[x].Load?
    ensures var v := OpsOf(Items(root, op, base)[k])[x].src;
      && (v.CastOf? || v.SubOf?)
      && (ReachOf(v, r) == Deeper ==> ReadsTiled(op, r))
      && (v.CastOf? ==> v.source.Base? && ReadsWhole(op, v.source.root))
  {
    hide ReachOf, Items, OpsOf;
    var v := OpsOf(Items(root, op, base)[k])[x].src;
    LoadedView(root, op, base, k, x);
    match op
    case LinalgMatmul(a, b, _) =>
      if v.source == ToDDR(a) { DeepView(r, a, v); } else { DeepView(r, b, v); }
    case LinalgEwise(_, a, b, _) =>
      if v == ToDDR(a) { DeepView(r, a, v); } else { DeepView(r, b, v); }
    case LinalgAct(_, a, _) => DeepView(r, a, v);
    case LinalgReduce(_, a, _) => DeepView(r, a, v);
  }

  /** A lowering stores its output, with its last item. */
  lemma ItemStores(root: seq<Shape>, op: Linalg, base: Buf, k: nat, r: Root)
    requires RootsIn(root, op) && k < |Items(root, op, base)| && StoreKey(Items(root, op, base)[k]) == Some(r)
    ensures op.out == r && k == |Items(root, op, base)| - 1
  {
    CastKey(op.out);
  }
}
