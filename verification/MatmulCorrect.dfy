/** The K-tiled matmul lowering computes the block recurrence, and with exact arithmetic the product. */
module MatmulCorrect {
  import opened Arithmetic
  import opened Types
  import opened Machine
  import opened EclipseIR
  import opened Lowering

  /* ---- the reference: one rounding per K block ---- */

  function WordOf(t: Tensor, at: int): Word { if 0 <= at < |t| then t[at] else 0 }

  /** The float sum of the first `k` products of block `s` for output (i, j); A is m x K, B is K x n. */
  function BlockSum<F>(f: Fpu<F>, A: Tensor, B: Tensor, K: nat, n: nat, i: nat, j: nat, s: nat, k: nat): F {
    if k == 0 then f.zero
    else f.add(BlockSum(f, A, B, K, n, i, j, s, k - 1),
               f.mul(f.dec(WordOf(A, i * K + s * TILE_K + (k - 1))), f.dec(WordOf(B, (s * TILE_K + (k - 1)) * n + j))))
  }

  /** v_0 = rd(S_0), v_s = rd(S_s + v_(s-1)). */
  function Recurrence<F>(f: Fpu<F>, A: Tensor, B: Tensor, K: nat, n: nat, i: nat, j: nat, s: nat): Word {
    var sum := BlockSum(f, A, B, K, n, i, j, s, TILE_K);
    if s == 0 then f.enc(sum) else f.enc(f.add(sum, f.dec(Recurrence(f, A, B, K, n, i, j, s - 1))))
  }

  /** The result tile after blocks 0..s. */
  function Tile<F>(f: Fpu<F>, A: Tensor, B: Tensor, K: nat, m: nat, n: nat, s: nat): (t: Tensor)
    ensures |t| == m * n
  {
    seq(m * n, e requires 0 <= e < m * n =>
      PositiveFactors(m, n); RowOf(e, m, n); Recurrence(f, A, B, K, n, e / n, e % n, s))
  }

  /* ---- one block ---- */

  datatype Plan = Plan(a: Root, b: Root, c: Root, l: Buf, r: Buf, d: Buf, m: nat, n: nat, tiles: nat)

  function Depth(p: Plan): nat { p.tiles * TILE_K }

  /** The lowering's types: whole operands in DDR, one K block of each and the result in SRAM. */
  ghost predicate Typed(ty: Typing, p: Plan) {
    && p.a < |ty.root| && p.b < |ty.root| && p.c < |ty.root|
    && p.l < |ty.buf| && p.r < |ty.buf| && p.d < |ty.buf| && p.l != p.r && p.l != p.d && p.r != p.d
    && ty.root[p.a] == Shape(p.m, Depth(p)) && ty.root[p.b] == Shape(Depth(p), p.n) && ty.root[p.c] == Shape(p.m, p.n)
    && ty.buf[p.l] == Shape(p.m, TILE_K) && ty.buf[p.r] == Shape(TILE_K, p.n) && ty.buf[p.d] == Shape(p.m, p.n)
  }

  /** The operands are present with their sizes. */
  ghost predicate Operands(st: State, p: Plan) {
    && p.a in st.roots && p.b in st.roots && |st.roots[p.a]| == p.m * Depth(p) && |st.roots[p.b]| == Depth(p) * p.n
  }

  function Block(p: Plan, s: nat, acc: bool): seq<IrOp> {
    MatmulBlock(p.a, p.b, p.l, p.r, p.d, p.m, p.n, Fixed(s * TILE_K), acc)
  }

  lemma LhsTile(A: Tensor, p: Plan, s: nat, i: nat, k: nat)
    requires s < p.tiles && |A| == p.m * Depth(p) && i < p.m && k < TILE_K
    ensures s * TILE_K + TILE_K <= Depth(p) && (0 + p.m) * Depth(p) <= |A|
    ensures LhsWord(Window(A, Depth(p), 0, s * TILE_K, p.m, TILE_K), p.m, TILE_K, false, i, k)
      == WordOf(A, i * Depth(p) + s * TILE_K + k)
  {
    hide Depth;
    assert s * TILE_K + TILE_K <= Depth(p) by { BlockInside(p, s); }
    DivModOfMulAdd(i, k, TILE_K);
    RowMajor(i, k, p.m, TILE_K);
    WindowInside(Depth(p), 0, s * TILE_K, p.m, TILE_K, i * TILE_K + k);
    assert Window(A, Depth(p), 0, s * TILE_K, p.m, TILE_K)[i * TILE_K + k] == A[i * Depth(p) + s * TILE_K + k];
  }

  lemma BlockInside(p: Plan, s: nat)
    requires s < p.tiles
    ensures s * TILE_K + TILE_K <= Depth(p)
  {
  }

  lemma RhsTile(B: Tensor, p: Plan, s: nat, k: nat, j: nat)
    requires s < p.tiles && |B| == Depth(p) * p.n && k < TILE_K && j < p.n
    ensures (s * TILE_K + TILE_K) * p.n <= |B|
    ensures RhsWord(Window(B, p.n, s * TILE_K, 0, TILE_K, p.n), TILE_K, p.n, false, k, j)
      == WordOf(B, (s * TILE_K + k) * p.n + j)
  {
    hide Depth;
    BlockInside(p, s);
    MulMonotone(p.n, s * TILE_K + TILE_K, Depth(p));
    DivModOfMulAdd(k, j, p.n);
    RowMajor(k, j, TILE_K, p.n);
    MulMonotone(p.n, 0, k);
    WindowInside(p.n, s * TILE_K, 0, TILE_K, p.n, k * p.n + j);
    assert Window(B, p.n, s * TILE_K, 0, TILE_K, p.n)[k * p.n + j] == B[(s * TILE_K + k) * p.n + 0 + j];
  }

  /** The words of one dot product, as the machine's step reads them. */
  ghost predicate DotInputs(A: Tensor, B: Tensor, p: Plan, i: nat, j: nat, s: nat, xs: seq<Word>) {
    |xs| >= 2 * TILE_K && forall k: nat | k < TILE_K :: DotInput(A, B, p, i, j, s, xs, k)
  }

  ghost predicate DotInput(A: Tensor, B: Tensor, p: Plan, i: nat, j: nat, s: nat, xs: seq<Word>, k: nat)
    requires k < TILE_K && 2 * TILE_K <= |xs|
  {
    xs[k] == WordOf(A, i * Depth(p) + s * TILE_K + k) && xs[TILE_K + k] == WordOf(B, (s * TILE_K + k) * p.n + j)
  }

  lemma {:induction false} DotIsBlockSum<F>(f: Fpu<F>, A: Tensor, B: Tensor, p: Plan, i: nat, j: nat, s: nat, xs: seq<Word>, k: nat)
    requires DotInputs(A, B, p, i, j, s, xs) && k <= TILE_K
    ensures DotSum(f, xs, TILE_K, k) == BlockSum(f, A, B, Depth(p), p.n, i, j, s, k)
  {
    if k > 0 {
      DotIsBlockSum(f, A, B, p, i, j, s, xs, k - 1);
      assert DotInput(A, B, p, i, j, s, xs, k - 1);
    }
  }

  /** Both tiles as they are after the loads of block `s`. */
  ghost predicate Loaded(st: State, p: Plan, s: nat) {
    && Operands(st, p) && s < p.tiles && p.l in st.bufs && p.r in st.bufs
    && (0 + p.m) * Depth(p) <= |st.roots[p.a]| && s * TILE_K + TILE_K <= Depth(p)
    && (s * TILE_K + TILE_K) * p.n <= |st.roots[p.b]|
    && st.bufs[p.l] == Window(st.roots[p.a], Depth(p), 0, s * TILE_K, p.m, TILE_K)
    && st.bufs[p.r] == Window(st.roots[p.b], p.n, s * TILE_K, 0, TILE_K, p.n)
  }

  function Product(p: Plan, acc: bool): IrOp { MatmulOp(p.l, p.r, p.d, acc, false, false) }

  /** Element `e` of the block product. */
  lemma BlockElement<F>(f: Fpu<F>, ty: Typing, st: State, p: Plan, s: nat, e: nat)
    requires Typed(ty, p) && Loaded(st, p, s) && e < p.m * p.n
    requires s > 0 ==> p.d in st.bufs && st.bufs[p.d] == Tile(f, st.roots[p.a], st.roots[p.b], Depth(p), p.m, p.n, s - 1)
    ensures WellTyped(ty, Product(p, s > 0)) && Elements(ty, st, Product(p, s > 0)).Some?
    ensures |Elements(ty, st, Product(p, s > 0)).value| == p.m * p.n
    ensures Value(f, Elements(ty, st, Product(p, s > 0)).value[e])
      == Some(Tile(f, st.roots[p.a], st.roots[p.b], Depth(p), p.m, p.n, s)[e])
  {
    hide Depth, Window, Recurrence, BlockSum, DotInputs, LhsWord, RhsWord;
    PositiveFactors(p.m, p.n);
    RowOf(e, p.m, p.n);
    var A, B, i, j := st.roots[p.a], st.roots[p.b], e / p.n, e % p.n;
    var old' := if s > 0 then st.bufs[p.d] else [];
    var x := MatmulElement(st.bufs[p.l], st.bufs[p.r], old', p.m, TILE_K, p.n, Product(p, s > 0), e);
    assert Elements(ty, st, Product(p, s > 0)).value[e] == x;
    BlockInputs(st, p, s, e, old', x);
    BlockValue(f, A, B, p, i, j, s, x.inputs, if s > 0 then old'[e] else 0);
  }

  lemma BlockInputs(st: State, p: Plan, s: nat, e: nat, old': Tensor, x: Element)
    requires Loaded(st, p, s) && p.a in st.roots && p.b in st.roots && p.l in st.bufs && p.r in st.bufs
    requires e < p.m * p.n && p.n > 0 && 0 <= e / p.n < p.m && (s > 0 ==> |old'| == p.m * p.n)
    requires x == MatmulElement(st.bufs[p.l], st.bufs[p.r], old', p.m, TILE_K, p.n, Product(p, s > 0), e)
    ensures x.op == Dot(TILE_K, s > 0)
    ensures DotInputs(st.roots[p.a], st.roots[p.b], p, e / p.n, e % p.n, s, x.inputs)
    ensures |x.inputs| == 2 * TILE_K + (if s > 0 then 1 else 0) && (s > 0 ==> x.inputs[2 * TILE_K] == old'[e])
  {
    hide Depth, Window, LhsWord, RhsWord, WordOf, Loaded;
    forall k: nat | k < TILE_K
      ensures DotInput(st.roots[p.a], st.roots[p.b], p, e / p.n, e % p.n, s, x.inputs, k)
    {
      InputWords(st, p, s, e / p.n, e % p.n, k);
    }
  }

  lemma InputWords(st: State, p: Plan, s: nat, i: nat, j: nat, k: nat)
    requires Loaded(st, p, s) && i < p.m && j < p.n && k < TILE_K
    ensures LhsWord(st.bufs[p.l], p.m, TILE_K, false, i, k) == WordOf(st.roots[p.a], i * Depth(p) + s * TILE_K + k)
    ensures RhsWord(st.bufs[p.r], TILE_K, p.n, false, k, j) == WordOf(st.roots[p.b], (s * TILE_K + k) * p.n + j)
  {
    hide Depth, Window, LhsWord, RhsWord, WordOf;
    LhsTile(st.roots[p.a], p, s, i, k);
    RhsTile(st.roots[p.b], p, s, k, j);
  }

  lemma BlockValue<F>(f: Fpu<F>, A: Tensor, B: Tensor, p: Plan, i: nat, j: nat, s: nat, xs: seq<Word>, prev: Word)
    requires DotInputs(A, B, p, i, j, s, xs) && |xs| == 2 * TILE_K + (if s > 0 then 1 else 0)
    requires s > 0 ==> xs[2 * TILE_K] == prev == Recurrence(f, A, B, Depth(p), p.n, i, j, s - 1)
    ensures Value(f, Element(Dot(TILE_K, s > 0), xs)) == Some(Recurrence(f, A, B, Depth(p), p.n, i, j, s))
  {
    hide DotInputs, Depth, DotSum, BlockSum;
    DotIsBlockSum(f, A, B, p, i, j, s, xs, TILE_K);
  }

  /* ---- evaluation ---- */

  /** The state after block `s`. */
  ghost predicate After<F>(f: Fpu<F>, st: State, st': State, p: Plan, s: nat)
    requires Operands(st, p)
  {
    && st'.roots == st.roots
    && p.d in st'.bufs && st'.bufs[p.d] == Tile(f, st.roots[p.a], st.roots[p.b], Depth(p), p.m, p.n, s)
    && forall b: nat | b != p.l && b != p.r && b != p.d :: SameBuf(st, st', b)
  }

  ghost predicate SameBuf(st: State, st': State, b: Buf) {
    (b in st'.bufs <==> b in st.bufs) && (b in st.bufs ==> st'.bufs[b] == st.bufs[b])
  }

  lemma LoadsRun<F>(f: Fpu<F>, ty: Typing, st: State, p: Plan, s: nat, acc: bool)
    requires Typed(ty, p) && Operands(st, p) && s < p.tiles
    ensures s * TILE_K + TILE_K <= Depth(p) && (0 + p.m) * Depth(p) <= |st.roots[p.a]|
    ensures (s * TILE_K + TILE_K) * p.n <= |st.roots[p.b]|
    ensures var w, v := Window(st.roots[p.a], Depth(p), 0, s * TILE_K, p.m, TILE_K),
                        Window(st.roots[p.b], p.n, s * TILE_K, 0, TILE_K, p.n);
      var st1 := st.(bufs := st.bufs[p.l := w]);
      && EvalOp(f, ty, st, Block(p, s, acc)[0]) == Some(st1)
      && EvalOp(f, ty, st1, Block(p, s, acc)[1]) == Some(st1.(bufs := st1.bufs[p.r := v]))
  {
    hide Depth, Window;
    BlockInside(p, s);
    MulMonotone(p.n, s * TILE_K + TILE_K, Depth(p));
    RootView(ty, st, p.a);
    var w := Window(st.roots[p.a], Depth(p), 0, s * TILE_K, p.m, TILE_K);
    RootView(ty, st.(bufs := st.bufs[p.l := w]), p.b);
  }

  lemma RootView(ty: Typing, st: State, r: Root)
    requires r < |ty.root| && r in st.roots
    ensures ViewShape(ty, ToDDR(r)) == Some(ty.root[r]) && Read(ty, st, ToDDR(r)) == Some(st.roots[r])
  {
    assert ViewShape(ty, Base(r)) == Some(ty.root[r]);
    assert Read(ty, st, Base(r)) == Some(st.roots[r]);
  }

  lemma ProductRuns<F>(f: Fpu<F>, ty: Typing, st: State, p: Plan, s: nat)
    requires Typed(ty, p) && Loaded(st, p, s)
    requires s > 0 ==> p.d in st.bufs && st.bufs[p.d] == Tile(f, st.roots[p.a], st.roots[p.b], Depth(p), p.m, p.n, s - 1)
    ensures EvalOp(f, ty, st, Product(p, s > 0))
      == Some(st.(bufs := st.bufs[p.d := Tile(f, st.roots[p.a], st.roots[p.b], Depth(p), p.m, p.n, s)]))
  {
    hide Depth, Window, Tile, Value;
    var t := Tile(f, st.roots[p.a], st.roots[p.b], Depth(p), p.m, p.n, s);
    var op := Product(p, s > 0);
    assert Elements(ty, st, op).Some?;
    var xs := Elements(ty, st, op).value;
    forall e | 0 <= e < p.m * p.n
      ensures Value(f, xs[e]) == Some(t[e])
    {
      BlockElement(f, ty, st, p, s, e);
    }
    assert Values(f, xs) == t;
  }

  lemma BlockRuns<F>(f: Fpu<F>, ty: Typing, st: State, p: Plan, s: nat)
    requires Typed(ty, p) && Operands(st, p) && s < p.tiles
    requires s > 0 ==> p.d in st.bufs && st.bufs[p.d] == Tile(f, st.roots[p.a], st.roots[p.b], Depth(p), p.m, p.n, s - 1)
    ensures var st' := EvalOps(f, ty, st, Block(p, s, s > 0)); st'.Some? && After(f, st, st'.value, p, s)
  {
    hide Depth, Window, Tile, EvalOp, EvalOps;
    var ops := Block(p, s, s > 0);
    LoadsRun(f, ty, st, p, s, s > 0);
    var st1 := EvalOp(f, ty, st, ops[0]).value;
    var st2 := EvalOp(f, ty, st1, ops[1]).value;
    ProductRuns(f, ty, st2, p, s);
    var st3 := EvalOp(f, ty, st2, ops[3]).value;
    SyncRuns(f, ty, st2);
    SyncRuns(f, ty, st3);
    assert ops[0..] == ops;
    EvalFrom(f, ty, st, ops, 0);
    EvalFrom(f, ty, st1, ops, 1);
    EvalFrom(f, ty, st2, ops, 2);
    EvalFrom(f, ty, st2, ops, 3);
    EvalFrom(f, ty, st3, ops, 4);
    EvalFrom(f, ty, st3, ops, 5);
  }

  lemma SyncRuns<F>(f: Fpu<F>, ty: Typing, st: State)
    ensures EvalOp(f, ty, st, SyncOp) == Some(st)
  {
  }

  /** The loop body of the lowering. */
  function LoopBody(p: Plan): seq<IrOp> {
    MatmulBlock(p.a, p.b, p.l, p.r, p.d, p.m, p.n, Induction(TILE_K), true)
  }

  lemma BodyIsBlock(p: Plan, s: nat)
    ensures BodyAt(LoopBody(p), s) == Block(p, s, true)
  {
    CastAt(p.a, s);
    CastAt(p.b, s);
    assert forall k | 0 <= k < 5 :: OpAt(LoopBody(p)[k], s) == Block(p, s, true)[k];
  }

  lemma CastAt(r: Root, iv: nat)
    ensures ViewAt(ToDDR(r), iv) == ToDDR(r)
  {
    assert ViewAt(Base(r), iv) == Base(r);
  }

  lemma Chain<F>(f: Fpu<F>, st: State, st1: State, st2: State, p: Plan, s: nat, s': nat)
    requires Operands(st, p) && After(f, st, st1, p, s) && Operands(st1, p) && After(f, st1, st2, p, s')
    ensures After(f, st, st2, p, s')
  {
    hide Tile;
    forall b: nat | b != p.l && b != p.r && b != p.d
      ensures SameBuf(st, st2, b)
    {
      assert SameBuf(st, st1, b) && SameBuf(st1, st2, b);
    }
  }

  lemma {:induction false} LoopRuns<F>(f: Fpu<F>, ty: Typing, st: State, st1: State, p: Plan, ub: nat)
    requires Typed(ty, p) && Operands(st, p) && After(f, st, st1, p, 0) && 1 <= ub <= p.tiles
    ensures var st' := EvalOps(f, ty, st1, UnrollLoop(LoopBody(p), 1, ub)); st'.Some? && After(f, st, st'.value, p, ub - 1)
    decreases ub
  {
    hide Tile, Typed, BodyAt, LoopBody, Block, SameBuf;
    if ub > 1 {
      LoopRuns(f, ty, st, st1, p, ub - 1);
      var front := UnrollLoop(LoopBody(p), 1, ub - 1);
      var st2 := EvalOps(f, ty, st1, front).value;
      BodyIsBlock(p, ub - 1);
      BlockRuns(f, ty, st2, p, ub - 1);
      EvalConcat(f, ty, st1, front, Block(p, ub - 1, true));
      Chain(f, st, st2, EvalOps(f, ty, st2, Block(p, ub - 1, true)).value, p, ub - 2, ub - 1);
    }
  }

  function ItemsOf(p: Plan): seq<Item> { MatmulItems(p.a, p.b, p.c, p.l, p.r, p.d, p.m, p.n, p.tiles) }

  lemma UnrolledMatmul(p: Plan)
    ensures Unroll(ItemsOf(p)) == Block(p, 0, false) + UnrollLoop(LoopBody(p), 1, p.tiles) + [Store(p.d, ToDDR(p.c))]
  {
    hide UnrollLoop, MatmulBlock;
    var first, last := Leaves(Block(p, 0, false)), [Leaf(Store(p.d, ToDDR(p.c)))];
    var middle := if p.tiles > 1 then [For(1, p.tiles, LoopBody(p))] else [];
    assert ItemsOf(p) == first + middle + last;
    UnrollConcat(first + middle, last);
    UnrollConcat(first, middle);
    UnrollLeaves(Block(p, 0, false));
    UnrollLeaves([Store(p.d, ToDDR(p.c))]);
    OneLeaf(Store(p.d, ToDDR(p.c)));
    assert Unroll(middle) == UnrollLoop(LoopBody(p), 1, p.tiles) by {
      NoIterations(LoopBody(p), p.tiles);
      assert middle != [] ==> middle[1..] == [];
    }
  }

  lemma NoIterations(body: seq<IrOp>, ub: nat)
    ensures ub <= 1 ==> UnrollLoop(body, 1, ub) == []
  {
  }

  /** All blocks: the result tile holds the recurrence's last value. */
  lemma TilesRun<F>(f: Fpu<F>, ty: Typing, st: State, p: Plan)
    requires Typed(ty, p) && Operands(st, p) && p.tiles >= 1
    ensures var st' := EvalOps(f, ty, st, Block(p, 0, false) + UnrollLoop(LoopBody(p), 1, p.tiles));
      st'.Some? && After(f, st, st'.value, p, p.tiles - 1)
  {
    hide Tile, Block, LoopBody, UnrollLoop, Depth;
    BlockRuns(f, ty, st, p, 0);
    LoopRuns(f, ty, st, EvalOps(f, ty, st, Block(p, 0, false)).value, p, p.tiles);
    EvalConcat(f, ty, st, Block(p, 0, false), UnrollLoop(LoopBody(p), 1, p.tiles));
  }

  /** The lowered matmul stores the recurrence's last value into C, whatever C and the SRAM buffers
      held, and changes no other root and no other buffer. */
  lemma LoweredMatmul<F>(f: Fpu<F>, ty: Typing, st: State, p: Plan)
    requires Typed(ty, p) && Operands(st, p) && p.tiles >= 1
    ensures var st' := EvalOps(f, ty, st, Unroll(ItemsOf(p)));
      && st'.Some?
      && st'.value.roots == st.roots[p.c := Tile(f, st.roots[p.a], st.roots[p.b], Depth(p), p.m, p.n, p.tiles - 1)]
      && forall b: nat | b != p.l && b != p.r && b != p.d :: SameBuf(st, st'.value, b)
  {
    hide Tile, Block, LoopBody, UnrollLoop, ItemsOf, Depth, Unroll;
    UnrolledMatmul(p);
    TilesRun(f, ty, st, p);
    var tiles := Block(p, 0, false) + UnrollLoop(LoopBody(p), 1, p.tiles);
    var st2 := EvalOps(f, ty, st, tiles).value;
    var store := Store(p.d, ToDDR(p.c));
    EvalConcat(f, ty, st, tiles, [store]);
    StoreRuns(f, ty, st2, p.d, p.c);
    EvalFrom(f, ty, st2, [store], 0);
    EvalFrom(f, ty, EvalOp(f, ty, st2, store).value, [store], 1);
    assert [store][0..] == [store];
    forall b: nat | b != p.l && b != p.r && b != p.d
      ensures SameBuf(st, EvalOp(f, ty, st2, store).value, b)
    {
      assert SameBuf(st, st2, b);
    }
  }

  lemma StoreRuns<F>(f: Fpu<F>, ty: Typing, st: State, b: Buf, r: Root)
    requires b < |ty.buf| && r < |ty.root| && ty.buf[b] == ty.root[r] && b in st.bufs
    ensures EvalOp(f, ty, st, Store(b, ToDDR(r))) == Some(st.(roots := st.roots[r := st.bufs[b]]))
  {
    assert ViewShape(ty, Base(r)) == Some(ty.root[r]);
    assert ViewShape(ty, ToDDR(r)) == Some(ty.root[r]);
  }
}
