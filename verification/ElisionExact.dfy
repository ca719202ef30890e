/** Exactly when eliding the copies of a chain preserves what it computes: when no root is lost. */
module ElisionExact {
  import opened Arithmetic
  import opened Types
  import opened Machine
  import opened EclipseIR
  import opened Lowering
  import opened MatmulCorrect
  import opened ElideCopies
  import opened Renaming
  import opened ElisionCorrect
  import opened ChainElision
  import opened ChainGroups
  import opened LostRoots
  import opened ChainMeaning
  import opened ElidedRuns
  import LoweredOps

  /* ---- an arithmetic that tells stale words from computed ones ---- */

  /** Every computed word is 0 or 1, and a product is 1 exactly if one of its words was larger. */
  function Peek(): Fpu<int> {
    var larger := (x: int, y: int) => if x >= y then x else y;
    var none, nothing := (x: int) => 0, (x: int, y: int) => 0;
    Fpu((w: Word) => w as int, (x: int) => if x >= 2 then 1 else 0, 0, 0, larger, nothing, larger, nothing,
        (x: int, y: int) => x > y, (x: int, y: int) => false, (x: int) => false, (x: int) => false, none, none, none)
  }

  lemma PeekNeverTraps()
    ensures NeverTraps(Peek())
  {
  }

  /** Root `r` holds twos, every other root zeros. */
  function Marked(root: seq<Shape>, r: Root): State {
    State(map q: nat | 0 <= q < |root| :: seq(Size(root[q]), k requires k >= 0 => if q == r then 2 else 0), map[])
  }

  predicate Low(t: Tensor) { forall e | 0 <= e < |t| :: t[e] <= 1 }

  predicate Twos(t: Tensor) { forall e | 0 <= e < |t| :: t[e] == 2 }

  function Ones(n: nat): Tensor { seq(n, k requires k >= 0 => 1) }

  lemma Encoded(x: int)
    ensures Peek().enc(x) == (if x >= 2 then 1 else 0)
  {
  }

  lemma OutputLow(root: seq<Shape>, ts: Tensors, op: Linalg)
    requires RootsIn(root, op) && Shaped(root, op) && Present(root, ts) && Output(Peek(), root, ts, op).Some?
    ensures Low(Output(Peek(), root, ts, op).value)
  {
    hide Peek, BlockSum, ArithValue, ActValue, MaxOf, SumOf, ArgmaxOf, LoweredOps.EwisePair, Size, LoweredOps.RootRow;
    forall x
      ensures Peek().enc(x) <= 1
    {
      Encoded(x);
    }
    var t := Output(Peek(), root, ts, op).value;
    if op.LinalgMatmul? { TileLow(ts[op.lhs], ts[op.rhs], root[op.lhs].cols, root[op.lhs].rows, root[op.rhs].cols, root[op.lhs].cols / TILE_K - 1); }
  }

  lemma TileLow(A: Tensor, B: Tensor, K: nat, m: nat, n: nat, s: nat)
    ensures Low(Tile(Peek(), A, B, K, m, n, s))
  {
    hide Peek, BlockSum;
    forall x
      ensures Peek().enc(x) <= 1
    {
      Encoded(x);
    }
    forall e | 0 <= e < m * n
      ensures Tile(Peek(), A, B, K, m, n, s)[e] <= 1
    {
      PositiveFactors(m, n);
      RowOf(e, m, n);
    }
  }

  /** What a chain computes from the marked tensors is low; only a root not stored yet can be marked. */
  lemma {:induction false} MeaningLow(root: seq<Shape>, r: Root, ops: seq<Linalg>, i: nat, q: Root)
    requires AllShaped(root, ops) && Present(root, Marked(root, r).roots) && q < |root|
    requires Meaning(Peek(), root, Marked(root, r).roots, ops).Some?
    requires q == r ==> i < |ops| && ops[i].out == r
    ensures Low(Meaning(Peek(), root, Marked(root, r).roots, ops).value[q])
    decreases ops
  {
    hide Peek, Shaped, RootsIn, Output, Low, Size, Marked, Present;
    if ops == [] {
      MarkedLow(root, r, q);
    } else {
      var front, last := ops[..|ops| - 1], ops[|ops| - 1];
      OutputLow(root, Meaning(Peek(), root, Marked(root, r).roots, front).value, last);
      if last.out != q {
        assert q == r ==> front[i] == ops[i];
        MeaningLow(root, r, front, i, q);
      }
    }
  }

  lemma MarkedLow(root: seq<Shape>, r: Root, q: Root)
    requires q < |root| && q != r
    ensures q in Marked(root, r).roots && Low(Marked(root, r).roots[q])
  {
    hide Size;
  }

  lemma MarkedPresent(root: seq<Shape>, r: Root)
    ensures Present(root, Marked(root, r).roots) && Marked(root, r).bufs == map[]
    ensures r < |root| ==> Twos(Marked(root, r).roots[r])
  {
    hide Size;
  }

  /* ---- the product of low and of marked operands ---- */

  lemma Combined(x: int, y: int)
    ensures Peek().add(x, y) == Peek().mul(x, y) == if x >= y then x else y
  {
  }

  lemma {:induction false} SumLow(A: Tensor, B: Tensor, K: nat, n: nat, i: nat, j: nat, s: nat, k: nat)
    requires Low(A) && Low(B)
    ensures BlockSum(Peek(), A, B, K, n, i, j, s, k) <= 1
    decreases k
  {
    if k > 0 {
      SumLow(A, B, K, n, i, j, s, k - 1);
    }
  }

  lemma {:induction false} RecurrenceLow(A: Tensor, B: Tensor, K: nat, n: nat, i: nat, j: nat, s: nat)
    requires Low(A) && Low(B)
    ensures Recurrence(Peek(), A, B, K, n, i, j, s) == 0
    decreases s
  {
    hide BlockSum;
    SumLow(A, B, K, n, i, j, s, TILE_K);
    if s > 0 {
      RecurrenceLow(A, B, K, n, i, j, s - 1);
    }
  }

  lemma TileZero(A: Tensor, B: Tensor, K: nat, m: nat, n: nat, s: nat)
    requires Low(A) && Low(B)
    ensures Tile(Peek(), A, B, K, m, n, s) == Zeros(m * n)
  {
    hide Peek, Recurrence;
    forall e | 0 <= e < m * n
      ensures Tile(Peek(), A, B, K, m, n, s)[e] == 0
    {
      PositiveFactors(m, n);
      RowOf(e, m, n);
      RecurrenceLow(A, B, K, n, e / n, e % n, s);
    }
  }

  /** A marked operand shows in every block sum: the last product of the block reads it. */
  lemma SumMarked(A: Tensor, B: Tensor, K: nat, n: nat, i: nat, j: nat, s: nat)
    requires WordOf(A, i * K + s * TILE_K + (TILE_K - 1)) == 2 || WordOf(B, (s * TILE_K + (TILE_K - 1)) * n + j) == 2
    ensures BlockSum(Peek(), A, B, K, n, i, j, s, TILE_K) >= 2
  {
    hide WordOf;
    var a, b := WordOf(A, i * K + s * TILE_K + (TILE_K - 1)), WordOf(B, (s * TILE_K + (TILE_K - 1)) * n + j);
    var before := BlockSum(Peek(), A, B, K, n, i, j, s, TILE_K - 1);
    Combined(Peek().dec(a), Peek().dec(b));
    Combined(before, Peek().mul(Peek().dec(a), Peek().dec(b)));
  }

  lemma RecurrenceMarked(A: Tensor, B: Tensor, K: nat, n: nat, i: nat, j: nat, s: nat)
    requires WordOf(A, i * K + s * TILE_K + (TILE_K - 1)) == 2 || WordOf(B, (s * TILE_K + (TILE_K - 1)) * n + j) == 2
    ensures Recurrence(Peek(), A, B, K, n, i, j, s) == 1
  {
    hide BlockSum, WordOf;
    SumMarked(A, B, K, n, i, j, s);
    var sum := BlockSum(Peek(), A, B, K, n, i, j, s, TILE_K);
    Encoded(sum);
    if s > 0 {
      var prev := Peek().dec(Recurrence(Peek(), A, B, K, n, i, j, s - 1));
      Combined(sum, prev);
      Encoded(Peek().add(sum, prev));
    }
  }

  lemma TileOnes(A: Tensor, B: Tensor, K: nat, m: nat, n: nat, s: nat)
    requires |A| == m * K && |B| == K * n && K == (s + 1) * TILE_K && (Twos(A) || Twos(B))
    ensures Tile(Peek(), A, B, K, m, n, s) == Ones(m * n)
  {
    hide Peek, Recurrence;
    forall e | 0 <= e < m * n
      ensures Tile(Peek(), A, B, K, m, n, s)[e] == 1
    {
      PositiveFactors(m, n);
      RowOf(e, m, n);
      var i, j := e / n, e % n;
      if Twos(A) { InLhs(A, K, m, i, s); } else { InRhs(B, K, n, j, s); }
      RecurrenceMarked(A, B, K, n, i, j, s);
    }
  }

  lemma InLhs(A: Tensor, K: nat, m: nat, i: nat, s: nat)
    requires |A| == m * K && K == (s + 1) * TILE_K && i < m && Twos(A)
    ensures WordOf(A, i * K + s * TILE_K + (TILE_K - 1)) == 2
  {
    RowMajor(i, s * TILE_K + (TILE_K - 1), m, K);
  }

  lemma InRhs(B: Tensor, K: nat, n: nat, j: nat, s: nat)
    requires |B| == K * n && K == (s + 1) * TILE_K && j < n && Twos(B)
    ensures WordOf(B, (s * TILE_K + (TILE_K - 1)) * n + j) == 2
  {
    RowMajor(s * TILE_K + (TILE_K - 1), j, K, n);
  }

  /* ---- the matmul's buffers ---- */

  lemma {:induction false} BufsPrefix(root: seq<Shape>, ops: seq<Linalg>, i: nat)
    requires i <= |ops| && InRoots(root, ops)
    ensures ChainBufs(root, ops[..i]) <= ChainBufs(root, ops)
    decreases |ops|
  {
    hide NewBufs, RootsIn;
    if i < |ops| {
      BufsPrefix(root, ops[..|ops| - 1], i);
      assert ops[..|ops| - 1][..i] == ops[..i];
    } else {
      assert ops[..i] == ops;
    }
  }

  lemma {:induction false} BasesGrow(root: seq<Shape>, ops: seq<Linalg>, i: nat, j: nat)
    requires InRoots(root, ops) && i <= j <= |ops|
    ensures GroupBase(root, ops, i) <= GroupBase(root, ops, j)
    decreases j - i
  {
    hide RootsIn, Items, GroupStart, GroupBase, Disciplined, Program;
    if i < j {
      BasesGrow(root, ops, i, j - 1);
      GroupOf(root, ops, 0, j - 1);
    }
  }

  lemma GroupBufs(ty: Typing, ops: seq<Linalg>, k: nat, x: nat)
    requires InRoots(ty.root, ops) && ChainBufs(ty.root, ops) <= ty.buf && k < |ops| && x < |NewBufs(ty.root, ops[k])|
    ensures GroupBase(ty.root, ops, k) + x < |ty.buf|
    ensures ty.buf[GroupBase(ty.root, ops, k) + x] == NewBufs(ty.root, ops[k])[x]
  {
    hide RootsIn, NewBufs;
    BufsPrefix(ty.root, ops, k + 1);
    assert ops[..k + 1][..k] == ops[..k];
    assert ChainBufs(ty.root, ops[..k + 1]) == ChainBufs(ty.root, ops[..k]) + NewBufs(ty.root, ops[k]);
  }

  /** The types of the matmul at position `k`. */
  lemma PlanTyped(ty: Typing, ops: seq<Linalg>, k: nat)
    requires AllShaped(ty.root, ops) && ChainBufs(ty.root, ops) <= ty.buf && k < |ops| && ops[k].LinalgMatmul?
    ensures InRoots(ty.root, ops)
    ensures var p := PlanFor(ty.root, ops[k], GroupBase(ty.root, ops, k));
      Typed(ty, p) && p.tiles >= 1 && Depth(p) == ty.root[ops[k].lhs].cols
  {
    hide Depth, GroupBase, ChainBufs;
    var p := PlanFor(ty.root, ops[k], GroupBase(ty.root, ops, k));
    assert RootsIn(ty.root, ops[k]) && Shaped(ty.root, ops[k]);
    WholeTiles(ty.root[ops[k].lhs].cols, p);
    GroupBufs(ty, ops, k, 0);
    GroupBufs(ty, ops, k, 1);
    GroupBufs(ty, ops, k, 2);
  }

  /** Later operations write later buffers. */
  lemma LaterWrites(root: seq<Shape>, ops: seq<Linalg>, result: Root, k: nat, x: nat, b: Buf)
    requires InRoots(root, ops) && k < |ops| && GroupStart(root, ops, k + 1) <= x < |Program(root, ops, result)|
    requires b < GroupBase(root, ops, k + 1)
    ensures !ItemWrites(Program(root, ops, result)[x], b)
  {
    hide RootsIn, Items, GroupStart, GroupBase, Disciplined, Program, ItemWrites, ChainItems, Within, ItemWithin, FeedsProduct;
    ProgramSize(root, ops, result);
    if x == |ChainItems(root, ops)| {
      ReturnWrites(result, b);
    } else {
      var o := Owner(root, ops, result, x);
      if o <= k { StartsGrow(root, ops, o + 1, k + 1); }
      BasesGrow(root, ops, k + 1, o);
      LoweredDisciplined(root, ops[o], GroupBase(root, ops, o));
      var y := x - GroupStart(root, ops, o);
      OneWithin(Items(root, ops[o], GroupBase(root, ops, o)), GroupBase(root, ops, o), GroupBase(root, ops, o) + BufCount(ops[o]), y);
      WritesWithin(Items(root, ops[o], GroupBase(root, ops, o))[y], GroupBase(root, ops, o), GroupBase(root, ops, o) + BufCount(ops[o]), b);
    }
  }

  lemma OneWithin(items: seq<Item>, lo: Buf, hi: Buf, y: nat)
    requires Within(items, lo, hi) && y < |items|
    ensures ItemWithin(items[y], lo, hi)
  {
  }

  lemma ReturnWrites(r: Root, b: Buf)
    ensures !ItemWrites(Leaf(ReturnOp(r)), b)
  {
  }

  /* ---- lists of operations that leave a buffer alone ---- */

  lemma {:induction false} SlotsQuiet(s: Slots, lo: nat, hi: nat, b: Buf)
    requires lo <= hi <= |s| && forall x | lo <= x < hi && s[x].Some? :: !ItemWrites(s[x].value, b)
    ensures !Writes(Ops(s, lo, hi), b)
    decreases hi - lo
  {
    hide ItemWrites, Ops, Flat, Writes;
    if lo == hi {
      NoOpsQuiet(s, lo, b);
    } else {
      SlotsQuiet(s, lo + 1, hi, b);
      OpsSplit(s, lo, lo + 1, hi);
      OneSlot(s, lo);
      if s[lo].Some? {
        FlatQuiet(s[lo].value, b);
      } else {
        EmptyQuiet(b);
      }
      QuietParts(Ops(s, lo, lo + 1), Ops(s, lo + 1, hi), b);
    }
  }

  lemma NoOpsQuiet(s: Slots, k: nat, b: Buf)
    requires k <= |s|
    ensures !Writes(Ops(s, k, k), b)
  {
    assert s[k..k] == [];
  }

  lemma EmptyQuiet(b: Buf)
    ensures !Writes([], b)
  {
  }

  lemma FlatQuiet(i: Item, b: Buf)
    requires !ItemWrites(i, b)
    ensures !Writes(Flat(i), b)
  {
    hide Flat;
    if Writes(Flat(i), b) {
      var x :| 0 <= x < |Flat(i)| && Written(Flat(i)[x]) == Some(b);
      var o := FlatOrigin(i, x);
      WrittenItem(i, o, b);
    }
  }

  lemma QuietParts(xs: seq<IrOp>, ys: seq<IrOp>, b: Buf)
    requires !Writes(xs, b) && !Writes(ys, b)
    ensures !Writes(xs + ys, b)
  {
    hide Written;
    forall k | 0 <= k < |xs + ys|
      ensures Written((xs + ys)[k]) != Some(b)
    {
      assert (xs + ys)[k] == if k < |xs| then xs[k] else ys[k - |xs|];
    }
  }

  lemma {:induction false} BufKept<F>(f: Fpu<F>, ty: Typing, st: State, ops: seq<IrOp>, b: Buf)
    requires EvalOps(f, ty, st, ops).Some? && !Writes(ops, b) && b in st.bufs
    ensures b in EvalOps(f, ty, st, ops).value.bufs && EvalOps(f, ty, st, ops).value.bufs[b] == st.bufs[b]
    decreases ops
  {
    hide EvalOp, Writes;
    if ops != [] {
      WritesSplit(ops, b);
      OpKeepsBuf(f, ty, st, ops[0], b);
      BufKept(f, ty, EvalOp(f, ty, st, ops[0]).value, ops[1..], b);
    }
  }

  lemma OpKeepsBuf<F>(f: Fpu<F>, ty: Typing, st: State, op: IrOp, b: Buf)
    requires EvalOp(f, ty, st, op).Some? && Written(op) != Some(b) && b in st.bufs
    ensures b in EvalOp(f, ty, st, op).value.bufs && EvalOp(f, ty, st, op).value.bufs[b] == st.bufs[b]
  {
    hide Elements, Value, Values, Read, WellTyped;
  }

  /* ---- the result tile at the end of a run ---- */

  /** From the matmul's blocks on: its result tile is the product of the roots as they are then. */
  lemma TileAtEnd(ty: Typing, st: State, p: Plan, rest: seq<IrOp>)
    requires Typed(ty, p) && Operands(st, p) && p.tiles >= 1 && !Writes(rest, p.d)
    requires EvalOps(Peek(), ty, st, Block(p, 0, false) + UnrollLoop(LoopBody(p), 1, p.tiles) + rest).Some?
    ensures var s := EvalOps(Peek(), ty, st, Block(p, 0, false) + UnrollLoop(LoopBody(p), 1, p.tiles) + rest).value;
      p.d in s.bufs && s.bufs[p.d] == Tile(Peek(), st.roots[p.a], st.roots[p.b], Depth(p), p.m, p.n, p.tiles - 1)
  {
    hide Tile, Block, LoopBody, UnrollLoop, Depth, EvalOps, Peek, Writes, SameBuf;
    var tiles := Block(p, 0, false) + UnrollLoop(LoopBody(p), 1, p.tiles);
    TilesRun(Peek(), ty, st, p);
    EvalConcat(Peek(), ty, st, tiles, rest);
    BufKept(Peek(), ty, EvalOps(Peek(), ty, st, tiles).value, rest, p.d);
  }

  /** The operations of a matmul in front of its store. */
  lemma MatmulParts(root: seq<Shape>, op: Linalg, base: Buf)
    requires RootsIn(root, op) && op.LinalgMatmul?
    ensures var p := PlanFor(root, op, base);
      && |Heads(root, op, base)| == 2
      && Heads(root, op, base) + Middle(p) == Block(p, 0, false) + UnrollLoop(LoopBody(p), 1, p.tiles)
      && Result(op, base) == Store(p.d, ToDDR(p.c))
  {
    hide UnrollLoop, LoopBody;
    var p := PlanFor(root, op, base);
    var block := Block(p, 0, false);
    assert block == block[..2] + [SyncOp, Compute(op, base), SyncOp];
  }

  function PlanAt(root: seq<Shape>, ops: seq<Linalg>, k: nat): Plan
    requires InRoots(root, ops) && k < |ops| && ops[k].LinalgMatmul?
  {
    PlanFor(root, ops[k], GroupBase(root, ops, k))
  }

  function TileOps(p: Plan): seq<IrOp> { Block(p, 0, false) + UnrollLoop(LoopBody(p), 1, p.tiles) }

  lemma AllSlotsPart(items: seq<Item>, lo: nat)
    requires lo <= |items|
    ensures Ops(AllSlots(items), lo, |items|) == Unroll(items[lo..])
  {
    assert AllSlots(items)[lo..|items|] == AllSlots(items[lo..]);
    LiveAll(items[lo..]);
  }

  lemma StoreWritesNothing(d: Buf, v: View, b: Buf)
    ensures !Writes([Store(d, v)], b)
  {
  }

  /** The original program around the matmul at position `k`. */
  lemma OriginalSplit(root: seq<Shape>, ops: seq<Linalg>, result: Root, k: nat) returns (rest: seq<IrOp>)
    requires InRoots(root, ops) && k < |ops| && ops[k].LinalgMatmul?
    ensures Unroll(Program(root, ops, result)) == Unroll(ChainItems(root, ops[..k])) + (TileOps(PlanAt(root, ops, k)) + rest)
    ensures !Writes(rest, PlanAt(root, ops, k).d)
  {
    hide RootsIn, Items, GroupStart, GroupBase, Disciplined, Program, ChainItems, Unroll, TileOps, Writes, ItemWrites, BufCount, Ops;
    var items, n, hi, p := Program(root, ops, result), GroupStart(root, ops, k), GroupStart(root, ops, k + 1), PlanAt(root, ops, k);
    GroupOf(root, ops, result, k);
    PrefixItems(root, ops, result, k);
    var group := Items(root, ops[k], GroupBase(root, ops, k));
    assert items == items[..n] + (group + items[hi..]);
    UnrollConcat(items[..n], group + items[hi..]);
    UnrollConcat(group, items[hi..]);
    GroupUnrolled(root, ops[k], GroupBase(root, ops, k));
    var store := [Store(p.d, ToDDR(p.c))];
    rest := store + Unroll(items[hi..]);
    assert TileOps(p) + store + Unroll(items[hi..]) == TileOps(p) + rest;
    forall x | hi <= x < |items| && AllSlots(items)[x].Some?
      ensures !ItemWrites(AllSlots(items)[x].value, p.d)
    {
      MatmulCount(ops[k]);
      LaterWrites(root, ops, result, k, x, p.d);
    }
    SlotsQuiet(AllSlots(items), hi, |items|, p.d);
    AllSlotsPart(items, hi);
    StoreWritesNothing(p.d, ToDDR(p.c), p.d);
    QuietParts(store, Unroll(items[hi..]), p.d);
  }

  lemma MatmulCount(op: Linalg)
    ensures op.LinalgMatmul? ==> BufCount(op) == 3
  {
  }

  lemma PrefixItems(root: seq<Shape>, ops: seq<Linalg>, result: Root, k: nat)
    requires InRoots(root, ops) && k <= |ops|
    ensures GroupStart(root, ops, k) <= |ChainItems(root, ops)| < |Program(root, ops, result)|
    ensures Program(root, ops, result)[..GroupStart(root, ops, k)] == ChainItems(root, ops[..k])
  {
    hide RootsIn, ChainItems;
    ChainPrefix(root, ops, k);
  }

  lemma GroupUnrolled(root: seq<Shape>, op: Linalg, base: Buf)
    requires RootsIn(root, op) && op.LinalgMatmul?
    ensures var p := PlanFor(root, op, base); Unroll(Items(root, op, base)) == TileOps(p) + [Store(p.d, ToDDR(p.c))]
  {
    hide Block, LoopBody, UnrollLoop, Unroll, MatmulItems;
    var p := PlanFor(root, op, base);
    assert Items(root, op, base) == ItemsOf(p);
    UnrolledMatmul(p);
  }

  /** The elided program around it: all of its tile loads and blocks are kept. */
  lemma ElidedSplit(root: seq<Shape>, ops: seq<Linalg>, result: Root, k: nat) returns (rest: seq<IrOp>)
    requires InRoots(root, ops) && k < |ops| && ops[k].LinalgMatmul?
    ensures var s, n := ElidedSlots(Program(root, ops, result)), GroupStart(root, ops, k);
      && n <= |s|
      && Unroll(Elide(Program(root, ops, result))) == Ops(s, 0, n) + (TileOps(PlanAt(root, ops, k)) + rest)
    ensures !Writes(rest, PlanAt(root, ops, k).d)
  {
    hide RootsIn, Items, GroupStart, GroupBase, Disciplined, Program, ChainItems, Unroll, TileOps, Writes, ItemWrites, BufCount, Ops,
      ElidedSlots, Result, KeptHead, Mids, MapOps, Reps;
    var items, n, hi, p := Program(root, ops, result), GroupStart(root, ops, k), GroupStart(root, ops, k + 1), PlanAt(root, ops, k);
    var s, base := ElidedSlots(items), GroupBase(root, ops, k);
    GroupOf(root, ops, result, k);
    SlotCount(items);
    GroupSplit(items, root, ops[k], base, n);
    OpsSplit(s, 0, n, |s|);
    OpsSplit(s, n, hi, |s|);
    WholeOps(items);
    KeptTiles(items, root, ops[k], base, n);
    rest := Ops(s, hi - 1, hi) + Ops(s, hi, |s|);
    assert TileOps(p) + Ops(s, hi - 1, hi) + Ops(s, hi, |s|) == TileOps(p) + rest;
    LaterSlots(root, ops, result, k);
    StoreSlotQuiet(items, root, ops[k], base, n, p.d);
    QuietParts(Ops(s, hi - 1, hi), Ops(s, hi, |s|), p.d);
  }

  lemma WholeOps(items: seq<Item>)
    ensures Unroll(Elide(items)) == Ops(ElidedSlots(items), 0, |ElidedSlots(items)|)
  {
    hide ElidedSlots, Unroll, Live;
    assert ElidedSlots(items)[0..|ElidedSlots(items)|] == ElidedSlots(items);
  }

  lemma KeptTiles(items: seq<Item>, root: seq<Shape>, op: Linalg, base: Buf, n: nat)
    requires GroupAt(items, root, op, base, n) && op.LinalgMatmul?
    ensures n + HeadCount(op) <= |ElidedSlots(items)|
    ensures KeptHead(items, op, n) + MapOps(Unroll(Mids(root, op, base)), Reps(items)) == TileOps(PlanFor(root, op, base))
  {
    hide RootsIn, Items, Disciplined, Unroll, Ops, ElidedSlots, Mids, MapOps, Reps, Middle, Block, LoopBody, UnrollLoop, Heads, Matches,
      LoadOf, LoadKey, Image;
    var s := ElidedSlots(items);
    GroupParts(items, root, op, base, n);
    TileIsDeep(root, op, base, 0, op.lhs);
    TileIsDeep(root, op, base, 1, op.rhs);
    assert items[n + 0] == Leaf(Heads(root, op, base)[0]);
    NotALoad(items, n);
    NotALoad(items, n + 1);
    GroupLoad(items, root, op, base, n, 0);
    GroupLoad(items, root, op, base, n, 1);
    OpsSplit(s, n, n + 1, n + 2);
    OneSlot(s, n);
    OneSlot(s, n + 1);
    GroupImages(items, root, op, base, n);
    MidsUnrolled(root, op, base);
    UnchangedMiddle(PlanFor(root, op, base), Reps(items));
    MatmulParts(root, op, base);
    assert KeptHead(items, op, n) == Heads(root, op, base);
  }

  lemma StoreSlotQuiet(items: seq<Item>, root: seq<Shape>, op: Linalg, base: Buf, n: nat, b: Buf)
    requires GroupAt(items, root, op, base, n)
    ensures var k := n + |Items(root, op, base)| - 1;
      0 <= k < |ElidedSlots(items)| && !Writes(Ops(ElidedSlots(items), k, k + 1), b)
  {
    hide RootsIn, Items, Disciplined, Ops, ElidedSlots, Writes, Mids, Heads;
    GroupParts(items, root, op, base, n);
    GroupStore(items, root, op, base, n);
    OneSlot(ElidedSlots(items), n + |Items(root, op, base)| - 1);
    EmptyQuiet(b);
    StoreWritesNothing(Result(op, base).from, Result(op, base).to, b);
  }

  /** Behind the group no kept item writes the result tile. */
  lemma LaterSlots(root: seq<Shape>, ops: seq<Linalg>, result: Root, k: nat)
    requires InRoots(root, ops) && k < |ops| && ops[k].LinalgMatmul?
    ensures var s, hi := ElidedSlots(Program(root, ops, result)), GroupStart(root, ops, k + 1);
      hi <= |s| && !Writes(Ops(s, hi, |s|), PlanAt(root, ops, k).d)
  {
    hide RootsIn, Items, GroupStart, GroupBase, Disciplined, Program, ChainItems, Writes, ItemWrites, BufCount, Ops, ElidedSlots, Reps,
      MapItem, LoadOf;
    var items, hi, d := Program(root, ops, result), GroupStart(root, ops, k + 1), PlanAt(root, ops, k).d;
    var s := ElidedSlots(items);
    GroupOf(root, ops, result, k);
    MatmulCount(ops[k]);
    SlotCount(items);
    forall x | hi <= x < |s| && s[x].Some?
      ensures !ItemWrites(s[x].value, d)
    {
      LaterWrites(root, ops, result, k, x, d);
      KeptQuiet(items, x, d);
    }
    SlotsQuiet(s, hi, |s|, d);
  }

  lemma KeptQuiet(items: seq<Item>, x: nat, b: Buf)
    requires Disciplined(items) && x < |items| == |ElidedSlots(items)| && ElidedSlots(items)[x].Some? && !ItemWrites(items[x], b)
    ensures !ItemWrites(ElidedSlots(items)[x].value, b)
  {
    hide Disciplined, ElidedSlots, Reps, LoadOf, Image, ItemWrites;
    SlotForm(items, x);
    var i := items[x];
    forall o | 0 <= o < |OpsOf(MapItem(i, Reps(items)))|
      ensures Written(OpsOf(MapItem(i, Reps(items)))[o]) != Some(b)
    {
      KeptImages(items, x, o);
      assert OpsOf(MapItem(i, Reps(items)))[o] == MapOp(OpsOf(i)[o], Reps(items));
      MappedWrite(OpsOf(i)[o], Reps(items));
    }
    NoWrites(MapItem(i, Reps(items)), b);
  }

  lemma MappedWrite(op: IrOp, rs: Replacements)
    requires SelfImage(rs, op)
    ensures Written(MapOp(op, rs)) == Written(op)
  {
    hide Image;
  }

  lemma NoWrites(i: Item, b: Buf)
    requires forall o | 0 <= o < |OpsOf(i)| :: Written(OpsOf(i)[o]) != Some(b)
    ensures !ItemWrites(i, b)
  {
  }

  /* ---- the two runs from the marked state ---- */

  /** A chain with the buffers its lowering allocates. */
  ghost predicate Accepted(ty: Typing, ops: seq<Linalg>, result: Root) {
    AllShaped(ty.root, ops) && ChainBufs(ty.root, ops) <= ty.buf && result < |ty.root|
  }

  /** Operation `i` stores a root the matmul `k` behind it reads in tiles. */
  ghost predicate TilesStored(ops: seq<Linalg>, i: nat, k: nat) { i < k < |ops| && ReadsTiled(ops[k], ops[i].out) }

  /** In front of the matmul everything it reads has been computed. */
  lemma LowOperands(ty: Typing, ops: seq<Linalg>, result: Root, i: nat, k: nat) returns (sk: State)
    requires Accepted(ty, ops, result) && TilesStored(ops, i, k)
    ensures InRoots(ty.root, ops) && ops[i].out < |ty.root|
    ensures EvalOps(Peek(), ty, Marked(ty.root, ops[i].out), Unroll(ChainItems(ty.root, ops[..k]))) == Some(sk)
    ensures Operands(sk, PlanAt(ty.root, ops, k)) && Low(sk.roots[ops[k].lhs]) && Low(sk.roots[ops[k].rhs])
  {
    hide Peek, EvalOps, Unroll, ChainItems, ChainBufs, Low, Meaning, Shaped, NeverTraps, Marked, Depth, GroupBase;
    var r, front := ops[i].out, ops[..k];
    var st := Marked(ty.root, r);
    assert front[i].out == r;
    PlanTyped(ty, ops, k);
    BufsPrefix(ty.root, ops, k);
    MarkedPresent(ty.root, r);
    PeekNeverTraps();
    AlwaysMeans(Peek(), ty.root, st.roots, front);
    ChainComputes(Peek(), ty, st, front);
    sk := EvalOps(Peek(), ty, st, Unroll(ChainItems(ty.root, front))).value;
    MeaningLow(ty.root, r, front, i, ops[k].lhs);
    MeaningLow(ty.root, r, front, i, ops[k].rhs);
    OperandsPresent(ty, PlanAt(ty.root, ops, k), sk);
  }

  lemma OperandsPresent(ty: Typing, p: Plan, st: State)
    requires Typed(ty, p) && Present(ty.root, st.roots)
    ensures Operands(st, p)
  {
  }

  lemma OriginalEnd(ty: Typing, ops: seq<Linalg>, result: Root, i: nat, k: nat)
    requires Accepted(ty, ops, result) && TilesStored(ops, i, k)
    ensures InRoots(ty.root, ops)
    ensures var s1, p := EvalOps(Peek(), ty, Marked(ty.root, ops[i].out), Unroll(Program(ty.root, ops, result))), PlanAt(ty.root, ops, k);
      s1.Some? && p.d in s1.value.bufs && s1.value.bufs[p.d] == Zeros(Size(Shape(p.m, p.n)))
  {
    hide Peek, EvalOps, Unroll, ChainItems, ChainBufs, Low, Meaning, Shaped, NeverTraps, Marked, Program, TileOps, PlanAt, Tile, Zeros, Typed, Depth;
    var sk := LowOperands(ty, ops, result, i, k);
    PlanTyped(ty, ops, k);
    PlanIs(ty.root, ops, k);
    var p, st := PlanAt(ty.root, ops, k), Marked(ty.root, ops[i].out);
    ProgramRuns(ty, ops, result, st, ops[i].out);
    var rest := OriginalSplit(ty.root, ops, result, k);
    EvalConcat(Peek(), ty, st, Unroll(ChainItems(ty.root, ops[..k])), TileOps(p) + rest);
    TilesEnd(ty, sk, p, rest);
    PlanRoots(ty.root, ops, k);
    TileZero(sk.roots[p.a], sk.roots[p.b], Depth(p), p.m, p.n, p.tiles - 1);
  }

  lemma PlanRoots(root: seq<Shape>, ops: seq<Linalg>, k: nat)
    requires InRoots(root, ops) && k < |ops| && ops[k].LinalgMatmul?
    ensures PlanAt(root, ops, k).a == ops[k].lhs && PlanAt(root, ops, k).b == ops[k].rhs && PlanAt(root, ops, k).c == ops[k].out
  {
  }

  lemma ProgramRuns(ty: Typing, ops: seq<Linalg>, result: Root, st: State, r: Root)
    requires Accepted(ty, ops, result) && st == Marked(ty.root, r)
    ensures InRoots(ty.root, ops)
    ensures EvalOps(Peek(), ty, st, Unroll(Program(ty.root, ops, result))).Some?
    ensures EvalOps(Peek(), ty, st, Unroll(Elide(Program(ty.root, ops, result)))).Some?
  {
    hide Peek, EvalOps, Unroll, ChainBufs, Meaning, Shaped, NeverTraps, Marked, Program, Elide;
    MarkedPresent(ty.root, r);
    PeekNeverTraps();
    AlwaysMeans(Peek(), ty.root, st.roots, ops);
    ProgramMeans(Peek(), ty, st, ops, result);
    ElidedChainRuns(Peek(), ty, ops, result, st);
  }

  lemma TilesEnd(ty: Typing, st: State, p: Plan, rest: seq<IrOp>)
    requires Typed(ty, p) && Operands(st, p) && p.tiles >= 1 && !Writes(rest, p.d)
    requires EvalOps(Peek(), ty, st, TileOps(p) + rest).Some?
    ensures var s := EvalOps(Peek(), ty, st, TileOps(p) + rest).value;
      p.d in s.bufs && s.bufs[p.d] == Tile(Peek(), st.roots[p.a], st.roots[p.b], Depth(p), p.m, p.n, p.tiles - 1)
  {
    hide Tile, Block, LoopBody, UnrollLoop, Depth, EvalOps, Peek, Writes;
    TileAtEnd(ty, st, p, rest);
  }

  /** A root whose store was erased still holds its initial contents in the middle of the run. */
  lemma StaleThroughout(ty: Typing, ops: seq<Linalg>, result: Root, i: nat, n: nat, st: State)
    requires InRoots(ty.root, ops) && i < |ops| && Erased(ops, result, i)
    requires n <= |ElidedSlots(Program(ty.root, ops, result))|
    requires EvalOps(Peek(), ty, st, Ops(ElidedSlots(Program(ty.root, ops, result)), 0, n)).Some?
    ensures RootAgrees(st, EvalOps(Peek(), ty, st, Ops(ElidedSlots(Program(ty.root, ops, result)), 0, n)).value, ops[i].out)
  {
    hide Peek, EvalOps, Unroll, Live, Program, ElidedSlots, RootsIn, RootAgrees, Unread, DeadStore, Erased, GroupStart, GroupBase, Result,
      ReachOf, StoreKey, LoadKey, Ops, LoadOf;
    var items, r := Program(ty.root, ops, result), ops[i].out;
    var s := ElidedSlots(items);
    StoreErased(ty.root, ops, result, i);
    StoreItem(ty.root, ops, result, i);
    SlotForm(items, StoreAt(ty.root, ops, i));
    var us := Ops(s, 0, n);
    OpsSplit(s, 0, n, |s|);
    WholeOps(items);
    forall x | 0 <= x < |us| && us[x].Store?
      ensures StoredElsewhere(us[x].to, r)
    {
      assert Unroll(Live(s))[x] == us[x];
      LiveUnread(s, r, x);
    }
    NotStored(Peek(), ty, st, us, r);
  }

  lemma ElidedEnd(ty: Typing, ops: seq<Linalg>, result: Root, i: nat, k: nat)
    requires Accepted(ty, ops, result) && TilesStored(ops, i, k) && Erased(ops, result, i)
    ensures InRoots(ty.root, ops)
    ensures var s2, p := EvalOps(Peek(), ty, Marked(ty.root, ops[i].out), Unroll(Elide(Program(ty.root, ops, result)))), PlanAt(ty.root, ops, k);
      s2.Some? && p.d in s2.value.bufs && s2.value.bufs[p.d] == Ones(Size(Shape(p.m, p.n)))
  {
    hide Peek, EvalOps, Unroll, ChainItems, ChainBufs, Shaped, NeverTraps, Marked, Program, TileOps, PlanAt, Tile, Ones, Elide, Ops,
      ElidedSlots, Erased, GroupStart, Twos, Size, Sized, Typed, Depth, Operands;
    PlanTyped(ty, ops, k);
    var p, r, st := PlanAt(ty.root, ops, k), ops[i].out, Marked(ty.root, ops[i].out);
    PlanIs(ty.root, ops, k);
    ProgramRuns(ty, ops, result, st, r);
    var rest := ElidedSplit(ty.root, ops, result, k);
    var before := Ops(ElidedSlots(Program(ty.root, ops, result)), 0, GroupStart(ty.root, ops, k));
    EvalConcat(Peek(), ty, st, before, TileOps(p) + rest);
    var sn := EvalOps(Peek(), ty, st, before).value;
    StaleThroughout(ty, ops, result, i, GroupStart(ty.root, ops, k), st);
    MarkedSized(ty, r);
    OpsKeepSizes(Peek(), ty, st, before);
    SizedOperands(ty, p, sn);
    TilesEnd(ty, sn, p, rest);
    StoredKnown(ty, ops, i);
    StaleOperand(ty, ops, k, r, st, sn);
    OnesTile(ty, p, sn);
  }

  lemma PlanIs(root: seq<Shape>, ops: seq<Linalg>, k: nat)
    requires InRoots(root, ops) && k < |ops| && ops[k].LinalgMatmul?
    ensures PlanAt(root, ops, k) == PlanFor(root, ops[k], GroupBase(root, ops, k))
  {
  }

  lemma StoredKnown(ty: Typing, ops: seq<Linalg>, i: nat)
    requires InRoots(ty.root, ops) && i < |ops|
    ensures ops[i].out < |ty.root|
  {
  }

  lemma MarkedSized(ty: Typing, r: Root)
    ensures Sized(ty, Marked(ty.root, r))
  {
    hide Size;
  }

  lemma SizedOperands(ty: Typing, p: Plan, st: State)
    requires Typed(ty, p) && Sized(ty, st)
    ensures Operands(st, p)
  {
  }

  lemma StaleOperand(ty: Typing, ops: seq<Linalg>, k: nat, r: Root, st: State, sn: State)
    requires InRoots(ty.root, ops) && k < |ops| && ReadsTiled(ops[k], r) && r < |ty.root|
    requires st == Marked(ty.root, r) && RootAgrees(st, sn, r)
    ensures var p := PlanAt(ty.root, ops, k);
      (p.a in sn.roots && p.a == r && Twos(sn.roots[p.a])) || (p.b in sn.roots && p.b == r && Twos(sn.roots[p.b]))
  {
    hide Marked, Twos;
    MarkedPresent(ty.root, r);
  }

  lemma OnesTile(ty: Typing, p: Plan, st: State)
    requires Typed(ty, p) && Operands(st, p) && p.tiles >= 1 && (Twos(st.roots[p.a]) || Twos(st.roots[p.b]))
    ensures Tile(Peek(), st.roots[p.a], st.roots[p.b], Depth(p), p.m, p.n, p.tiles - 1) == Ones(Size(Shape(p.m, p.n)))
  {
    hide Peek, Tile, Twos, Ones;
    TileOnes(st.roots[p.a], st.roots[p.b], Depth(p), p.m, p.n, p.tiles - 1);
  }

  /* ---- the main results ---- */

  /** A lost root breaks the pass: both programs run, but the matmul that tiles the root computes a
      different product. */
  lemma LostBreaks(ty: Typing, ops: seq<Linalg>, result: Root, i: nat, k: nat)
    requires Accepted(ty, ops, result) && TilesStored(ops, i, k) && Erased(ops, result, i)
    requires ty.root[ops[k].lhs].rows > 0 && ty.root[ops[k].rhs].cols > 0
    ensures InRoots(ty.root, ops)
    ensures !Preserved(Peek(), ty, Program(ty.root, ops, result), Marked(ty.root, ops[i].out))
  {
    hide Peek, EvalOps, Unroll, ChainItems, ChainBufs, Shaped, Marked, Program, Tile, Ones, Zeros, Elide, Erased, Image, Reps, Disciplined,
      Items;
    OriginalEnd(ty, ops, result, i, k);
    ElidedEnd(ty, ops, result, i, k);
    var items, p := Program(ty.root, ops, result), PlanAt(ty.root, ops, k);
    GroupOf(ty.root, ops, result, k);
    GroupImages(items, ty.root, ops[k], GroupBase(ty.root, ops, k), GroupStart(ty.root, ops, k));
    ProductPositive(p.m, p.n);
    ZerosAreNotOnes(Size(Shape(p.m, p.n)));
    var s1, s2 := EvalOps(Peek(), ty, Marked(ty.root, ops[i].out), Unroll(items)).value,
                  EvalOps(Peek(), ty, Marked(ty.root, ops[i].out), Unroll(Elide(items))).value;
    assert BufsRelated(ty, Reps(items), s1, s2) ==> BufRelated(ty, Reps(items), s1, s2, p.d);
  }

  lemma ProductPositive(m: nat, n: nat)
    requires m > 0 && n > 0
    ensures m * n > 0
  {
  }

  lemma ZerosAreNotOnes(n: nat)
    requires n > 0
    ensures Zeros(n) != Ones(n)
  {
    assert Zeros(n)[0] != Ones(n)[0];
  }

  /** Eliding the copies of a chain preserves what it computes, from all contents of the roots, if and
      only if no root is lost. */
  lemma ElisionExactly(ty: Typing, ops: seq<Linalg>, result: Root)
    requires Accepted(ty, ops, result) && forall r | 0 <= r < |ty.root| :: ty.root[r].rows > 0 && ty.root[r].cols > 0
    ensures InRoots(ty.root, ops)
    ensures (forall f: Fpu<int>, st: State | Present(ty.root, st.roots) && st.bufs == map[] ::
              Preserved(f, ty, Program(ty.root, ops, result), st)) <==> NothingLost(ops, result)
  {
    hide Preserved, Program, Peek, Shaped, ChainBufs, Marked, Present, Erased, Returned;
    assert InRoots(ty.root, ops);
    if NothingLost(ops, result) {
      forall f: Fpu<int>, st: State | Present(ty.root, st.roots) && st.bufs == map[]
        ensures Preserved(f, ty, Program(ty.root, ops, result), st)
      {
        ElidedChain(f, ty, ops, result, st);
      }
    } else {
      var i :| 0 <= i < |ops| && LostAt(ops, result, i);
      var k :| i < k < |ops| && ReadsTiled(ops[k], ops[i].out);
      MarkedPresent(ty.root, ops[i].out);
      LostBreaks(ty, ops, result, i, k);
    }
  }
}
