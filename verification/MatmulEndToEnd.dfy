/** From a linalg matmul to the contents of C in the machine's DDR. */
module MatmulEndToEnd {
  import opened Arithmetic
  import opened Types
  import opened Machine
  import opened EclipseIR
  import opened Emission
  import opened EmissionCorrect
  import opened EmittedMoves
  import opened EmissionRefines
  import opened Lowering
  import opened MatmulCorrect

  /* ---- any memory stores some state ---- */

  function RootWords(m: Mem, ty: Typing, r: Root): Tensor
    requires r < |ty.root|
  {
    Fetch(m, Row(DdrAddr(r), Size(ty.root[r])))
  }

  /** What a full memory says about the roots; no buffer is initialised. */
  function StateOf(m: Mem, ty: Typing): State {
    State(map r: nat | 0 <= r < |ty.root| :: RootWords(m, ty, r), map[])
  }

  lemma StoresItsState(m: Mem, ty: Typing)
    requires Full(m)
    ensures Sim(m, ty, StateOf(m, ty))
  {
    hide Full, Load16, DdrAddr;
    forall r: nat | r < |ty.root|
      ensures |StateOf(m, ty).roots[r]| == Size(ty.root[r]) && Holds(m, DdrAddr(r), StateOf(m, ty).roots[r])
    {
    }
  }

  /* ---- the emitted stream ---- */

  lemma BlockEmits(ty: Typing, p: Plan, s: nat, acc: bool)
    requires Typed(ty, p) && s < p.tiles
    ensures forall op | op in Block(p, s, acc) :: Emittable(ty, op) && Aligned(ty, op)
  {
    hide Depth, DdrAddr, Place, U32, Dims;
    RootAligned(p.a);
    RootAligned(p.b);
    AlignedBlock(DdrAddr(p.a), Depth(p), s);
    AlignedRows(DdrAddr(p.b), p.n, s);
  }

  lemma RootAligned(r: Root)
    ensures DdrAddr(r) % 16 == 0
  {
  }

  lemma AlignedBlock(base: int, cols: nat, s: nat)
    requires base % 16 == 0
    ensures (base + 0 * (2 * cols) + s * TILE_K * 2) % 16 == 0
  {
  }

  lemma AlignedRows(base: int, n: nat, s: nat)
    requires base % 16 == 0
    ensures (base + s * TILE_K * (2 * n) + 0 * 2) % 16 == 0
  {
    assert s * TILE_K * (2 * n) == 16 * (s * (2 * n));
    ModUnique(base + 16 * (s * (2 * n)), base / 16 + s * (2 * n), 0, 16);
  }

  lemma {:induction false} LoopEmits(ty: Typing, p: Plan, ub: nat)
    requires Typed(ty, p) && 1 <= ub <= p.tiles
    ensures forall op | op in UnrollLoop(LoopBody(p), 1, ub) :: Emittable(ty, op) && Aligned(ty, op)
    decreases ub
  {
    hide Emittable, Aligned, Typed, LoopBody, BodyAt, Block;
    if ub > 1 {
      LoopEmits(ty, p, ub - 1);
      BodyIsBlock(p, ub - 1);
      BlockEmits(ty, p, ub - 1, true);
    }
  }

  lemma MatmulEmits(ty: Typing, p: Plan)
    requires Typed(ty, p) && p.tiles >= 1
    ensures forall op | op in Unroll(ItemsOf(p)) :: Emittable(ty, op) && Aligned(ty, op)
  {
    hide LoopBody, Block, UnrollLoop, Unroll, ItemsOf, Depth, Place;
    UnrolledMatmul(p);
    LoopEmits(ty, p, p.tiles);
    BlockEmits(ty, p, 0, false);
    var store := Store(p.d, ToDDR(p.c));
    assert Emittable(ty, store) && Aligned(ty, store);
  }

  /** The stream of the lowered matmul never faults, whatever M, N, K = 16t and the initial memory
      are, as long as the tensors fit; it leaves in C the block recurrence over the A and B that the
      memory held, and every other root as it was. */
  lemma MatmulOnTheMachine<F>(f: Fpu<F>, ty: Typing, p: Plan, m: Mem)
    requires Fits(ty) && Typed(ty, p) && p.tiles >= 1 && Full(m)
    ensures var m' := Run(f, m, Emit(ty, Place(ty), Unroll(ItemsOf(p))));
      && m'.Some? && Full(m'.value)
      && RootWords(m'.value, ty, p.c) == Tile(f, RootWords(m, ty, p.a), RootWords(m, ty, p.b), Depth(p), p.m, p.n, p.tiles - 1)
      && forall r: nat | r < |ty.root| && r != p.c :: RootWords(m'.value, ty, r) == RootWords(m, ty, r)
  {
    hide Tile, Depth, Unroll, ItemsOf, Emittable, Aligned, Fits, Full, Place, Emit, Run, Holds, DdrAddr;
    var st, ops := StateOf(m, ty), Unroll(ItemsOf(p));
    StoresItsState(m, ty);
    SizesOf(m, ty, p);
    LoweredMatmul(f, ty, st, p);
    MatmulEmits(ty, p);
    assert forall k | 0 <= k < |ops| :: ops[k] in ops;
    StreamRefines(f, ty, m, st, ops);
    var m', st' := Run(f, m, Emit(ty, Place(ty), ops)).value, EvalOps(f, ty, st, ops).value;
    forall r: nat | r < |ty.root|
      ensures RootWords(m', ty, r) == st'.roots[r]
    {
      assert Holds(m', DdrAddr(r), st'.roots[r]);
      HeldWords(m', ty, r, st'.roots[r]);
    }
  }

  lemma HeldWords(m: Mem, ty: Typing, r: Root, t: Tensor)
    requires r < |ty.root| && Holds(m, DdrAddr(r), t) && |t| == Size(ty.root[r])
    ensures RootWords(m, ty, r) == t
  {
  }

  lemma SizesOf(m: Mem, ty: Typing, p: Plan)
    requires Typed(ty, p)
    ensures Operands(StateOf(m, ty), p)
  {
  }

  /* ---- exact arithmetic ---- */

  /** Entry (i, j) of A*B, as far as the first `k` products. */
  function Entry(f: Fpu<real>, A: Tensor, B: Tensor, K: nat, n: nat, i: nat, j: nat, k: nat): real {
    if k == 0 then 0.0
    else Entry(f, A, B, K, n, i, j, k - 1) + f.dec(WordOf(A, i * K + (k - 1))) * f.dec(WordOf(B, (k - 1) * n + j))
  }

  lemma {:induction false} BlockIsPart(f: Fpu<real>, A: Tensor, B: Tensor, K: nat, n: nat, i: nat, j: nat, s: nat, k: nat)
    requires OverReals(f)
    ensures BlockSum(f, A, B, K, n, i, j, s, k) == Entry(f, A, B, K, n, i, j, s * TILE_K + k) - Entry(f, A, B, K, n, i, j, s * TILE_K)
    decreases k
  {
    hide WordOf, Entry, BlockSum, OverReals;
    if k > 0 {
      BlockIsPart(f, A, B, K, n, i, j, s, k - 1);
      NextEntry(f, A, B, K, n, i, j, s * TILE_K + (k - 1));
      NextSum(f, A, B, K, n, i, j, s, k);
    } else {
      NoSum(f, A, B, K, n, i, j, s);
    }
  }

  lemma NoSum(f: Fpu<real>, A: Tensor, B: Tensor, K: nat, n: nat, i: nat, j: nat, s: nat)
    requires OverReals(f)
    ensures BlockSum(f, A, B, K, n, i, j, s, 0) == 0.0
  {
  }

  lemma NextSum(f: Fpu<real>, A: Tensor, B: Tensor, K: nat, n: nat, i: nat, j: nat, s: nat, k: nat)
    requires OverReals(f) && k > 0
    ensures var at := s * TILE_K + (k - 1);
      BlockSum(f, A, B, K, n, i, j, s, k)
        == BlockSum(f, A, B, K, n, i, j, s, k - 1) + f.dec(WordOf(A, i * K + at)) * f.dec(WordOf(B, at * n + j))
  {
    hide WordOf;
    var at := s * TILE_K + (k - 1);
    assert i * K + s * TILE_K + (k - 1) == i * K + at;
  }

  lemma NextEntry(f: Fpu<real>, A: Tensor, B: Tensor, K: nat, n: nat, i: nat, j: nat, k: nat)
    ensures Entry(f, A, B, K, n, i, j, k + 1)
      == Entry(f, A, B, K, n, i, j, k) + f.dec(WordOf(A, i * K + k)) * f.dec(WordOf(B, k * n + j))
  {
    hide WordOf;
  }

  /** When the sum after every block is an fp16 value, nothing is rounded away. */
  ghost predicate Representable(f: Fpu<real>, A: Tensor, B: Tensor, K: nat, n: nat, i: nat, j: nat, blocks: nat) {
    forall s: nat | s < blocks ::
      f.dec(f.enc(Entry(f, A, B, K, n, i, j, s * TILE_K + TILE_K))) == Entry(f, A, B, K, n, i, j, s * TILE_K + TILE_K)
  }

  lemma {:induction false} RecurrenceIsEntry(f: Fpu<real>, A: Tensor, B: Tensor, K: nat, n: nat, i: nat, j: nat, s: nat)
    requires OverReals(f) && Representable(f, A, B, K, n, i, j, s + 1)
    ensures f.dec(Recurrence(f, A, B, K, n, i, j, s)) == Entry(f, A, B, K, n, i, j, s * TILE_K + TILE_K)
    decreases s
  {
    hide Entry, BlockSum;
    BlockIsPart(f, A, B, K, n, i, j, s, TILE_K);
    if s > 0 {
      RecurrenceIsEntry(f, A, B, K, n, i, j, s - 1);
    } else {
      NoProducts(f, A, B, K, n, i, j);
    }
  }

  lemma NoProducts(f: Fpu<real>, A: Tensor, B: Tensor, K: nat, n: nat, i: nat, j: nat)
    ensures Entry(f, A, B, K, n, i, j, 0) == 0.0
  {
  }

  lemma TileEntry(f: Fpu<real>, A: Tensor, B: Tensor, p: Plan, i: nat, j: nat)
    requires p.tiles >= 1 && i < p.m && j < p.n && OverReals(f)
    requires Representable(f, A, B, Depth(p), p.n, i, j, p.tiles)
    ensures f.dec(WordOf(Tile(f, A, B, Depth(p), p.m, p.n, p.tiles - 1), i * p.n + j)) == Entry(f, A, B, Depth(p), p.n, i, j, Depth(p))
  {
    hide Entry, Recurrence, Representable, OverReals;
    RowMajor(i, j, p.m, p.n);
    MulMonotone(p.n, 0, i);
    DivModOfMulAdd(i, j, p.n);
    RecurrenceIsEntry(f, A, B, Depth(p), p.n, i, j, p.tiles - 1);
  }

  /** With exact arithmetic the machine leaves the matrix product in C. */
  lemma MatmulIsProduct(f: Fpu<real>, ty: Typing, p: Plan, m: Mem, i: nat, j: nat)
    requires Fits(ty) && Typed(ty, p) && p.tiles >= 1 && Full(m) && OverReals(f) && i < p.m && j < p.n
    requires Representable(f, RootWords(m, ty, p.a), RootWords(m, ty, p.b), Depth(p), p.n, i, j, p.tiles)
    ensures var m' := Run(f, m, Emit(ty, Place(ty), Unroll(ItemsOf(p))));
      && m'.Some?
      && f.dec(WordOf(RootWords(m'.value, ty, p.c), i * p.n + j))
        == Entry(f, RootWords(m, ty, p.a), RootWords(m, ty, p.b), Depth(p), p.n, i, j, Depth(p))
  {
    hide Fits, Full, Entry, Tile, Representable, OverReals, Run, Emit, Place, Unroll, ItemsOf, RootWords, Depth, WordOf;
    MatmulOnTheMachine(f, ty, p, m);
    TileEntry(f, RootWords(m, ty, p.a), RootWords(m, ty, p.b), p, i, j);
  }
}
