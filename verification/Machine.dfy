/** The reference machine: what one instruction does to memory (`runtime/lib/cmodel_exec.cpp`).
    Every loop iteration of an instruction is one Step: it reads fp16 words, evaluates an
    operation and stores words. Floating point itself is a parameter. */
module Machine {
  import opened Types

  const SRAM_ADDR := 0x1000_0000
  const SRAM_SIZE := 0x8_0000
  const DDR_ADDR := 0x4000_0000
  const DDR_SIZE := 0x8000_0000
  const TWO_32 := 0x1_0000_0000

  type Word = w: int | 0 <= w < 0x1_0000

  type Dword = w: int | 0 <= w < 0x1_0000_0000

  datatype Space = Sram | Ddr

  predicate In(s: Space, a: int) {
    match s
    case Sram => SRAM_ADDR <= a < SRAM_ADDR + SRAM_SIZE
    case Ddr => DDR_ADDR <= a < DDR_ADDR + DDR_SIZE
  }

  /** uint32_t arithmetic. */
  function U32(x: int): Dword { x % TWO_32 }

  /* ---- memory: both spaces in one byte-addressed map ---- */

  type Mem = map<int, Byte>

  ghost predicate Full(m: Mem) {
    forall a :: a in m <==> In(Sram, a) || In(Ddr, a)
  }

  function Get(m: Mem, a: int): Byte { if a in m then m[a] else 0 }

  function Load16(m: Mem, a: int): Word { Get(m, a) + 256 * Get(m, a + 1) }

  function Load32(m: Mem, a: int): Dword { Load16(m, a) + 0x1_0000 * Load16(m, a + 2) }

  function Store16(m: Mem, a: int, w: Word): Mem { m[a := w % 256][a + 1 := w / 256] }

  function Store16s(m: Mem, addrs: seq<int>, ws: seq<Word>): Mem
    requires |addrs| == |ws|
    decreases addrs
  {
    if addrs == [] then m else Store16s(Store16(m, addrs[0], ws[0]), addrs[1..], ws[1..])
  }

  /* ---- floating point ---- */

  /** The operations of the host's float and of the fp16 conversions. */
  datatype Fpu<!F> = Fpu(
    dec: Word -> F, enc: F -> Word, zero: F, nan: F,
    add: (F, F) -> F, sub: (F, F) -> F, mul: (F, F) -> F, div: (F, F) -> F,
    gt: (F, F) -> bool, eq: (F, F) -> bool, isNaN: F -> bool, signbit: F -> bool,
    exp: F -> F, rsqrt: F -> F, silu: F -> F)

  function Decoded<F>(f: Fpu<F>, xs: seq<Word>): seq<F> { seq(|xs|, i requires 0 <= i < |xs| => f.dec(xs[i])) }

  /** float is real arithmetic. */
  ghost predicate OverReals(f: Fpu<real>) {
    && f.zero == 0.0
    && (forall x, y :: f.add(x, y) == x + y)
    && (forall x, y :: f.mul(x, y) == x * y)
  }

  function ReduceMax<F>(f: Fpu<F>, a: F, b: F): F {
    if f.isNaN(a) || f.isNaN(b) then f.nan
    else if f.gt(a, b) then a
    else if f.gt(b, a) then b
    else if f.eq(a, f.zero) && f.eq(b, f.zero) then (if f.signbit(a) then b else a)
    else a
  }

  datatype ValueIndex<F> = ValueIndex(value: F, index: nat)

  function ReduceArgmax<F>(f: Fpu<F>, a: ValueIndex<F>, b: ValueIndex<F>): ValueIndex<F> {
    var value := ReduceMax(f, a.value, b.value);
    if f.isNaN(value) then ValueIndex(value, if f.isNaN(a.value) then a.index else b.index)
    else ValueIndex(value, if f.eq(a.value, value) then a.index else b.index)
  }

  /* ---- descriptors ---- */

  datatype EwiseKind = Add | Sub | Mul | Div

  datatype ActKind = Relu | Exp | Rsqrt | Silu

  datatype ReduceKind = MaxKind | SumKind | SquareSum | Argmax

  datatype DmaParam = DmaParam(sramAddr: Dword, ddrAddr: Dword, rows: Dword, cols: Dword,
                               srcStride: Dword, dstStride: Dword)

  datatype MatmulParam = MatmulParam(dstAddr: Dword, rhsAddr: Dword, lhsAddr: Dword,
                                     M: Dword, K: Dword, N: Dword, accumulate: Dword,
                                     transA: bool, transB: bool)

  datatype EwiseParam = EwiseParam(dstAddr: Dword, rhsAddr: Dword, lhsAddr: Dword,
                                   rows: Dword, cols: Dword, rhsBlk: Dword, rhsStride: Dword)

  datatype ActParam = ActParam(dstAddr: Dword, srcAddr: Dword, n: Dword, kind: Dword)

  datatype ReduceParam = ReduceParam(dstAddr: Dword, idxAddr: Dword, srcAddr: Dword,
                                     rows: Dword, cols: Dword, kind: Dword)

  /** An opcode with its decoded descriptor. */
  datatype Instr =
    | DmaLoad(dma: DmaParam)
    | DmaStore(dma: DmaParam)
    | Matmul(mm: MatmulParam)
    | Ewise(op: EwiseKind, ew: EwiseParam)
    | Act(act: ActParam)
    | Reduce(red: ReduceParam)
    | Sync

  function ActKindOf(k: Dword): Option<ActKind> {
    if k == 0 then Some(Relu) else if k == 1 then Some(Exp)
    else if k == 2 then Some(Rsqrt) else if k == 3 then Some(Silu) else None
  }

  function ReduceKindOf(k: Dword): Option<ReduceKind> {
    if k == 0 then Some(MaxKind) else if k == 1 then Some(SumKind)
    else if k == 2 then Some(SquareSum) else if k == 3 then Some(Argmax) else None
  }

  /* ---- steps ---- */

  /** What a step computes from the words it reads. */
  datatype Op =
    | Copy
    | Dot(k: nat, acc: bool)
    | Arith(kind: EwiseKind)
    | Activate(act: ActKind)
    | Fold(red: ReduceKind)

  datatype Step = Step(op: Op, from: Space, srcs: seq<int>, to: Space, dsts: seq<int>)

  /** The float accumulator after `j` terms of a row-by-column product. */
  function DotSum<F>(f: Fpu<F>, xs: seq<Word>, k: nat, j: nat): F
    requires j <= k && 2 * k <= |xs|
  {
    if j == 0 then f.zero
    else f.add(DotSum(f, xs, k, j - 1), f.mul(f.dec(xs[j - 1]), f.dec(xs[k + j - 1])))
  }

  function DotValue<F>(f: Fpu<F>, xs: seq<Word>, k: nat, acc: bool): F
    requires 2 * k + (if acc then 1 else 0) <= |xs|
  {
    if acc then f.add(DotSum(f, xs, k, k), f.dec(xs[2 * k])) else DotSum(f, xs, k, k)
  }

  function ArithValue<F>(f: Fpu<F>, kind: EwiseKind, l: F, r: F): F {
    match kind
    case Add => f.add(l, r)
    case Sub => f.sub(l, r)
    case Mul => f.mul(l, r)
    case Div => f.div(l, r)
  }

  function ActValue<F>(f: Fpu<F>, kind: ActKind, x: F): F {
    match kind
    case Relu => if f.gt(x, f.zero) then x else f.zero
    case Exp => f.exp(x)
    case Rsqrt => f.rsqrt(x)
    case Silu => f.silu(x)
  }

  /** The running maximum of the first `n` words of a row. */
  function MaxOf<F>(f: Fpu<F>, xs: seq<Word>, n: nat): F
    requires 1 <= n <= |xs|
  {
    if n == 1 then f.dec(xs[0]) else ReduceMax(f, MaxOf(f, xs, n - 1), f.dec(xs[n - 1]))
  }

  function ArgmaxOf<F>(f: Fpu<F>, xs: seq<Word>, n: nat): ValueIndex<F>
    requires 1 <= n <= |xs|
  {
    if n == 1 then ValueIndex(f.dec(xs[0]), 0)
    else ReduceArgmax(f, ArgmaxOf(f, xs, n - 1), ValueIndex(f.dec(xs[n - 1]), n - 1))
  }

  function Scale<F>(f: Fpu<F>, square: bool, x: F): F { if square then f.mul(x, x) else x }

  function SumOf<F>(f: Fpu<F>, square: bool, xs: seq<Word>, n: nat): F
    requires 1 <= n <= |xs|
  {
    if n == 1 then Scale(f, square, f.dec(xs[0]))
    else f.add(SumOf(f, square, xs, n - 1), Scale(f, square, f.dec(xs[n - 1])))
  }

  /** The words a step stores, or None where the source asserts. */
  function Eval<F>(f: Fpu<F>, op: Op, xs: seq<Word>): Option<seq<Word>> {
    match op
    case Copy => Some(xs)
    case Dot(k, acc) =>
      if 2 * k + (if acc then 1 else 0) <= |xs| then Some([f.enc(DotValue(f, xs, k, acc))]) else None
    case Arith(kind) =>
      if |xs| == 2 && !(kind == Div && f.eq(f.dec(xs[1]), f.zero))
      then Some([f.enc(ArithValue(f, kind, f.dec(xs[0]), f.dec(xs[1])))]) else None
    case Activate(kind) => if |xs| == 1 then Some([f.enc(ActValue(f, kind, f.dec(xs[0])))]) else None
    case Fold(kind) =>
      if |xs| == 0 then None
      else match kind
        case MaxKind => Some([f.enc(MaxOf(f, xs, |xs|))])
        case SumKind => Some([f.enc(SumOf(f, false, xs, |xs|))])
        case SquareSum => Some([f.enc(SumOf(f, true, xs, |xs|))])
        case Argmax =>
          var r := ArgmaxOf(f, xs, |xs|);
          Some([f.enc(r.value), r.index % 0x1_0000, r.index / 0x1_0000 % 0x1_0000])
  }

  /** Both bytes of every word lie inside the space the accessor checks. */
  predicate Reachable(s: Space, addrs: seq<int>) {
    forall i | 0 <= i < |addrs| :: In(s, addrs[i]) && In(s, addrs[i] + 1)
  }

  function Fetch(m: Mem, addrs: seq<int>): (xs: seq<Word>)
    ensures |xs| == |addrs|
  {
    seq(|addrs|, i requires 0 <= i < |addrs| => Load16(m, addrs[i]))
  }

  function DoStep<F>(f: Fpu<F>, m: Mem, s: Step): Option<Mem> {
    if !Reachable(s.from, s.srcs) || !Reachable(s.to, s.dsts) then None
    else
      var r := Eval(f, s.op, Fetch(m, s.srcs));
      if r.Some? && |r.value| == |s.dsts| then Some(Store16s(m, s.dsts, r.value)) else None
  }

  /** `n` steps of a program given by index. */
  function DoSteps<F>(f: Fpu<F>, m: Mem, steps: seq<Step>): Option<Mem> {
    if steps == [] then Some(m)
    else
      var front := DoSteps(f, m, steps[..|steps| - 1]);
      if front.Some? then DoStep(f, front.value, steps[|steps| - 1]) else None
  }

  /* ---- the steps of each instruction ---- */

  function Row(base: int, cols: nat): seq<int> { seq(cols, j requires j >= 0 => base + 2 * j) }

  /** The SRAM and DDR addresses of row `r`. */
  function DmaSram(d: DmaParam, load: bool, r: nat): Dword {
    U32(d.sramAddr + U32((if load then d.dstStride else d.srcStride) * r))
  }

  function DmaDdr(d: DmaParam, load: bool, r: nat): Dword {
    U32(d.ddrAddr + U32((if load then d.srcStride else d.dstStride) * r))
  }

  function DmaRow(d: DmaParam, load: bool, r: nat): Step {
    var sram, ddr := Row(DmaSram(d, load, r), d.cols), Row(DmaDdr(d, load, r), d.cols);
    if load then Step(Copy, Ddr, ddr, Sram, sram) else Step(Copy, Sram, sram, Ddr, ddr)
  }

  function LhsAt(d: MatmulParam, m: nat, k: nat): Dword {
    U32(d.lhsAddr + 2 * U32(if d.transA then k * d.M + m else m * d.K + k))
  }

  function RhsAt(d: MatmulParam, k: nat, n: nat): Dword {
    U32(d.rhsAddr + 2 * U32(if d.transB then n * d.K + k else k * d.N + n))
  }

  function DstAt(d: MatmulParam, m: nat, n: nat): Dword { U32(d.dstAddr + 2 * U32(m * d.N + n)) }

  function MatmulStep(d: MatmulParam, m: nat, n: nat): Step {
    var acc := d.accumulate != 0;
    Step(Dot(d.K, acc), Sram,
         seq(d.K, k requires k >= 0 => LhsAt(d, m, k)) + seq(d.K, k requires k >= 0 => RhsAt(d, k, n))
           + (if acc then [DstAt(d, m, n)] else []),
         Sram, [DstAt(d, m, n)])
  }

  function EwiseRhsAt(d: EwiseParam, i: nat): Dword
    requires d.cols != 0 && d.rhsBlk != 0
  {
    U32(d.rhsAddr + 2 * U32(i / d.cols * d.rhsStride + i % d.rhsBlk))
  }

  function EwiseStep(op: EwiseKind, d: EwiseParam, i: nat): Step
    requires d.cols != 0 && d.rhsBlk != 0
  {
    Step(Arith(op), Sram, [U32(d.lhsAddr + 2 * i), EwiseRhsAt(d, i)], Sram, [U32(d.dstAddr + 2 * i)])
  }

  function ActStep(d: ActParam, kind: ActKind, i: nat): Step {
    Step(Activate(kind), Sram, [U32(d.srcAddr + 2 * i)], Sram, [U32(d.dstAddr + 2 * i)])
  }

  function ReduceStep(d: ReduceParam, kind: ReduceKind, i: nat): Step {
    var row := U32(d.srcAddr + 2 * U32(i * d.cols));
    Step(Fold(kind), Sram, seq(d.cols, j requires j >= 0 => U32(row + 2 * j)), Sram,
         [U32(d.dstAddr + 2 * i)] +
           if kind == Argmax then [U32(d.idxAddr + 4 * i), U32(d.idxAddr + 4 * i) + 2] else [])
  }

  /** Alignment, and the range check on the first byte of every row. */
  predicate DmaAsserts(d: DmaParam, load: bool) {
    && d.sramAddr % 16 == 0 && d.ddrAddr % 16 == 0
    && forall r | 0 <= r < d.rows :: In(Sram, DmaSram(d, load, r)) && In(Ddr, DmaDdr(d, load, r))
  }

  /** The assertions an instruction makes about its descriptor before it touches the data. */
  predicate Asserts(i: Instr) {
    match i
    case DmaLoad(d) => DmaAsserts(d, true)
    case DmaStore(d) => DmaAsserts(d, false)
    case Matmul(d) =>
      var dstEnd := U32(d.dstAddr + 2 * U32(d.M * d.N));
      var lhsEnd := U32(d.lhsAddr + 2 * U32(d.M * d.K));
      var rhsEnd := U32(d.rhsAddr + 2 * U32(d.K * d.N));
      && (d.dstAddr >= lhsEnd || d.lhsAddr >= dstEnd)
      && (d.dstAddr >= rhsEnd || d.rhsAddr >= dstEnd)
      && (d.lhsAddr >= rhsEnd || d.rhsAddr >= lhsEnd)
    case Ewise(_, d) => d.cols != 0 && d.rhsBlk != 0 && d.cols % d.rhsBlk == 0
    case Act(d) => ActKindOf(d.kind).Some?
    case Reduce(d) =>
      && d.rows != 0 && d.cols != 0
      && ReduceKindOf(d.kind).Some? && (ReduceKindOf(d.kind) == Some(Argmax) <==> d.idxAddr != 0)
    case Sync => true
  }

  /** The loop iterations, in order. */
  function Steps(i: Instr): seq<Step>
    requires Asserts(i)
  {
    match i
    case DmaLoad(d) => seq(d.rows, r requires r >= 0 => DmaRow(d, true, r))
    case DmaStore(d) => seq(d.rows, r requires r >= 0 => DmaRow(d, false, r))
    case Matmul(d) => MatmulSteps(d)
    case Ewise(op, d) => seq(U32(d.rows * d.cols), e requires e >= 0 => EwiseStep(op, d, e))
    case Act(d) => seq(d.n, e requires e >= 0 => ActStep(d, ActKindOf(d.kind).value, e))
    case Reduce(d) => seq(d.rows, r requires r >= 0 => ReduceStep(d, ReduceKindOf(d.kind).value, r))
    case Sync => []
  }

  /** Row by row, column by column. */
  function MatmulSteps(d: MatmulParam): seq<Step> { MatmulRows(d, d.M) }

  function MatmulRow(d: MatmulParam, m: nat): seq<Step> { seq(d.N, n requires n >= 0 => MatmulStep(d, m, n)) }

  function MatmulRows(d: MatmulParam, m: nat): seq<Step> {
    if m == 0 then [] else MatmulRows(d, m - 1) + MatmulRow(d, m - 1)
  }

  /** One instruction; None is a failed assertion. */
  function Exec<F>(f: Fpu<F>, m: Mem, i: Instr): Option<Mem> {
    if Asserts(i) then DoSteps(f, m, Steps(i)) else None
  }

  /** The cmodel's in-order run. */
  function Run<F>(f: Fpu<F>, m: Mem, p: seq<Instr>): Option<Mem>
    decreases p
  {
    if p == [] then Some(m)
    else
      var next := Exec(f, m, p[0]);
      if next.Some? then Run(f, next.value, p[1..]) else None
  }
}
