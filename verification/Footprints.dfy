/** The checker's intervals contain everything an instruction touches, for every instruction that gets
    through, unless it has DMA rows that wrap around or a broadcast pitch that does not fit. */
module Footprints {
  import opened Arithmetic
  import opened Types
  import opened Machine
  import opened HazardChecker
  import opened Reach
  import opened BroadcastFootprint

  ghost predicate InRanges(rs: seq<Interval>, a: int) {
    exists k | 0 <= k < |rs| :: rs[k].lo <= a < rs[k].hi
  }

  ghost predicate InAccesses(xs: seq<Access>, a: int) { exists x | x in xs :: InRanges(x.ranges, a) }

  ghost function Cells(xs: seq<Access>): iset<int> { iset a | InAccesses(xs, a) }

  ghost function ReadSet(i: Instr): iset<int> { Cells(Reads(i)) }

  ghost function WriteSet(i: Instr): iset<int> { Cells(Writes(i)) }

  /** What the checker silently relies on about one instruction. */
  predicate Plain(i: Instr) {
    match i
    case DmaLoad(d) =>
      d.cols > 0 ==> RowsInOrder(d.ddrAddr, d.rows, d.srcStride) && RowsInOrder(d.sramAddr, d.rows, d.dstStride)
    case DmaStore(d) =>
      d.cols > 0 ==> RowsInOrder(d.sramAddr, d.rows, d.srcStride) && RowsInOrder(d.ddrAddr, d.rows, d.dstStride)
    case Ewise(_, d) => PitchFits(d)
    case _ => true
  }

  /** Both bytes of a word. */
  ghost predicate Holds(s: iset<int>, addr: int) { addr in s && addr + 1 in s }

  ghost predicate Covered(s: Step, rs: iset<int>, ws: iset<int>) {
    && (forall a | a in s.srcs :: Holds(rs, a))
    && (forall a | a in s.dsts :: Holds(ws, a))
  }

  lemma CellOf(xs: seq<Access>, x: Access, k: nat, addr: int)
    requires x in xs && k < |x.ranges| && x.ranges[k].lo <= addr && addr + 2 <= x.ranges[k].hi
    ensures Holds(Cells(xs), addr)
  {
    assert InRanges(x.ranges, addr) && InRanges(x.ranges, addr + 1);
  }

  /** Word `e` of a packed block. */
  lemma WordInBlock(xs: seq<Access>, name: string, base: nat, n: nat, e: nat)
    requires Access(name, Block(base, n)) in xs && e < n && base + 2 * e < SRAM_END
    ensures U32(base + 2 * U32(e)) == U32(base + 2 * e) == base + 2 * e && Holds(Cells(xs), base + 2 * e)
  {
    SmallU32(e);
    SmallU32(base + 2 * e);
    CellOf(xs, Access(name, Block(base, n)), 0, base + 2 * e);
  }

  /* ---- DMA ---- */

  lemma TileRowCovered(xs: seq<Access>, name: string, base: nat, rows: nat, cols: nat, stride: nat, r: nat)
    requires Access(name, TileRanges(base, rows, cols, stride)) in xs && r < rows
    requires cols > 0 ==> RowsInOrder(base, rows, stride)
    ensures forall a | a in Row(U32(base + U32(stride * r)), cols) :: Holds(Cells(xs), a)
  {
    hide Cells, Holds, U32, RowsInOrder;
    var x := Access(name, TileRanges(base, rows, cols, stride));
    var row := Row(U32(base + U32(stride * r)), cols);
    forall a | a in row
      ensures Holds(Cells(xs), a)
    {
      var j :| 0 <= j < cols && row[j] == a;
      RowStart(base, rows, stride, r);
      CellOf(xs, x, r, base + r * stride + 2 * j);
    }
  }

  lemma DmaRowCovered(d: DmaParam, load: bool, r: nat)
    requires r < d.rows && Plain(if load then DmaLoad(d) else DmaStore(d))
    ensures var i := if load then DmaLoad(d) else DmaStore(d); Covered(DmaRow(d, load, r), ReadSet(i), WriteSet(i))
  {
    hide Cells, Holds, RowsInOrder, U32;
    var i := if load then DmaLoad(d) else DmaStore(d);
    TileRowCovered(Reads(i), Reads(i)[0].name, if load then d.ddrAddr else d.sramAddr, d.rows, d.cols, d.srcStride, r);
    TileRowCovered(Writes(i), Writes(i)[0].name, if load then d.sramAddr else d.ddrAddr, d.rows, d.cols, d.dstStride, r);
  }

  /* ---- MATMUL ---- */

  lemma ProductReads(d: MatmulParam)
    ensures Access("lhs", Block(d.lhsAddr, d.M * d.K)) in Reads(Matmul(d))
    ensures Access("rhs", Block(d.rhsAddr, d.K * d.N)) in Reads(Matmul(d))
    ensures d.accumulate != 0 ==> Access("dst", Block(d.dstAddr, d.M * d.N)) in Reads(Matmul(d))
    ensures Access("dst", Block(d.dstAddr, d.M * d.N)) in Writes(Matmul(d))
  {
    var rs := Reads(Matmul(d));
    assert rs[0] == Access("lhs", Block(d.lhsAddr, d.M * d.K));
    assert rs[1] == Access("rhs", Block(d.rhsAddr, d.K * d.N));
    assert d.accumulate != 0 ==> rs[2] == Access("dst", Block(d.dstAddr, d.M * d.N));
    assert Writes(Matmul(d))[0] == Access("dst", Block(d.dstAddr, d.M * d.N));
  }

  lemma ElementInside(i: nat, j: nat, rows: nat, cols: nat)
    requires i < rows && j < cols
    ensures 0 <= i * cols + j < rows * cols && 0 <= i * cols + j < cols * rows
  {
    RowMajor(i, j, rows, cols);
    MulMonotone(cols, 0, i);
  }

  /** The word of an operand that LhsAt and RhsAt address. */
  lemma OperandWord(d: MatmulParam, m: nat, k: nat, n: nat) returns (x: nat, y: nat)
    requires m < d.M && k < d.K && n < d.N
    ensures x < d.M * d.K && LhsAt(d, m, k) == U32(d.lhsAddr + 2 * U32(x))
    ensures y < d.K * d.N && RhsAt(d, k, n) == U32(d.rhsAddr + 2 * U32(y))
  {
    hide U32;
    if d.transA { ElementInside(k, m, d.K, d.M); } else { ElementInside(m, k, d.M, d.K); }
    if d.transB { ElementInside(n, k, d.N, d.K); } else { ElementInside(k, n, d.K, d.N); }
    x := if d.transA then k * d.M + m else m * d.K + k;
    y := if d.transB then n * d.K + k else k * d.N + n;
  }

  lemma OperandsCovered(d: MatmulParam, m: nat, k: nat, n: nat)
    requires Asserts(Matmul(d)) && Runs(Matmul(d)) && m < d.M && k < d.K && n < d.N
    ensures Holds(ReadSet(Matmul(d)), LhsAt(d, m, k)) && Holds(ReadSet(Matmul(d)), RhsAt(d, k, n))
  {
    hide Cells, Holds, U32, Reads, Block, Asserts, Runs, LhsAt, RhsAt;
    ProductReads(d);
    var x, y := OperandWord(d, m, k, n);
    LhsLow(d, x);
    RhsOperandLow(d, y);
    var sizeL, sizeR := d.M * d.K, d.K * d.N;
    WordInBlock(Reads(Matmul(d)), "lhs", d.lhsAddr, sizeL, x);
    WordInBlock(Reads(Matmul(d)), "rhs", d.rhsAddr, sizeR, y);
  }

  lemma DstCovered(d: MatmulParam, m: nat, n: nat)
    requires Asserts(Matmul(d)) && Runs(Matmul(d)) && m < d.M && n < d.N
    ensures Holds(WriteSet(Matmul(d)), DstAt(d, m, n))
    ensures d.accumulate != 0 ==> Holds(ReadSet(Matmul(d)), DstAt(d, m, n))
  {
    hide Cells, Holds, U32, Reads, Writes, Block, Asserts, Runs;
    ProductReads(d);
    var size := d.M * d.N;
    ElementInside(m, n, d.M, d.N);
    DstLow(d, m * d.N + n);
    WordInBlock(Writes(Matmul(d)), "dst", d.dstAddr, size, m * d.N + n);
    if d.accumulate != 0 {
      WordInBlock(Reads(Matmul(d)), "dst", d.dstAddr, size, m * d.N + n);
    }
  }

  lemma MatmulStepCovered(d: MatmulParam, m: nat, n: nat)
    requires Asserts(Matmul(d)) && Runs(Matmul(d)) && m < d.M && n < d.N
    ensures Covered(MatmulStep(d, m, n), ReadSet(Matmul(d)), WriteSet(Matmul(d)))
  {
    hide ReadSet, WriteSet, Holds, LhsAt, RhsAt, DstAt, Asserts, Runs;
    var i, s := Matmul(d), MatmulStep(d, m, n);
    DstCovered(d, m, n);
    forall a | a in s.srcs
      ensures Holds(ReadSet(i), a)
    {
      var j :| 0 <= j < |s.srcs| && s.srcs[j] == a;
      if j < d.K {
        OperandsCovered(d, m, j, n);
      } else if j < 2 * d.K {
        OperandsCovered(d, m, j - d.K, n);
      }
    }
  }

  lemma {:induction false} MatmulStepsCovered(d: MatmulParam, m: nat)
    requires Asserts(Matmul(d)) && Runs(Matmul(d)) && m <= d.M
    ensures forall s | s in MatmulRows(d, m) :: Covered(s, ReadSet(Matmul(d)), WriteSet(Matmul(d)))
  {
    hide Covered, MatmulStep, Asserts, Runs;
    if m > 0 {
      MatmulStepsCovered(d, m - 1);
      forall s | s in MatmulRow(d, m - 1)
        ensures Covered(s, ReadSet(Matmul(d)), WriteSet(Matmul(d)))
      {
        var n :| 0 <= n < d.N && MatmulRow(d, m - 1)[n] == s;
        MatmulStepCovered(d, m - 1, n);
      }
    }
  }

  /* ---- ELEMENTWISE, ACT, REDUCE ---- */

  function ElementsOf(d: EwiseParam): nat { d.rows * d.cols }

  lemma EwiseAccesses(op: EwiseKind, d: EwiseParam)
    ensures Access("lhs", Block(d.lhsAddr, ElementsOf(d))) in Reads(Ewise(op, d))
    ensures Access("rhs", Block(d.rhsAddr, RhsElems(d))) in Reads(Ewise(op, d))
    ensures Access("dst", Block(d.dstAddr, ElementsOf(d))) in Writes(Ewise(op, d))
  {
    hide RhsElems;
    var rs, ws := Reads(Ewise(op, d)), Writes(Ewise(op, d));
    assert rs[0] == Access("lhs", Block(d.lhsAddr, ElementsOf(d)));
    assert rs[1] == Access("rhs", Block(d.rhsAddr, RhsElems(d)));
    assert ws[0] == Access("dst", Block(d.dstAddr, ElementsOf(d)));
  }

  lemma PackedWords(i: Instr, lhs: nat, dst: nat, n: nat, e: nat)
    requires Access("lhs", Block(lhs, n)) in Reads(i) && Access("dst", Block(dst, n)) in Writes(i)
    requires e < n && lhs + 2 * e < SRAM_END && dst + 2 * e < SRAM_END
    ensures Holds(ReadSet(i), U32(lhs + 2 * e)) && Holds(WriteSet(i), U32(dst + 2 * e))
  {
    hide Cells, Holds, U32, Reads, Writes, Block;
    WordInBlock(Reads(i), "lhs", lhs, n, e);
    WordInBlock(Writes(i), "dst", dst, n, e);
  }

  lemma EwisePacked(op: EwiseKind, d: EwiseParam, e: nat)
    requires Asserts(Ewise(op, d)) && Runs(Ewise(op, d)) && e < U32(d.rows * d.cols)
    ensures Holds(ReadSet(Ewise(op, d)), U32(d.lhsAddr + 2 * e)) && Holds(WriteSet(Ewise(op, d)), U32(d.dstAddr + 2 * e))
  {
    hide Cells, Holds, Runs, Asserts, Reads, Writes, Block;
    ModAtMost(ElementsOf(d));
    EwiseAccesses(op, d);
    EwiseLow(op, d, e);
    hide U32;
    PackedWords(Ewise(op, d), d.lhsAddr, d.dstAddr, ElementsOf(d), e);
  }

  lemma EwiseBroadcast(op: EwiseKind, d: EwiseParam, e: nat)
    requires Asserts(Ewise(op, d)) && Runs(Ewise(op, d)) && Plain(Ewise(op, d)) && e < U32(d.rows * d.cols)
    ensures Holds(ReadSet(Ewise(op, d)), EwiseRhsAt(d, e))
  {
    assert d.cols != 0 && d.rhsBlk != 0;
    hide Cells, Holds, RhsElems, U32, Runs, Asserts, PitchFits, EwiseRhsAt, Reads, Block;
    EwiseAccesses(op, d);
    var x := FittingWord(op, d, e);
    var n := RhsElems(d);
    WordInBlock(Reads(Ewise(op, d)), "rhs", d.rhsAddr, n, x);
  }

  lemma EwiseStepCovered(op: EwiseKind, d: EwiseParam, e: nat)
    requires Asserts(Ewise(op, d)) && Runs(Ewise(op, d)) && Plain(Ewise(op, d)) && e < U32(d.rows * d.cols)
    ensures Covered(EwiseStep(op, d, e), ReadSet(Ewise(op, d)), WriteSet(Ewise(op, d)))
  {
    EwisePacked(op, d, e);
    EwiseBroadcast(op, d, e);
    hide ReadSet, WriteSet, Holds, U32, Runs, EwiseRhsAt;
  }

  lemma ModAtMost(x: nat)
    ensures U32(x) <= x
  {
  }

  lemma ActStepCovered(d: ActParam, e: nat)
    requires Asserts(Act(d)) && Runs(Act(d)) && e < d.n
    ensures Covered(ActStep(d, ActKindOf(d.kind).value, e), ReadSet(Act(d)), WriteSet(Act(d)))
  {
    hide Cells, Holds, Runs, U32;
    var rs, ws := Reads(Act(d)), Writes(Act(d));
    assert rs[0] == Access("src", Block(d.srcAddr, d.n)) && ws[0] == Access("dst", Block(d.dstAddr, d.n));
    ActLow(d, e);
    WordInBlock(rs, "src", d.srcAddr, d.n, e);
    WordInBlock(ws, "dst", d.dstAddr, d.n, e);
  }

  lemma ReduceSourceCovered(d: ReduceParam, r: nat, j: nat)
    requires Asserts(Reduce(d)) && Runs(Reduce(d)) && r < d.rows && j < d.cols
    ensures Holds(ReadSet(Reduce(d)), U32(U32(d.srcAddr + 2 * U32(r * d.cols)) + 2 * j))
  {
    hide Cells, Holds, U32, Runs, Asserts;
    var rs := Reads(Reduce(d));
    assert rs[0] == Access("src", Block(d.srcAddr, d.rows * d.cols));
    ElementInside(r, j, d.rows, d.cols);
    ReduceSourceLow(d, r * d.cols + j);
    SourceAddress(d.srcAddr, r * d.cols, j);
    WordInBlock(rs, "src", d.srcAddr, d.rows * d.cols, r * d.cols + j);
  }

  lemma ReduceResultCovered(d: ReduceParam, r: nat)
    requires Asserts(Reduce(d)) && Runs(Reduce(d)) && r < d.rows
    ensures Holds(WriteSet(Reduce(d)), U32(d.dstAddr + 2 * r))
    ensures d.kind == 3 ==> Holds(WriteSet(Reduce(d)), U32(d.idxAddr + 4 * r)) && Holds(WriteSet(Reduce(d)), U32(d.idxAddr + 4 * r) + 2)
  {
    hide Cells, Holds, U32, Runs, Asserts;
    var ws := Writes(Reduce(d));
    assert ws[0] == Access("dst", Block(d.dstAddr, d.rows));
    ReduceLow(d, r);
    WordInBlock(ws, "dst", d.dstAddr, d.rows, r);
    if d.kind == 3 {
      var x := Access("idx", Block(d.idxAddr, 2 * d.rows));
      assert ws[1] == x;
      SmallU32(d.idxAddr + 4 * r);
      CellOf(ws, x, 0, d.idxAddr + 4 * r);
      CellOf(ws, x, 0, d.idxAddr + 4 * r + 2);
    }
  }

  lemma ReduceStepCovered(d: ReduceParam, r: nat)
    requires Asserts(Reduce(d)) && Runs(Reduce(d)) && r < d.rows
    ensures Covered(ReduceStep(d, ReduceKindOf(d.kind).value, r), ReadSet(Reduce(d)), WriteSet(Reduce(d)))
  {
    hide ReadSet, WriteSet, Holds, U32, Runs;
    var i, s := Reduce(d), ReduceStep(d, ReduceKindOf(d.kind).value, r);
    forall a | a in s.srcs
      ensures Holds(ReadSet(i), a)
    {
      var j :| 0 <= j < d.cols && s.srcs[j] == a;
      ReduceSourceCovered(d, r, j);
    }
    ReduceResultCovered(d, r);
  }

  /* ---- every instruction ---- */

  /** Everything any step of a running instruction reads or stores lies inside the checker's intervals.
      An instruction that does not run aborts whatever memory holds (`Reach.Aborts`). */
  lemma FootprintSound(i: Instr)
    requires Asserts(i) && Runs(i) && Plain(i)
    ensures forall s | s in Steps(i) :: Covered(s, ReadSet(i), WriteSet(i))
  {
    hide Covered, Plain, Runs, ReadSet, WriteSet, DmaRow, EwiseStep, ActStep, ReduceStep;
    forall k | 0 <= k < |Steps(i)|
      ensures Covered(Steps(i)[k], ReadSet(i), WriteSet(i))
    {
      match i
      case DmaLoad(d) => DmaRowCovered(d, true, k);
      case DmaStore(d) => DmaRowCovered(d, false, k);
      case Matmul(d) =>
        MatmulStepsCovered(d, d.M);
        assert Steps(i)[k] in MatmulRows(d, d.M);
      case Ewise(op, d) => EwiseStepCovered(op, d, k);
      case Act(d) => ActStepCovered(d, k);
      case Reduce(d) => ReduceStepCovered(d, k);
      case Sync =>
    }
  }

  /* ---- where the checker's intervals are right ---- */

  ghost predicate RowsCovered(base: Dword, rows: nat, cols: nat, stride: nat) {
    forall r, a | 0 <= r < rows && a in Row(U32(base + U32(stride * r)), cols) ::
      InRanges(TileRanges(base, rows, cols, stride), a)
  }

  /** One side of a DMA that passes its range checks: the rows lie inside the checker's intervals exactly
      when none of them wraps around. */
  lemma RowRangesExact(s: Space, base: Dword, rows: nat, cols: nat, stride: Dword)
    requires cols > 0 && RowsChecked(s, base, rows, stride)
    ensures RowsCovered(base, rows, cols, stride) <==> RowsInOrder(base, rows, stride)
  {
    hide U32;
    if RowsInOrder(base, rows, stride) {
      forall r, a | 0 <= r < rows && a in Row(U32(base + U32(stride * r)), cols)
        ensures InRanges(TileRanges(base, rows, cols, stride), a)
      {
        RowStart(base, rows, stride, r);
        assert TileRanges(base, rows, cols, stride)[r].lo <= a < TileRanges(base, rows, cols, stride)[r].hi;
      }
    } else {
      SecondRowWraps(s, base, rows, stride);
      var a := base + stride - TWO_32;
      AddU32(base, stride);
      SameU32(a, base + stride, 1);
      SmallU32(a);
      assert stride * 1 == stride;
      assert Row(U32(base + U32(stride * 1)), cols)[0] == a;
      RowsAbove(base, rows, cols, stride, a);
    }
  }

  /** No checker interval reaches below the base. */
  lemma RowsAbove(base: nat, rows: nat, cols: nat, stride: nat, a: int)
    requires a < base
    ensures !InRanges(TileRanges(base, rows, cols, stride), a)
  {
    forall k | 0 <= k < rows
      ensures base + k * stride >= base
    {
      MulMonotone(stride, 0, k);
    }
  }
}
