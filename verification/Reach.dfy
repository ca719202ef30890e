/** What the range checks of a running instruction say about its addresses: an operand that is accessed
    from its first word on without a gap cannot leave the memory, let alone wrap around in 32 bits. */
module Reach {
  import opened Arithmetic
  import opened Types
  import opened Machine

  const SRAM_END := SRAM_ADDR + SRAM_SIZE

  /** Every access of every step passes its range check. */
  ghost predicate Runs(i: Instr)
    requires Asserts(i)
  {
    forall s | s in Steps(i) :: Passes(s)
  }

  predicate Passes(s: Step) { Reachable(s.from, s.srcs) && Reachable(s.to, s.dsts) }

  lemma {:induction false} StepsAbort<F>(f: Fpu<F>, m: Mem, steps: seq<Step>, s: Step)
    requires s in steps && !Passes(s)
    ensures DoSteps(f, m, steps).None?
    decreases steps
  {
    var last := steps[|steps| - 1];
    if s != last {
      StepsAbort(f, m, steps[..|steps| - 1], s);
    }
  }

  /** An instruction that reaches outside its memory aborts, whatever the memory holds. */
  lemma Aborts<F>(f: Fpu<F>, m: Mem, i: Instr)
    requires Asserts(i) && !Runs(i)
    ensures Exec(f, m, i).None?
  {
    hide Passes, Steps, Asserts;
    var s :| s in Steps(i) && !Passes(s);
    StepsAbort(f, m, Steps(i), s);
  }

  lemma AddU32(a: int, b: int)
    ensures U32(a + U32(b)) == U32(a + b) && U32(a + 2 * U32(b)) == U32(a + 2 * b)
  {
    assert b == TWO_32 * (b / TWO_32) + U32(b);
    SameU32(a + U32(b), a + b, b / TWO_32);
    SameU32(a + 2 * U32(b), a + 2 * b, 2 * (b / TWO_32));
  }

  lemma SameU32(x: int, y: int, q: int)
    requires y == x + TWO_32 * q
    ensures U32(x) == U32(y)
  {
    ModUnique(y, x / TWO_32 + q, x % TWO_32, TWO_32);
  }

  lemma SmallU32(x: nat)
    requires x < TWO_32
    ensures U32(x) == x
  {
  }

  /** If every `w`-th address from `base` on is inside the SRAM, none of them wraps around. */
  lemma NoGap(base: Dword, w: nat, n: nat, e: nat)
    requires (w == 2 || w == 4) && e < n && forall x | 0 <= x < n :: In(Sram, U32(base + w * x))
    ensures base + w * e < SRAM_END
  {
    hide U32;
    if base + w * e >= SRAM_END {
      assert In(Sram, U32(base + w * 0));
      SmallU32(base);
      var x := (SRAM_END - base + w - 1) / w;
      assert SRAM_END <= base + w * x < SRAM_END + w && x <= e;
      SmallU32(base + w * x);
    }
  }

  lemma SplitIndex(x: nat, rows: nat, cols: nat) returns (r: nat, c: nat)
    requires x < rows * cols
    ensures r < rows && c < cols && x == r * cols + c
  {
    PositiveFactors(rows, cols);
    RowOf(x, rows, cols);
    r, c := x / cols, x % cols;
    assert x == cols * r + c;
  }

  /* ---- rows at a constant pitch ---- */

  /** No row start wraps around in 32 bits. */
  predicate RowsInOrder(base: nat, rows: nat, stride: nat) { rows > 0 ==> base + stride * (rows - 1) < TWO_32 }

  lemma RowStart(base: nat, rows: nat, stride: nat, r: nat)
    requires RowsInOrder(base, rows, stride) && r < rows
    ensures U32(base + U32(stride * r)) == base + r * stride
  {
    MulMonotone(stride, r, rows - 1);
    MulMonotone(stride, 0, r);
    AddU32(base, stride * r);
    SmallU32(base + stride * r);
  }

  /** Every row starts inside its memory. */
  predicate RowsChecked(s: Space, base: Dword, rows: nat, stride: nat) {
    forall r | 0 <= r < rows :: In(s, U32(base + U32(stride * r)))
  }

  /** The gap between the end of either memory and its next copy, 2^32 further, is wider than the
      memory: rows that wrap around do so with the first pitch, and end up below the base. */
  lemma SecondRowWraps(s: Space, base: Dword, rows: nat, stride: Dword)
    requires RowsChecked(s, base, rows, stride) && !RowsInOrder(base, rows, stride)
    ensures rows >= 2 && TWO_32 <= base + stride < TWO_32 + base
  {
    hide U32;
    assert rows >= 2 by {
      assert stride * 0 == 0;
    }
    if base + stride < TWO_32 {
      RowsStayBelow(s, base, rows, stride, rows - 1);
    }
  }

  lemma {:induction false} RowsStayBelow(s: Space, base: Dword, rows: nat, stride: Dword, r: nat)
    requires RowsChecked(s, base, rows, stride) && r < rows && base + stride < TWO_32
    ensures base + stride * r < TWO_32 && In(s, base + stride * r)
  {
    hide U32;
    assert In(s, U32(base + U32(stride * r)));
    AddU32(base, stride * r);
    if r == 0 {
      assert stride * r == 0;
      SmallU32(base);
    } else {
      RowsStayBelow(s, base, rows, stride, r - 1);
      PitchSmall(s, base, rows, stride);
      assert stride * r == stride * (r - 1) + stride;
      NextRow(s, base + stride * (r - 1), stride);
    }
  }

  lemma PitchSmall(s: Space, base: Dword, rows: nat, stride: Dword)
    requires RowsChecked(s, base, rows, stride) && rows >= 2 && base + stride < TWO_32
    ensures stride < 0x8000_0000
  {
    hide U32;
    assert In(s, U32(base + U32(stride * 0))) && In(s, U32(base + U32(stride * 1)));
    AddU32(base, stride * 0);
    AddU32(base, stride * 1);
    SmallU32(base);
    SmallU32(base + stride);
  }

  lemma NextRow(s: Space, a: int, stride: nat)
    requires In(s, a) && stride < 0x8000_0000 && In(s, U32(a + stride))
    ensures a + stride < TWO_32 && In(s, a + stride)
  {
    if a + stride >= TWO_32 {
      SameU32(a + stride - TWO_32, a + stride, 1);
    }
  }

  lemma PassesAt(i: Instr, k: nat)
    requires Asserts(i) && Runs(i) && k < |Steps(i)|
    ensures Passes(Steps(i)[k])
  {
    hide Passes, Steps, Asserts;
  }

  /* ---- elementwise operations and activations ---- */

  lemma EwiseAddresses(op: EwiseKind, d: EwiseParam, e: nat)
    requires Asserts(Ewise(op, d)) && Runs(Ewise(op, d)) && e < U32(d.rows * d.cols)
    ensures In(Sram, U32(d.lhsAddr + 2 * e)) && In(Sram, EwiseRhsAt(d, e)) && In(Sram, U32(d.dstAddr + 2 * e))
  {
    hide U32, EwiseRhsAt, In, Runs;
    var i := Ewise(op, d);
    PassesAt(i, e);
    var s := Steps(i)[e];
    assert s.srcs[0] == U32(d.lhsAddr + 2 * e) && s.srcs[1] == EwiseRhsAt(d, e) && s.dsts[0] == U32(d.dstAddr + 2 * e);
  }

  lemma EwiseLow(op: EwiseKind, d: EwiseParam, e: nat)
    requires Asserts(Ewise(op, d)) && Runs(Ewise(op, d)) && e < U32(d.rows * d.cols)
    ensures d.lhsAddr + 2 * e < SRAM_END && d.dstAddr + 2 * e < SRAM_END
  {
    hide U32, Asserts, EwiseRhsAt, In, Runs;
    var n: nat := U32(d.rows * d.cols);
    forall x: nat | x < n
      ensures In(Sram, U32(d.lhsAddr + 2 * x)) && In(Sram, U32(d.dstAddr + 2 * x))
    {
      EwiseAddresses(op, d, x);
    }
    NoGap(d.lhsAddr, 2, n, e);
    NoGap(d.dstAddr, 2, n, e);
  }

  lemma ActLow(d: ActParam, e: nat)
    requires Asserts(Act(d)) && Runs(Act(d)) && e < d.n
    ensures d.srcAddr + 2 * e < SRAM_END && d.dstAddr + 2 * e < SRAM_END
  {
    hide U32, In, Runs;
    var i := Act(d);
    forall x | 0 <= x < d.n
      ensures In(Sram, U32(d.srcAddr + 2 * x)) && In(Sram, U32(d.dstAddr + 2 * x))
    {
      PassesAt(i, x);
      var s := Steps(i)[x];
      assert s.srcs[0] == U32(d.srcAddr + 2 * x) && s.dsts[0] == U32(d.dstAddr + 2 * x);
    }
    NoGap(d.srcAddr, 2, d.n, e);
    NoGap(d.dstAddr, 2, d.n, e);
  }

  /* ---- the broadcast operand ---- */

  /** The word of the right operand for output element `e`. */
  function RhsIndex(d: EwiseParam, e: nat): nat
    requires d.cols != 0 && d.rhsBlk != 0
  {
    var r := e / d.cols;
    RowNatural(e, d.cols, d.rhsStride);
    r * d.rhsStride + e % d.rhsBlk
  }

  lemma RowNatural(e: nat, cols: nat, stride: nat)
    requires cols != 0
    ensures 0 <= e / cols && 0 <= e / cols * stride
  {
    DivNonNegative(e, cols);
    var r := e / cols;
    MulMonotone(stride, 0, r);
  }

  /** Column `c < blk` of row `r` uses word `c` of the row. */
  lemma RhsIndexAt(d: EwiseParam, r: nat, c: nat)
    requires d.cols != 0 && d.rhsBlk != 0 && d.cols % d.rhsBlk == 0 && c < d.rhsBlk
    ensures c < d.cols && 0 <= r * d.cols + c && RhsIndex(d, r * d.cols + c) == r * d.rhsStride + c
  {
    var q := d.cols / d.rhsBlk;
    assert d.cols == d.rhsBlk * q;
    PositiveQuotient(d.cols, d.rhsBlk, q);
    MulMonotone(d.rhsBlk, 1, q);
    DivModOfMulAdd(r, c, d.cols);
    assert r * d.cols == d.rhsBlk * (r * q);
    ModUnique(r * d.cols + c, r * q, c, d.rhsBlk);
    MulMonotone(d.cols, 0, r);
  }

  lemma PositiveQuotient(a: nat, b: nat, q: int)
    requires a > 0 && b > 0 && a == b * q
    ensures q >= 1
  {
    if q <= 0 {
      MulMonotone(b, q, 0);
    }
  }

  /** The column inside its row is at least the word inside its block. */
  lemma ColumnAtLeast(d: EwiseParam, e: nat)
    requires d.cols != 0 && d.rhsBlk != 0 && d.cols % d.rhsBlk == 0
    ensures 0 <= e / d.cols && e / d.cols * d.cols + e % d.rhsBlk <= e
  {
    DivNonNegative(e, d.cols);
    var r, c := e / d.cols, e % d.cols;
    assert e == d.cols * r + c;
    var q := d.cols / d.rhsBlk;
    assert d.cols == d.rhsBlk * q;
    DivNonNegative(c, d.rhsBlk);
    var q', t := c / d.rhsBlk, c % d.rhsBlk;
    assert c == d.rhsBlk * q' + t;
    assert d.cols * r == d.rhsBlk * (q * r);
    assert d.rhsBlk * (q * r) + d.rhsBlk * q' == d.rhsBlk * (q * r + q');
    ModUnique(e, q * r + q', t, d.rhsBlk);
    MulMonotone(d.rhsBlk, 0, q');
    assert r * d.cols == d.cols * r;
  }

  /** Up to any word the operand uses, it uses all: an earlier element has word `x`. */
  lemma EarlierWord(d: EwiseParam, e: nat, x: nat) returns (e': nat)
    requires d.cols != 0 && d.rhsBlk != 0 && d.cols % d.rhsBlk == 0 && x <= RhsIndex(d, e)
    requires d.rhsStride <= d.rhsBlk || e < d.cols
    ensures e' <= e && RhsIndex(d, e') == x
  {
    ColumnAtLeast(d, e);
    var r, t := e / d.cols, e % d.rhsBlk;
    RowNatural(e, d.cols, d.rhsStride);
    assert RhsIndex(d, e) == r * d.rhsStride + t;
    hide RhsIndex;
    if x >= r * d.rhsStride {
      RhsIndexAt(d, r, x - r * d.rhsStride);
      e' := r * d.cols + (x - r * d.rhsStride);
    } else {
      e' := WordInEarlierRow(d, e, r, x);
    }
  }

  lemma WordInEarlierRow(d: EwiseParam, e: nat, r: nat, x: nat) returns (e': nat)
    requires d.cols != 0 && d.rhsBlk != 0 && d.cols % d.rhsBlk == 0
    requires x < r * d.rhsStride && r * d.cols <= e && (d.rhsStride <= d.rhsBlk || e < d.cols)
    ensures e' <= e && RhsIndex(d, e') == x
  {
    hide RhsIndex;
    PositiveFactors(r, d.rhsStride);
    MulMonotone(d.cols, 1, r);
    var r', c := SplitIndex(x, r, d.rhsStride);
    RhsIndexAt(d, r', c);
    MulMonotone(d.cols, r' + 1, r);
    assert d.cols * (r' + 1) == r' * d.cols + d.cols;
    e' := r' * d.cols + c;
  }

  /** With a pitch of at most the block, no word of the right operand wraps around. */
  lemma RhsLow(op: EwiseKind, d: EwiseParam, e: nat)
    requires Asserts(Ewise(op, d)) && Runs(Ewise(op, d)) && e < U32(d.rows * d.cols)
    requires d.rhsStride <= d.rhsBlk || d.rows <= 1
    ensures d.rhsAddr + 2 * RhsIndex(d, e) < SRAM_END
  {
    hide U32, Runs, RhsIndex;
    RhsAddress(d, 0);
    EwiseAddresses(op, d, 0);
    SmallU32(d.rhsAddr);
    if d.rows <= 1 {
      OneRow(d, e);
    }
    if d.rhsAddr + 2 * RhsIndex(d, e) >= SRAM_END {
      var x := (SRAM_END - d.rhsAddr + 1) / 2;
      var e' := EarlierWord(d, e, x);
      EwiseAddresses(op, d, e');
      RhsAddress(d, e');
      SmallU32(d.rhsAddr + 2 * x);
    }
  }

  lemma OneRow(d: EwiseParam, e: nat)
    requires e < U32(d.rows * d.cols) && d.rows <= 1
    ensures e < d.cols
  {
    assert d.rows == 0 || d.rows == 1;
  }

  lemma RhsAddress(d: EwiseParam, e: nat)
    requires d.cols != 0 && d.rhsBlk != 0
    ensures EwiseRhsAt(d, e) == U32(d.rhsAddr + 2 * RhsIndex(d, e))
    ensures RhsIndex(d, 0) == 0
  {
    AddU32(d.rhsAddr, RhsIndex(d, e));
  }

  /* ---- matmul ---- */

  lemma {:induction false} StepOfMatmul(d: MatmulParam, rows: nat, m: nat, n: nat)
    requires m < rows && n < d.N
    ensures MatmulStep(d, m, n) in MatmulRows(d, rows)
  {
    hide MatmulStep;
    if m < rows - 1 {
      StepOfMatmul(d, rows - 1, m, n);
    } else {
      assert MatmulRow(d, m)[n] == MatmulStep(d, m, n);
    }
  }

  lemma MatmulAddresses(d: MatmulParam, m: nat, n: nat)
    requires Asserts(Matmul(d)) && Runs(Matmul(d)) && m < d.M && n < d.N
    ensures In(Sram, DstAt(d, m, n))
    ensures forall k | 0 <= k < d.K :: In(Sram, LhsAt(d, m, k)) && In(Sram, RhsAt(d, k, n))
  {
    hide LhsAt, RhsAt, DstAt, In, Asserts;
    StepOfMatmul(d, d.M, m, n);
    var s := MatmulStep(d, m, n);
    assert s in Steps(Matmul(d)) by {
      assert Steps(Matmul(d)) == MatmulRows(d, d.M);
    }
    assert Passes(s) && s.dsts[0] == DstAt(d, m, n);
    forall k | 0 <= k < d.K
      ensures In(Sram, LhsAt(d, m, k)) && In(Sram, RhsAt(d, k, n))
    {
      assert s.srcs[k] == LhsAt(d, m, k) && s.srcs[d.K + k] == RhsAt(d, k, n);
    }
  }

  /** Every word of the left operand is read for some k and m, of the right one for some k and n. */
  lemma LhsReader(d: MatmulParam, y: nat) returns (m: nat, k: nat)
    requires y < d.M * d.K
    ensures m < d.M && k < d.K && LhsAt(d, m, k) == U32(d.lhsAddr + 2 * y)
  {
    hide U32;
    AddU32(d.lhsAddr, y);
    if d.transA { k, m := SplitIndex(y, d.K, d.M); } else { m, k := SplitIndex(y, d.M, d.K); }
  }

  lemma RhsReader(d: MatmulParam, y: nat) returns (k: nat, n: nat)
    requires y < d.K * d.N
    ensures k < d.K && n < d.N && RhsAt(d, k, n) == U32(d.rhsAddr + 2 * y)
  {
    hide U32;
    AddU32(d.rhsAddr, y);
    if d.transB { n, k := SplitIndex(y, d.N, d.K); } else { k, n := SplitIndex(y, d.K, d.N); }
  }

  lemma LhsLow(d: MatmulParam, x: nat)
    requires Asserts(Matmul(d)) && Runs(Matmul(d)) && d.N > 0 && x < d.M * d.K
    ensures d.lhsAddr + 2 * x < SRAM_END
  {
    hide Asserts, Runs, In, U32, LhsAt, RhsAt;
    var size: nat := d.M * d.K;
    forall y: nat | y < size
      ensures In(Sram, U32(d.lhsAddr + 2 * y))
    {
      var m, k := LhsReader(d, y);
      MatmulAddresses(d, m, 0);
    }
    NoGap(d.lhsAddr, 2, size, x);
  }

  lemma RhsOperandLow(d: MatmulParam, x: nat)
    requires Asserts(Matmul(d)) && Runs(Matmul(d)) && d.M > 0 && x < d.K * d.N
    ensures d.rhsAddr + 2 * x < SRAM_END
  {
    hide Asserts, Runs, In, U32, LhsAt, RhsAt;
    var size: nat := d.K * d.N;
    forall y: nat | y < size
      ensures In(Sram, U32(d.rhsAddr + 2 * y))
    {
      var k, n := RhsReader(d, y);
      MatmulAddresses(d, 0, n);
    }
    NoGap(d.rhsAddr, 2, size, x);
  }

  lemma DstLow(d: MatmulParam, x: nat)
    requires Asserts(Matmul(d)) && Runs(Matmul(d)) && x < d.M * d.N
    ensures d.dstAddr + 2 * x < SRAM_END
  {
    hide Asserts, Runs, In, U32;
    forall y: nat | y < d.M * d.N
      ensures In(Sram, U32(d.dstAddr + 2 * y))
    {
      AddU32(d.dstAddr, y);
      var m, n := SplitIndex(y, d.M, d.N);
      MatmulAddresses(d, m, n);
    }
    NoGap(d.dstAddr, 2, d.M * d.N, x);
  }

  /* ---- reductions ---- */

  lemma ReduceAddresses(d: ReduceParam, r: nat)
    requires Asserts(Reduce(d)) && Runs(Reduce(d)) && r < d.rows
    ensures In(Sram, U32(d.dstAddr + 2 * r)) && (d.kind == 3 ==> In(Sram, U32(d.idxAddr + 4 * r)))
    ensures forall j | 0 <= j < d.cols :: In(Sram, U32(U32(d.srcAddr + 2 * U32(r * d.cols)) + 2 * j))
  {
    hide U32, In, Runs;
    var i := Reduce(d);
    PassesAt(i, r);
    var s := Steps(i)[r];
    assert s.dsts[0] == U32(d.dstAddr + 2 * r);
    if d.kind == 3 {
      assert s.dsts[1] == U32(d.idxAddr + 4 * r);
    }
    forall j | 0 <= j < d.cols
      ensures In(Sram, U32(U32(d.srcAddr + 2 * U32(r * d.cols)) + 2 * j))
    {
      assert s.srcs[j] == U32(U32(d.srcAddr + 2 * U32(r * d.cols)) + 2 * j);
    }
  }

  lemma ReduceLow(d: ReduceParam, r: nat)
    requires Asserts(Reduce(d)) && Runs(Reduce(d)) && r < d.rows
    ensures d.dstAddr + 2 * r < SRAM_END && (d.kind == 3 ==> d.idxAddr + 4 * r < SRAM_END)
  {
    hide U32, In, Runs, Asserts;
    forall x | 0 <= x < d.rows
      ensures In(Sram, U32(d.dstAddr + 2 * x)) && (d.kind == 3 ==> In(Sram, U32(d.idxAddr + 4 * x)))
    {
      ReduceAddresses(d, x);
    }
    NoGap(d.dstAddr, 2, d.rows, r);
    if d.kind == 3 {
      NoGap(d.idxAddr, 4, d.rows, r);
    }
  }

  lemma SourceAddress(base: int, x: int, j: int)
    ensures U32(U32(base + 2 * U32(x)) + 2 * j) == U32(base + 2 * (x + j))
  {
    AddU32(base, x);
    AddU32(2 * j, base + 2 * x);
    assert base + 2 * x + 2 * j == base + 2 * (x + j);
  }

  lemma ReduceSourceLow(d: ReduceParam, x: nat)
    requires Asserts(Reduce(d)) && Runs(Reduce(d)) && x < d.rows * d.cols
    ensures d.srcAddr + 2 * x < SRAM_END
  {
    hide U32, In, Runs, Asserts;
    forall y: nat | y < d.rows * d.cols
      ensures In(Sram, U32(d.srcAddr + 2 * y))
    {
      var r, j := SplitIndex(y, d.rows, d.cols);
      ReduceAddresses(d, r);
      SourceAddress(d.srcAddr, r * d.cols, j);
    }
    NoGap(d.srcAddr, 2, d.rows * d.cols, x);
  }
}
