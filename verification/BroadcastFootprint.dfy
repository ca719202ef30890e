/** Exactly when the checker's interval for the right operand of an elementwise instruction holds every
    word the instruction reads there. */
module BroadcastFootprint {
  import opened Arithmetic
  import opened Types
  import opened Machine
  import opened HazardChecker
  import opened Reach

  const HALF := 0x8000_0000

  /** Addresses are computed in 32 bits and words are two bytes: only the pitch modulo 2^31 counts. */
  function Narrow(d: EwiseParam): EwiseParam { d.(rhsStride := d.rhsStride % HALF) }

  lemma SameAddress(d: EwiseParam, e: nat)
    requires d.cols != 0 && d.rhsBlk != 0
    ensures EwiseRhsAt(Narrow(d), e) == EwiseRhsAt(d, e)
  {
    hide U32, EwiseRhsAt, RhsIndex;
    var s, r, t := d.rhsStride % HALF, e / d.cols, e % d.rhsBlk;
    var q := d.rhsStride / HALF;
    RhsAddress(d, e);
    RhsAddress(Narrow(d), e);
    IndexIs(d, e);
    IndexIs(Narrow(d), e);
    PitchSplit(r, s, q);
    assert d.rhsStride == s + HALF * q;
    SameU32(d.rhsAddr + 2 * (r * s + t), d.rhsAddr + 2 * (r * d.rhsStride + t), r * q);
  }

  lemma IndexIs(d: EwiseParam, e: nat)
    requires d.cols != 0 && d.rhsBlk != 0
    ensures RhsIndex(d, e) == e / d.cols * d.rhsStride + e % d.rhsBlk
  {
  }

  lemma PitchSplit(r: int, s: int, q: int)
    ensures 2 * (r * (s + HALF * q)) == 2 * (r * s) + TWO_32 * (r * q)
  {
  }

  /** The same run, with the pitch reduced. */
  lemma NarrowRuns(op: EwiseKind, d: EwiseParam)
    requires Asserts(Ewise(op, d)) && Runs(Ewise(op, d))
    ensures Asserts(Ewise(op, Narrow(d))) && Runs(Ewise(op, Narrow(d)))
  {
    hide U32, EwiseRhsAt, Passes;
    var i, j := Ewise(op, d), Ewise(op, Narrow(d));
    forall e: nat | e < |Steps(j)|
      ensures Steps(j)[e] == Steps(i)[e]
    {
      SameAddress(d, e);
    }
    assert Steps(i) == Steps(j);
  }

  /* ---- the words that are read ---- */

  /** The elements the loop runs over: the product is taken in 32 bits. */
  function Count(d: EwiseParam): nat { U32(d.rows * d.cols) }

  /** The furthest word of the right operand: in the last row, which may be cut short, or at the end of
      the row in front of it. */
  function LastWord(d: EwiseParam): int
    requires d.cols != 0
  {
    var r := (Count(d) - 1) / d.cols;
    FurthestOf(r, Count(d) - r * d.cols, d.rhsBlk, d.rhsStride % HALF)
  }

  /** `r` full rows and `left` elements of the next one. */
  function FurthestOf(r: int, left: int, blk: int, pitch: int): int {
    var last := r * pitch + (if left < blk then left else blk) - 1;
    var before := (r - 1) * pitch + blk - 1;
    if r > 0 && before > last then before else last
  }

  predicate WordsInside(d: EwiseParam) {
    Count(d) > 0 ==> d.cols != 0 && LastWord(d) < RhsElems(d) && d.rhsAddr + 2 * LastWord(d) < TWO_32
  }

  /** The pitch is at most the block, modulo 2^31. If the number of elements wraps around, fewer run, and
      it is enough that their words stay inside. */
  predicate PitchFits(d: EwiseParam) {
    d.rows <= 1 || d.rhsStride % HALF <= d.rhsBlk || (d.rows * d.cols >= TWO_32 && WordsInside(d))
  }

  predicate InRhs(d: EwiseParam, a: int) { d.rhsAddr <= a && a + 2 <= d.rhsAddr + 2 * RhsElems(d) }

  /** Every word of the right operand that is read lies inside the checker's interval. */
  ghost predicate RhsCovered(d: EwiseParam)
    requires d.cols != 0 && d.rhsBlk != 0
  {
    forall e: nat | e < Count(d) :: InRhs(d, EwiseRhsAt(d, e))
  }

  /** The shape of the part of the rows that runs. */
  lemma LastRow(d: EwiseParam) returns (r: nat, left: nat)
    requires d.cols != 0 && Count(d) > 0
    ensures r == (Count(d) - 1) / d.cols && left == Count(d) - r * d.cols && 1 <= left <= d.cols
    ensures 0 <= r * d.cols < Count(d)
    ensures LastWord(d) == FurthestOf(r, left, d.rhsBlk, d.rhsStride % HALF)
  {
    assert LastWord(d) == FurthestOf((Count(d) - 1) / d.cols, Count(d) - (Count(d) - 1) / d.cols * d.cols, d.rhsBlk, d.rhsStride % HALF);
    hide U32, LastWord, FurthestOf, Count;
    DivNonNegative(Count(d) - 1, d.cols);
    r := (Count(d) - 1) / d.cols;
    var c := (Count(d) - 1) % d.cols;
    assert Count(d) - 1 == d.cols * r + c;
    assert d.cols * r == r * d.cols;
    MulMonotone(d.cols, 0, r);
    left := Count(d) - r * d.cols;
  }

  /** No element reads further than the last word. */
  lemma AtMostLastWord(d: EwiseParam, e: nat)
    requires d.cols != 0 && d.rhsBlk != 0 && d.cols % d.rhsBlk == 0 && e < Count(d)
    ensures RhsIndex(Narrow(d), e) <= LastWord(d)
  {
    var s := d.rhsStride % HALF;
    var r, left := LastRow(d);
    IndexIs(Narrow(d), e);
    ColumnAtLeast(d, e);
    hide U32, RhsIndex, LastWord, FurthestOf, Count;
    var k, t := e / d.cols, e % d.rhsBlk;
    RowAtMost(e, Count(d), d.cols, k, r, left);
    AtMostFurthest(k, t, r, left, d.rhsBlk, s);
  }

  lemma AtMostFurthest(k: nat, t: nat, r: nat, left: nat, blk: nat, pitch: nat)
    requires k <= r && t < blk && (k == r ==> t < left)
    ensures k * pitch + t <= FurthestOf(r, left, blk, pitch)
  {
    if k < r {
      MulMonotone(pitch, k, r - 1);
      assert pitch * k == k * pitch && pitch * (r - 1) == (r - 1) * pitch;
    }
  }

  lemma RowAtMost(e: nat, count: nat, cols: nat, k: nat, r: nat, left: nat)
    requires cols > 0 && e < count && k == e / cols && left == count - r * cols && 1 <= left <= cols
    ensures k <= r && (k == r ==> e - k * cols < left)
  {
    assert (r + 1) * cols == r * cols + cols;
    RowOf(e, r + 1, cols);
  }

  /** Some element reads the last word. */
  lemma LastWordRead(d: EwiseParam) returns (e: nat)
    requires d.cols != 0 && d.rhsBlk != 0 && d.cols % d.rhsBlk == 0 && Count(d) > 0
    ensures e < Count(d) && RhsIndex(Narrow(d), e) == LastWord(d)
  {
    var s := d.rhsStride % HALF;
    var r, left := LastRow(d);
    var w := if left < d.rhsBlk then left else d.rhsBlk;
    var last, before := r * s + w - 1, (r - 1) * s + d.rhsBlk - 1;
    hide U32, RhsIndex, LastWord, Count;
    BlockAtMost(d);
    if r > 0 && before > last {
      RhsIndexAt(Narrow(d), r - 1, d.rhsBlk - 1);
      RowBefore(r, d.cols, d.rhsBlk);
      e := (r - 1) * d.cols + (d.rhsBlk - 1);
    } else {
      RhsIndexAt(Narrow(d), r, w - 1);
      e := r * d.cols + (w - 1);
    }
  }

  lemma RowBefore(r: nat, cols: nat, blk: nat)
    requires r > 0 && 1 <= blk <= cols
    ensures 0 <= (r - 1) * cols + (blk - 1) < r * cols
  {
    MulMonotone(cols, 0, r - 1);
    assert (r - 1) * cols == cols * (r - 1) == r * cols - cols;
  }

  /* ---- a fitting pitch covers ---- */

  lemma RhsIndexBound(d: EwiseParam, e: nat)
    requires d.cols != 0 && d.rhsBlk != 0 && e < d.rows * d.cols
    requires d.rows <= 1 || d.rhsStride <= d.rhsBlk
    ensures RhsIndex(d, e) < RhsElems(d)
  {
    var r := e / d.cols;
    RowOf(e, d.rows, d.cols);
    if d.rhsStride == 0 {
      assert r * d.rhsStride == 0;
    } else if d.rows <= 1 {
      assert r * d.rhsStride == 0;
    } else {
      MulMonotone(r, d.rhsStride, d.rhsBlk);
      MulMonotone(d.rhsBlk, r + 1, d.rows);
      assert d.rhsBlk * (r + 1) == r * d.rhsBlk + d.rhsBlk;
    }
  }

  lemma ElemsAtLeast(d: EwiseParam)
    requires d.rows >= 1
    ensures RhsElems(Narrow(d)) <= RhsElems(d)
  {
    MulMonotone(d.rhsBlk, 1, d.rows);
  }

  lemma CountAtMost(d: EwiseParam, e: nat)
    requires e < Count(d)
    ensures e < d.rows * d.cols && d.rows >= 1
  {
    MulMonotone(d.cols, 0, d.rows);
  }

  /** The word that is read for element `e`, when the pitch fits. */
  lemma FittingWord(op: EwiseKind, d: EwiseParam, e: nat) returns (x: nat)
    requires Asserts(Ewise(op, d)) && Runs(Ewise(op, d)) && PitchFits(d) && e < Count(d)
    ensures x < RhsElems(d) && d.rhsAddr + 2 * x < SRAM_END && EwiseRhsAt(d, e) == d.rhsAddr + 2 * x
  {
    var n := Narrow(d);
    NarrowRuns(op, d);
    SameAddress(d, e);
    RhsAddress(n, e);
    CountAtMost(d, e);
    x := RhsIndex(n, e);
    hide U32, RhsIndex, EwiseRhsAt, Runs, RhsElems, LastWord;
    if d.rows <= 1 || n.rhsStride <= n.rhsBlk {
      RhsLow(op, n, e);
      RhsIndexBound(n, e);
      ElemsAtLeast(d);
      SmallU32(d.rhsAddr + 2 * x);
    } else {
      AtMostLastWord(d, e);
      SmallU32(d.rhsAddr + 2 * x);
      EwiseAddresses(op, d, e);
    }
  }

  /* ---- a pitch that covers fits ---- */

  /** The rows that run start inside the SRAM. */
  lemma RowsRun(op: EwiseKind, d: EwiseParam, rows: nat)
    requires Asserts(Ewise(op, d)) && Runs(Ewise(op, d)) && rows >= 1 && (rows - 1) * d.cols < Count(d)
    ensures RowsChecked(Sram, d.rhsAddr, rows, 2 * (d.rhsStride % HALF))
  {
    hide U32, RhsIndex, EwiseRhsAt, Runs, In;
    var s := d.rhsStride % HALF;
    forall r: nat | r < rows
      ensures In(Sram, U32(d.rhsAddr + U32(2 * s * r)))
    {
      var e := RowElement(op, d, rows, r);
      AddU32(d.rhsAddr, 2 * s * r);
      assert 2 * s * r == 2 * (r * s);
    }
  }

  /** The first element of a row that runs. */
  lemma RowElement(op: EwiseKind, d: EwiseParam, rows: nat, r: nat) returns (e: nat)
    requires Asserts(Ewise(op, d)) && Runs(Ewise(op, d)) && r < rows && (rows - 1) * d.cols < Count(d)
    ensures e == r * d.cols < Count(d) && EwiseRhsAt(d, e) == U32(d.rhsAddr + 2 * (r * (d.rhsStride % HALF)))
    ensures In(Sram, EwiseRhsAt(d, e))
  {
    hide U32, RhsIndex, EwiseRhsAt, Runs, In;
    RhsIndexAt(Narrow(d), r, 0);
    MulMonotone(d.cols, r, rows - 1);
    assert d.cols * r == r * d.cols && d.cols * (rows - 1) == (rows - 1) * d.cols;
    e := r * d.cols;
    SameAddress(d, e);
    RhsAddress(Narrow(d), e);
    EwiseAddresses(op, d, e);
  }

  /** If the rows wrapped around, the second one would lie below the operand. */
  lemma CoveredInOrder(op: EwiseKind, d: EwiseParam, rows: nat)
    requires Asserts(Ewise(op, d)) && Runs(Ewise(op, d)) && RhsCovered(d)
    requires rows >= 1 && (rows - 1) * d.cols < Count(d)
    ensures RowsInOrder(d.rhsAddr, rows, 2 * (d.rhsStride % HALF))
  {
    hide U32, EwiseRhsAt, Runs, In, RowsInOrder, RowsChecked, RhsElems;
    var s := d.rhsStride % HALF;
    RowsRun(op, d, rows);
    if !RowsInOrder(d.rhsAddr, rows, 2 * s) {
      SecondRowWraps(Sram, d.rhsAddr, rows, 2 * s);
      var e := RowElement(op, d, rows, 1);
      assert InRhs(d, EwiseRhsAt(d, e));
      assert 1 * s == s;
      SameU32(d.rhsAddr + 2 * s - TWO_32, d.rhsAddr + 2 * s, 1);
      SmallU32(d.rhsAddr + 2 * s - TWO_32);
    }
  }

  /** Where the last row that runs starts. */
  lemma LastRowLow(op: EwiseKind, d: EwiseParam, r: nat)
    requires Asserts(Ewise(op, d)) && Runs(Ewise(op, d)) && RhsCovered(d) && r * d.cols < Count(d)
    ensures SRAM_ADDR <= d.rhsAddr + 2 * (r * (d.rhsStride % HALF)) < SRAM_END
  {
    hide U32, EwiseRhsAt, Runs, RhsCovered, RhsElems;
    var s := d.rhsStride % HALF;
    CoveredInOrder(op, d, r + 1);
    RowsRun(op, d, r + 1);
    assert In(Sram, U32(d.rhsAddr + U32(2 * s * r)));
    RowStart(d.rhsAddr, r + 1, 2 * s, r);
    assert r * (2 * s) == 2 * (r * s);
  }

  /** Inside the interval, the last word is read without wrapping around. */
  lemma CoveredStaysLow(op: EwiseKind, d: EwiseParam)
    requires Asserts(Ewise(op, d)) && Runs(Ewise(op, d)) && RhsCovered(d) && Count(d) > 0
    ensures 0 <= d.rhsAddr + 2 * LastWord(d) < TWO_32
  {
    var s := d.rhsStride % HALF;
    var r, left := LastRow(d);
    LastWordAtMost(d, r, left);
    hide U32, EwiseRhsAt, Asserts, Runs, RhsCovered, LastWord, RhsElems, Count;
    LastRowLow(op, d, r);
    var x := r * s;
    EwiseLow(op, d, Count(d) - 1);
  }

  lemma LastWordAtMost(d: EwiseParam, r: nat, left: nat)
    requires d.cols != 0 && d.rhsBlk != 0 && Count(d) > 0
    requires LastWord(d) == FurthestOf(r, left, d.rhsBlk, d.rhsStride % HALF)
    requires left == Count(d) - r * d.cols && 1 <= left <= d.cols && d.cols % d.rhsBlk == 0
    ensures 0 <= LastWord(d) <= r * (d.rhsStride % HALF) + Count(d) - 1
  {
    var s := d.rhsStride % HALF;
    hide U32, LastWord, Count;
    BlockAtMost(d);
    EndOfRows(r, s, left, d.rhsBlk, d.cols, Count(d));
  }

  lemma EndOfRows(r: nat, s: nat, left: nat, blk: nat, cols: nat, count: nat)
    requires 1 <= left <= cols && 1 <= blk <= cols && left == count - r * cols
    ensures 0 <= r * s + (if left < blk then left else blk) - 1 <= r * s + count - 1
    ensures r > 0 ==> (r - 1) * s + blk - 1 <= r * s + count - 1
  {
    MulMonotone(s, 0, r);
    MulMonotone(cols, 0, r);
    assert s * r == r * s && cols * r == r * cols;
    if r > 0 {
      assert (r - 1) * s == r * s - s;
      MulMonotone(cols, 1, r);
    }
  }

  lemma BlockAtMost(d: EwiseParam)
    requires d.cols != 0 && d.rhsBlk != 0 && d.cols % d.rhsBlk == 0
    ensures d.rhsBlk <= d.cols
  {
    RhsIndexAt(d, 0, d.rhsBlk - 1);
  }

  lemma CoveredFits(op: EwiseKind, d: EwiseParam)
    requires Asserts(Ewise(op, d)) && Runs(Ewise(op, d)) && RhsCovered(d)
    ensures PitchFits(d)
  {
    hide U32, EwiseRhsAt, Runs, LastWord, RhsElems, RhsIndex;
    if Count(d) > 0 {
      CoveredStaysLow(op, d);
      var e := LastWordRead(d);
      assert InRhs(d, EwiseRhsAt(d, e));
      SameAddress(d, e);
      RhsAddress(Narrow(d), e);
      SmallU32(d.rhsAddr + 2 * LastWord(d));
    }
    if d.rows > 1 && d.rhsStride % HALF > d.rhsBlk && d.rows * d.cols < TWO_32 {
      AllRowsRun(d);
    }
  }

  lemma WideRow(r: nat, blk: nat, stride: nat)
    requires r >= 1 && stride > blk
    ensures r * stride + blk - 1 >= blk * (r + 1)
  {
    MulMonotone(r, blk + 1, stride);
    assert r * (blk + 1) == blk * r + r;
    assert blk * (r + 1) == blk * r + blk;
  }

  /** If the number of elements does not wrap around, all rows run in full, and a wide pitch leaves the
      interval. */
  lemma AllRowsRun(d: EwiseParam)
    requires d.cols != 0 && d.rhsBlk != 0 && d.cols % d.rhsBlk == 0
    requires d.rows > 1 && d.rhsStride % HALF > d.rhsBlk && d.rows * d.cols < TWO_32
    ensures Count(d) > 0 && LastWord(d) >= RhsElems(d)
  {
    var r := d.rows - 1;
    MulMonotone(d.cols, 1, d.rows);
    SmallU32(d.rows * d.cols);
    FullRows(d.rows, d.cols);
    BlockAtMost(d);
    WideRow(r, d.rhsBlk, d.rhsStride % HALF);
    assert LastWord(d) >= r * (d.rhsStride % HALF) + d.rhsBlk - 1;
  }

  lemma FullRows(rows: nat, cols: nat)
    requires rows >= 1 && cols >= 1
    ensures (rows * cols - 1) / cols == rows - 1 && rows * cols - (rows - 1) * cols == cols
  {
    assert (rows - 1) * cols == rows * cols - cols;
    DivModOfMulAdd(rows - 1, cols - 1, cols);
  }

  /** The interval holds every word that a running instruction reads exactly when the pitch fits. */
  lemma RhsSizeExact(op: EwiseKind, d: EwiseParam)
    requires Asserts(Ewise(op, d)) && Runs(Ewise(op, d))
    ensures RhsCovered(d) <==> PitchFits(d)
  {
    hide U32, EwiseRhsAt, Runs, LastWord, RhsElems, PitchFits;
    if PitchFits(d) {
      forall e: nat | e < Count(d)
        ensures InRhs(d, EwiseRhsAt(d, e))
      {
        var x := FittingWord(op, d, e);
      }
    } else if RhsCovered(d) {
      CoveredFits(op, d);
    }
  }
}
