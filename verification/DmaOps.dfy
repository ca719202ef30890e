/** DMA instructions with packed SRAM sides, as tensor moves. */
module DmaOps {
  import opened Arithmetic
  import opened Types
  import opened Machine
  import opened EclipseIR
  import opened StepValues
  import opened EmissionCorrect

  /** The byte ranges of a transfer are inside their memories. */
  predicate Placed(sram: int, ddr: int, rows: nat, cols: nat, pitch: nat) {
    && 1 <= rows < TWO_32 && 1 <= cols && 2 * cols < TWO_32 && pitch < TWO_32
    && sram % 16 == 0 && ddr % 16 == 0
    && SRAM_ADDR <= sram && sram + 2 * (rows * cols) <= SRAM_ADDR + SRAM_SIZE
    && DDR_ADDR <= ddr && ddr + pitch * (rows - 1) + 2 * cols <= DDR_ADDR + DDR_SIZE
  }

  function LoadParam(sram: int, ddr: int, rows: nat, cols: nat, pitch: nat): DmaParam
    requires Placed(sram, ddr, rows, cols, pitch)
  {
    DmaParam(sram, ddr, rows, cols, pitch, 2 * cols)
  }

  function StoreParam(sram: int, ddr: int, rows: nat, cols: nat): DmaParam
    requires Placed(sram, ddr, rows, cols, 2 * cols)
  {
    DmaParam(sram, ddr, rows, cols, 2 * cols, 2 * cols)
  }

  /** Row `i` of both sides, with no 32-bit wrap-around. */
  lemma RowPlace(sram: int, ddr: int, rows: nat, cols: nat, pitch: nat, i: nat)
    requires Placed(sram, ddr, rows, cols, pitch) && i < rows
    ensures U32(sram + U32(2 * cols * i)) == sram + 2 * (i * cols)
    ensures sram <= sram + 2 * (i * cols) && sram + 2 * (i * cols) + 2 * cols <= SRAM_ADDR + SRAM_SIZE
    ensures U32(ddr + U32(pitch * i)) == ddr + pitch * i
    ensures ddr <= ddr + pitch * i && ddr + pitch * i + 2 * cols <= DDR_ADDR + DDR_SIZE
  {
    RowMajor(i, cols - 1, rows, cols);
    MulMonotone(pitch, i, rows - 1);
    MulMonotone(pitch, 0, i);
    MulMonotone(cols, 0, i);
    assert 2 * cols * i == 2 * (i * cols);
    Small(sram, 2 * cols * i);
    Small(ddr, pitch * i);
  }

  lemma Small(a: int, b: int)
    requires 0 <= a && 0 <= b && a + b < TWO_32
    ensures U32(a + U32(b)) == a + b
  {
  }

  lemma RowReachable(s: Space, a: int, cols: nat)
    requires In(s, a) && cols >= 1 && In(s, a + 2 * cols - 1)
    ensures Reachable(s, Row(a, cols))
  {
  }

  /** Row `i` of a load is a row copy between the addresses that `Copies` names. */
  lemma LoadRowIs(sram: int, ddr: int, rows: nat, cols: nat, pitch: nat, i: nat)
    requires Placed(sram, ddr, rows, cols, pitch) && i < rows
    ensures var d := LoadParam(sram, ddr, rows, cols, pitch);
      && In(Sram, DmaSram(d, true, i)) && In(Ddr, DmaDdr(d, true, i))
      && DmaRow(d, true, i) == Step(Copy, Ddr, Row(ddr + pitch * i, cols), Sram, Row(sram + 2 * (i * cols), cols))
      && Reachable(Ddr, Row(ddr + pitch * i, cols)) && Reachable(Sram, Row(sram + 2 * (i * cols), cols))
  {
    hide U32, Reachable, Row;
    RowPlace(sram, ddr, rows, cols, pitch, i);
    var a, b := sram + 2 * (i * cols), ddr + pitch * i;
    RowReachable(Sram, a, cols);
    RowReachable(Ddr, b, cols);
  }

  lemma LoadCopies(sram: int, ddr: int, rows: nat, cols: nat, pitch: nat)
    requires Placed(sram, ddr, rows, cols, pitch)
    ensures var i := DmaLoad(LoadParam(sram, ddr, rows, cols, pitch));
      Asserts(i) && Copies(Steps(i), Ddr, Sram, rows, cols, ddr, pitch, sram)
  {
    assert sram % 16 == 0 && ddr % 16 == 0;
    hide Placed, In, U32, Reachable, Row, DmaRow, DmaSram, DmaDdr;
    forall i | 0 <= i < rows
      ensures var d := LoadParam(sram, ddr, rows, cols, pitch);
        && In(Sram, DmaSram(d, true, i)) && In(Ddr, DmaDdr(d, true, i))
        && DmaRow(d, true, i) == Step(Copy, Ddr, Row(ddr + pitch * i, cols), Sram, Row(sram + 2 * (i * cols), cols))
        && Reachable(Ddr, Row(ddr + pitch * i, cols)) && Reachable(Sram, Row(sram + 2 * (i * cols), cols))
    {
      LoadRowIs(sram, ddr, rows, cols, pitch, i);
    }
  }

  lemma StoreRowIs(sram: int, ddr: int, rows: nat, cols: nat, i: nat)
    requires Placed(sram, ddr, rows, cols, 2 * cols) && i < rows
    ensures var d := StoreParam(sram, ddr, rows, cols);
      && In(Sram, DmaSram(d, false, i)) && In(Ddr, DmaDdr(d, false, i))
      && DmaRow(d, false, i) == Step(Copy, Sram, Row(sram + 2 * cols * i, cols), Ddr, Row(ddr + 2 * (i * cols), cols))
      && Reachable(Sram, Row(sram + 2 * cols * i, cols)) && Reachable(Ddr, Row(ddr + 2 * (i * cols), cols))
  {
    hide U32, Reachable, Row;
    RowPlace(sram, ddr, rows, cols, 2 * cols, i);
    assert 2 * cols * i == 2 * (i * cols);
    var a, b := sram + 2 * cols * i, ddr + 2 * (i * cols);
    RowReachable(Sram, a, cols);
    RowReachable(Ddr, b, cols);
  }

  lemma StoreCopies(sram: int, ddr: int, rows: nat, cols: nat)
    requires Placed(sram, ddr, rows, cols, 2 * cols)
    ensures var i := DmaStore(StoreParam(sram, ddr, rows, cols));
      Asserts(i) && Copies(Steps(i), Sram, Ddr, rows, cols, sram, 2 * cols, ddr)
  {
    assert sram % 16 == 0 && ddr % 16 == 0;
    hide Placed, In, U32, Reachable, Row, DmaRow, DmaSram, DmaDdr;
    forall i | 0 <= i < rows
      ensures var d := StoreParam(sram, ddr, rows, cols);
        && In(Sram, DmaSram(d, false, i)) && In(Ddr, DmaDdr(d, false, i))
        && DmaRow(d, false, i) == Step(Copy, Sram, Row(sram + 2 * cols * i, cols), Ddr, Row(ddr + 2 * (i * cols), cols))
        && Reachable(Sram, Row(sram + 2 * cols * i, cols)) && Reachable(Ddr, Row(ddr + 2 * (i * cols), cols))
    {
      StoreRowIs(sram, ddr, rows, cols, i);
    }
  }

  /** DMA_LOAD of a pitched DDR rectangle leaves it packed in SRAM and changes nothing else. */
  lemma LoadMoves<F>(f: Fpu<F>, m: Mem, sram: int, ddr: int, rows: nat, cols: nat, pitch: nat, t: Tensor)
    requires Full(m) && Placed(sram, ddr, rows, cols, pitch) && SourceIs(m, t, rows, cols, ddr, pitch)
    ensures var r := Exec(f, m, DmaLoad(LoadParam(sram, ddr, rows, cols, pitch)));
      && r.Some? && Full(r.value) && Holds(r.value, sram, t)
      && forall b: int, n: nat {:trigger Row(b, n)} | RangesApart(sram, rows * cols, b, n) ::
          Fetch(r.value, Row(b, n)) == Fetch(m, Row(b, n))
  {
    hide Asserts, Steps, DoSteps, Full, Copies, SourceIs, Fetch, Row;
    LoadCopies(sram, ddr, rows, cols, pitch);
    var i := DmaLoad(LoadParam(sram, ddr, rows, cols, pitch));
    CopiesResult(f, m, Steps(i), Ddr, Sram, rows, cols, ddr, pitch, sram, t);
  }

  /** DMA_STORE of a packed SRAM buffer leaves it packed in DDR and changes nothing else. */
  lemma StoreMoves<F>(f: Fpu<F>, m: Mem, sram: int, ddr: int, rows: nat, cols: nat, t: Tensor)
    requires Full(m) && Placed(sram, ddr, rows, cols, 2 * cols) && SourceIs(m, t, rows, cols, sram, 2 * cols)
    ensures var r := Exec(f, m, DmaStore(StoreParam(sram, ddr, rows, cols)));
      && r.Some? && Full(r.value) && Holds(r.value, ddr, t)
      && forall b: int, n: nat {:trigger Row(b, n)} | RangesApart(ddr, rows * cols, b, n) ::
          Fetch(r.value, Row(b, n)) == Fetch(m, Row(b, n))
  {
    hide Asserts, Steps, DoSteps, Full, Copies, SourceIs, Fetch, Row;
    StoreCopies(sram, ddr, rows, cols);
    var i := DmaStore(StoreParam(sram, ddr, rows, cols));
    CopiesResult(f, m, Steps(i), Sram, Ddr, rows, cols, sram, 2 * cols, ddr, t);
  }

  /** A packed tensor is a source with its own row length as pitch. */
  lemma PackedSource(m: Mem, t: Tensor, rows: nat, cols: nat, base: int)
    requires |t| == rows * cols && Holds(m, base, t)
    ensures SourceIs(m, t, rows, cols, base, 2 * cols)
  {
    hide Load16, Holds, SourceWord;
    forall i: nat, j: nat | i < rows && j < cols
      ensures SourceWord(m, t, i, j, cols, base, 2 * cols)
    {
      PackedWord(m, t, rows, cols, base, i, j);
    }
  }

  lemma PackedWord(m: Mem, t: Tensor, rows: nat, cols: nat, base: int, i: nat, j: nat)
    requires |t| == rows * cols && Holds(m, base, t) && i < rows && j < cols
    ensures SourceWord(m, t, i, j, cols, base, 2 * cols)
  {
    hide Load16;
    RowMajor(i, j, rows, cols);
    MulMonotone(cols, 0, i);
    assert base + 2 * cols * i + 2 * j == base + 2 * (i * cols + j);
    assert Fetch(m, Row(base, |t|))[i * cols + j] == Load16(m, base + 2 * (i * cols + j));
  }

  /** A window of a packed tensor is a source with the tensor's row length as pitch. */
  lemma WindowSource(m: Mem, t: Tensor, pitch: nat, ro: nat, co: nat, rows: nat, cols: nat, base: int)
    requires (ro + rows) * pitch <= |t| && co + cols <= pitch && Holds(m, base, t)
    ensures SourceIs(m, Window(t, pitch, ro, co, rows, cols), rows, cols, base + ro * (2 * pitch) + co * 2, 2 * pitch)
  {
    hide Load16, Window, Holds, SourceWord;
    var w, src := Window(t, pitch, ro, co, rows, cols), base + ro * (2 * pitch) + co * 2;
    forall i: nat, j: nat | i < rows && j < cols
      ensures SourceWord(m, w, i, j, cols, src, 2 * pitch)
    {
      WindowWord(m, t, pitch, ro, co, rows, cols, base, i, j);
    }
  }

  lemma WindowWord(m: Mem, t: Tensor, pitch: nat, ro: nat, co: nat, rows: nat, cols: nat, base: int, i: nat, j: nat)
    requires (ro + rows) * pitch <= |t| && co + cols <= pitch && Holds(m, base, t) && i < rows && j < cols
    ensures SourceWord(m, Window(t, pitch, ro, co, rows, cols), i, j, cols, base + ro * (2 * pitch) + co * 2, 2 * pitch)
  {
    hide Load16;
    RowMajor(i, j, rows, cols);
    MulMonotone(cols, 0, i);
    DivModOfMulAdd(i, j, cols);
    WindowInside(pitch, ro, co, rows, cols, i * cols + j);
    var at := (ro + i) * pitch + co + j;
    assert at == ro * pitch + i * pitch + co + j;
    assert base + ro * (2 * pitch) + co * 2 + 2 * pitch * i + 2 * j == base + 2 * at;
    assert Fetch(m, Row(base, |t|))[at] == Load16(m, base + 2 * at);
  }
}
