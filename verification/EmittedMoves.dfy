/** Emitted DMA instructions move tensors between their DDR slots and SRAM buffers. */
module EmittedMoves {
  import opened Arithmetic
  import opened Types
  import opened Machine
  import opened EclipseIR
  import opened Emission
  import opened StepValues
  import opened EmissionCorrect
  import opened DmaOps

  /* ---- buffers and roots in memory ---- */

  function At(ty: Typing, b: Buf): int
    requires b < |ty.buf|
  {
    Place(ty).sram[b]
  }

  /** Word `at` of an initialised buffer: where it is and what is there. */
  lemma BufWord(m: Mem, ty: Typing, st: State, b: Buf, at: nat)
    requires Fits(ty) && Sim(m, ty, st) && b in st.bufs && at < |st.bufs[b]|
    ensures Load16(m, At(ty, b) + 2 * at) == st.bufs[b][at]
    ensures WordInside(ty, b, at)
  {
    hide Load16, Full, Place, Fits;
    SizedWordInside(ty, b, at);
    var t := st.bufs[b];
    assert Holds(m, At(ty, b), t);
    assert Fetch(m, Row(At(ty, b), |t|))[at] == Load16(m, At(ty, b) + 2 * at);
  }

  predicate WordInside(ty: Typing, b: Buf, at: nat)
    requires b < |ty.buf|
  {
    var a := At(ty, b) + 2 * at;
    In(Sram, a) && In(Sram, a + 1) && U32(At(ty, b) + 2 * U32(at)) == a == U32(U32(At(ty, b)) + 2 * at)
  }

  lemma SizedWordInside(ty: Typing, b: Buf, at: nat)
    requires Fits(ty) && b < |ty.buf| && at < Size(ty.buf[b])
    ensures WordInside(ty, b, at)
  {
    hide Place, Fits, Size;
    PlacedInside(ty, b);
  }

  /** Words of different buffers have no byte in common. */
  lemma BufsApart(ty: Typing, b: Buf, c: Buf, i: nat, j: nat)
    requires Fits(ty) && b < |ty.buf| && c < |ty.buf| && b != c && i < Size(ty.buf[b]) && j < Size(ty.buf[c])
    ensures Apart(At(ty, b) + 2 * i, At(ty, c) + 2 * j)
  {
    hide Place, Fits, Size;
    if b < c { PlacedApart(ty, b, c); } else { PlacedApart(ty, c, b); }
  }

  lemma BufferAway(ty: Typing, b: Buf, c: Buf)
    requires Fits(ty) && b < |ty.buf| && c < |ty.buf| && b != c
    ensures RangesApart(At(ty, b), Size(ty.buf[b]), At(ty, c), Size(ty.buf[c]))
  {
    hide Place, Fits, Size;
    if b < c { PlacedApart(ty, b, c); } else { PlacedApart(ty, c, b); }
  }

  lemma RootAway(ty: Typing, b: Buf, r: Root)
    requires Fits(ty) && b < |ty.buf| && r < |ty.root|
    ensures RangesApart(At(ty, b), Size(ty.buf[b]), DdrAddr(r), Size(ty.root[r]))
    ensures RangesApart(DdrAddr(r), Size(ty.root[r]), At(ty, b), Size(ty.buf[b]))
  {
    hide Place, Fits, Size, DdrAddr;
    PlacedInside(ty, b);
    RootInside(ty, r);
  }

  lemma RootsAway(ty: Typing, r: Root, s: Root)
    requires Fits(ty) && r < |ty.root| && s < |ty.root| && r != s
    ensures RangesApart(DdrAddr(r), Size(ty.root[r]), DdrAddr(s), Size(ty.root[s]))
  {
    hide Fits, Size, DdrAddr;
    if r < s { RootsApart(ty, r, s); } else { RootsApart(ty, s, r); }
  }

  /** Everything outside the `n` words at `base` is as before. */
  ghost predicate OnlyChanges(m: Mem, m': Mem, base: int, n: nat) {
    forall b: int, k: nat {:trigger Row(b, k)} | RangesApart(base, n, b, k) :: Fetch(m', Row(b, k)) == Fetch(m, Row(b, k))
  }

  lemma SimAfterBuf(m: Mem, m': Mem, ty: Typing, st: State, b: Buf, t: Tensor)
    requires Fits(ty) && Sim(m, ty, st) && b < |ty.buf| && |t| == Size(ty.buf[b])
    requires Full(m') && Holds(m', At(ty, b), t) && OnlyChanges(m, m', At(ty, b), Size(ty.buf[b]))
    ensures Sim(m', ty, st.(bufs := st.bufs[b := t]))
  {
    hide Full, Fetch, Fits, Size, Place, DdrAddr, RangesApart;
    var st' := st.(bufs := st.bufs[b := t]);
    forall r: nat | r < |ty.root|
      ensures |st'.roots[r]| == Size(ty.root[r]) && Holds(m', DdrAddr(r), st'.roots[r])
    {
      RootAway(ty, b, r);
      assert Holds(m, DdrAddr(r), st.roots[r]);
    }
    forall c: nat | c in st'.bufs
      ensures |st'.bufs[c]| == Size(ty.buf[c]) && Holds(m', Place(ty).sram[c], st'.bufs[c])
    {
      if c != b {
        BufferAway(ty, b, c);
        assert Holds(m, At(ty, c), st.bufs[c]);
      }
    }
  }

  lemma SimAfterRoot(m: Mem, m': Mem, ty: Typing, st: State, r: Root, t: Tensor)
    requires Fits(ty) && Sim(m, ty, st) && r < |ty.root| && |t| == Size(ty.root[r])
    requires Full(m') && Holds(m', DdrAddr(r), t) && OnlyChanges(m, m', DdrAddr(r), Size(ty.root[r]))
    ensures Sim(m', ty, st.(roots := st.roots[r := t]))
  {
    hide Full, Fetch, Fits, Size, Place, DdrAddr, RangesApart;
    var st' := st.(roots := st.roots[r := t]);
    forall s: nat | s < |ty.root|
      ensures |st'.roots[s]| == Size(ty.root[s]) && Holds(m', DdrAddr(s), st'.roots[s])
    {
      if s != r {
        RootsAway(ty, r, s);
        assert Holds(m, DdrAddr(s), st.roots[s]);
      }
    }
    forall c: nat | c in st'.bufs
      ensures |st'.bufs[c]| == Size(ty.buf[c]) && Holds(m', Place(ty).sram[c], st'.bufs[c])
    {
      RootAway(ty, c, r);
      assert Holds(m, At(ty, c), st.bufs[c]);
    }
  }

  /* ---- data movement ---- */

  /** The byte address of a load through a subview is 16-byte aligned; other operations always are. */
  predicate Aligned(ty: Typing, op: IrOp) {
    match op
    case Load(SubOf(CastOf(Base(r)), Fixed(ro), Fixed(co), _, _), _) =>
      r < |ty.root| ==> (DdrAddr(r) + ro * (2 * ty.root[r].cols) + co * 2) % 16 == 0
    case _ => true
  }

  lemma BufferBounds(ty: Typing, b: Buf)
    requires Fits(ty) && b < |ty.buf|
    ensures NonEmpty(ty.buf[b]) && 1 <= Size(ty.buf[b])
    ensures SRAM_ADDR <= At(ty, b) && At(ty, b) + 2 * Size(ty.buf[b]) <= SRAM_ADDR + SRAM_SIZE
    ensures At(ty, b) % 16 == 0 && U32(At(ty, b)) == At(ty, b)
  {
    hide Place;
    PlacedInside(ty, b);
    RowMajor(0, 0, ty.buf[b].rows, ty.buf[b].cols);
  }

  lemma RootBounds(ty: Typing, r: Root)
    requires Fits(ty) && r < |ty.root|
    ensures NonEmpty(ty.root[r])
    ensures DDR_ADDR <= DdrAddr(r) && DdrAddr(r) + 2 * Size(ty.root[r]) <= DDR_ADDR + DDR_SIZE
    ensures DdrAddr(r) % 16 == 0 && U32(DdrAddr(r)) == DdrAddr(r)
  {
    RootInside(ty, r);
  }

  lemma WholePlaced(sram: int, ddr: int, shape: Shape)
    requires NonEmpty(shape) && sram % 16 == 0 && ddr % 16 == 0
    requires SRAM_ADDR <= sram && sram + 2 * Size(shape) <= SRAM_ADDR + SRAM_SIZE
    requires DDR_ADDR <= ddr && ddr + 2 * Size(shape) <= DDR_ADDR + DDR_SIZE
    ensures Placed(sram, ddr, shape.rows, shape.cols, 2 * shape.cols)
  {
    assert 2 * shape.cols * (shape.rows - 1) + 2 * shape.cols == 2 * (shape.rows * shape.cols);
  }

  /** What a cast of a root denotes. */
  lemma CastView(ty: Typing, st: State, r: Root)
    ensures ViewShape(ty, CastOf(Base(r))) == (if r < |ty.root| then Some(ty.root[r]) else None)
    ensures Read(ty, st, CastOf(Base(r))) == (if r in st.roots then Some(st.roots[r]) else None)
  {
    assert ViewShape(ty, Base(r)) == (if r < |ty.root| then Some(ty.root[r]) else None);
    assert Read(ty, st, Base(r)) == (if r in st.roots then Some(st.roots[r]) else None);
  }

  lemma LoadWhole<F>(f: Fpu<F>, ty: Typing, m: Mem, st: State, r: Root, b: Buf)
    requires Fits(ty) && Sim(m, ty, st) && r < |ty.root| && b < |ty.buf| && ty.buf[b] == ty.root[r]
    ensures var op := Load(CastOf(Base(r)), b);
      && EmitOp(ty, Place(ty), op).Some? && EvalOp(f, ty, st, op).Some?
      && var m' := Exec(f, m, EmitOp(ty, Place(ty), op).value);
        m'.Some? && Sim(m'.value, ty, EvalOp(f, ty, st, op).value)
  {
    hide Full, Fetch, Exec, Place, Row, Size, U32, NonEmpty, Placed, Fits, DdrAddr;
    var shape := ty.root[r];
    CastView(ty, st, r);
    BufferBounds(ty, b);
    RootBounds(ty, r);
    WholePlaced(At(ty, b), DdrAddr(r), shape);
    var t := st.roots[r];
    PackedRoot(m, ty, st, r);
    LoadMoves(f, m, At(ty, b), DdrAddr(r), shape.rows, shape.cols, 2 * shape.cols, t);
    EmittedLoad(ty, r, b);
    var i := DmaLoad(LoadParam(At(ty, b), DdrAddr(r), shape.rows, shape.cols, 2 * shape.cols));
    var m' := Exec(f, m, i).value;
    SizeIs(shape);
    SimAfterBuf(m, m', ty, st, b, t);
  }

  lemma SizeIs(s: Shape)
    ensures Size(s) == s.rows * s.cols
  {
  }

  lemma PackedRoot(m: Mem, ty: Typing, st: State, r: Root)
    requires Sim(m, ty, st) && r < |ty.root|
    ensures r in st.roots && |st.roots[r]| == Size(ty.root[r]) && Holds(m, DdrAddr(r), st.roots[r])
    ensures SourceIs(m, st.roots[r], ty.root[r].rows, ty.root[r].cols, DdrAddr(r), 2 * ty.root[r].cols)
  {
    hide Full, Holds, DdrAddr, SourceIs;
    PackedSource(m, st.roots[r], ty.root[r].rows, ty.root[r].cols, DdrAddr(r));
  }

  lemma PackedBuf(m: Mem, ty: Typing, st: State, b: Buf)
    requires Sim(m, ty, st) && b in st.bufs
    ensures b < |ty.buf| && |st.bufs[b]| == Size(ty.buf[b])
    ensures SourceIs(m, st.bufs[b], ty.buf[b].rows, ty.buf[b].cols, At(ty, b), 2 * ty.buf[b].cols)
  {
    hide Full, Holds, Place, SourceIs;
    PackedSource(m, st.bufs[b], ty.buf[b].rows, ty.buf[b].cols, At(ty, b));
  }

  lemma EmittedLoad(ty: Typing, r: Root, b: Buf)
    requires Fits(ty) && r < |ty.root| && b < |ty.buf| && ty.buf[b] == ty.root[r]
    ensures var shape := ty.root[r];
      && Placed(At(ty, b), DdrAddr(r), shape.rows, shape.cols, 2 * shape.cols)
      && EmitOp(ty, Place(ty), Load(CastOf(Base(r)), b))
        == Some(DmaLoad(LoadParam(At(ty, b), DdrAddr(r), shape.rows, shape.cols, 2 * shape.cols)))
  {
    hide Place, Size, Placed, Fits, DdrAddr, U32;
    BufferBounds(ty, b);
    RootBounds(ty, r);
    WholePlaced(At(ty, b), DdrAddr(r), ty.root[r]);
    SmallU32(ty.root[r].rows);
    SmallU32(ty.root[r].cols);
    SmallU32(2 * ty.root[r].cols);
  }

  lemma EmittedStore(ty: Typing, r: Root, b: Buf)
    requires Fits(ty) && r < |ty.root| && b < |ty.buf| && ty.buf[b] == ty.root[r]
    ensures var shape := ty.root[r];
      && Placed(At(ty, b), DdrAddr(r), shape.rows, shape.cols, 2 * shape.cols)
      && EmitOp(ty, Place(ty), Store(b, CastOf(Base(r))))
        == Some(DmaStore(StoreParam(At(ty, b), DdrAddr(r), shape.rows, shape.cols)))
  {
    hide Place, Size, Placed, Fits, DdrAddr, U32;
    BufferBounds(ty, b);
    RootBounds(ty, r);
    WholePlaced(At(ty, b), DdrAddr(r), ty.root[r]);
    SmallU32(ty.root[r].rows);
    SmallU32(ty.root[r].cols);
    SmallU32(2 * ty.root[r].cols);
  }

  lemma StoreWhole<F>(f: Fpu<F>, ty: Typing, m: Mem, st: State, r: Root, b: Buf)
    requires Fits(ty) && Sim(m, ty, st) && b in st.bufs && r < |ty.root| && b < |ty.buf| && ty.buf[b] == ty.root[r]
    ensures var op := Store(b, CastOf(Base(r)));
      && EmitOp(ty, Place(ty), op).Some? && EvalOp(f, ty, st, op).Some?
      && var m' := Exec(f, m, EmitOp(ty, Place(ty), op).value);
        m'.Some? && Sim(m'.value, ty, EvalOp(f, ty, st, op).value)
  {
    hide Full, Fetch, Exec, Place, Row, Size, U32, NonEmpty, Placed, Fits, DdrAddr;
    var shape := ty.root[r];
    CastView(ty, st, r);
    EmittedStore(ty, r, b);
    var t := st.bufs[b];
    PackedBuf(m, ty, st, b);
    StoreMoves(f, m, At(ty, b), DdrAddr(r), shape.rows, shape.cols, t);
    var i := DmaStore(StoreParam(At(ty, b), DdrAddr(r), shape.rows, shape.cols));
    SizeIs(shape);
    SimAfterRoot(m, Exec(f, m, i).value, ty, st, r, t);
  }

  /* ---- a load through a subview ---- */

  lemma WindowPlaced(ddr: int, shape: Shape, ro: nat, co: nat, rows: nat, cols: nat)
    requires NonEmpty(shape) && DDR_ADDR <= ddr && ddr + 2 * Size(shape) <= DDR_ADDR + DDR_SIZE
    requires (ro + rows) * shape.cols <= Size(shape) && co + cols <= shape.cols && 1 <= rows && 1 <= cols
    ensures var at := ddr + ro * (2 * shape.cols) + co * 2;
      && DDR_ADDR <= at && at + 2 * shape.cols * (rows - 1) + 2 * cols <= DDR_ADDR + DDR_SIZE
      && U32(ddr + U32(ro) * U32(2 * shape.cols) + U32(co) * 2) == at && 2 * cols <= 2 * shape.cols < TWO_32
  {
    hide U32, Size;
    var pitch := 2 * shape.cols;
    WindowBounds(pitch, ro, rows);
    assert pitch * (ro + rows) == 2 * ((ro + rows) * shape.cols);
    SmallU32(ro);
    SmallU32(co);
    SmallU32(pitch);
    SmallU32(ddr + ro * pitch + co * 2);
  }

  lemma WindowBounds(pitch: nat, ro: nat, rows: nat)
    requires pitch >= 1 && rows >= 1
    ensures ro <= ro * pitch && 0 <= pitch * (rows - 1) && ro * pitch + pitch * (rows - 1) + pitch == pitch * (ro + rows)
  {
    MulMonotone(ro, 1, pitch);
    MulMonotone(pitch, 0, rows - 1);
  }

  lemma SmallU32(a: int)
    requires 0 <= a < TWO_32
    ensures U32(a) == a
  {
  }

  lemma LoadWindow<F>(f: Fpu<F>, ty: Typing, m: Mem, st: State, op: IrOp, r: Root, ro: nat, co: nat)
    requires Fits(ty) && Sim(m, ty, st) && WellTyped(ty, op) && op.Load? && r < |ty.root|
    requires op.src.SubOf? && op.src == SubOf(CastOf(Base(r)), Fixed(ro), Fixed(co), op.src.rows, op.src.cols)
    requires EvalOp(f, ty, st, op).Some?
    ensures EmitOp(ty, Place(ty), op).Some?
    ensures var m' := Exec(f, m, EmitOp(ty, Place(ty), op).value);
      && (m'.Some? <==> Aligned(ty, op))
      && (m'.Some? ==> Sim(m'.value, ty, EvalOp(f, ty, st, op).value))
  {
    hide Full, Fetch, Exec, Place, Row, Size, U32, Placed, Fits, DdrAddr, NonEmpty, Holds, SourceIs, Window;
    var b, rows, cols, shape := op.dst, op.src.rows, op.src.cols, ty.root[r];
    BufferBounds(ty, b);
    RootBounds(ty, r);
    PackedRoot(m, ty, st, r);
    CastView(ty, st, r);
    assert ty.buf[b] == Shape(rows, cols);
    var t := st.roots[r];
    PositiveShape(ty.buf[b]);
    WindowPlaced(DdrAddr(r), shape, ro, co, rows, cols);
    var at := DdrAddr(r) + ro * (2 * shape.cols) + co * 2;
    EmittedWindow(ty, op, r, ro, co, at);
    if at % 16 == 0 {
      WindowSource(m, t, shape.cols, ro, co, rows, cols, DdrAddr(r));
      var w := Window(t, shape.cols, ro, co, rows, cols);
      LoadMoves(f, m, At(ty, b), at, rows, cols, 2 * shape.cols, w);
      SizeIs(ty.buf[b]);
      SimAfterBuf(m, Exec(f, m, EmitOp(ty, Place(ty), op).value).value, ty, st, b, w);
    } else {
      MisalignedFails(f, m, EmitOp(ty, Place(ty), op).value);
    }
  }

  lemma PositiveShape(s: Shape)
    requires NonEmpty(s)
    ensures 1 <= s.rows && 1 <= s.cols
  {
  }

  lemma MisalignedFails<F>(f: Fpu<F>, m: Mem, i: Instr)
    requires i.DmaLoad? && i.dma.ddrAddr % 16 != 0
    ensures Exec(f, m, i).None?
  {
    hide DmaSram, DmaDdr, Steps, DoSteps;
  }

  lemma EmittedWindow(ty: Typing, op: IrOp, r: Root, ro: nat, co: nat, at: int)
    requires Fits(ty) && WellTyped(ty, op) && op.Load? && r < |ty.root|
    requires op.src.SubOf? && op.src == SubOf(CastOf(Base(r)), Fixed(ro), Fixed(co), op.src.rows, op.src.cols)
    requires (ro + op.src.rows) * ty.root[r].cols <= Size(ty.root[r]) && co + op.src.cols <= ty.root[r].cols
    requires at == DdrAddr(r) + ro * (2 * ty.root[r].cols) + co * 2
    ensures EmitOp(ty, Place(ty), op).Some? && EmitOp(ty, Place(ty), op).value.DmaLoad?
    ensures EmitOp(ty, Place(ty), op).value.dma.ddrAddr == at
    ensures at % 16 == 0 ==>
      && Placed(At(ty, op.dst), at, op.src.rows, op.src.cols, 2 * ty.root[r].cols)
      && EmitOp(ty, Place(ty), op).value.dma
        == LoadParam(At(ty, op.dst), at, op.src.rows, op.src.cols, 2 * ty.root[r].cols)
  {
    hide Place, Fits, DdrAddr, Size, U32;
    var b, rows, cols, shape := op.dst, op.src.rows, op.src.cols, ty.root[r];
    BufferBounds(ty, b);
    RootBounds(ty, r);
    assert ty.buf[b] == Shape(rows, cols);
    WindowPlaced(DdrAddr(r), shape, ro, co, rows, cols);
    SizeIs(ty.buf[b]);
    SmallU32(rows);
    SmallU32(cols);
    SmallU32(2 * cols);
    SmallU32(2 * shape.cols);
  }
}
