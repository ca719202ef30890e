/** When operations touch different tensors, the checker finds no hazard between their instructions. */
module StreamHazards {
  import opened Arithmetic
  import opened Types
  import opened Machine
  import opened HazardChecker
  import opened EclipseIR
  import opened Emission
  import opened EmissionCorrect
  import opened DmaOps
  import opened EmittedMoves
  import opened EmittedCompute
  import opened ElideCopies
  import opened Renaming

  /** A tensor's home: an SRAM buffer or a DDR root. */
  datatype Home = InBuf(b: Buf) | InRoot(r: Root)

  function ReadHomes(op: IrOp): set<Home> {
    match op
    case Load(v, _) => {InRoot(RootOf(v))}
    case Store(b, _) => {InBuf(b)}
    case MatmulOp(l, r, d, acc, _, _) => {InBuf(l), InBuf(r)} + (if acc then {InBuf(d)} else {})
    case EwiseOp(_, l, r, _) => {InBuf(l), InBuf(r)}
    case ActOp(_, a, _) => {InBuf(a)}
    case ReduceOp(_, a, _) => {InBuf(a)}
    case _ => {}
  }

  function WriteHomes(op: IrOp): set<Home> {
    match op
    case Store(_, v) => {InRoot(RootOf(v))}
    case _ => if Written(op).Some? then {InBuf(Written(op).value)} else {}
  }

  /** No tensor written by one is touched by the other. */
  predicate Independent(a: IrOp, b: IrOp) {
    WriteHomes(a) !! ReadHomes(b) && WriteHomes(a) !! WriteHomes(b) && ReadHomes(a) !! WriteHomes(b)
  }

  predicate Known(ty: Typing, h: Home) {
    match h
    case InBuf(b) => b < |ty.buf|
    case InRoot(r) => r < |ty.root|
  }

  /** The bytes of a tensor. */
  function Extent(ty: Typing, h: Home): Interval
    requires Known(ty, h)
  {
    match h
    case InBuf(b) => Interval(At(ty, b), At(ty, b) + 2 * Size(ty.buf[b]))
    case InRoot(r) => Interval(DdrAddr(r), DdrAddr(r) + 2 * Size(ty.root[r]))
  }

  lemma HomesApart(ty: Typing, g: Home, h: Home)
    requires Fits(ty) && Known(ty, g) && Known(ty, h) && g != h
    ensures Extent(ty, g).hi <= Extent(ty, h).lo || Extent(ty, h).hi <= Extent(ty, g).lo
  {
    hide Fits, At, Size, DdrAddr;
    match (g, h)
    case (InBuf(b), InBuf(c)) => BufferAway(ty, b, c);
    case (InBuf(b), InRoot(r)) => RootAway(ty, b, r);
    case (InRoot(r), InBuf(b)) => RootAway(ty, b, r);
    case (InRoot(r), InRoot(s)) => RootsAway(ty, r, s);
  }

  predicate Inside(x: Interval, y: Interval) { y.lo <= x.lo && x.hi <= y.hi }

  /** Every interval of the accesses lies in a tensor of `homes`. */
  ghost predicate Covered(ty: Typing, accesses: seq<Access>, homes: set<Home>) {
    forall a, k | a in accesses && 0 <= k < |a.ranges| :: InSome(ty, a.ranges[k], homes)
  }

  ghost predicate InSome(ty: Typing, x: Interval, homes: set<Home>) {
    exists h | h in homes :: Known(ty, h) && Inside(x, Extent(ty, h))
  }

  /** Accesses to different tensors do not overlap. */
  lemma CoveredApart(ty: Typing, a: Access, b: Access, xs: seq<Access>, ys: seq<Access>, g: set<Home>, h: set<Home>)
    requires Fits(ty) && Covered(ty, xs, g) && Covered(ty, ys, h) && g !! h && a in xs && b in ys
    ensures !Overlap(a.ranges, b.ranges)
  {
    hide Fits, Extent;
    forall i, j | 0 <= i < |a.ranges| && 0 <= j < |b.ranges|
      ensures !(a.ranges[i].lo < b.ranges[j].hi && b.ranges[j].lo < a.ranges[i].hi)
    {
      assert InSome(ty, a.ranges[i], g) && InSome(ty, b.ranges[j], h);
      var x :| x in g && Known(ty, x) && Inside(a.ranges[i], Extent(ty, x));
      var y :| y in h && Known(ty, y) && Inside(b.ranges[j], Extent(ty, y));
      HomesApart(ty, x, y);
    }
  }

  /* ---- the accesses of an emitted instruction ---- */

  /** A subview stays inside its root and is aligned. */
  predicate InBounds(ty: Typing, op: IrOp) {
    match op
    case Load(SubOf(CastOf(Base(r)), Fixed(ro), Fixed(co), rows, cols), _) =>
      r < |ty.root| && (ro + rows) * ty.root[r].cols <= Size(ty.root[r]) && co + cols <= ty.root[r].cols && Aligned(ty, op)
    case _ => true
  }

  ghost predicate Touches(ty: Typing, op: IrOp) {
    var i := EmitOp(ty, Place(ty), op);
    i.Some? ==> Covered(ty, Reads(i.value), ReadHomes(op)) && Covered(ty, Writes(i.value), WriteHomes(op))
  }

  lemma OneHome(ty: Typing, a: Access, h: Home)
    requires Known(ty, h) && forall k | 0 <= k < |a.ranges| :: Inside(a.ranges[k], Extent(ty, h))
    ensures Covered(ty, [a], {h})
  {
    hide Extent, Inside;
    forall x, k | x in [a] && 0 <= k < |x.ranges|
      ensures InSome(ty, x.ranges[k], {h})
    {
      assert h in {h};
    }
  }

  lemma MoreHomes(ty: Typing, xs: seq<Access>, ys: seq<Access>, g: set<Home>, h: set<Home>)
    requires Covered(ty, xs, g) && Covered(ty, ys, h)
    ensures Covered(ty, xs + ys, g + h)
  {
    hide Extent, Inside;
    forall a, k | a in xs + ys && 0 <= k < |a.ranges|
      ensures InSome(ty, a.ranges[k], g + h)
    {
      if a in xs {
        assert InSome(ty, a.ranges[k], g);
        var x :| x in g && Known(ty, x) && Inside(a.ranges[k], Extent(ty, x));
        assert x in g + h;
      } else {
        assert InSome(ty, a.ranges[k], h);
        var x :| x in h && Known(ty, x) && Inside(a.ranges[k], Extent(ty, x));
        assert x in g + h;
      }
    }
  }

  lemma NoHome(ty: Typing)
    ensures Covered(ty, [], {})
  {
  }

  /** A block of `n` words at the start of a buffer. */
  lemma BlockHome(ty: Typing, name: string, b: Buf, n: nat)
    requires b < |ty.buf| && n <= Size(ty.buf[b])
    ensures Covered(ty, [Access(name, Block(At(ty, b), n))], {InBuf(b)})
  {
    hide At, Size;
    OneHome(ty, Access(name, Block(At(ty, b), n)), InBuf(b));
  }

  /** The rows of a packed or pitched rectangle, as the checker computes them. */
  lemma TileHome(ty: Typing, name: string, h: Home, base: int, rows: nat, cols: nat, stride: nat)
    requires Known(ty, h) && Extent(ty, h).lo <= base
    requires rows > 0 ==> base + (rows - 1) * stride + 2 * cols <= Extent(ty, h).hi
    ensures Covered(ty, [Access(name, TileRanges(base, rows, cols, stride))], {h})
  {
    hide Extent;
    var a := Access(name, TileRanges(base, rows, cols, stride));
    forall k: nat | k < rows
      ensures Inside(a.ranges[k], Extent(ty, h))
    {
      MulMonotone(stride, k, rows - 1);
      MulMonotone(stride, 0, k);
    }
    OneHome(ty, a, h);
  }

  lemma PackedEnd(rows: nat, cols: nat)
    requires rows > 0
    ensures (rows - 1) * (2 * cols) + 2 * cols == 2 * (rows * cols)
  {
  }

  lemma WholeTouches(ty: Typing, op: IrOp, r: Root, b: Buf)
    requires Fits(ty) && r < |ty.root| && b < |ty.buf| && ty.buf[b] == ty.root[r]
    requires op == Load(CastOf(Base(r)), b) || op == Store(b, CastOf(Base(r)))
    ensures Touches(ty, op)
  {
    hide Place, Fits, Covered, Placed, DdrAddr, TileRanges, RootOf;
    RootIs(r);
    var s := ty.root[r];
    BufferBounds(ty, b);
    RootBounds(ty, r);
    PackedEnd(s.rows, s.cols);
    if op.Load? { EmittedLoad(ty, r, b); } else { EmittedStore(ty, r, b); }
    TileHome(ty, "DDR", InRoot(r), DdrAddr(r), s.rows, s.cols, 2 * s.cols);
    TileHome(ty, "SRAM", InBuf(b), At(ty, b), s.rows, s.cols, 2 * s.cols);
  }

  lemma WindowTouches(ty: Typing, op: IrOp, r: Root, ro: nat, co: nat)
    requires Fits(ty) && WellTyped(ty, op) && op.Load? && InBounds(ty, op) && op.src.SubOf?
    requires op.src == SubOf(CastOf(Base(r)), Fixed(ro), Fixed(co), op.src.rows, op.src.cols)
    ensures Touches(ty, op)
  {
    hide Place, Fits, Covered, Placed, DdrAddr, TileRanges, RootOf, Size;
    RootIs(r);
    var b, rows, cols, shape := op.dst, op.src.rows, op.src.cols, ty.root[r];
    BufferBounds(ty, b);
    RootBounds(ty, r);
    PositiveShape(ty.buf[b]);
    var at := DdrAddr(r) + ro * (2 * shape.cols) + co * 2;
    EmittedWindow(ty, op, r, ro, co, at);
    WindowEnd(ro, co, rows, cols, shape);
    PackedEnd(rows, cols);
    SizeIs(ty.buf[b]);
    TileHome(ty, "DDR", InRoot(r), at, rows, cols, 2 * shape.cols);
    TileHome(ty, "SRAM", InBuf(b), At(ty, b), rows, cols, 2 * cols);
  }

  lemma WindowEnd(ro: nat, co: nat, rows: nat, cols: nat, shape: Shape)
    requires (ro + rows) * shape.cols <= Size(shape) && co + cols <= shape.cols && rows > 0
    ensures ro * (2 * shape.cols) + co * 2 + (rows - 1) * (2 * shape.cols) + 2 * cols <= 2 * Size(shape)
    ensures 0 <= ro * (2 * shape.cols)
  {
    hide Size;
    var c := shape.cols;
    assert (ro + rows) * c == ro * c + rows * c;
    assert ro * (2 * c) == 2 * (ro * c);
    assert (rows - 1) * (2 * c) == 2 * (rows * c) - 2 * c;
    MulMonotone(c, 0, ro);
  }

  lemma ComputeTouches(ty: Typing, op: IrOp)
    requires Fits(ty) && WellTyped(ty, op) && Renaming.Computes(op)
    ensures Touches(ty, op)
  {
    hide Place, Fits, Covered, Block, Asserts, Steps;
    match op
    case MatmulOp(l, r, d, acc, _, _) => MatmulTouches(ty, op);
    case EwiseOp(_, l, r, d) => EwiseTouches(ty, op);
    case ActOp(_, a, d) => ActTouches(ty, op);
    case ReduceOp(_, a, d) => ReduceTouches(ty, op);
  }

  lemma MatmulTouches(ty: Typing, op: IrOp)
    requires Fits(ty) && WellTyped(ty, op) && op.MatmulOp?
    ensures Touches(ty, op)
  {
    hide Place, Fits, Covered, Block, Asserts, Dims, Size, MatmulDescriptor, EmitOp, WellTyped;
    MatmulEmitted(ty, op);
    MatmulDims(ty, op);
    MatmulSizes(ty, op);
    var d := MatmulDescriptor(ty, op);
    BlockHome(ty, "lhs", op.lhs, d.M * d.K);
    BlockHome(ty, "rhs", op.rhs, d.K * d.N);
    BlockHome(ty, "dst", op.out, d.M * d.N);
    var lhs, rhs, dst := Access("lhs", Block(d.lhsAddr, d.M * d.K)), Access("rhs", Block(d.rhsAddr, d.K * d.N)),
                         Access("dst", Block(d.dstAddr, d.M * d.N));
    MoreHomes(ty, [lhs], [rhs], {InBuf(op.lhs)}, {InBuf(op.rhs)});
    assert [lhs] + [rhs] == [lhs, rhs];
    assert {InBuf(op.lhs)} + {InBuf(op.rhs)} == {InBuf(op.lhs), InBuf(op.rhs)};
    if op.acc {
      MoreHomes(ty, [lhs, rhs], [dst], {InBuf(op.lhs), InBuf(op.rhs)}, {InBuf(op.out)});
    } else {
      assert [lhs, rhs] + [] == [lhs, rhs];
      assert ReadHomes(op) == {InBuf(op.lhs), InBuf(op.rhs)};
    }
  }

  lemma EwiseTouches(ty: Typing, op: IrOp)
    requires Fits(ty) && WellTyped(ty, op) && op.EwiseOp?
    ensures Touches(ty, op)
  {
    hide Place, Fits, Covered, Block, Asserts, Steps, Size, U32;
    EwiseEmitted(ty, op);
    var d := EmitOp(ty, Place(ty), op).value.ew;
    EwiseDims(ty, op);
    BufferBounds(ty, op.out);
    SizeIs(ty.buf[op.out]);
    SizeIs(ty.buf[op.rhs]);
    BlockHome(ty, "lhs", op.lhs, d.rows * d.cols);
    BlockHome(ty, "rhs", op.rhs, RhsElems(d));
    BlockHome(ty, "dst", op.out, d.rows * d.cols);
    var lhs, rhs := Access("lhs", Block(d.lhsAddr, d.rows * d.cols)), Access("rhs", Block(d.rhsAddr, RhsElems(d)));
    MoreHomes(ty, [lhs], [rhs], {InBuf(op.lhs)}, {InBuf(op.rhs)});
    assert [lhs] + [rhs] == [lhs, rhs];
    assert {InBuf(op.lhs)} + {InBuf(op.rhs)} == ReadHomes(op);
  }

  lemma EwiseDims(ty: Typing, op: IrOp)
    requires Fits(ty) && WellTyped(ty, op) && op.EwiseOp?
    requires EmitOp(ty, Place(ty), op).Some? && EmitOp(ty, Place(ty), op).value.Ewise?
    ensures var d := EmitOp(ty, Place(ty), op).value.ew;
      && d.rows == ty.buf[op.out].rows && d.cols == ty.buf[op.out].cols
      && RhsElems(d) == ty.buf[op.rhs].rows * ty.buf[op.rhs].cols
  {
    hide Place, Fits, Size, U32, RhsElems;
    BufferBounds(ty, op.out);
    BufferBounds(ty, op.rhs);
    var out, small := ty.buf[op.out], ty.buf[op.rhs];
    SmallU32(out.rows);
    SmallU32(out.cols);
    SmallU32(small.cols);
    BroadcastElems(EmitOp(ty, Place(ty), op).value.ew, out, small);
  }

  lemma BroadcastElems(d: EwiseParam, out: Shape, small: Shape)
    requires d.rows == out.rows && d.rhsBlk == small.cols > 0 && (small.rows == 1 || small.rows == out.rows)
    requires d.rhsStride == if small.rows == 1 then 0 else small.cols
    ensures RhsElems(d) == small.rows * small.cols
  {
  }

  lemma ActTouches(ty: Typing, op: IrOp)
    requires Fits(ty) && WellTyped(ty, op) && op.ActOp?
    ensures Touches(ty, op)
  {
    hide Place, Fits, Covered, Block, Size, U32;
    BufferBounds(ty, op.arg);
    BufferBounds(ty, op.out);
    SmallU32(Size(ty.buf[op.arg]));
    BlockHome(ty, "src", op.arg, Size(ty.buf[op.arg]));
    BlockHome(ty, "dst", op.out, Size(ty.buf[op.arg]));
  }

  lemma ReduceTouches(ty: Typing, op: IrOp)
    requires Fits(ty) && WellTyped(ty, op) && op.ReduceOp?
    ensures Touches(ty, op)
  {
    hide Place, Fits, Covered, Block, Size, U32;
    BufferBounds(ty, op.arg);
    BufferBounds(ty, op.out);
    var s := ty.buf[op.arg];
    SmallU32(s.rows);
    SmallU32(s.cols);
    SizeIs(s);
    SizeIs(ty.buf[op.out]);
    assert ReduceCode(op.red) != 3;
    BlockHome(ty, "src", op.arg, s.rows * s.cols);
    BlockHome(ty, "dst", op.out, s.rows);
    assert [Access("dst", Block(At(ty, op.out), s.rows))] + [] == [Access("dst", Block(At(ty, op.out), s.rows))];
  }

  /** The instruction of an operation touches only the tensors the operation names. */
  lemma OpTouches(ty: Typing, op: IrOp)
    requires Fits(ty) && WellTyped(ty, op) && InBounds(ty, op)
    ensures Touches(ty, op)
  {
    hide Place, Fits, Covered, InBounds, WellTyped;
    match op
    case Load(CastOf(Base(r)), b) =>
      CastTyped(ty, op, r, b);
      WholeTouches(ty, op, r, b);
    case Load(SubOf(CastOf(Base(r)), Fixed(ro), Fixed(co), _, _), _) => WindowTouches(ty, op, r, ro, co);
    case Store(b, CastOf(Base(r))) =>
      CastTyped(ty, op, r, b);
      WholeTouches(ty, op, r, b);
    case SyncOp => NoHome(ty);
    case MatmulOp(_, _, _, _, _, _) => ComputeTouches(ty, op);
    case EwiseOp(_, _, _, _) => ComputeTouches(ty, op);
    case ActOp(_, _, _) => ComputeTouches(ty, op);
    case ReduceOp(_, _, _) => ComputeTouches(ty, op);
    case _ =>
  }

  lemma CastTyped(ty: Typing, op: IrOp, r: Root, b: Buf)
    requires WellTyped(ty, op) && (op == Load(CastOf(Base(r)), b) || op == Store(b, CastOf(Base(r))))
    ensures r < |ty.root| && b < |ty.buf| && ty.buf[b] == ty.root[r]
  {
    CastView(ty, State(map[], map[]), r);
  }

  /* ---- streams ---- */

  /** No two operations without a SYNC between them touch a tensor that one of them writes. */
  ghost predicate HazardFree(ops: seq<IrOp>) {
    forall i, j | 0 <= i < j < |ops| && NoSync(ops, i, j) :: Independent(ops[i], ops[j])
  }

  predicate NoSync(ops: seq<IrOp>, i: int, j: int)
    requires 0 <= i <= j < |ops|
  {
    forall k | i <= k <= j :: ops[k] != SyncOp
  }

  /** Operations the emitters turn into one instruction each. */
  ghost predicate Emits(ty: Typing, ops: seq<IrOp>) {
    forall k | 0 <= k < |ops| ::
      WellTyped(ty, ops[k]) && InBounds(ty, ops[k]) && EmitOp(ty, Place(ty), ops[k]).Some?
  }

  lemma {:induction false} EmitAt(ty: Typing, ops: seq<IrOp>)
    requires forall k | 0 <= k < |ops| :: EmitOp(ty, Place(ty), ops[k]).Some?
    ensures |Emit(ty, Place(ty), ops)| == |ops|
    ensures forall k | 0 <= k < |ops| :: Emit(ty, Place(ty), ops)[k] == EmitOp(ty, Place(ty), ops[k]).value
    decreases ops
  {
    hide EmitOp, Place;
    if ops != [] {
      EmitAt(ty, ops[1..]);
    }
  }

  lemma SyncEmitted(ty: Typing, op: IrOp)
    requires EmitOp(ty, Place(ty), op).Some?
    ensures EmitOp(ty, Place(ty), op).value == Sync <==> op == SyncOp
  {
  }

  /** The checker has nothing to report about two independent operations. */
  lemma IndependentClear(ty: Typing, x: IrOp, y: IrOp, a: Access, b: Access, hazard: Hazard)
    requires Fits(ty) && Touches(ty, x) && Touches(ty, y) && Independent(x, y)
    requires EmitOp(ty, Place(ty), x).Some? && EmitOp(ty, Place(ty), y).Some?
    requires a in (if hazard == RAW then Reads(EmitOp(ty, Place(ty), y).value) else Writes(EmitOp(ty, Place(ty), y).value))
    requires b in (if hazard == WAR then Reads(EmitOp(ty, Place(ty), x).value) else Writes(EmitOp(ty, Place(ty), x).value))
    ensures !Overlap(a.ranges, b.ranges)
  {
    hide Fits, EmitOp, Place, Covered, Reads, Writes, ReadHomes, WriteHomes, Overlap;
    var i, j := EmitOp(ty, Place(ty), x).value, EmitOp(ty, Place(ty), y).value;
    match hazard
    case RAW => CoveredApart(ty, a, b, Reads(j), Writes(i), ReadHomes(y), WriteHomes(x));
    case WAR => CoveredApart(ty, a, b, Writes(j), Reads(i), WriteHomes(y), ReadHomes(x));
    case WAW => CoveredApart(ty, a, b, Writes(j), Writes(i), WriteHomes(y), WriteHomes(x));
  }

  /** A hazard-free operation list, placed by the bump allocator, passes the checker. */
  lemma StreamIsClean(ty: Typing, ops: seq<IrOp>)
    requires Fits(ty) && Emits(ty, ops) && HazardFree(ops)
    ensures Clean(Emit(ty, Place(ty), ops))
  {
    hide Fits, EmitOp, Place, Reads, Writes, Overlap, Emit, WellTyped, InBounds, Touches, Independent;
    EmitAt(ty, ops);
    var p := Emit(ty, Place(ty), ops);
    forall v
      ensures !IsHazard(p, v)
    {
      if v.prev < v.index < |p| && (forall k | v.prev <= k <= v.index :: p[k] != Sync) {
        PairClear(ty, ops, v);
      }
    }
  }

  lemma PairClear(ty: Typing, ops: seq<IrOp>, v: Violation)
    requires Fits(ty) && Emits(ty, ops) && HazardFree(ops)
    requires |Emit(ty, Place(ty), ops)| == |ops| && v.prev < v.index < |ops|
    requires forall k | v.prev <= k <= v.index :: Emit(ty, Place(ty), ops)[k] != Sync
    ensures !IsHazard(Emit(ty, Place(ty), ops), v)
  {
    hide Fits, EmitOp, Place, Reads, Writes, Overlap, Emit, WellTyped, InBounds, Touches, Independent;
    EmitAt(ty, ops);
    var p, x, y := Emit(ty, Place(ty), ops), ops[v.prev], ops[v.index];
    forall k | v.prev <= k <= v.index
      ensures ops[k] != SyncOp
    {
      SyncEmitted(ty, ops[k]);
      assert p[k] != Sync;
    }
    assert NoSync(ops, v.prev, v.index);
    OpTouches(ty, x);
    OpTouches(ty, y);
    forall a, b | a in (if v.hazard == RAW then Reads(p[v.index]) else Writes(p[v.index]))
                  && b in (if v.hazard == WAR then Reads(p[v.prev]) else Writes(p[v.prev]))
      ensures !Overlap(a.ranges, b.ranges)
    {
      IndependentClear(ty, x, y, a, b, v.hazard);
    }
  }

  /** Joining lists: only operations not yet, or no longer, fenced by a SYNC can meet. */
  ghost predicate Meets(xs: seq<IrOp>, ys: seq<IrOp>) {
    forall i, j | 0 <= i < |xs| && 0 <= j < |ys| && NoSync(xs, i, |xs| - 1) && NoSync(ys, 0, j) :: Independent(xs[i], ys[j])
  }

  lemma HazardJoin(xs: seq<IrOp>, ys: seq<IrOp>)
    requires HazardFree(xs) && HazardFree(ys) && Meets(xs, ys)
    ensures HazardFree(xs + ys)
  {
    hide Independent;
    var zs, n := xs + ys, |xs|;
    forall i, j | 0 <= i < j < |zs| && NoSync(zs, i, j)
      ensures Independent(zs[i], zs[j])
    {
      if j < n {
        assert forall k | i <= k <= j :: zs[k] == xs[k];
        assert NoSync(xs, i, j);
      } else if i >= n {
        assert forall k | i - n <= k <= j - n :: ys[k] == zs[k + n];
        assert NoSync(ys, i - n, j - n);
      } else {
        assert forall k | i <= k < n :: zs[k] == xs[k];
        assert forall k | 0 <= k <= j - n :: ys[k] == zs[k + n];
        assert NoSync(xs, i, n - 1) && NoSync(ys, 0, j - n);
      }
    }
  }

  /** A list that ends in a SYNC meets nothing behind it. */
  lemma ClosedMeets(xs: seq<IrOp>, ys: seq<IrOp>)
    requires xs != [] && xs[|xs| - 1] == SyncOp
    ensures Meets(xs, ys)
  {
  }
}
