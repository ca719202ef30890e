/** The layers together: a chain of linalg operations, lowered, copy-elided, placed, emitted as text,
    loaded by `eclipse-run` and executed, in any order its SYNCs allow. */
module CompiledChain {
  import opened Arithmetic
  import opened Types
  import opened Machine
  import opened EclipseIR
  import opened Emission
  import opened EmissionCorrect
  import opened EmittedMoves
  import opened EmissionRefines
  import opened Lowering
  import opened MatmulEndToEnd
  import opened ElideCopies
  import opened ElisionCorrect
  import opened ChainElision
  import opened StreamHazards
  import opened ChainGroups
  import opened LostRoots
  import opened ElidedRuns
  import opened ChainHazards
  import opened ChainMeaning
  import opened ChainClean
  import opened Footprints
  import opened HazardSoundness
  import opened CommandQueue
  import opened DivisionTraps
  import opened Interleavings
  import opened EasmFiles
  import opened EclipseRun
  import BroadcastFootprint
  import HazardChecker
  import Reach
  import Assembly
  import Commutation

  /* ---- the stream's instructions ---- */

  /** What the file format, the checker and the descriptor area need of one instruction. */
  ghost predicate Behaves(i: Instr) {
    && Plain(i) && Assembly.Printable(i)
    && forall a | a in WriteSet(i) :: In(Sram, a) || DDR_ADDR + 0x1_0000 <= a
  }

  lemma ExtentBounds(ty: Typing, h: Home)
    requires Fits(ty) && StreamHazards.Known(ty, h)
    ensures Extent(ty, h).hi <= TWO_32
    ensures forall a | Extent(ty, h).lo <= a < Extent(ty, h).hi :: In(Sram, a) || DDR_ADDR + 0x1_0000 <= a
  {
    hide Fits, At, Size;
    match h
    case InBuf(b) => BufferBounds(ty, b);
    case InRoot(r) => RootInside(ty, r);
  }

  /** No interval reaches beyond the 32-bit address space. */
  predicate BelowTop(xs: seq<HazardChecker.Access>) {
    forall x | x in xs :: forall k | 0 <= k < |x.ranges| :: x.ranges[k].hi <= TWO_32
  }

  lemma TileBelowTop(xs: seq<HazardChecker.Access>, name: string, base: nat, rows: nat, cols: nat, stride: nat)
    requires HazardChecker.Access(name, HazardChecker.TileRanges(base, rows, cols, stride)) in xs && BelowTop(xs) && cols > 0
    ensures Reach.RowsInOrder(base, rows, stride)
  {
    var x := HazardChecker.Access(name, HazardChecker.TileRanges(base, rows, cols, stride));
    if rows > 0 {
      assert x.ranges[rows - 1].hi <= TWO_32;
      assert stride * (rows - 1) == (rows - 1) * stride;
    }
  }

  predicate PitchOk(i: Instr) { i.Ewise? ==> i.ew.rows <= 1 || i.ew.rhsStride <= i.ew.rhsBlk }

  lemma BelowTopIsPlain(i: Instr)
    requires BelowTop(HazardChecker.Reads(i)) && BelowTop(HazardChecker.Writes(i)) && PitchOk(i)
    ensures Plain(i)
  {
    hide BelowTop, Reach.RowsInOrder, BroadcastFootprint.LastWord;
    if (i.DmaLoad? || i.DmaStore?) && i.dma.cols > 0 {
      var d, rs, ws := i.dma, HazardChecker.Reads(i), HazardChecker.Writes(i);
      TileBelowTop(rs, rs[0].name, if i.DmaLoad? then d.ddrAddr else d.sramAddr, d.rows, d.cols, d.srcStride);
      TileBelowTop(ws, ws[0].name, if i.DmaLoad? then d.sramAddr else d.ddrAddr, d.rows, d.cols, d.dstStride);
    }
  }

  lemma CoveredBelow(ty: Typing, xs: seq<HazardChecker.Access>, homes: set<Home>)
    requires Fits(ty) && StreamHazards.Covered(ty, xs, homes)
    ensures BelowTop(xs)
    ensures forall a | a in Cells(xs) :: In(Sram, a) || DDR_ADDR + 0x1_0000 <= a
  {
    hide Fits, Extent, In;
    forall x, k | x in xs && 0 <= k < |x.ranges|
      ensures x.ranges[k].hi <= TWO_32
      ensures forall a | x.ranges[k].lo <= a < x.ranges[k].hi :: In(Sram, a) || DDR_ADDR + 0x1_0000 <= a
    {
      assert InSome(ty, x.ranges[k], homes);
      var h :| h in homes && StreamHazards.Known(ty, h) && StreamHazards.Inside(x.ranges[k], Extent(ty, h));
      ExtentBounds(ty, h);
    }
    forall a | a in Cells(xs)
      ensures In(Sram, a) || DDR_ADDR + 0x1_0000 <= a
    {
      var x :| x in xs && InRanges(x.ranges, a);
      var k :| 0 <= k < |x.ranges| && x.ranges[k].lo <= a < x.ranges[k].hi;
    }
  }

  lemma EmittedBehaves(ty: Typing, op: IrOp)
    requires Fits(ty) && WellTyped(ty, op) && InBounds(ty, op) && EmitOp(ty, Place(ty), op).Some?
    ensures Behaves(EmitOp(ty, Place(ty), op).value)
  {
    hide Fits, WellTyped, InBounds, StreamHazards.Covered, BelowTop, Place, HazardChecker.Reads, HazardChecker.Writes, Cells, In, Plain, PitchOk;
    var i := EmitOp(ty, Place(ty), op).value;
    OpTouches(ty, op);
    CoveredBelow(ty, HazardChecker.Reads(i), ReadHomes(op));
    CoveredBelow(ty, HazardChecker.Writes(i), WriteHomes(op));
    PitchAndKind(ty, op);
    BelowTopIsPlain(i);
  }

  lemma PitchAndKind(ty: Typing, op: IrOp)
    requires Fits(ty) && WellTyped(ty, op) && EmitOp(ty, Place(ty), op).Some?
    ensures PitchOk(EmitOp(ty, Place(ty), op).value) && Assembly.Printable(EmitOp(ty, Place(ty), op).value)
  {
    hide Fits, Place, Dims;
    if op.ReduceOp? {
      assert ReduceKindOf(ReduceCode(op.red)) == Some(op.red);
    }
  }

  /** A chain the compiler accepts and places. */
  ghost predicate Compiles(ty: Typing, ops: seq<Linalg>, result: Root) { Placeable(ty, ops) && result < |ty.root| }

  /** What the chain means for the returned root, from the tensors `m` holds. */
  ghost function Expected<F>(f: Fpu<F>, ty: Typing, ops: seq<Linalg>, result: Root, m: Mem): Option<Tensor>
    requires Compiles(ty, ops, result)
  {
    RootsPresent(ty, m);
    var ts := Meaning(f, ty.root, StateOf(m, ty).roots, ops);
    if ts.Some? then Some(ts.value[result]) else None
  }

  lemma RootsPresent(ty: Typing, m: Mem)
    ensures Present(ty.root, StateOf(m, ty).roots)
  {
  }

  lemma StreamBehaves(ty: Typing, ops: seq<Linalg>, result: Root)
    requires Compiles(ty, ops, result)
    ensures forall i | i in Stream(ty, ops, result) :: Behaves(i)
  {
    hide Fits, RootsIn, Emit, Behaves, ElidedOps, EmitOp, WellTyped, InBounds, Place, Stream, AllShaped, ChainBufs;
    KnownRoots(ty.root, ops);
    var us := ElidedOps(ty.root, ops, result);
    PlaceableEmits(ty, ops, result);
    EmitAt(ty, us);
    forall i | i in Emit(ty, Place(ty), us)
      ensures Behaves(i)
    {
      var k :| 0 <= k < |us| && Emit(ty, Place(ty), us)[k] == i;
      EmittedBehaves(ty, us[k]);
    }
  }

  /** The elided operations compute it. */
  lemma ElidedMeans<F>(f: Fpu<F>, ty: Typing, ops: seq<Linalg>, result: Root, m: Mem)
    requires Compiles(ty, ops, result) && NothingLost(ops, result) && Expected(f, ty, ops, result, m).Some?
    ensures InRoots(ty.root, ops)
    ensures var s := EvalOps(f, ty, StateOf(m, ty), ElidedOps(ty.root, ops, result) + [ReturnOp(result)]);
      s.Some? && result in s.value.roots && Expected(f, ty, ops, result, m) == Some(s.value.roots[result])
  {
    hide Fits, RootsIn, EvalOps, Unroll, Elide, Program, Ops, Meaning, Shaped, ChainBufs, StateOf;
    var st := StateOf(m, ty);
    RootsPresent(ty, m);
    KnownRoots(ty.root, ops);
    ProgramMeans(f, ty, st, ops, result);
    NoBufs(m, ty);
    ElidedChain(f, ty, ops, result, st);
    ElidedProgram(ty.root, ops, result);
  }

  lemma NoBufs(m: Mem, ty: Typing)
    ensures StateOf(m, ty).bufs == map[]
  {
  }

  /** What a run leaves in the returned root; None if the machine aborted. */
  function Outcome(m: Option<Mem>, ty: Typing, result: Root): Option<Tensor>
    requires result < |ty.root|
  {
    if m.Some? then Some(RootWords(m.value, ty, result)) else None
  }

  /** The operations of a compiled chain, and the return, can be emitted and are aligned. */
  lemma StreamFits(ty: Typing, ops: seq<Linalg>, result: Root)
    requires Compiles(ty, ops, result)
    ensures InRoots(ty.root, ops)
    ensures var all := ElidedOps(ty.root, ops, result) + [ReturnOp(result)];
      && Stream(ty, ops, result) == Emit(ty, Place(ty), all)
      && forall k | 0 <= k < |all| :: Emittable(ty, all[k]) && Aligned(ty, all[k])
  {
    KnownRoots(ty.root, ops);
    hide Fits, RootsIn, Emit, ElidedOps, EmitOp, AllShaped, ChainBufs, Stream, WellTyped, InBounds, Place, Emittable, Aligned, DdrAddr;
    var us := ElidedOps(ty.root, ops, result);
    PlaceableEmits(ty, ops, result);
    EmitPrefix(ty, us, result);
    var all := us + [ReturnOp(result)];
    forall k | 0 <= k < |all|
      ensures Emittable(ty, all[k]) && Aligned(ty, all[k])
    {
      if k < |us| {
        assert all[k] == us[k];
        UsFit(ty, us[k]);
      } else {
        ReturnFits(ty, result);
      }
    }
  }

  /** Where the chain has a meaning, the stream leaves it in the returned root. */
  lemma MeaningReached<F>(f: Fpu<F>, ty: Typing, ops: seq<Linalg>, result: Root, m: Mem)
    requires Full(m) && Compiles(ty, ops, result) && NothingLost(ops, result) && Expected(f, ty, ops, result, m).Some?
    ensures Outcome(Run(f, m, Stream(ty, ops, result)), ty, result) == Expected(f, ty, ops, result, m)
  {
    hide Fits, RootsIn, EvalOps, Emit, ElidedOps, Meaning, AllShaped, ChainBufs, Stream, Expected,
      Place, Run, Full, Emittable, Aligned, EmissionCorrect.Holds, DdrAddr, StateOf;
    ElidedMeans(f, ty, ops, result, m);
    StreamFits(ty, ops, result);
    StoresItsState(m, ty);
    var st, all := StateOf(m, ty), ElidedOps(ty.root, ops, result) + [ReturnOp(result)];
    StreamRefines(f, ty, m, st, all);
    var m', s2 := Run(f, m, Stream(ty, ops, result)).value, EvalOps(f, ty, st, all).value;
    assert EmissionCorrect.Holds(m', DdrAddr(result), s2.roots[result]);
    HeldWords(m', ty, result, s2.roots[result]);
  }

  /** Where it has none, the machine aborts. */
  lemma UndefinedAborts<F>(f: Fpu<F>, ty: Typing, ops: seq<Linalg>, result: Root, m: Mem)
    requires Full(m) && Compiles(ty, ops, result) && NothingLost(ops, result) && Expected(f, ty, ops, result, m).None?
    ensures Run(f, m, Stream(ty, ops, result)).None?
  {
    RootsPresent(ty, m);
    NoBufs(m, ty);
    hide Fits, RootsIn, EvalOps, Emit, Meaning, Shaped, ChainBufs, Stream, NothingLost, Traps, Unroll, Elide, Program, Ops,
      Place, Run, Full, Emittable, Aligned, StateOf, Present;
    KnownRoots(ty.root, ops);
    var k := UndefinedChainStops(f, ty, ops, result, StateOf(m, ty));
    ElidedProgram(ty.root, ops, result);
    StreamFits(ty, ops, result);
    StoresItsState(m, ty);
    StreamAborts(f, ty, m, StateOf(m, ty), ElidedOps(ty.root, ops, result) + [ReturnOp(result)], k);
  }

  /** In order: the stream leaves in the returned root what the chain means, and the machine aborts
      exactly when the chain divides by zero and so means nothing. */
  lemma StreamRuns<F>(f: Fpu<F>, ty: Typing, ops: seq<Linalg>, result: Root, m: Mem)
    requires Full(m) && Compiles(ty, ops, result) && NothingLost(ops, result)
    ensures Outcome(Run(f, m, Stream(ty, ops, result)), ty, result) == Expected(f, ty, ops, result, m)
  {
    hide Full, Compiles, NothingLost, Expected, Run, Stream, RootWords;
    if Expected(f, ty, ops, result, m).Some? {
      MeaningReached(f, ty, ops, result, m);
    } else {
      UndefinedAborts(f, ty, ops, result, m);
    }
  }

  lemma KnownRoots(root: seq<Shape>, ops: seq<Linalg>)
    requires AllShaped(root, ops)
    ensures InRoots(root, ops)
  {
  }

  lemma UsFit(ty: Typing, op: IrOp)
    requires WellTyped(ty, op) && InBounds(ty, op) && EmitOp(ty, Place(ty), op).Some?
    ensures Emittable(ty, op) && Aligned(ty, op)
  {
    hide Place, WellTyped, DdrAddr;
  }

  lemma ReturnFits(ty: Typing, r: Root)
    ensures Emittable(ty, ReturnOp(r)) && Aligned(ty, ReturnOp(r))
  {
  }

  /** Out of order: so does every reordering of the instructions between two SYNCs, provided no
      matmul tiles the root its immediate predecessor stores. */
  lemma ReorderedStreamRuns<F>(f: Fpu<F>, ty: Typing, ops: seq<Linalg>, result: Root, m: Mem, q: seq<Instr>)
    requires Full(m) && Compiles(ty, ops, result) && NothingLost(ops, result)
    requires NoTiledHandover(ops, result) && Reordered(Stream(ty, ops, result), q)
    ensures Outcome(Run(f, m, q), ty, result) == Expected(f, ty, ops, result, m)
  {
    hide Placeable, NoTiledHandover, Full, Stream, Run, Reordered, Expected, RootWords, HazardChecker.Clean, WriteSet;
    StreamRuns(f, ty, ops, result, m);
    StreamBehaves(ty, ops, result);
    CleanExactly(ty, ops, result);
    CleanMeansOrderFree(f, m, Stream(ty, ops, result), q);
  }

  /** Overlapped: so does every interleaving of their loop iterations. */
  lemma OverlappedStreamRuns<F>(f: Fpu<F>, ty: Typing, ops: seq<Linalg>, result: Root, m: Mem, zs: seq<seq<Step>>)
    requires Full(m) && Compiles(ty, ops, result) && NothingLost(ops, result)
    requires NoTiledHandover(ops, result) && |zs| == |Segments(Stream(ty, ops, result))|
    requires forall k | 0 <= k < |zs| :: Interleaves(zs[k], Threads(Segments(Stream(ty, ops, result))[k]))
    ensures Outcome(RunFenced(f, m, Segments(Stream(ty, ops, result)), zs), ty, result) == Expected(f, ty, ops, result, m)
  {
    hide Placeable, NoTiledHandover, NothingLost, Full, Stream, Run, Expected, RootWords, HazardChecker.Clean, WriteSet, Segments,
      Interleaves, RunFenced, Threads;
    StreamRuns(f, ty, ops, result, m);
    StreamBehaves(ty, ops, result);
    CleanExactly(ty, ops, result);
    CleanMeansOverlapFree(f, m, Stream(ty, ops, result), zs);
  }

  /* ---- from the file's text ---- */

  lemma {:induction false} WriteFieldsFull(m: Mem, a: int, ws: seq<Dword>)
    requires Full(m) && (ws != [] ==> In(Ddr, a) && In(Ddr, a + 4 * |ws| - 1))
    ensures Full(WriteFields(m, a, ws))
    decreases ws
  {
    if ws != [] {
      WriteFieldsFull(Store32(m, a, ws[0]), a + 4, ws[1..]);
    }
  }

  /** Descriptors written inside DDR keep the memory full. */
  lemma {:induction false} LoadAllFull(m: Mem, p: seq<Instr>, slots: seq<int>)
    requires Full(m) && |p| == |slots|
    requires forall k | 0 <= k < |p| :: p[k] == Sync || (In(Ddr, slots[k]) && In(Ddr, slots[k] + DESC_LEN - 1))
    ensures Full(LoadAll(m, p, slots))
    decreases p
  {
    hide Full, Fields, WriteFields;
    if p != [] {
      FieldsFit(p[0]);
      SyncHasNoFields();
      WriteFieldsFull(m, slots[0], Fields(p[0]));
      LoadAllFull(WriteFields(m, slots[0], Fields(p[0])), p[1..], slots[1..]);
    }
  }

  /** Every slot is a SYNC's null pointer or lies before the first tensor. */
  ghost predicate SlotsBelow(p: seq<Instr>, slots: seq<int>)
    requires |p| == |slots|
  {
    forall k | 0 <= k < |p| :: if p[k] == Sync then slots[k] == 0
      else Assembly.DESC_START <= slots[k] && slots[k] + DESC_LEN <= DDR_ADDR + 0x1_0000
  }

  lemma SlotsOf(p: seq<Instr>)
    requires Described(p, |p|) <= MAX_DESCRIPTORS
    ensures DescAt(p, Assembly.DESC_START, |p|) < TWO_32 && SlotsApart(p, DescSlots(p)) && SlotsBelow(p, DescSlots(p))
  {
    hide Described, DescAt;
    SlotsFit(p);
    forall k | 0 <= k < |p| && p[k] != Sync
      ensures DescSlots(p)[k] != 0
    {
      DescGrows(p, Assembly.DESC_START, 0, k);
      FirstDesc(p);
    }
  }

  /** Loading descriptors leaves the tensors alone. */
  lemma LoadKeepsRoots(m: Mem, p: seq<Instr>, slots: seq<int>, ty: Typing)
    requires |p| == |slots| && SlotsBelow(p, slots) && Fits(ty)
    ensures StateOf(LoadAll(m, p, slots), ty) == StateOf(m, ty)
  {
    hide LoadAll, Fits;
    var m' := LoadAll(m, p, slots);
    forall r: nat | r < |ty.root|
      ensures RootWords(m', ty, r) == RootWords(m, ty, r)
    {
      RootInside(ty, r);
      forall k | 0 <= k < Size(ty.root[r])
        ensures RootWords(m', ty, r)[k] == RootWords(m, ty, r)[k]
      {
        LoadAllFrame(m, p, slots, DdrAddr(r) + 2 * k);
        LoadAllFrame(m, p, slots, DdrAddr(r) + 2 * k + 1);
      }
    }
    assert StateOf(m', ty).roots == StateOf(m, ty).roots;
  }

  /** No instruction of the stream writes into a descriptor. */
  lemma DescriptorsSafe(p: seq<Instr>, slots: seq<int>, i: Instr, s: int)
    requires |p| == |slots| && SlotsBelow(p, slots) && Behaves(i) && s in slots
    ensures Commutation.Disjoint(WriteSet(i), SlotBytes(s))
  {
    hide Plain, Assembly.Printable, WriteSet;
    var k :| 0 <= k < |slots| && slots[k] == s;
    assert s == 0 || (Assembly.DESC_START <= s && s + DESC_LEN <= DDR_ADDR + 0x1_0000);
  }

  /** The lines of the file of a stream. */
  function Text(p: seq<Instr>): seq<string> { Terminated(Assembly.Listing(p, Assembly.DESC_START)) }

  /** The tensor in input file `r`: little-endian words, zero where the file has no byte. */
  function InputTensor(files: seq<File>, r: Root, n: nat): (t: Tensor)
    ensures |t| == n
  {
    seq(n, k requires 0 <= k < n => InputWord(files, r, k))
  }

  function InputWord(files: seq<File>, r: Root, k: nat): Word {
    InputByte(files, r, 2 * k) + 256 * InputByte(files, r, 2 * k + 1)
  }

  /** The contents of the roots: argument `r` is file `r`, all other roots are zero. */
  ghost function InputTensors(root: seq<Shape>, files: seq<File>): (ts: Tensors)
    ensures Present(root, ts)
  {
    map r: nat | 0 <= r < |root| :: InputTensor(files, r, Size(root[r]))
  }

  /** The emitter's addresses of the roots are where the inputs are. */
  lemma InputsFound(ty: Typing, files: seq<File>, r: nat)
    requires Fits(ty) && InputsFit(files) && r < |ty.root|
    ensures WithFiles(ZeroMemory(), files).Some?
    ensures RootWords(WithFiles(ZeroMemory(), files).value, ty, r) == InputTensor(files, r, Size(ty.root[r]))
  {
    FilesFit(files);
    var m, t := WithFiles(ZeroMemory(), files).value, InputTensor(files, r, Size(ty.root[r]));
    assert 2 * Size(ty.root[r]) <= 0x1_0000;
    hide Fits, InputsFit, WithFiles, ZeroMemory;
    forall k | 0 <= k < Size(ty.root[r])
      ensures RootWords(m, ty, r)[k] == t[k]
    {
      InputFound(files, r, 2 * k);
      InputFound(files, r, 2 * k + 1);
    }
  }

  lemma InputFound(files: seq<File>, r: Root, o: nat)
    requires InputsFit(files) && o < 0x1_0000
    ensures WithFiles(ZeroMemory(), files).Some?
    ensures Get(WithFiles(ZeroMemory(), files).value, DdrAddr(r) + o) == InputByte(files, r, o)
  {
    hide WithFiles, ZeroMemory, Get, InputByte, InputsFit;
    FilesPlaced(files, r, o);
  }

  /** A compiled chain with few enough descriptors, and inputs that fit their slots. */
  ghost predicate Runnable(ty: Typing, ops: seq<Linalg>, result: Root, files: seq<File>) {
    && Compiles(ty, ops, result) && InputsFit(files)
    && Described(Stream(ty, ops, result), |Stream(ty, ops, result)|) <= MAX_DESCRIPTORS
  }

  /** The file of a compiled chain loads: every instruction decodes to itself, no instruction writes a
      descriptor, and the roots hold the input files. */
  lemma FileLoads(ty: Typing, ops: seq<Linalg>, result: Root, files: seq<File>)
    requires Runnable(ty, ops, result, files)
    ensures var p := Stream(ty, ops, result); var l := Loaded(Text(p), files); var ps := LoadRecords(ReadLines(Text(p)));
      && ps.Some? && Instrs(ps.value) == p && l.Some?
      && Full(l.value.0) && DecodeAll(l.value.0, l.value.1) == p && AllPlain(p) && SlotsSafe(p, l.value.1)
      && StateOf(l.value.0, ty).roots == InputTensors(ty.root, files)
  {
    hide Fits, Full, Stream, WriteSet, LoadAll, DescSlots, Described, DescAt, LoadRecords, ReadLines, SlotsBelow, SlotsApart, Plain,
      Assembly.Printable, AllShaped, ChainBufs, Decode, SlotBytes, SlotsSafe, InputsFit, ZeroMemory, WithFiles, Installs;
    var p := Stream(ty, ops, result);
    StreamBehaves(ty, ops, result);
    SlotsOf(p);
    forall i | i in p
      ensures Assembly.Printable(i) && Plain(i)
    {
      assert Behaves(i);
    }
    FileRoundTrip(p);
    var slots := DescSlots(p);
    FilesFit(files);
    var m := WithFiles(ZeroMemory(), files).value;
    SlotsInstall(LoadRecords(ReadLines(Text(p))).value, p, slots);
    var m1, q := LoadAll(m, p, slots), QueueOf(p, slots);
    BelowIsDdr(p, slots);
    LoadAllFull(m, p, slots);
    InputsLoaded(ty, files, p, slots);
    forall k | 0 <= k < |p|
      ensures DecodeAll(m1, q)[k] == p[k]
    {
      LoadedDecodes(m, p, slots, k);
    }
    QueueSafe(p, slots);
  }

  lemma InputsLoaded(ty: Typing, files: seq<File>, p: seq<Instr>, slots: seq<int>)
    requires Fits(ty) && InputsFit(files) && |p| == |slots| && SlotsBelow(p, slots) && WithFiles(ZeroMemory(), files).Some?
    ensures StateOf(LoadAll(WithFiles(ZeroMemory(), files).value, p, slots), ty).roots == InputTensors(ty.root, files)
  {
    hide Fits, InputsFit, WithFiles, ZeroMemory, SlotsBelow, LoadAll, RootWords, InputTensor;
    var m := WithFiles(ZeroMemory(), files).value;
    LoadKeepsRoots(m, p, slots, ty);
    forall r: nat | r < |ty.root|
      ensures RootWords(m, ty, r) == InputTensor(files, r, Size(ty.root[r]))
    {
      InputsFound(ty, files, r);
    }
  }

  /** Descriptors in front of the tensors can be written. */
  lemma SlotsInstall(ps: seq<Assembly.Placed>, p: seq<Instr>, slots: seq<int>)
    requires |p| == |slots| && SlotsBelow(p, slots) && Instrs(ps) == p && Descs(ps) == slots
    ensures Installs(ps)
  {
    hide Fields;
    forall k | 0 <= k < |ps| && ps[k].instr != Sync
      ensures FitsDdr(ps[k].desc, 4 * |Fields(ps[k].instr)|)
    {
      assert p[k] == ps[k].instr && slots[k] == ps[k].desc;
      FieldsFit(p[k]);
    }
  }

  /** Slots before the first tensor are safe from the stream's instructions. */
  lemma QueueSafe(p: seq<Instr>, slots: seq<int>)
    requires |p| == |slots| && SlotsBelow(p, slots) && forall i | i in p :: Behaves(i)
    ensures SlotsSafe(p, QueueOf(p, slots))
  {
    hide Behaves, WriteSet, SlotBytes, SlotsBelow, In;
    var q := QueueOf(p, slots);
    BelowIsDdr(p, slots);
    forall j | j in q && j.op != OpSync
      ensures In(Ddr, j.desc)
    {
      var k :| 0 <= k < |q| && q[k] == j;
      assert p[k] != Sync;
    }
    forall i, j | i in p && j in q
      ensures Commutation.Disjoint(WriteSet(i), SlotBytes(j.desc))
    {
      var k :| 0 <= k < |q| && q[k] == j;
      assert slots[k] in slots;
      DescriptorsSafe(p, slots, i, j.desc);
    }
  }

  /** What the chain means for the returned root, from the tensors in the input files. */
  ghost function Promised<F>(f: Fpu<F>, ty: Typing, ops: seq<Linalg>, result: Root, files: seq<File>): Option<Tensor>
    requires Compiles(ty, ops, result)
  {
    var ts := Meaning(f, ty.root, InputTensors(ty.root, files), ops);
    if ts.Some? then Some(ts.value[result]) else None
  }

  lemma PromiseIsExpected<F>(f: Fpu<F>, ty: Typing, ops: seq<Linalg>, result: Root, files: seq<File>, m: Mem)
    requires Compiles(ty, ops, result) && StateOf(m, ty).roots == InputTensors(ty.root, files)
    ensures Expected(f, ty, ops, result, m) == Promised(f, ty, ops, result, files)
  {
    hide Placeable, StateOf, Meaning;
  }

  /** The whole way: the chain's stream is written as text, and `eclipse-run` reads it and the input
      files; the run leaves in the returned root what the linalg chain means for the tensors in those
      files, or aborts if it means nothing. */
  lemma FileRuns<F>(f: Fpu<F>, ty: Typing, ops: seq<Linalg>, result: Root, files: seq<File>)
    requires Runnable(ty, ops, result, files) && NothingLost(ops, result)
    ensures Outcome(FinalMemory(f, Text(Stream(ty, ops, result)), files), ty, result) == Promised(f, ty, ops, result, files)
  {
    hide Placeable, Full, Stream, Run, RunQueue, Expected, Promised, RootWords, Loaded, Described, DecodeAll, AllPlain, SlotsSafe, SlotsAhead,
      NothingLost, StateOf, Text, InputsFit, InputTensors;
    FileLoads(ty, ops, result, files);
    var l := Loaded(Text(Stream(ty, ops, result)), files).value;
    SafeIsAhead(DecodeAll(l.0, l.1), l.1);
    DescriptorsSurvive(f, l.0, l.1);
    PromiseIsExpected(f, ty, ops, result, files, l.0);
    StreamRuns(f, ty, ops, result, l.0);
  }

  /** And so does running the loaded instructions in any other order between two SYNCs. */
  lemma ReorderedFileRuns<F>(f: Fpu<F>, ty: Typing, ops: seq<Linalg>, result: Root, files: seq<File>, q: seq<Insn>)
    requires Runnable(ty, ops, result, files) && NothingLost(ops, result) && NoTiledHandover(ops, result)
    requires Loaded(Text(Stream(ty, ops, result)), files).Some?
    requires var l := Loaded(Text(Stream(ty, ops, result)), files).value;
      multiset(l.1) == multiset(q) && Reordered(DecodeAll(l.0, l.1), DecodeAll(l.0, q))
    ensures Outcome(RunQueue(f, Loaded(Text(Stream(ty, ops, result)), files).value.0, q), ty, result)
      == Promised(f, ty, ops, result, files)
  {
    hide Placeable, Full, Stream, Run, RunQueue, Promised, RootWords, Loaded, Described, DecodeAll, AllPlain, SlotsSafe, SlotsAhead, NothingLost,
      NoTiledHandover, HazardChecker.Clean, Reordered, Text, InputsFit, StateOf, InputTensors;
    FileLoads(ty, ops, result, files);
    FileRuns(f, ty, ops, result, files);
    CleanExactly(ty, ops, result);
    var l := Loaded(Text(Stream(ty, ops, result)), files).value;
    PermutedProgram(l.0, l.1, q);
    SlotsSafeReordered(DecodeAll(l.0, l.1), l.1, DecodeAll(l.0, q), q);
    SafeIsAhead(DecodeAll(l.0, l.1), l.1);
    SafeIsAhead(DecodeAll(l.0, q), q);
    QueueOrderFree(f, l.0, l.1, q);
  }

  lemma BelowIsDdr(p: seq<Instr>, slots: seq<int>)
    requires |p| == |slots| && SlotsBelow(p, slots)
    ensures forall k | 0 <= k < |p| :: p[k] == Sync || (In(Ddr, slots[k]) && In(Ddr, slots[k] + DESC_LEN - 1))
  {
  }

  /* ---- the output file ---- */

  /** The last DMA_STORE of the file stores what the last operation computes. */
  lemma DumpIsLast(ty: Typing, ops: seq<Linalg>, result: Root)
    requires Compiles(ty, ops, result) && ops != []
    ensures ops[|ops| - 1].out < |ty.root|
    ensures DumpedBlock(Stream(ty, ops, result)) == (DdrAddr(ops[|ops| - 1].out), 2 * Size(ty.root[ops[|ops| - 1].out]))
  {
    KnownRoots(ty.root, ops);
    var i := |ops| - 1;
    assert RootsIn(ty.root, ops[i]);
    var out := ops[i].out;
    hide Fits, RootsIn, Emit, ElidedOps, AllShaped, ChainBufs, Stream, WellTyped, InBounds, Place, ChainGroups.GroupBase, EmitOp;
    var us := ElidedOps(ty.root, ops, result);
    PlaceableEmits(ty, ops, result);
    LastStoreKept(ty.root, ops, result);
    EmitAt(ty, us);
    EmittedStore(ty, us[|us| - 1], ops[i], ChainGroups.GroupBase(ty.root, ops, i));
    DumpSize(ty, out);
  }

  lemma EmittedStore(ty: Typing, op: IrOp, l: Linalg, base: Buf)
    requires op == ChainGroups.Result(l, base) && EmitOp(ty, Place(ty), op).Some?
    ensures l.out < |ty.root|
    ensures var i := EmitOp(ty, Place(ty), op).value;
      && i.DmaStore? && i.dma.ddrAddr == U32(DdrAddr(l.out))
      && i.dma.rows == U32(ty.root[l.out].rows) && i.dma.cols == U32(ty.root[l.out].cols)
  {
    hide Place, U32, DdrAddr;
  }

  lemma DumpSize(ty: Typing, r: Root)
    requires Fits(ty) && r < |ty.root|
    ensures U32(DdrAddr(r)) == DdrAddr(r)
    ensures U32(2 * U32(U32(ty.root[r].rows) * U32(ty.root[r].cols))) == 2 * Size(ty.root[r])
  {
    RootInside(ty, r);
    var s := ty.root[r];
    assert NonEmpty(s) && 2 * Size(s) <= DDR_STRIDE;
    hide Fits, U32, DdrAddr;
    NoWrap(DdrAddr(r));
    NoWrap(s.rows);
    NoWrap(s.cols);
    NoWrap(s.rows * s.cols);
    NoWrap(2 * (s.rows * s.cols));
  }

  /** A tensor's bytes in memory order. */
  function BytesOf(t: Tensor): File {
    if t == [] then [] else BytesOf(t[..|t| - 1]) + [t[|t| - 1] % 256, t[|t| - 1] / 256]
  }

  lemma {:induction false} RootBytes(m: Mem, a: int, n: nat)
    ensures ReadBytes(m, a, 2 * n) == BytesOf(Fetch(m, Row(a, n)))
  {
    hide Load16;
    if n > 0 {
      RootBytes(m, a, n - 1);
      var t := Fetch(m, Row(a, n));
      assert t[..n - 1] == Fetch(m, Row(a, n - 1)) && t[n - 1] == Load16(m, a + 2 * (n - 1));
      WordBytes(m, a + 2 * (n - 1));
      assert ReadBytes(m, a, 2 * n - 1) == ReadBytes(m, a, 2 * n - 2) + [Get(m, a + 2 * n - 2)];
    }
  }

  lemma WordBytes(m: Mem, a: int)
    ensures Load16(m, a) % 256 == Get(m, a) && Load16(m, a) / 256 == Get(m, a + 1)
  {
  }

  lemma DumpedRoot(m: Mem, ty: Typing, r: Root)
    requires Fits(ty) && r < |ty.root|
    ensures Dump(m, (DdrAddr(r), 2 * Size(ty.root[r]))) == Finished(Some(BytesOf(RootWords(m, ty, r))))
  {
    RootNotEmpty(ty, r);
    RootInside(ty, r);
    hide Fits, DdrAddr, Size, ReadBytes, BytesOf, Fetch;
    RootBytes(m, DdrAddr(r), Size(ty.root[r]));
  }

  /** The program's output file, for any chain: what the run leaves in the last operation's output root. */
  lemma ToolDumps<F>(f: Fpu<F>, ty: Typing, ops: seq<Linalg>, result: Root, files: seq<File>)
    requires Runnable(ty, ops, result, files) && ops != [] && files != []
    ensures ops[|ops| - 1].out < |ty.root|
    ensures ToolResult(f, Text(Stream(ty, ops, result)), files) ==
      match Outcome(FinalMemory(f, Text(Stream(ty, ops, result)), files), ty, ops[|ops| - 1].out)
      case None => Failed
      case Some(t) => Finished(Some(BytesOf(t)))
  {
    assert Fits(ty);
    hide Fits, Stream, Loaded, Described, InputsFit, InputTensors, LoadRecords, ReadLines, RunQueue, DecodeAll, AllPlain, SlotsSafe, StateOf,
      BytesOf, Text, Compiles, FinalMemory, DdrAddr, DumpedBlock, Dump, RootWords, Size, Full;
    DumpIsLast(ty, ops, result);
    FileLoads(ty, ops, result, files);
    var r, m := ops[|ops| - 1].out, FinalMemory(f, Text(Stream(ty, ops, result)), files);
    if m.Some? {
      DumpedRoot(m.value, ty, r);
    }
  }

  lemma RootNotEmpty(ty: Typing, r: Root)
    requires Fits(ty) && r < |ty.root|
    ensures Size(ty.root[r]) > 0
  {
    assert NonEmpty(ty.root[r]);
    MulMonotone(ty.root[r].rows, 1, ty.root[r].cols);
  }

  /** For a chain that returns its last result, the program writes exactly the bytes of the tensor that
      the chain means for the input files, or fails if it means nothing. */
  lemma ToolRuns<F>(f: Fpu<F>, ty: Typing, ops: seq<Linalg>, result: Root, files: seq<File>)
    requires Runnable(ty, ops, result, files) && NothingLost(ops, result) && ops != [] && files != []
    requires ops[|ops| - 1].out == result
    ensures ToolResult(f, Text(Stream(ty, ops, result)), files) ==
      match Promised(f, ty, ops, result, files)
      case None => Failed
      case Some(t) => Finished(Some(BytesOf(t)))
  {
    hide Compiles, Stream, Described, InputsFit, NothingLost, Promised, FinalMemory, BytesOf, ToolResult, Text, Outcome;
    ToolDumps(f, ty, ops, result, files);
    FileRuns(f, ty, ops, result, files);
  }

  /** What is dumped is the returned root if and only if the last operation computes it. */
  lemma DumpsResultExactly(ty: Typing, ops: seq<Linalg>, result: Root)
    requires Compiles(ty, ops, result) && ops != []
    ensures DumpedBlock(Stream(ty, ops, result)) == (DdrAddr(result), 2 * Size(ty.root[result])) <==> ops[|ops| - 1].out == result
  {
    hide Placeable, Stream, DumpedBlock, Size;
    DumpIsLast(ty, ops, result);
  }
}
