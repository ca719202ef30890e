/** Exactly when the stream of a compiled chain passes the hazard checker. */
module ChainClean {
  import opened Types
  import opened Machine
  import HazardChecker
  import opened EclipseIR
  import opened Emission
  import opened EmittedMoves
  import opened Lowering
  import opened ElideCopies
  import opened ElisionCorrect
  import opened ChainElision
  import opened StreamHazards
  import opened ChainGroups
  import opened LostRoots
  import opened ElidedRuns
  import opened ChainHazards
  import opened ChainMeaning
  import opened Renaming

  /** The emitted stream of an elided chain. */
  function Stream(ty: Typing, ops: seq<Linalg>, result: Root): seq<Instr> {
    if InRoots(ty.root, ops)
    then Emit(ty, Place(ty), Unroll(Elide(Program(ty.root, ops, result)))) else []
  }

  /** A chain the compiler accepts, with the buffers its lowering allocates, whose tensors fit. */
  ghost predicate Placeable(ty: Typing, ops: seq<Linalg>) {
    Fits(ty) && AllShaped(ty.root, ops) && ChainBufs(ty.root, ops) <= ty.buf
  }

  /** Every placeable chain is emitted, one instruction per operation. */
  lemma PlaceableEmits(ty: Typing, ops: seq<Linalg>, result: Root)
    requires Placeable(ty, ops) && result < |ty.root|
    ensures InRoots(ty.root, ops) && Emits(ty, ElidedOps(ty.root, ops, result))
    ensures Stream(ty, ops, result) == Emit(ty, Place(ty), ElidedOps(ty.root, ops, result))
  {
    hide RootsIn, Shaped, Fits, ElidedOps, Emits, EvalOps, Unroll, Elide, Program, Emit, Place, ChainBufs, StoresZero, ZeroState;
    ZeroRuns(ty, ops, result);
    forall k | 0 <= k < |ops|
      ensures RootsIn(ty.root, ops[k]) && Contracts(ty.root, ops[k])
    {
      ShapedContracts(ty.root, ops[k]);
    }
    ElidedOpsEmit(StoresZero(), ty, ops, result, ZeroState(ty.root));
    EmitPrefix(ty, ElidedOps(ty.root, ops, result), result);
  }

  lemma ShapedContracts(root: seq<Shape>, op: Linalg)
    requires RootsIn(root, op) && Shaped(root, op)
    ensures Contracts(root, op)
  {
  }

  /* ---- a tiled handover is a hazard ---- */

  /** The store of operation i-1 and both tile loads of the matmul behind it all survive elision. */
  lemma HandoverSlots(root: seq<Shape>, ops: seq<Linalg>, result: Root, i: nat)
    requires 0 < i < |ops| && InRoots(root, ops) && HandsOver(ops, result, i)
    ensures var s, n, heads := ElidedSlots(Program(root, ops, result)), GroupStart(root, ops, i), Heads(root, ops[i], GroupBase(root, ops, i));
      && |heads| == 2 && 1 <= n && n + 2 <= |ChainItems(root, ops)| <= |s|
      && s[n - 1] == Some(Leaf(Result(ops[i - 1], GroupBase(root, ops, i - 1))))
      && s[n] == Some(Leaf(heads[0])) && s[n + 1] == Some(Leaf(heads[1]))
  {
    hide RootsIn, Disciplined, Items, Program, GroupStart, GroupBase, Matches, Heads, LoadOf, ElidedSlots, Reps, Result, Mids, Erased,
      StoreOf, ReadsTiled, ReadsWhole, MapItem, ChainItems;
    var items, n := Program(root, ops, result), GroupStart(root, ops, i);
    GroupOf(root, ops, result, i - 1);
    GroupStore(items, root, ops[i - 1], GroupBase(root, ops, i - 1), GroupStart(root, ops, i - 1));
    StoredBefore(root, ops, result, i);
    StoreSurvives(root, ops, result, i);
    GroupOf(root, ops, result, i);
    GroupParts(items, root, ops[i], GroupBase(root, ops, i), n);
    GroupInside(root, ops, i);
    ProgramPrefix(root, ops, result);
    IsMatmul(ops[i], ops[i - 1].out);
    TilesAreNoKeys(root, ops[i], GroupBase(root, ops, i));
    assert items[n + 0] == Leaf(Heads(root, ops[i], GroupBase(root, ops, i))[0]);
    NotALoad(items, n);
    NotALoad(items, n + 1);
    GroupLoad(items, root, ops[i], GroupBase(root, ops, i), n, 0);
    GroupLoad(items, root, ops[i], GroupBase(root, ops, i), n, 1);
  }

  lemma IsMatmul(op: Linalg, r: Root)
    requires ReadsTiled(op, r)
    ensures op.LinalgMatmul? && HeadCount(op) == 2
  {
  }

  lemma TilesAreNoKeys(root: seq<Shape>, op: Linalg, base: Buf)
    requires RootsIn(root, op) && op.LinalgMatmul?
    ensures var heads := Heads(root, op, base);
      |heads| == 2 && LoadKey(Leaf(heads[0])).None? && LoadKey(Leaf(heads[1])).None?
  {
  }

  lemma GroupInside(root: seq<Shape>, ops: seq<Linalg>, i: nat)
    requires i < |ops| && InRoots(root, ops)
    ensures GroupStart(root, ops, i + 1) <= |ChainItems(root, ops)|
  {
    hide RootsIn, ChainItems;
    ChainPrefix(root, ops, i + 1);
  }

  lemma StoreSurvives(root: seq<Shape>, ops: seq<Linalg>, result: Root, i: nat)
    requires 0 < i < |ops| && InRoots(root, ops) && HandsOver(ops, result, i)
    ensures var items, n := Program(root, ops, result), GroupStart(root, ops, i);
      0 < n < |items| == |ElidedSlots(items)| && ElidedSlots(items)[n - 1].Some?
  {
    hide RootsIn, Program, GroupStart, Matches, ElidedSlots, Reps, ReadsTiled, MapItem, LoadKey, StoreKey, Erased, ChainItems, Result,
      GroupBase, LoadOf;
    var items, n := Program(root, ops, result), GroupStart(root, ops, i);
    StoreItem(root, ops, result, i - 1);
    NotALoad(items, n - 1);
    SlotForm(items, n - 1);
    NotErased(root, ops, result, i - 1);
  }

  /** Elision never erases the last store of a chain: nothing behind it reads. */
  lemma LastStoreKept(root: seq<Shape>, ops: seq<Linalg>, result: Root)
    requires InRoots(root, ops) && ops != []
    ensures var us, i := ElidedOps(root, ops, result), |ops| - 1;
      us != [] && us[|us| - 1] == Result(ops[i], GroupBase(root, ops, i))
  {
    hide RootsIn, Program, Matches, ElidedSlots, Reps, MapItem, LoadKey, StoreKey, ChainItems, Result, GroupBase, LoadOf, Items,
      Disciplined, Ops, GroupStart;
    var items, i, n := Program(root, ops, result), |ops| - 1, |ChainItems(root, ops)|;
    StoreItem(root, ops, result, i);
    WholeChain(root, ops);
    GroupOf(root, ops, result, i);
    GroupStore(items, root, ops[i], GroupBase(root, ops, i), GroupStart(root, ops, i));
    NotALoad(items, n - 1);
    SlotForm(items, n - 1);
    NotErased(root, ops, result, i);
    ElidedProgram(root, ops, result);
    var s := ElidedSlots(items);
    OpsSplit(s, 0, n - 1, n);
    OneSlot(s, n - 1);
  }

  lemma NotErased(root: seq<Shape>, ops: seq<Linalg>, result: Root, i: nat)
    requires InRoots(root, ops) && i < |ops| && !Erased(ops, result, i) && 0 <= StoreAt(root, ops, i) < |Program(root, ops, result)|
    ensures !DeadStore(Program(root, ops, result), StoreAt(root, ops, i))
  {
    hide RootsIn, Program, DeadStore, GroupStart, Erased;
    if DeadStore(Program(root, ops, result), StoreAt(root, ops, i)) {
      OnlyErased(root, ops, result, i);
    }
  }

  /** So they stand side by side among the operations. */
  lemma HandoverOps(root: seq<Shape>, ops: seq<Linalg>, result: Root, i: nat) returns (x: nat)
    requires 0 < i < |ops| && InRoots(root, ops) && HandsOver(ops, result, i)
    ensures var us, heads := ElidedOps(root, ops, result), Heads(root, ops[i], GroupBase(root, ops, i));
      && |heads| == 2 && x + 2 < |us| && us[x] == Result(ops[i - 1], GroupBase(root, ops, i - 1))
      && us[x + 1] == heads[0] && us[x + 2] == heads[1]
  {
    hide RootsIn, Program, GroupStart, GroupBase, ElidedSlots, Result, Heads, HandsOver, Ops, ChainItems;
    HandoverSlots(root, ops, result, i);
    var s, n, m := ElidedSlots(Program(root, ops, result)), GroupStart(root, ops, i), |ChainItems(root, ops)|;
    OpsSplit(s, 0, n - 1, m);
    OpsSplit(s, n - 1, n, m);
    OpsSplit(s, n, n + 1, m);
    OpsSplit(s, n + 1, n + 2, m);
    OneSlot(s, n - 1);
    OneSlot(s, n);
    OneSlot(s, n + 1);
    x := |Ops(s, 0, n - 1)|;
    ElidedProgram(root, ops, result);
  }

  /** A transfer of a non-empty rectangle touches its first bytes. */
  lemma FirstBytes(base: Dword, rows: Dword, cols: Dword, pitch: Dword)
    requires rows > 0 && cols > 0
    ensures var t := HazardChecker.TileRanges(base, rows, cols, pitch); |t| > 0 && t[0].lo == base < t[0].hi
  {
  }

  lemma StoreStart(ty: Typing, store: IrOp, r: Root)
    requires Fits(ty) && r < |ty.root| && store.Store? && store.to == ToDDR(r) && EmitOp(ty, Place(ty), store).Some?
    ensures var i := EmitOp(ty, Place(ty), store).value;
      i.DmaStore? && i.dma.ddrAddr == U32(DdrAddr(r)) && i.dma.rows > 0 && i.dma.cols > 0
  {
    hide Place, DdrAddr, U32;
    assert NonEmpty(ty.root[r]);
    SmallU32(ty.root[r].rows);
    SmallU32(ty.root[r].cols);
  }

  lemma LoadStart(ty: Typing, load: IrOp, r: Root)
    requires Fits(ty) && r < |ty.root|
    requires load.Load? && load.src.SubOf? && load.src == SubOf(ToDDR(r), Fixed(0), Fixed(0), load.src.rows, load.src.cols)
    requires EmitOp(ty, Place(ty), load).Some? && WellTyped(ty, load)
    ensures var i := EmitOp(ty, Place(ty), load).value;
      i.DmaLoad? && i.dma.ddrAddr == U32(DdrAddr(r)) && i.dma.rows > 0 && i.dma.cols > 0
  {
    hide Place, DdrAddr, U32;
    assert NonEmpty(ty.buf[load.dst]);
    SmallU32(load.src.rows);
    SmallU32(load.src.cols);
    SmallU32(0);
    var pitch := U32(2 * ty.root[r].cols);
    assert DdrAddr(r) + 0 * pitch + 0 * 2 == DdrAddr(r);
  }

  /** A store and a tile load of the same root overlap in the tile's first bytes. */
  lemma TileOverlaps(ty: Typing, store: IrOp, load: IrOp, r: Root)
    requires Fits(ty) && r < |ty.root|
    requires store.Store? && store.to == ToDDR(r) && EmitOp(ty, Place(ty), store).Some?
    requires load.Load? && load.src.SubOf? && load.src == SubOf(ToDDR(r), Fixed(0), Fixed(0), load.src.rows, load.src.cols)
    requires EmitOp(ty, Place(ty), load).Some? && WellTyped(ty, load)
    ensures var i, j := EmitOp(ty, Place(ty), store).value, EmitOp(ty, Place(ty), load).value;
      && i.DmaStore? && j.DmaLoad?
      && HazardChecker.Overlap(HazardChecker.Reads(j)[0].ranges, HazardChecker.Writes(i)[0].ranges)
  {
    hide Place, DdrAddr, U32, EmitOp, Fits, WellTyped, HazardChecker.TileRanges;
    StoreStart(ty, store, r);
    LoadStart(ty, load, r);
    var d, e := EmitOp(ty, Place(ty), load).value.dma, EmitOp(ty, Place(ty), store).value.dma;
    FirstBytes(d.ddrAddr, d.rows, d.cols, d.srcStride);
    FirstBytes(e.ddrAddr, e.rows, e.cols, e.dstStride);
  }

  lemma HandoverIsHazard(ty: Typing, ops: seq<Linalg>, result: Root, i: nat)
    requires Placeable(ty, ops) && result < |ty.root| && 0 < i < |ops| && HandsOver(ops, result, i)
    ensures !HazardChecker.Clean(Stream(ty, ops, result))
  {
    hide RootsIn, Shaped, Fits, ElidedOps, Unroll, Elide, Program, Erased, Emit, EmitOp, Place, ChainBufs, GroupBase, WellTyped, InBounds,
      HazardChecker.Overlap;
    PlaceableEmits(ty, ops, result);
    var us := ElidedOps(ty.root, ops, result);
    EmitAt(ty, us);
    var x := HandoverOps(ty.root, ops, result, i);
    var r, op := ops[i - 1].out, ops[i];
    var y := if r == op.lhs then x + 1 else x + 2;
    RootKnown(ty.root, ops[i - 1]);
    TileOverlaps(ty, us[x], us[y], r);
    var p := Stream(ty, ops, result);
    forall k | x <= k <= y
      ensures p[k] != Sync
    {
      SyncEmitted(ty, us[k]);
    }
    var v := HazardChecker.Violation(y, HazardChecker.RAW, "DDR", x, "DDR");
    var a, b := HazardChecker.Reads(p[y])[0], HazardChecker.Writes(p[x])[0];
    assert a in HazardChecker.Reads(p[y]) && b in HazardChecker.Writes(p[x]) && HazardChecker.Overlap(a.ranges, b.ranges);
    assert HazardChecker.IsHazard(p, v);
  }

  lemma RootKnown(root: seq<Shape>, op: Linalg)
    requires RootsIn(root, op)
    ensures op.out < |root|
  {
  }

  /** The stream of a compiled chain is clean exactly when no matmul tiles the root its immediate
      predecessor stores, unless elision erased that store: the store and the load have no SYNC between
      them. */
  lemma CleanExactly(ty: Typing, ops: seq<Linalg>, result: Root)
    requires Placeable(ty, ops) && result < |ty.root|
    ensures HazardChecker.Clean(Stream(ty, ops, result)) <==> NoTiledHandover(ops, result)
  {
    hide Fits, RootsIn, Shaped, Stream, ChainBufs, HazardChecker.Clean, HandsOver, ElidedOps, HazardFree, Emits, Place, Emit;
    if NoTiledHandover(ops, result) {
      PlaceableEmits(ty, ops, result);
      ElidedHazardFree(ty.root, ops, result);
      StreamIsClean(ty, ElidedOps(ty.root, ops, result));
    } else {
      var i :| 0 < i < |ops| && HandsOver(ops, result, i);
      HandoverIsHazard(ty, ops, result, i);
    }
  }
}
