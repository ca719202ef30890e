/** Compiled streams pass the hazard checker: every lowered operation by itself, and every chain
    after its copies were elided, unless a matmul tiles the root its predecessor just stored. */
module ChainHazards {
  import opened Arithmetic
  import opened Types
  import opened Machine
  import HazardChecker
  import opened EclipseIR
  import opened Emission
  import opened EmittedMoves
  import opened Lowering
  import opened MatmulCorrect
  import opened ElideCopies
  import opened Renaming
  import opened ElisionCorrect
  import opened ChainElision
  import opened ChainGroups
  import opened LostRoots
  import opened StreamHazards

  /* ---- loads, a fenced middle, a store ---- */

  ghost predicate LoadsApart(ops: seq<IrOp>) {
    && (forall i | 0 <= i < |ops| :: ops[i].Load?)
    && forall i, j | 0 <= i < j < |ops| :: ops[i].dst != ops[j].dst
  }

  lemma LoadsHazardFree(ops: seq<IrOp>)
    requires LoadsApart(ops)
    ensures HazardFree(ops)
  {
    hide RootOf;
  }

  predicate Fenced(ops: seq<IrOp>) { |ops| >= 1 && ops[0] == SyncOp && ops[|ops| - 1] == SyncOp }

  predicate OneStore(ops: seq<IrOp>) { |ops| <= 1 && (|ops| == 1 ==> ops[0].Store?) }

  lemma SyncAt(ops: seq<IrOp>, k: nat)
    requires k < |ops| && ops[k] == SyncOp
    ensures forall i, j | 0 <= i <= k <= j < |ops| :: !NoSync(ops, i, j)
  {
  }

  /** Loads, then a fenced middle, then at most a store. */
  lemma Sandwich(head: seq<IrOp>, mid: seq<IrOp>, tail: seq<IrOp>)
    requires LoadsApart(head) && Fenced(mid) && HazardFree(mid) && OneStore(tail)
    ensures HazardFree(head + mid + tail)
  {
    hide Independent;
    LoadsHazardFree(head);
    SyncAt(mid, 0);
    HazardJoin(head, mid);
    ClosedMeets(head + mid, tail);
    assert HazardFree(tail);
    HazardJoin(head + mid, tail);
  }

  /** What of such a list is not fenced: the store behind, the loads in front. */
  lemma SandwichEnds(head: seq<IrOp>, mid: seq<IrOp>, tail: seq<IrOp>)
    requires Fenced(mid) && OneStore(tail)
    ensures var all := head + mid + tail;
      && (forall i | 0 <= i < |all| && NoSync(all, i, |all| - 1) :: all[i] in tail)
      && (forall j | 0 <= j < |all| && NoSync(all, 0, j) :: all[j] in head)
      && exists k :: 0 <= k < |all| && all[k] == SyncOp
  {
    var all, h, m := head + mid + tail, |head|, |head + mid|;
    assert all[h] == SyncOp && all[m - 1] == SyncOp;
    SyncAt(all, h);
    SyncAt(all, m - 1);
  }

  /* ---- the middle of a lowered matmul ---- */

  lemma BlockHazardFree(p: Plan, s: nat, acc: bool)
    requires p.l != p.r
    ensures HazardFree(Block(p, s, acc))
  {
    hide RootOf;
    var ops := Block(p, s, acc);
    assert ops[2] == SyncOp && ops[4] == SyncOp;
    assert Independent(ops[0], ops[1]);
    SyncAt(ops, 2);
    SyncAt(ops, 4);
  }

  lemma {:induction false} LoopHazardFree(p: Plan, ub: nat)
    requires p.l != p.r
    ensures var ops := UnrollLoop(LoopBody(p), 1, ub);
      HazardFree(ops) && (ops != [] ==> ops[|ops| - 1] == SyncOp)
    decreases ub
  {
    hide Independent, LoopBody, BodyAt, HazardFree;
    if ub > 1 {
      LoopHazardFree(p, ub - 1);
      BodyIsBlock(p, ub - 1);
      BlockHazardFree(p, ub - 1, true);
      var front, last := UnrollLoop(LoopBody(p), 1, ub - 1), Block(p, ub - 1, true);
      assert last[|last| - 1] == SyncOp;
      if front != [] {
        ClosedMeets(front, last);
      }
      HazardJoin(front, last);
    } else {
      NoOps();
    }
  }

  lemma NoOps()
    ensures HazardFree([])
  {
  }

  lemma MiddleIsFenced(p: Plan)
    requires p.l != p.r
    ensures Fenced(Middle(p)) && HazardFree(Middle(p))
  {
    hide UnrollLoop, LoopBody;
    LoopHazardFree(p, p.tiles);
    var first: seq<IrOp> := [SyncOp, MatmulOp(p.l, p.r, p.d, false, false, false), SyncOp];
    OneCompute(MatmulOp(p.l, p.r, p.d, false, false, false));
    ClosedMeets(first, UnrollLoop(LoopBody(p), 1, p.tiles));
    HazardJoin(first, UnrollLoop(LoopBody(p), 1, p.tiles));
  }

  lemma OneCompute(op: IrOp)
    requires op != SyncOp
    ensures Fenced([SyncOp, op, SyncOp]) && HazardFree([SyncOp, op, SyncOp])
  {
    var ops := [SyncOp, op, SyncOp];
    SyncAt(ops, 0);
    SyncAt(ops, 2);
  }

  /* ---- the three parts of a lowered operation ---- */

  /** The middle stays fenced and hazard-free under renaming. */
  lemma MidsHazardFree(root: seq<Shape>, op: Linalg, base: Buf, rs: Replacements)
    requires RootsIn(root, op) && OwnImages(op, base, rs)
    ensures var mid := MapOps(Unroll(Mids(root, op, base)), rs); Fenced(mid) && HazardFree(mid)
  {
    hide Image, HazardFree, LoopBody;
    var three := [SyncOp, Compute(op, base), SyncOp];
    UnrollLeaves(three);
    if op.LinalgMatmul? {
      var p := PlanFor(root, op, base);
      MiddleIsFenced(p);
      MidsUnrolled(root, op, base);
      UnchangedMiddle(p, rs);
    } else {
      assert Mids(root, op, base) == Leaves(three);
      assert MapOps(three, rs) == [SyncOp, MapOp(Compute(op, base), rs), SyncOp];
      OneCompute(MapOp(Compute(op, base), rs));
    }
  }

  /* ---- the shape of a group ---- */

  ghost predicate Group(ops: seq<IrOp>, head: seq<IrOp>, tail: seq<IrOp>) {
    && HazardFree(ops)
    && (forall i | 0 <= i < |ops| && NoSync(ops, i, |ops| - 1) :: ops[i] in tail)
    && (forall j | 0 <= j < |ops| && NoSync(ops, 0, j) :: ops[j] in head)
    && (exists k :: 0 <= k < |ops| && ops[k] == SyncOp)
  }

  lemma KeptHeadIs(items: seq<Item>, root: seq<Shape>, op: Linalg, base: Buf, n: nat)
    requires GroupAt(items, root, op, base, n)
    ensures n + HeadCount(op) <= |items| == |ElidedSlots(items)|
    ensures LoadsApart(KeptHead(items, op, n))
    ensures forall o | o in KeptHead(items, op, n) ::
      exists x: nat :: (x < HeadCount(op) && |Heads(root, op, base)| == HeadCount(op) && o == Heads(root, op, base)[x]
        && !LoadOf(Matches(items), n + x))
  {
    hide Disciplined, Items, ElidedSlots, Matches, Ops, LoadOf, RootOf, ToDDR;
    var s := ElidedSlots(items);
    SlotCount(items);
    GroupLoad(items, root, op, base, n, 0);
    OneSlot(s, n);
    var heads := Heads(root, op, base);
    if HeadCount(op) == 2 {
      GroupLoad(items, root, op, base, n, 1);
      OneSlot(s, n + 1);
      OpsSplit(s, n, n + 1, n + 2);
      assert heads[0].dst != heads[1].dst;
    }
  }

  lemma GroupFrom(head: seq<IrOp>, mid: seq<IrOp>, tail: seq<IrOp>, store: IrOp)
    requires LoadsApart(head) && Fenced(mid) && HazardFree(mid) && OneStore(tail) && forall o | o in tail :: o in [store]
    ensures Group(head + mid + tail, head, [store])
    ensures tail == [] ==> Group(head + mid + tail, head, [])
  {
    hide HazardFree, LoadsApart, Fenced, OneStore, NoSync;
    Sandwich(head, mid, tail);
    SandwichEnds(head, mid, tail);
  }

  /** What is left of the store. */
  lemma GroupTail(items: seq<Item>, root: seq<Shape>, op: Linalg, base: Buf, n: nat)
    requires GroupAt(items, root, op, base, n)
    ensures var k := n + |Items(root, op, base)| - 1;
      && n <= k < |items| == |ElidedSlots(items)|
      && var tail := Ops(ElidedSlots(items), k, k + 1);
        OneStore(tail) && (ElidedSlots(items)[k].None? ==> tail == []) && forall o | o in tail :: o in [Result(op, base)]
  {
    hide Disciplined, Items, ElidedSlots, Ops, OneStore, Result, Heads, Mids, Matches, RootsIn;
    GroupParts(items, root, op, base, n);
    GroupStore(items, root, op, base, n);
    var s, k := ElidedSlots(items), n + |Items(root, op, base)| - 1;
    OneSlot(s, k);
    ResultStores(op, base);
    TailIsStore(Ops(s, k, k + 1), s[k], Result(op, base));
  }

  lemma GroupShape(items: seq<Item>, root: seq<Shape>, op: Linalg, base: Buf, n: nat)
    requires GroupAt(items, root, op, base, n)
    ensures var hi := n + |Items(root, op, base)|;
      && hi <= |items| == |ElidedSlots(items)| && n + HeadCount(op) <= hi
      && Group(Ops(ElidedSlots(items), n, hi), KeptHead(items, op, n), [Result(op, base)])
      && (ElidedSlots(items)[hi - 1].None? ==> Group(Ops(ElidedSlots(items), n, hi), KeptHead(items, op, n), []))
  {
    hide Disciplined, Items, Mids, ElidedSlots, Ops, MapOps, HazardFree, Fenced, LoadsApart, OneStore, Group, Matches, LoadOf, KeptHead,
      Result, RootsIn, HeadCount, OwnImages, Reps, Heads, Unroll, MapOp;
    GroupSplit(items, root, op, base, n);
    GroupImages(items, root, op, base, n);
    MidsHazardFree(root, op, base, Reps(items));
    KeptHeadIs(items, root, op, base, n);
    GroupTail(items, root, op, base, n);
    var hi := n + |Items(root, op, base)| - 1;
    GroupFrom(KeptHead(items, op, n), MapOps(Unroll(Mids(root, op, base)), Reps(items)), Ops(ElidedSlots(items), hi, hi + 1),
              Result(op, base));
  }

  lemma ResultStores(op: Linalg, base: Buf)
    ensures Result(op, base).Store?
  {
  }

  lemma TailIsStore(tail: seq<IrOp>, s: Option<Item>, store: IrOp)
    requires store.Store? && (s == None || s == Some(Leaf(store)))
    requires tail == match s case None => [] case Some(i) => Flat(i)
    ensures OneStore(tail) && (s.None? ==> tail == []) && forall o | o in tail :: o in [store]
  {
  }

  /* ---- chains ---- */

  /** A matmul tiles the root its immediate predecessor stores, and elision keeps that store. */
  ghost predicate HandsOver(ops: seq<Linalg>, result: Root, i: nat)
    requires 0 < i < |ops|
  {
    ReadsTiled(ops[i], ops[i - 1].out) && !Erased(ops, result, i - 1)
  }

  ghost predicate NoTiledHandover(ops: seq<Linalg>, result: Root) { forall i | 0 < i < |ops| :: !HandsOver(ops, result, i) }

  /** What the operations in front of group `i` leave unfenced. */
  ghost function Unfenced(root: seq<Shape>, ops: seq<Linalg>, result: Root, i: nat): seq<IrOp>
    requires i <= |ops| && InRoots(root, ops)
  {
    if i == 0 || Erased(ops, result, i - 1) then [] else [Result(ops[i - 1], GroupBase(root, ops, i - 1))]
  }

  /** A load that group `i` still makes. */
  ghost predicate StillLoads(root: seq<Shape>, ops: seq<Linalg>, result: Root, i: nat, b: IrOp, x: nat)
    requires i < |ops| && InRoots(root, ops)
  {
    && x < HeadCount(ops[i]) && |Heads(root, ops[i], GroupBase(root, ops, i))| == HeadCount(ops[i])
    && b == Heads(root, ops[i], GroupBase(root, ops, i))[x]
    && !LoadOf(Matches(Program(root, ops, result)), GroupStart(root, ops, i) + x)
  }

  /** A load group `i` still makes does not read what group i-1 stores. */
  lemma HeadReadsElsewhere(root: seq<Shape>, ops: seq<Linalg>, result: Root, i: nat, load: IrOp, x: nat)
    requires 0 < i < |ops| && InRoots(root, ops) && !ReadsTiled(ops[i], ops[i - 1].out)
    requires StillLoads(root, ops, result, i, load, x)
    ensures load.Load? && RootOf(load.src) != ops[i - 1].out && load.dst >= GroupBase(root, ops, i)
  {
    hide RootsIn, LoadOf, RootOf, Program, GroupStart, GroupBase, Heads, CastSource, HeadCount, ReadsTiled;
    StoredBefore(root, ops, result, i);
    HeadItem(root, ops, result, i, x);
    HeadForm(root, ops[i], GroupBase(root, ops, i), x);
    var items, n := Program(root, ops, result), GroupStart(root, ops, i);
    if !ops[i].LinalgMatmul? && RootOf(load.src) == ops[i - 1].out {
      MatchedIfStored(items, |items|, n - 1, n + x);
    }
  }

  /** The elided program up to group `i`: no hazard, and only that group's store is still unfenced. */
  ghost predicate UpTo(root: seq<Shape>, ops: seq<Linalg>, result: Root, i: nat)
    requires i <= |ops| && InRoots(root, ops)
  {
    var s, n := ElidedSlots(Program(root, ops, result)), GroupStart(root, ops, i);
    n <= |s| && HazardFree(Ops(s, 0, n))
    && forall x | 0 <= x < |Ops(s, 0, n)| && NoSync(Ops(s, 0, n), x, |Ops(s, 0, n)| - 1) ::
        Ops(s, 0, n)[x] in Unfenced(root, ops, result, i)
  }

  lemma StoreMeetsLoad(store: IrOp, load: IrOp)
    requires store.Store? && load.Load? && RootOf(load.src) != RootOf(store.to) && load.dst != store.from
    ensures Independent(store, load)
  {
    hide RootOf;
  }

  lemma GroupsMeet(root: seq<Shape>, ops: seq<Linalg>, result: Root, i: nat)
    requires i < |ops| && InRoots(root, ops) && NoTiledHandover(ops, result)
    requires UpTo(root, ops, result, i)
    ensures var items, s, n, m := Program(root, ops, result), ElidedSlots(Program(root, ops, result)),
                                  GroupStart(root, ops, i), GroupStart(root, ops, i + 1);
      n <= m <= |s| == |items| && n + HeadCount(ops[i]) <= |s|
      && Group(Ops(s, n, m), KeptHead(items, ops[i], n), Unfenced(root, ops, result, i + 1))
      && Meets(Ops(s, 0, n), Ops(s, n, m))
  {
    hide RootsIn, Disciplined, Items, Independent, ElidedSlots, Program, Ops, KeptHead, LoadsApart, RootOf, Matches, NoSync, HazardFree, Heads, LoadOf,
      GroupStart, GroupBase, NoTiledHandover, ChainItems, ChainBufs, BufCount, Group, Unfenced, Result, Erased;
    var items, n, base := Program(root, ops, result), GroupStart(root, ops, i), GroupBase(root, ops, i);
    GroupOf(root, ops, result, i);
    GroupShape(items, root, ops[i], base, n);
    KeptHeadIs(items, root, ops[i], base, n);
    UnfencedIs(root, ops, result, i);
    var s, m := ElidedSlots(items), GroupStart(root, ops, i + 1);
    GroupHeads(Ops(s, n, m), KeptHead(items, ops[i], n), Unfenced(root, ops, result, i + 1));
    var us, gs := Ops(s, 0, n), Ops(s, n, m);
    forall x, y | 0 <= x < |us| && 0 <= y < |gs| && NoSync(us, x, |us| - 1) && NoSync(gs, 0, y)
      ensures Independent(us[x], gs[y])
    {
      assert gs[y] in KeptHead(items, ops[i], n);
      var h: nat :| h < HeadCount(ops[i]) && |Heads(root, ops[i], base)| == HeadCount(ops[i]) && gs[y] == Heads(root, ops[i], base)[h]
        && !LoadOf(Matches(items), n + h);
      assert StillLoads(root, ops, result, i, gs[y], h);
      PairIndependent(root, ops, result, i, us[x], gs[y]);
    }
  }

  lemma GroupHeads(ops: seq<IrOp>, head: seq<IrOp>, tail: seq<IrOp>)
    requires Group(ops, head, tail)
    ensures forall j | 0 <= j < |ops| && NoSync(ops, 0, j) :: ops[j] in head
  {
  }

  lemma UnfencedIs(root: seq<Shape>, ops: seq<Linalg>, result: Root, i: nat)
    requires i < |ops| && InRoots(root, ops)
    ensures Unfenced(root, ops, result, i + 1) == [Result(ops[i], GroupBase(root, ops, i))]
      || (Unfenced(root, ops, result, i + 1) == [] && 0 <= GroupStart(root, ops, i + 1) - 1 < |ElidedSlots(Program(root, ops, result))|
          && ElidedSlots(Program(root, ops, result))[GroupStart(root, ops, i + 1) - 1].None?)
  {
    hide RootsIn, GroupStart, GroupBase, Program, ElidedSlots, Erased, Result, DeadStore;
    if Erased(ops, result, i) {
      StoreErased(root, ops, result, i);
    }
  }

  lemma PairIndependent(root: seq<Shape>, ops: seq<Linalg>, result: Root, i: nat, a: IrOp, b: IrOp)
    requires i < |ops| && InRoots(root, ops) && NoTiledHandover(ops, result) && a in Unfenced(root, ops, result, i)
    requires exists x: nat :: StillLoads(root, ops, result, i, b, x)
    ensures Independent(a, b)
  {
    hide RootsIn, Disciplined, Items, Independent, Program, RootOf, Matches, Heads, LoadOf, GroupStart, GroupBase, Erased, ToDDR,
      StillLoads, ReadsTiled, BufCount;
    assert !HandsOver(ops, result, i);
    var x: nat :| StillLoads(root, ops, result, i, b, x);
    HeadReadsElsewhere(root, ops, result, i, b, x);
    GroupOf(root, ops, result, i - 1);
    DdrRoot(ops[i - 1].out);
    OwnResult(ops[i - 1]);
    StoreMeetsLoad(a, b);
  }

  lemma OwnResult(op: Linalg)
    ensures forall base: nat :: Result(op, base).Store? && base <= Result(op, base).from < base + BufCount(op)
  {
  }

  /** A SYNC in `gs` fences everything in front of it. */
  lemma SuffixOpen(us: seq<IrOp>, gs: seq<IrOp>, x: nat)
    requires x < |us + gs| && NoSync(us + gs, x, |us + gs| - 1) && exists k :: 0 <= k < |gs| && gs[k] == SyncOp
    ensures |us| <= x && NoSync(gs, x - |us|, |gs| - 1)
  {
    var all, n := us + gs, |us|;
    var k :| 0 <= k < |gs| && gs[k] == SyncOp;
    assert all[n + k] == SyncOp;
    forall y | x - n <= y < |gs| && 0 <= y
      ensures gs[y] != SyncOp
    {
      assert all[n + y] == gs[y];
    }
  }

  /** Appending a group: what is unfenced afterwards is what is unfenced in the group. */
  lemma AppendGroup(us: seq<IrOp>, gs: seq<IrOp>, head: seq<IrOp>, tail: seq<IrOp>)
    requires HazardFree(us) && Group(gs, head, tail) && Meets(us, gs)
    ensures HazardFree(us + gs)
    ensures forall x | 0 <= x < |us + gs| && NoSync(us + gs, x, |us + gs| - 1) :: (us + gs)[x] in tail
  {
    hide Independent, HazardFree, Meets, NoSync;
    HazardJoin(us, gs);
    forall x | 0 <= x < |us + gs| && NoSync(us + gs, x, |us + gs| - 1)
      ensures (us + gs)[x] in tail
    {
      SuffixOpen(us, gs, x);
      assert (us + gs)[x] == gs[x - |us|];
    }
  }

  lemma {:induction false} ChainHazardFree(root: seq<Shape>, ops: seq<Linalg>, result: Root, i: nat)
    requires i <= |ops| && InRoots(root, ops) && NoTiledHandover(ops, result)
    ensures UpTo(root, ops, result, i)
    decreases i
  {
    hide RootsIn, UpTo, NoTiledHandover;
    if i == 0 {
      EmptyPrefix(root, ops, result);
    } else {
      ChainHazardFree(root, ops, result, i - 1);
      NextGroup(root, ops, result, i - 1);
    }
  }

  lemma NextGroup(root: seq<Shape>, ops: seq<Linalg>, result: Root, i: nat)
    requires i < |ops| && InRoots(root, ops) && NoTiledHandover(ops, result)
    requires UpTo(root, ops, result, i)
    ensures UpTo(root, ops, result, i + 1)
  {
    hide RootsIn, ElidedSlots, Program, Ops, KeptHead, NoSync, HazardFree, Meets, Group, GroupBase, NoTiledHandover, Result,
      GroupStart, HeadCount, Unfenced;
    GroupsMeet(root, ops, result, i);
    var s, n, m := ElidedSlots(Program(root, ops, result)), GroupStart(root, ops, i), GroupStart(root, ops, i + 1);
    OpsSplit(s, 0, n, m);
    AppendGroup(Ops(s, 0, n), Ops(s, n, m), KeptHead(Program(root, ops, result), ops[i], n),
                Unfenced(root, ops, result, i + 1));
  }

  lemma EmptyPrefix(root: seq<Shape>, ops: seq<Linalg>, result: Root)
    requires InRoots(root, ops)
    ensures UpTo(root, ops, result, 0)
  {
    hide RootsIn, ElidedSlots, Program;
    assert ops[..0] == [];
    var s := ElidedSlots(Program(root, ops, result));
    assert s[0..0] == [];
    assert Ops(s, 0, 0) == [];
  }

  /* ---- the operations have emitter cases ---- */

  /** The views the emitters read, inside their roots. */
  predicate Formed(ty: Typing, op: IrOp) {
    InBounds(ty, op) &&
    match op
    case Load(CastOf(Base(_)), _) => true
    case Load(SubOf(CastOf(Base(_)), Fixed(_), Fixed(_), _, _), _) => true
    case Load(_, _) => false
    case Store(_, CastOf(Base(_))) => true
    case Store(_, _) => false
    case ReturnOp(_) => false
    case _ => true
  }

  lemma FormedEmits(ty: Typing, op: IrOp)
    requires Formed(ty, op) && WellTyped(ty, op)
    ensures EmitOp(ty, Place(ty), op).Some?
  {
    hide Place, U32, Dims;
    match op
    case Load(CastOf(Base(r)), b) => CastTyped(ty, op, r, b);
    case Load(SubOf(CastOf(Base(r)), Fixed(_), Fixed(_), _, _), b) =>
    case Store(b, CastOf(Base(r))) => CastTyped(ty, op, r, b);
    case _ =>
  }

  lemma FormedMapped(ty: Typing, op: IrOp, rs: Replacements)
    ensures Formed(ty, MapOp(op, rs)) == Formed(ty, op)
  {
    hide Image, DdrAddr;
  }

  predicate AllFormed(ty: Typing, ops: seq<IrOp>) { forall k | 0 <= k < |ops| :: Formed(ty, ops[k]) }

  lemma BlockFormed(ty: Typing, p: Plan, s: nat, acc: bool)
    requires p.a < |ty.root| && p.b < |ty.root| && s < p.tiles
    requires ty.root[p.a] == Shape(p.m, Depth(p)) && ty.root[p.b] == Shape(Depth(p), p.n)
    ensures AllFormed(ty, Block(p, s, acc))
  {
    hide Depth, DdrAddr;
    BlockInside(p, s);
    MulMonotone(p.n, s * TILE_K + TILE_K, Depth(p));
    AlignedBlocks(DdrAddr(p.a), Depth(p), DdrAddr(p.b), p.n, s);
    DdrAligned(p.a);
    DdrAligned(p.b);
  }

  lemma DdrAligned(r: Root)
    ensures DdrAddr(r) % 16 == 0
  {
  }

  lemma AlignedBlocks(a: int, cols: nat, b: int, n: nat, s: nat)
    ensures a % 16 == 0 ==> (a + 0 * (2 * cols) + s * TILE_K * 2) % 16 == 0
    ensures b % 16 == 0 ==> (b + s * TILE_K * (2 * n) + 0 * 2) % 16 == 0
  {
    if b % 16 == 0 {
      assert s * TILE_K * (2 * n) == 16 * (s * (2 * n));
      ModUnique(b + 16 * (s * (2 * n)), b / 16 + s * (2 * n), 0, 16);
    }
  }

  lemma {:induction false} LoopFormed(ty: Typing, p: Plan, ub: nat)
    requires p.a < |ty.root| && p.b < |ty.root| && ub <= p.tiles
    requires ty.root[p.a] == Shape(p.m, Depth(p)) && ty.root[p.b] == Shape(Depth(p), p.n)
    ensures AllFormed(ty, UnrollLoop(LoopBody(p), 1, ub))
    decreases ub
  {
    hide Depth, Formed, LoopBody, BodyAt, Block;
    if ub > 1 {
      LoopFormed(ty, p, ub - 1);
      BodyIsBlock(p, ub - 1);
      BlockFormed(ty, p, ub - 1, true);
    }
  }

  /** The unrolled operations of one lowering. */
  lemma LoweredFormed(ty: Typing, op: Linalg, base: Buf)
    requires RootsIn(ty.root, op) && Contracts(ty.root, op)
    ensures AllFormed(ty, Unroll(Items(ty.root, op, base)))
  {
    hide Unroll, LoopBody, Block, UnrollLoop, Depth, DdrAddr;
    if op.LinalgMatmul? {
      var p := PlanFor(ty.root, op, base);
      assert Items(ty.root, op, base) == ItemsOf(p);
      UnrolledMatmul(p);
      assert Depth(p) == ty.root[op.lhs].cols by { WholeTiles(ty.root[op.lhs].cols, p); }
      LoopFormed(ty, p, p.tiles);
      BlockFormed(ty, p, 0, false);
      assert Formed(ty, Store(p.d, ToDDR(p.c)));
    } else {
      StraightFormed(ty, op, base);
    }
  }

  lemma StraightFormed(ty: Typing, op: Linalg, base: Buf)
    requires RootsIn(ty.root, op) && !op.LinalgMatmul?
    ensures AllFormed(ty, Unroll(Items(ty.root, op, base)))
  {
    hide Unroll, MapOp, DdrAddr;
    var ops := Heads(ty.root, op, base) + [SyncOp, Compute(op, base), SyncOp] + [Result(op, base)];
    PartsOf(ty.root, op, base);
    LeavesConcat(Heads(ty.root, op, base), [SyncOp, Compute(op, base), SyncOp]);
    LeavesConcat(Heads(ty.root, op, base) + [SyncOp, Compute(op, base), SyncOp], [Result(op, base)]);
    OneLeaf(Result(op, base));
    assert Items(ty.root, op, base) == Leaves(ops);
    UnrollLeaves(ops);
  }

  lemma {:induction false} ChainFormed(ty: Typing, ops: seq<Linalg>)
    requires InRoots(ty.root, ops) && forall k | 0 <= k < |ops| :: Contracts(ty.root, ops[k])
    ensures AllFormed(ty, Unroll(ChainItems(ty.root, ops)))
    decreases ops
  {
    hide RootsIn, Contracts, Items, NewBufs, Formed;
    if ops != [] {
      var front, op := ops[..|ops| - 1], ops[|ops| - 1];
      ChainFormed(ty, front);
      LoweredFormed(ty, op, |ChainBufs(ty.root, front)|);
      UnrollConcat(ChainItems(ty.root, front), Items(ty.root, op, |ChainBufs(ty.root, front)|));
    }
  }

  /** Elision keeps the forms. */
  lemma {:induction false} ElidedFormed(ty: Typing, items: seq<Item>, k: nat, hi: nat)
    requires k <= hi <= |items| == |ElidedSlots(items)| && AllFormed(ty, Unroll(items[k..hi]))
    ensures AllFormed(ty, Ops(ElidedSlots(items), k, hi))
    decreases hi - k
  {
    hide Formed, ElidedSlots, Unroll, Flat, LoadOf, Reps, Matches, Live, Ops, MapItem, MapOps;
    var s := ElidedSlots(items);
    if k == hi {
      NothingFormed(ty, s, k);
    } else {
      assert items[k..hi] == [items[k]] + items[k + 1..hi];
      UnrollConcat([items[k]], items[k + 1..hi]);
      UnrollOne(items[k]);
      FormedParts(ty, Flat(items[k]), Unroll(items[k + 1..hi]));
      ElidedFormed(ty, items, k + 1, hi);
      OpsSplit(s, k, k + 1, hi);
      OneSlot(s, k);
      SlotForm(items, k);
      if s[k].Some? {
        FlatMapped(items[k], Reps(items));
        MappedFormed(ty, Flat(items[k]), Reps(items));
      }
      FormedParts(ty, Ops(s, k, k + 1), Ops(s, k + 1, hi));
      NoneFormed(ty);
    }
  }

  lemma NoneFormed(ty: Typing)
    ensures AllFormed(ty, [])
  {
  }

  lemma FormedParts(ty: Typing, xs: seq<IrOp>, ys: seq<IrOp>)
    ensures AllFormed(ty, xs + ys) <==> AllFormed(ty, xs) && AllFormed(ty, ys)
  {
    hide Formed;
    if AllFormed(ty, xs + ys) {
      forall k | 0 <= k < |xs| ensures Formed(ty, xs[k]) { assert (xs + ys)[k] == xs[k]; }
      forall k | 0 <= k < |ys| ensures Formed(ty, ys[k]) { assert (xs + ys)[|xs| + k] == ys[k]; }
    }
  }

  lemma NothingFormed(ty: Typing, s: Slots, k: nat)
    requires k <= |s|
    ensures AllFormed(ty, Ops(s, k, k))
  {
    assert s[k..k] == [];
  }

  lemma MappedFormed(ty: Typing, ops: seq<IrOp>, rs: Replacements)
    requires AllFormed(ty, ops)
    ensures AllFormed(ty, MapOps(ops, rs))
  {
    hide Formed, MapOp;
    forall k | 0 <= k < |ops|
      ensures Formed(ty, MapOps(ops, rs)[k])
    {
      FormedMapped(ty, ops[k], rs);
    }
  }

  /* ---- the main results ---- */

  /** Operations that ran are well typed. */
  lemma {:induction false} RanTyped<F>(f: Fpu<F>, ty: Typing, st: State, ops: seq<IrOp>)
    requires EvalOps(f, ty, st, ops).Some?
    ensures forall k | 0 <= k < |ops| :: WellTyped(ty, ops[k])
    decreases ops
  {
    hide WellTyped, Elements, Value, Values, Read;
    if ops != [] {
      RanTyped(f, ty, EvalOp(f, ty, st, ops[0]).value, ops[1..]);
    }
  }

  lemma {:induction false} EmitPrefix(ty: Typing, ops: seq<IrOp>, r: Root)
    ensures Emit(ty, Place(ty), ops + [ReturnOp(r)]) == Emit(ty, Place(ty), ops)
    decreases ops
  {
    hide Place;
    if ops == [] {
      assert [] + [ReturnOp(r)] == [ReturnOp(r)];
      assert [ReturnOp(r)][1..] == [];
    } else {
      assert (ops + [ReturnOp(r)])[1..] == ops[1..] + [ReturnOp(r)];
      EmitPrefix(ty, ops[1..], r);
    }
  }

  /** A chain that runs at all elides to operations with one instruction each. */
  lemma ElidedOpsEmit<F>(f: Fpu<F>, ty: Typing, ops: seq<Linalg>, result: Root, st: State)
    requires Fits(ty) && InRoots(ty.root, ops) && forall k | 0 <= k < |ops| :: Contracts(ty.root, ops[k])
    requires EvalOps(f, ty, st, Unroll(Elide(Program(ty.root, ops, result)))).Some?
    ensures Emits(ty, ElidedOps(ty.root, ops, result))
    ensures Unroll(Elide(Program(ty.root, ops, result))) == ElidedOps(ty.root, ops, result) + [ReturnOp(result)]
  {
    hide RootsIn, ElidedSlots, Live, Unroll, Contracts, Fits, Elide, EvalOps, Emit, Ops, Program, ChainItems, WellTyped, Formed,
      EmitOp, InBounds;
    var root := ty.root;
    var items, n := Program(root, ops, result), |ChainItems(root, ops)|;
    ElidedProgram(root, ops, result);
    var us := Ops(ElidedSlots(items), 0, n);
    RanTyped(f, ty, st, Unroll(Elide(items)));
    ChainFormed(ty, ops);
    ProgramPrefix(root, ops, result);
    ElidedFormed(ty, items, 0, n);
    forall k | 0 <= k < |us|
      ensures WellTyped(ty, us[k]) && InBounds(ty, us[k]) && EmitOp(ty, Place(ty), us[k]).Some?
    {
      assert Unroll(Elide(items))[k] == us[k];
      FormedInBounds(ty, us[k]);
      FormedEmits(ty, us[k]);
    }
  }

  lemma ElidedHazardFree(root: seq<Shape>, ops: seq<Linalg>, result: Root)
    requires InRoots(root, ops) && NoTiledHandover(ops, result)
    ensures HazardFree(ElidedOps(root, ops, result))
  {
    hide RootsIn, NoTiledHandover, HazardFree, Ops, Program, ChainItems, ElidedSlots;
    ChainHazardFree(root, ops, result, |ops|);
    WholeChain(root, ops);
  }

  lemma FormedInBounds(ty: Typing, op: IrOp)
    requires Formed(ty, op)
    ensures InBounds(ty, op)
  {
  }
}
