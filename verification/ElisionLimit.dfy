/** Where the elision pass loses data: its dead-root scan looks one view deep, so a matmul's tile loads
    do not keep a store alive. */
module ElisionLimit {
  import opened Types
  import opened Machine
  import opened EclipseIR
  import opened Lowering
  import opened MatmulCorrect
  import opened ElideCopies
  import opened Renaming
  import opened ElisionCorrect
  import opened ChainElision
  import opened ChainGroups
  import opened LostRoots
  import opened ChainMeaning
  import opened ElidedRuns
  import opened ElisionExact

  /* ---- a chain that returns the product of a lost root ---- */

  /** From the matmul's blocks on: the product is returned. */
  lemma ProductReturned(ty: Typing, st: State, p: Plan)
    requires Typed(ty, p) && Operands(st, p) && p.tiles >= 1
    ensures var s := EvalOps(Peek(), ty, st, TileOps(p) + [Store(p.d, ToDDR(p.c)), ReturnOp(p.c)]);
      && s.Some? && p.c in s.value.roots
      && s.value.roots[p.c] == Tile(Peek(), st.roots[p.a], st.roots[p.b], Depth(p), p.m, p.n, p.tiles - 1)
  {
    hide Tile, Block, LoopBody, UnrollLoop, Depth, EvalOps, Peek, SameBuf, EvalOp;
    TilesRun(Peek(), ty, st, p);
    var st2 := EvalOps(Peek(), ty, st, TileOps(p)).value;
    var tail := [Store(p.d, ToDDR(p.c)), ReturnOp(p.c)];
    EvalConcat(Peek(), ty, st, TileOps(p), tail);
    StoreRuns(Peek(), ty, st2, p.d, p.c);
    var st3 := EvalOp(Peek(), ty, st2, tail[0]).value;
    ReturnRuns(ty, st3, p.c);
    assert tail[0..] == tail;
    EvalFrom(Peek(), ty, st2, tail, 0);
    EvalFrom(Peek(), ty, st3, tail, 1);
    EvalFrom(Peek(), ty, st3, tail, 2);
  }

  lemma ReturnRuns(ty: Typing, st: State, r: Root)
    requires r < |ty.root|
    ensures EvalOp(Peek(), ty, st, ReturnOp(r)) == Some(st)
  {
  }

  lemma OriginalTail(root: seq<Shape>, ops: seq<Linalg>)
    requires InRoots(root, ops) && ops != [] && ops[|ops| - 1].LinalgMatmul?
    ensures var k := |ops| - 1; var p := PlanAt(root, ops, k);
      Unroll(Program(root, ops, p.c))
        == Unroll(ChainItems(root, ops[..k])) + (TileOps(p) + [Store(p.d, ToDDR(p.c)), ReturnOp(p.c)])
  {
    hide RootsIn, Unroll, TileOps, Items, NewBufs;
    var k := |ops| - 1;
    var p, group := PlanAt(root, ops, k), Items(root, ops[k], GroupBase(root, ops, k));
    var front, last := ChainItems(root, ops[..k]), [Leaf(ReturnOp(p.c))];
    assert Program(root, ops, p.c) == front + (group + last);
    UnrollConcat(front, group + last);
    UnrollConcat(group, last);
    UnrollOne(last[0]);
    GroupUnrolled(root, ops[k], GroupBase(root, ops, k));
    assert TileOps(p) + [Store(p.d, ToDDR(p.c))] + [ReturnOp(p.c)] == TileOps(p) + [Store(p.d, ToDDR(p.c)), ReturnOp(p.c)];
  }

  lemma ElidedTail(root: seq<Shape>, ops: seq<Linalg>)
    requires InRoots(root, ops) && ops != [] && ops[|ops| - 1].LinalgMatmul?
    ensures var k := |ops| - 1; var p := PlanAt(root, ops, k); var s := ElidedSlots(Program(root, ops, p.c));
      && GroupStart(root, ops, k) <= |s|
      && Unroll(Elide(Program(root, ops, p.c)))
        == Ops(s, 0, GroupStart(root, ops, k)) + (TileOps(p) + [Store(p.d, ToDDR(p.c)), ReturnOp(p.c)])
  {
    hide RootsIn, Items, GroupStart, GroupBase, Disciplined, Program, ChainItems, Unroll, TileOps, Ops, ElidedSlots, KeptHead, Mids,
      MapOps, Reps, DeadStore, LoadOf, StoreKey, LoadKey, PlanFor;
    var k := |ops| - 1;
    var p, n, hi, base := PlanAt(root, ops, k), GroupStart(root, ops, k), GroupStart(root, ops, k + 1), GroupBase(root, ops, k);
    PlanRoots(root, ops, k);
    PlanIs(root, ops, k);
    var items := Program(root, ops, p.c);
    var s := ElidedSlots(items);
    GroupOf(root, ops, p.c, k);
    SlotCount(items);
    GroupSplit(items, root, ops[k], base, n);
    KeptTiles(items, root, ops[k], base, n);
    WholeChain(root, ops);
    ElidedProgram(root, ops, p.c);
    OpsSplit(s, 0, n, hi);
    StoreKept(root, ops, k);
    MatmulParts(root, ops[k], base);
    assert Ops(s, 0, n) + (TileOps(p) + [Store(p.d, ToDDR(p.c))]) + [ReturnOp(p.c)]
      == Ops(s, 0, n) + (TileOps(p) + [Store(p.d, ToDDR(p.c)), ReturnOp(p.c)]);
  }

  /** The store of the returned root stays. */
  lemma StoreKept(root: seq<Shape>, ops: seq<Linalg>, k: nat)
    requires InRoots(root, ops) && k < |ops|
    ensures var s, hi := ElidedSlots(Program(root, ops, ops[k].out)), GroupStart(root, ops, k + 1);
      1 <= hi <= |s| && Ops(s, hi - 1, hi) == [Result(ops[k], GroupBase(root, ops, k))]
  {
    hide RootsIn, Items, GroupStart, GroupBase, Disciplined, Program, ChainItems, Unroll, Ops, ElidedSlots, Reps, DeadStore, LoadOf,
      StoreKey, LoadKey, Result, Erased;
    var items, hi := Program(root, ops, ops[k].out), GroupStart(root, ops, k + 1);
    GroupOf(root, ops, ops[k].out, k);
    StoreItem(root, ops, ops[k].out, k);
    NotALoad(items, hi - 1);
    GroupStore(items, root, ops[k], GroupBase(root, ops, k), GroupStart(root, ops, k));
    NotDead(root, ops, k);
    SlotForm(items, hi - 1);
    OneSlot(ElidedSlots(items), hi - 1);
  }

  lemma NotDead(root: seq<Shape>, ops: seq<Linalg>, k: nat)
    requires InRoots(root, ops) && k < |ops| && 0 <= StoreAt(root, ops, k) < |Program(root, ops, ops[k].out)|
    requires StoreKey(Program(root, ops, ops[k].out)[StoreAt(root, ops, k)]) == Some(ops[k].out)
    ensures !DeadStore(Program(root, ops, ops[k].out), StoreAt(root, ops, k))
  {
    hide RootsIn, Program, DeadStore, StoreKey, GroupStart;
    if DeadStore(Program(root, ops, ops[k].out), StoreAt(root, ops, k)) {
      NotReturned(root, ops, ops[k].out, StoreAt(root, ops, k), ops[k].out);
    }
  }

  /** A chain that ends in the product of a lost root returns another tensor after elision: the product
      of what the root held before the program. */
  lemma LostReturns(ty: Typing, ops: seq<Linalg>, i: nat)
    requires ops != [] && Accepted(ty, ops, ops[|ops| - 1].out) && TilesStored(ops, i, |ops| - 1)
    requires Erased(ops, ops[|ops| - 1].out, i)
    ensures InRoots(ty.root, ops)
    ensures var result, st := ops[|ops| - 1].out, Marked(ty.root, ops[i].out);
      var s1, s2 := EvalOps(Peek(), ty, st, Unroll(Program(ty.root, ops, result))),
                    EvalOps(Peek(), ty, st, Unroll(Elide(Program(ty.root, ops, result))));
      && s1.Some? && s2.Some? && result in s1.value.roots && result in s2.value.roots
      && s1.value.roots[result] == Zeros(Size(ty.root[result])) && s2.value.roots[result] == Ones(Size(ty.root[result]))
  {
    hide Peek, EvalOps, Unroll, ChainItems, ChainBufs, Low, Twos, Shaped, Marked, Program, TileOps, Tile, Zeros, Ones, Erased, Elide,
      Ops, ElidedSlots, GroupStart, Depth, PlanAt, Sized;
    var k := |ops| - 1;
    PlanTyped(ty, ops, k);
    PlanIs(ty.root, ops, k);
    PlanRoots(ty.root, ops, k);
    StoredKnown(ty, ops, i);
    var p, st, r := PlanAt(ty.root, ops, k), Marked(ty.root, ops[i].out), ops[i].out;
    var sk := LowOperands(ty, ops, p.c, i, k);
    OriginalTail(ty.root, ops);
    EvalConcat(Peek(), ty, st, Unroll(ChainItems(ty.root, ops[..k])), TileOps(p) + [Store(p.d, ToDDR(p.c)), ReturnOp(p.c)]);
    ProductReturned(ty, sk, p);
    TileZero(sk.roots[p.a], sk.roots[p.b], Depth(p), p.m, p.n, p.tiles - 1);
    ElidedTail(ty.root, ops);
    ProgramRuns(ty, ops, p.c, st, r);
    var before := Ops(ElidedSlots(Program(ty.root, ops, p.c)), 0, GroupStart(ty.root, ops, k));
    EvalConcat(Peek(), ty, st, before, TileOps(p) + [Store(p.d, ToDDR(p.c)), ReturnOp(p.c)]);
    var sn := EvalOps(Peek(), ty, st, before).value;
    StaleThroughout(ty, ops, p.c, i, GroupStart(ty.root, ops, k), st);
    MarkedSized(ty, r);
    OpsKeepSizes(Peek(), ty, st, before);
    SizedOperands(ty, p, sn);
    StaleOperand(ty, ops, k, r, st, sn);
    ProductReturned(ty, sn, p);
    OnesTile(ty, p, sn);
  }

  /* ---- such a chain ---- */

  /** relu of root 0 into root 1, relu of root 1 into root 2, then root 1 times root 3 into root 4. */
  const LOST: seq<Linalg> := [LinalgAct(Relu, 0, 1), LinalgAct(Relu, 1, 2), LinalgMatmul(1, 3, 4)]

  const ROW := Shape(1, 16)

  const TYPES := Typing([ROW, ROW, ROW, Shape(16, 1), Shape(1, 1)],
                        [ROW, ROW, ROW, ROW, ROW, Shape(16, 1), Shape(1, 1)])

  lemma LostShaped()
    ensures AllShaped(TYPES.root, LOST) && InRoots(TYPES.root, LOST)
  {
  }

  /** The buffers of one operation more. */
  lemma BufsGrow(root: seq<Shape>, front: seq<Linalg>, op: Linalg)
    requires InRoots(root, front) && RootsIn(root, op)
    ensures InRoots(root, front + [op]) && ChainBufs(root, front + [op]) == ChainBufs(root, front) + NewBufs(root, op)
  {
    hide NewBufs, RootsIn;
    assert (front + [op])[..|front|] == front;
  }

  lemma LostBufs()
    ensures AllShaped(TYPES.root, LOST) && InRoots(TYPES.root, LOST) && ChainBufs(TYPES.root, LOST) == TYPES.buf
  {
    LostShaped();
    hide ChainBufs, AllShaped;
    BufsGrow(TYPES.root, [], LOST[0]);
    BufsGrow(TYPES.root, [LOST[0]], LOST[1]);
    BufsGrow(TYPES.root, [LOST[0], LOST[1]], LOST[2]);
    assert [] + [LOST[0]] == [LOST[0]] && [LOST[0]] + [LOST[1]] == [LOST[0], LOST[1]] && [LOST[0], LOST[1]] + [LOST[2]] == LOST;
    NoBufs(TYPES.root);
  }

  lemma NoBufs(root: seq<Shape>)
    ensures ChainBufs(root, []) == []
  {
  }

  lemma LostHere()
    ensures Erased(LOST, 4, 0) && TilesStored(LOST, 0, 2) && LostAt(LOST, 4, 0)
  {
    assert ReadsWhole(LOST[1], LOST[0].out) && ReadsTiled(LOST[2], LOST[0].out);
  }

  /** Root 1 is whole-read by the second relu and tiled by the matmul: elision erases its store, and the
      returned product is that of its old contents. */
  lemma LostChainBreaks()
    ensures InRoots(TYPES.root, LOST)
    ensures var st, items := Marked(TYPES.root, 1), Program(TYPES.root, LOST, 4);
      var s1, s2 := EvalOps(Peek(), TYPES, st, Unroll(items)), EvalOps(Peek(), TYPES, st, Unroll(Elide(items)));
      && s1.Some? && s2.Some? && 4 in s1.value.roots && 4 in s2.value.roots
      && s1.value.roots[4] == [0] && s2.value.roots[4] == [1] && !RootAgrees(s1.value, s2.value, 4)
  {
    hide Peek, EvalOps, Unroll, Marked, Program, Elide, Erased, AllShaped, ChainBufs, TilesStored;
    LostBufs();
    LostHere();
    LostReturns(TYPES, LOST, 0);
    assert Zeros(1) == [0] && Ones(1) == [1];
  }
}
