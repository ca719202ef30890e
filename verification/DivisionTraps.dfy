/** A chain that divides by zero: the lowered chain stops at that division, and so does the elided one. */
module DivisionTraps {
  import opened Types
  import opened Machine
  import opened EclipseIR
  import opened Lowering
  import MatmulCorrect
  import opened LoweredOps
  import opened ElideCopies
  import opened Renaming
  import opened ElisionCorrect
  import opened ChainElision
  import opened ChainGroups
  import opened LostRoots
  import opened ChainMeaning

  /** Operation `k` of `ops` is reached, and divides by zero. */
  ghost predicate StopsAt<F>(f: Fpu<F>, ty: Typing, st: State, ops: seq<IrOp>, k: nat) {
    && k < |ops| && EvalOps(f, ty, st, ops[..k]).Some?
    && Traps(f, ty, EvalOps(f, ty, st, ops[..k]).value, ops[k])
  }

  /** The item at `n` is an operation that is reached, and divides by zero. */
  ghost predicate ItemStops<F>(f: Fpu<F>, ty: Typing, st: State, items: seq<Item>, n: nat) {
    && n < |items| && items[n].Leaf? && EvalOps(f, ty, st, Unroll(items[..n])).Some?
    && Traps(f, ty, EvalOps(f, ty, st, Unroll(items[..n])).value, items[n].op)
  }

  /* ---- the lowered chain ---- */

  lemma GroupStops<F>(f: Fpu<F>, ty: Typing, st: State, p: EwisePlan)
    requires EwiseTyped(ty, p) && EwiseOperands(ty, st, p) && !NoZeroDivisor(f, ty, st, p)
    ensures StopsAt(f, ty, st, EwiseOps(p), 3)
  {
    hide EvalOps, EvalOp, Size, PairOf, Divides, Combine, Value, Elements, WellTyped;
    var ops := EwiseOps(p);
    var front := ops[..3];
    LoadRuns(f, ty, st, p.big, p.l);
    var st1 := EvalOp(f, ty, st, ops[0]).value;
    LoadRuns(f, ty, st1, p.small, p.r);
    var st2 := EvalOp(f, ty, st1, ops[1]).value;
    MatmulCorrect.SyncRuns(f, ty, st2);
    assert front[0..] == front;
    EvalFrom(f, ty, st, front, 0);
    EvalFrom(f, ty, st1, front, 1);
    EvalFrom(f, ty, st2, front, 2);
    EvalFrom(f, ty, st2, front, 3);
    var e: nat :| e < Size(ty.root[p.out]) && !Divides(f, p.kind, PairOf(ty, st, p, e).1);
    EwiseValue(f, ty, st, p, st2, e);
  }

  /** Only an elementwise operation can be undefined. */
  lemma UndefinedIsEwise<F>(f: Fpu<F>, root: seq<Shape>, ts: Tensors, op: Linalg)
    requires RootsIn(root, op) && Shaped(root, op) && Present(root, ts) && Output(f, root, ts, op).None?
    ensures op.LinalgEwise?
  {
    hide Elementwise, Shaped;
  }

  /** The group of the first undefined operation stops at its division. */
  lemma UndefinedStops<F>(f: Fpu<F>, ty: Typing, st: State, op: Linalg, base: Buf)
    requires RootsIn(ty.root, op) && Shaped(ty.root, op) && Present(ty.root, st.roots)
    requires base + |NewBufs(ty.root, op)| <= |ty.buf| && ty.buf[base..base + |NewBufs(ty.root, op)|] == NewBufs(ty.root, op)
    requires Output(f, ty.root, st.roots, op).None?
    ensures ItemStops(f, ty, st, Items(ty.root, op, base), 3)
  {
    UndefinedIsEwise(f, ty.root, st.roots, op);
    LoweredMeans(f, ty, st, op, base);
    OwnBufs(ty, op, base);
    hide EvalOps, Unroll, Divides, EwisePair, Size, Traps, Output, Elementwise, NoZeroDivisor;
    var p := EwisePlan(op.kind, op.big, op.small, op.out, base, base + 1, base + 2);
    assert ty.buf[base + 0] == NewBufs(ty.root, op)[0] && ty.buf[base + 1] == NewBufs(ty.root, op)[1]
      && ty.buf[base + 2] == NewBufs(ty.root, op)[2];
    LoweredEwise(f, ty, st, p);
    GroupStops(f, ty, st, p);
    var items := Items(ty.root, op, base);
    assert items == Leaves(EwiseOps(p)) && items[..3] == Leaves(EwiseOps(p)[..3]);
    UnrollLeaves(EwiseOps(p)[..3]);
  }

  /** An undefined chain stops somewhere. */
  lemma {:induction false} ChainStops<F>(f: Fpu<F>, ty: Typing, st: State, ops: seq<Linalg>) returns (n: nat)
    requires AllShaped(ty.root, ops) && Present(ty.root, st.roots) && ChainBufs(ty.root, ops) <= ty.buf
    requires Meaning(f, ty.root, st.roots, ops).None?
    ensures ItemStops(f, ty, st, ChainItems(ty.root, ops), n)
    decreases ops
  {
    hide Items, NewBufs, EvalOps, Unroll, Output, Shaped, RootsIn, Traps;
    var front, op := ops[..|ops| - 1], ops[|ops| - 1];
    var base := |ChainBufs(ty.root, front)|;
    var prefix := ChainBufs(ty.root, front) + NewBufs(ty.root, op);
    assert ChainBufs(ty.root, ops) == prefix && ty.buf[..|prefix|] == prefix;
    assert ty.buf[base..|prefix|] == prefix[base..];
    var before, group := ChainItems(ty.root, front), Items(ty.root, op, base);
    if Meaning(f, ty.root, st.roots, front).None? {
      n := ChainStops(f, ty, st, front);
      assert (before + group)[..n] == before[..n];
    } else {
      ChainComputes(f, ty, st, front);
      var s := EvalOps(f, ty, st, Unroll(before)).value;
      UndefinedStops(f, ty, s, op, base);
      n := |before| + 3;
      assert (before + group)[..n] == before + group[..3];
      UnrollConcat(before, group[..3]);
      EvalConcat(f, ty, st, Unroll(before), Unroll(group[..3]));
    }
  }

  /* ---- the elided chain ---- */

  /** Up to item `n`, the elided program follows the original one. */
  lemma {:induction false} SimulatesUpTo<F>(f: Fpu<F>, ty: Typing, items: seq<Item>, n: nat, st: State)
    requires Disciplined(items) && NoDeepReader(items) && n <= |items| == |ElidedSlots(items)| && st.bufs == map[]
    requires EvalOps(f, ty, st, Unroll(items[..n])).Some?
    ensures var s2 := EvalOps(f, ty, st, Ops(ElidedSlots(items), 0, n));
      s2.Some? && Inv(ty, items, n, EvalOps(f, ty, st, Unroll(items[..n])).value, s2.value)
    decreases n
  {
    hide Inv, Disciplined, NoDeepReader, Flat, EvalOps, ElidedSlots, Unroll, Live;
    var s := ElidedSlots(items);
    if n == 0 {
      NothingYet(f, ty, items, st);
    } else {
      var k := n - 1;
      assert items[..n] == items[..k] + [items[k]];
      UnrollConcat(items[..k], [items[k]]);
      UnrollOne(items[k]);
      EvalConcat(f, ty, st, Unroll(items[..k]), Flat(items[k]));
      SimulatesUpTo(f, ty, items, k, st);
      var s1, s2 := EvalOps(f, ty, st, Unroll(items[..k])).value, EvalOps(f, ty, st, Ops(s, 0, k)).value;
      SimulatesItem(f, ty, items, k, s1, s2);
      OpsSplit(s, 0, k, n);
      OneSlot(s, k);
      EvalConcat(f, ty, st, Ops(s, 0, k), SlotOps(s, k));
    }
  }

  lemma NothingYet<F>(f: Fpu<F>, ty: Typing, items: seq<Item>, st: State)
    requires |items| == |ElidedSlots(items)| && st.bufs == map[]
    ensures EvalOps(f, ty, st, Unroll(items[..0])) == EvalOps(f, ty, st, Ops(ElidedSlots(items), 0, 0)) == Some(st)
    ensures Inv(ty, items, 0, st, st)
  {
    hide Image, Reps, Matches, ElidedSlots, StoreKey, DeadStore;
    assert items[..0] == [] && ElidedSlots(items)[0..0] == [];
    SameRoots(items, st);
  }

  /** A division by zero stays one under renaming. */
  lemma TrapRelated<F>(f: Fpu<F>, ty: Typing, rs: Replacements, st: State, st': State, op: IrOp)
    requires BufsRelated(ty, rs, st, st') && Stands(rs, st, op) && Traps(f, ty, st, op)
    ensures Traps(f, ty, st', MapOp(op, rs))
  {
    hide Image, Elements, Value, BufsRelated, Stands;
    SameElements(ty, rs, st, st', op);
  }

  lemma EwiseKept(items: seq<Item>, n: nat)
    requires n < |items| && items[n].Leaf? && items[n].op.EwiseOp?
    ensures !LoadOf(Matches(items), n) && !DeadStore(items, n) && |ElidedSlots(items)| == |items|
    ensures ElidedSlots(items)[n] == Some(Leaf(MapOp(items[n].op, Reps(items))))
  {
    hide ElidedSlots, MapOp, Reps;
    SlotForm(items, n);
    if LoadOf(Matches(items), n) {
      var i :| 0 <= i < |Matches(items)| && Matches(items)[i].load == n;
      LoadsAre(items, i);
    }
  }

  /** The elided program stops where the original one does. */
  lemma ElidedStops<F>(f: Fpu<F>, ty: Typing, items: seq<Item>, n: nat, st: State) returns (k: nat)
    requires Disciplined(items) && NoDeepReader(items) && st.bufs == map[] && ItemStops(f, ty, st, items, n)
    ensures StopsAt(f, ty, st, Unroll(Elide(items)), k)
  {
    hide NoDeepReader, Disciplined, EvalOps, ElidedSlots, Unroll, Traps, MapOp, DeadStore, LoadOf, Matches, Reps, BufsRelated, SelfImages,
      Untouched, Stands, Live, RootsAgree, ImagesSealed, AllKnown;
    var s := ElidedSlots(items);
    var op := items[n].op;
    TrapIsEwise(f, ty, EvalOps(f, ty, st, Unroll(items[..n])).value, op);
    EwiseKept(items, n);
    SimulatesUpTo(f, ty, items, n, st);
    var s1, s2 := EvalOps(f, ty, st, Unroll(items[..n])).value, EvalOps(f, ty, st, Ops(s, 0, n)).value;
    KeptConditions(ty, items, n, s1, s2);
    assert Flat(items[n]) == [op];
    StandsAlone(Reps(items), s1, [op]);
    TrapRelated(f, ty, Reps(items), s1, s2, op);
    var before, after := Ops(s, 0, n), Ops(s, n + 1, |s|);
    OneSlot(s, n);
    assert Flat(Leaf(MapOp(op, Reps(items)))) == [MapOp(op, Reps(items))];
    OpsSplit(s, 0, n, n + 1);
    OpsSplit(s, 0, n + 1, |s|);
    assert s[0..|s|] == s;
    k := |before|;
    var all := (before + [MapOp(op, Reps(items))]) + after;
    assert Unroll(Elide(items)) == all;
    assert all[..k] == before && all[k] == MapOp(op, Reps(items));
  }

  lemma TrapIsEwise<F>(f: Fpu<F>, ty: Typing, st: State, op: IrOp)
    requires Traps(f, ty, st, op)
    ensures op.EwiseOp?
  {
  }

  /** Eliding the copies of an undefined chain that loses no root: the program stops at a division by
      zero. */
  lemma UndefinedChainStops<F>(f: Fpu<F>, ty: Typing, ops: seq<Linalg>, result: Root, st: State) returns (k: nat)
    requires AllShaped(ty.root, ops) && Present(ty.root, st.roots) && ChainBufs(ty.root, ops) <= ty.buf && st.bufs == map[]
    requires NothingLost(ops, result) && Meaning(f, ty.root, st.roots, ops).None?
    ensures InRoots(ty.root, ops) && StopsAt(f, ty, st, Unroll(Elide(Program(ty.root, ops, result))), k)
  {
    hide Shaped, RootsIn, EvalOps, Unroll, ChainItems, ChainBufs, Meaning, Traps, Disciplined, NoDeepReader, NothingLost, Elide;
    var n := ChainStops(f, ty, st, ops);
    var chain, items := ChainItems(ty.root, ops), Program(ty.root, ops, result);
    assert items[..n] == chain[..n] && items[n] == chain[n];
    ProgramDisciplined(ty.root, ops, result);
    NoDeepReaderExactly(ty.root, ops, result);
    k := ElidedStops(f, ty, items, n, st);
  }
}
