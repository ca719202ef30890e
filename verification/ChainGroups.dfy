/** Where the operations of a chain stand in its lowered and in its elided program. */
module ChainGroups {
  import opened Arithmetic
  import opened Types
  import opened Machine
  import opened EclipseIR
  import opened Lowering
  import opened MatmulCorrect
  import opened ElideCopies
  import opened Renaming
  import opened ElisionCorrect
  import opened ChainElision

  /* ---- the three parts of a lowered operation ---- */

  function Middle(p: Plan): seq<IrOp> {
    [SyncOp, MatmulOp(p.l, p.r, p.d, false, false, false), SyncOp] + UnrollLoop(LoopBody(p), 1, p.tiles)
  }

  function PlanFor(root: seq<Shape>, op: Linalg, base: Buf): Plan
    requires RootsIn(root, op) && op.LinalgMatmul?
  {
    Plan(op.lhs, op.rhs, op.out, base, base + 1, base + 2, root[op.lhs].rows, root[op.rhs].cols, root[op.lhs].cols / TILE_K)
  }

  function Heads(root: seq<Shape>, op: Linalg, base: Buf): seq<IrOp>
    requires RootsIn(root, op)
  {
    match op
    case LinalgMatmul(_, _, _) => Block(PlanFor(root, op, base), 0, false)[..2]
    case LinalgEwise(_, a, b, _) => [Load(ToDDR(a), base), Load(ToDDR(b), base + 1)]
    case LinalgAct(_, a, _) => [Load(ToDDR(a), base)]
    case LinalgReduce(_, a, _) => [Load(ToDDR(a), base)]
  }

  function Compute(op: Linalg, base: Buf): IrOp {
    match op
    case LinalgMatmul(_, _, _) => MatmulOp(base, base + 1, base + 2, false, false, false)
    case LinalgEwise(kind, _, _, _) => EwiseOp(kind, base, base + 1, base + 2)
    case LinalgAct(kind, _, _) => ActOp(kind, base, base + 1)
    case LinalgReduce(kind, _, _) => ReduceOp(kind, base, base + 1)
  }

  /** From the first SYNC to the last one. */
  function Mids(root: seq<Shape>, op: Linalg, base: Buf): seq<Item>
    requires RootsIn(root, op)
  {
    Leaves([SyncOp, Compute(op, base), SyncOp])
      + if op.LinalgMatmul? && PlanFor(root, op, base).tiles > 1
        then [For(1, PlanFor(root, op, base).tiles, LoopBody(PlanFor(root, op, base)))] else []
  }

  function Result(op: Linalg, base: Buf): IrOp {
    Store(base + (if op.LinalgMatmul? || op.LinalgEwise? then 2 else 1), ToDDR(op.out))
  }

  lemma PartsOf(root: seq<Shape>, op: Linalg, base: Buf)
    requires RootsIn(root, op)
    ensures Items(root, op, base) == Leaves(Heads(root, op, base)) + Mids(root, op, base) + [Leaf(Result(op, base))]
  {
    hide LoopBody, ToDDR;
    if op.LinalgMatmul? {
      var p := PlanFor(root, op, base);
      var block := Block(p, 0, false);
      assert block == block[..2] + [SyncOp, Compute(op, base), SyncOp];
      LeavesConcat(block[..2], [SyncOp, Compute(op, base), SyncOp]);
      assert Items(root, op, base) == MatmulItems(p.a, p.b, p.c, p.l, p.r, p.d, p.m, p.n, p.tiles);
      assert LoopBody(p) == MatmulBlock(p.a, p.b, p.l, p.r, p.d, p.m, p.n, Induction(TILE_K), true) by { LoopBodyIs(p); }
    } else {
      LeavesConcat(Heads(root, op, base), [SyncOp, Compute(op, base), SyncOp]);
      LeavesConcat(Heads(root, op, base) + [SyncOp, Compute(op, base), SyncOp], [Result(op, base)]);
      OneLeaf(Result(op, base));
    }
  }

  lemma LoopBodyIs(p: Plan)
    ensures LoopBody(p) == MatmulBlock(p.a, p.b, p.l, p.r, p.d, p.m, p.n, Induction(TILE_K), true)
  {
  }

  lemma LeavesConcat(xs: seq<IrOp>, ys: seq<IrOp>)
    ensures Leaves(xs + ys) == Leaves(xs) + Leaves(ys)
  {
  }

  /** A buffer a lowered matmul uses. */
  predicate OwnImages(op: Linalg, base: Buf, rs: Replacements) {
    op.LinalgMatmul? ==> Image(rs, base) == base && Image(rs, base + 1) == base + 1 && Image(rs, base + 2) == base + 2
  }

  lemma {:induction false} UnrollMapped(items: seq<Item>, rs: Replacements)
    ensures Unroll(MapItems(items, rs)) == MapOps(Unroll(items), rs)
    decreases items
  {
    hide MapOp;
    if items != [] {
      UnrollMapped(items[1..], rs);
      FlatMapped(items[0], rs);
      assert MapItems(items, rs)[1..] == MapItems(items[1..], rs);
      assert Unroll(items) == Flat(items[0]) + Unroll(items[1..]);
      assert Unroll(MapItems(items, rs)) == Flat(MapItem(items[0], rs)) + Unroll(MapItems(items, rs)[1..]);
    }
  }

  function MapItems(items: seq<Item>, rs: Replacements): seq<Item> {
    seq(|items|, k requires 0 <= k < |items| => MapItem(items[k], rs))
  }

  lemma MidsUnrolled(root: seq<Shape>, op: Linalg, base: Buf)
    requires RootsIn(root, op) && op.LinalgMatmul?
    ensures Unroll(Mids(root, op, base)) == Middle(PlanFor(root, op, base))
  {
    hide LoopBody, UnrollLoop;
    var p := PlanFor(root, op, base);
    var three := [SyncOp, Compute(op, base), SyncOp];
    var loop := if p.tiles > 1 then [For(1, p.tiles, LoopBody(p))] else [];
    UnrollConcat(Leaves(three), loop);
    UnrollLeaves(three);
    NoIterations(LoopBody(p), p.tiles);
    assert loop != [] ==> loop[1..] == [];
    assert Unroll(loop) == UnrollLoop(LoopBody(p), 1, p.tiles);
  }

  /** Renaming leaves a matmul's operations as they are. */
  lemma UnchangedMiddle(p: Plan, rs: Replacements)
    requires Image(rs, p.l) == p.l && Image(rs, p.r) == p.r && Image(rs, p.d) == p.d
    ensures MapOps(Middle(p), rs) == Middle(p)
  {
    hide Image;
    FlatLoop(LoopBody(p), rs, 1, p.tiles);
    assert MapOps(LoopBody(p), rs) == LoopBody(p);
  }

  /* ---- a lowered operation inside an elided program ---- */

  function Ops(s: Slots, lo: nat, hi: nat): seq<IrOp>
    requires lo <= hi <= |s|
  {
    Unroll(Live(s[lo..hi]))
  }

  lemma {:induction false} LiveConcat(a: Slots, b: Slots)
    ensures Live(a + b) == Live(a) + Live(b)
    decreases a
  {
    if a == [] {
      assert a + b == b;
    } else {
      assert (a + b)[1..] == a[1..] + b && (a + b)[0] == a[0];
      LiveConcat(a[1..], b);
      var first := if a[0].Some? then [a[0].value] else [];
      assert Live(a) == first + Live(a[1..]);
      assert Live(a + b) == first + Live(a[1..] + b);
      assert first + (Live(a[1..]) + Live(b)) == (first + Live(a[1..])) + Live(b);
    }
  }

  lemma OpsSplit(s: Slots, lo: nat, mid: nat, hi: nat)
    requires lo <= mid <= hi <= |s|
    ensures Ops(s, lo, hi) == Ops(s, lo, mid) + Ops(s, mid, hi)
  {
    hide Unroll, Live;
    assert s[lo..hi] == s[lo..mid] + s[mid..hi];
    LiveConcat(s[lo..mid], s[mid..hi]);
    UnrollConcat(Live(s[lo..mid]), Live(s[mid..hi]));
  }

  lemma OneSlot(s: Slots, k: nat)
    requires k < |s|
    ensures Ops(s, k, k + 1) == match s[k] case None => [] case Some(i) => Flat(i)
  {
    assert s[k..k + 1] == [s[k]];
    assert [s[k]][1..] == [];
    assert Live([s[k]]) == (if s[k].Some? then [s[k].value] else []) + Live([]);
    if s[k].Some? {
      var one := [s[k].value];
      assert one[1..] == [];
      assert Unroll(one) == Flat(one[0]) + Unroll(one[1..]);
    }
  }

  lemma {:induction false} LiveAll(items: seq<Item>)
    ensures Live(AllSlots(items)) == items
    decreases items
  {
    if items != [] {
      assert AllSlots(items)[1..] == AllSlots(items[1..]);
      LiveAll(items[1..]);
    }
  }

  /** The items of `op` stand at position `n` of a disciplined program. */
  ghost predicate GroupAt(items: seq<Item>, root: seq<Shape>, op: Linalg, base: Buf, n: nat) {
    && Disciplined(items) && RootsIn(root, op)
    && n + |Items(root, op, base)| <= |items| && items[n..n + |Items(root, op, base)|] == Items(root, op, base)
  }

  /** An item that is neither a whole-root load nor a store stays, renamed. */
  lemma PlainItemKept(items: seq<Item>, k: nat)
    requires k < |items| && LoadKey(items[k]).None? && StoreKey(items[k]).None?
    ensures |ElidedSlots(items)| == |items| && ElidedSlots(items)[k] == Some(MapItem(items[k], Reps(items)))
    ensures !LoadOf(Matches(items), k)
  {
    hide ElidedSlots, Reps, LoadKey, StoreKey;
    SlotForm(items, k);
    NotALoad(items, k);
  }

  lemma NotALoad(items: seq<Item>, k: nat)
    requires k < |items| && LoadKey(items[k]).None?
    ensures !LoadOf(Matches(items), k)
  {
    hide LoadKey;
    forall i | 0 <= i < |Matches(items)|
      ensures Matches(items)[i].load != k
    {
      LoadsAre(items, i);
    }
  }

  function HeadCount(op: Linalg): nat { if op.LinalgMatmul? || op.LinalgEwise? then 2 else 1 }

  /** Where the parts of the group stand. */
  lemma GroupParts(items: seq<Item>, root: seq<Shape>, op: Linalg, base: Buf, n: nat)
    requires GroupAt(items, root, op, base, n)
    ensures var h, m := HeadCount(op), |Mids(root, op, base)|;
      && |Heads(root, op, base)| == h && |Items(root, op, base)| == h + m + 1 && n + h + m + 1 <= |items|
      && (forall x | 0 <= x < h :: items[n + x] == Leaf(Heads(root, op, base)[x]))
      && (forall x | 0 <= x < m :: items[n + h + x] == Mids(root, op, base)[x])
      && items[n + h + m] == Leaf(Result(op, base))
  {
    hide Disciplined, Items, Mids, Heads, Result, Leaves;
    PartsOf(root, op, base);
    HeadSize(root, op, base);
    var all, heads, mids := Items(root, op, base), Heads(root, op, base), Mids(root, op, base);
    LeavesAre(heads);
    forall x | 0 <= x < |all|
      ensures items[n + x] == all[x]
    {
      assert items[n..n + |all|][x] == items[n + x];
    }
    forall x | 0 <= x < |mids|
      ensures all[|heads| + x] == mids[x]
    {
    }
  }

  lemma LeavesAre(ops: seq<IrOp>)
    ensures |Leaves(ops)| == |ops| && forall k | 0 <= k < |ops| :: Leaves(ops)[k] == Leaf(ops[k])
  {
  }

  lemma HeadSize(root: seq<Shape>, op: Linalg, base: Buf)
    requires RootsIn(root, op)
    ensures |Heads(root, op, base)| == HeadCount(op)
  {
  }

  lemma ComputeItem(items: seq<Item>, root: seq<Shape>, op: Linalg, base: Buf, n: nat)
    requires GroupAt(items, root, op, base, n)
    ensures n + HeadCount(op) + 1 < |items| && items[n + HeadCount(op) + 1] == Leaf(Compute(op, base))
  {
    hide Disciplined, Items;
    GroupParts(items, root, op, base, n);
    assert Mids(root, op, base)[1] == Leaf(Compute(op, base));
  }

  /** The group's compute operation pins the images of what it writes, and of a product's operands. */
  lemma GroupImages(items: seq<Item>, root: seq<Shape>, op: Linalg, base: Buf, n: nat)
    requires GroupAt(items, root, op, base, n)
    ensures OwnImages(op, base, Reps(items)) && MapOp(Result(op, base), Reps(items)) == Result(op, base)
  {
    hide Disciplined, Items, Image, Reps;
    ComputeItem(items, root, op, base, n);
    var k := n + HeadCount(op) + 1;
    NotALoad(items, k);
    var d := base + HeadCount(op);
    assert Written(OpsOf(items[k])[0]) == Some(d);
    NotForwarded(items, k, d);
    if op.LinalgMatmul? {
      assert OpsOf(items[k])[0].MatmulOp?;
      NotForwarded(items, k, base);
      NotForwarded(items, k, base + 1);
    }
  }

  lemma MidsPlain(root: seq<Shape>, op: Linalg, base: Buf)
    requires RootsIn(root, op)
    ensures forall x | 0 <= x < |Mids(root, op, base)| ::
      LoadKey(Mids(root, op, base)[x]).None? && StoreKey(Mids(root, op, base)[x]).None?
  {
  }

  lemma MiddleSlot(items: seq<Item>, root: seq<Shape>, op: Linalg, base: Buf, n: nat, x: nat)
    requires GroupAt(items, root, op, base, n) && x < |Mids(root, op, base)|
    ensures var k := n + HeadCount(op) + x;
      k < |items| == |ElidedSlots(items)| && ElidedSlots(items)[k] == Some(MapItem(Mids(root, op, base)[x], Reps(items)))
  {
    hide Disciplined, Items, Mids, Reps, ElidedSlots, MapItem, LoadKey, StoreKey, Matches, Heads, Result;
    GroupParts(items, root, op, base, n);
    MidsPlain(root, op, base);
    assert items[n + HeadCount(op) + x] == Mids(root, op, base)[x];
    PlainItemKept(items, n + HeadCount(op) + x);
  }

  lemma SegmentIs(s: Slots, lo: nat, mids: seq<Item>, rs: Replacements)
    requires lo + |mids| <= |s| && forall x: nat | x < |mids| :: s[lo + x] == Some(MapItem(mids[x], rs))
    ensures s[lo..lo + |mids|] == AllSlots(MapItems(mids, rs))
  {
    hide MapItem;
  }

  /** The middle of the group survives elision. */
  lemma GroupMiddle(items: seq<Item>, root: seq<Shape>, op: Linalg, base: Buf, n: nat)
    requires GroupAt(items, root, op, base, n)
    ensures var lo, hi := n + HeadCount(op), n + HeadCount(op) + |Mids(root, op, base)|;
      && hi < |items| == |ElidedSlots(items)|
      && Ops(ElidedSlots(items), lo, hi) == MapOps(Unroll(Mids(root, op, base)), Reps(items))
  {
    hide Disciplined, Items, Mids, Reps, ElidedSlots, MapItem, MapItems, AllSlots, Live, Unroll, MapOps, Heads, Result;
    GroupParts(items, root, op, base, n);
    SlotCount(items);
    var mids, lo := Mids(root, op, base), n + HeadCount(op);
    var s, rs := ElidedSlots(items), Reps(items);
    forall x: nat | x < |mids|
      ensures s[lo + x] == Some(MapItem(mids[x], rs))
    {
      MiddleSlot(items, root, op, base, n, x);
    }
    SegmentIs(s, lo, mids, rs);
    LiveAll(MapItems(mids, rs));
    UnrollMapped(mids, rs);
  }

  /** A load of the group survives unrenamed, or is forwarded. */
  lemma GroupLoad(items: seq<Item>, root: seq<Shape>, op: Linalg, base: Buf, n: nat, x: nat)
    requires GroupAt(items, root, op, base, n) && x < HeadCount(op)
    ensures |Heads(root, op, base)| == HeadCount(op) && n + x < |items| == |ElidedSlots(items)|
    ensures if LoadOf(Matches(items), n + x) then ElidedSlots(items)[n + x] == None
            else ElidedSlots(items)[n + x] == Some(Leaf(Heads(root, op, base)[x]))
  {
    hide Disciplined, Items, Mids, Reps, ElidedSlots, Matches, Image, LoadOf;
    GroupParts(items, root, op, base, n);
    SlotForm(items, n + x);
    var load := Heads(root, op, base)[x];
    assert load.Load?;
    if !LoadOf(Matches(items), n + x) {
      assert Written(OpsOf(items[n + x])[0]) == Some(load.dst);
      NotForwarded(items, n + x, load.dst);
    }
  }

  /** So does the store, unless its root is dead. */
  lemma GroupStore(items: seq<Item>, root: seq<Shape>, op: Linalg, base: Buf, n: nat)
    requires GroupAt(items, root, op, base, n)
    ensures var k := n + |Items(root, op, base)| - 1;
      && k < |items| == |ElidedSlots(items)|
      && (ElidedSlots(items)[k] == None || ElidedSlots(items)[k] == Some(Leaf(Result(op, base))))
  {
    hide Disciplined, Items, Mids, Reps, ElidedSlots, Matches, Image, LoadOf, MapOp;
    GroupParts(items, root, op, base, n);
    GroupImages(items, root, op, base, n);
    SlotForm(items, n + |Items(root, op, base)| - 1);
  }

  /** The loads the elided group still makes, and its store if it still stores. */
  function KeptHead(items: seq<Item>, op: Linalg, n: nat): seq<IrOp>
    requires n + HeadCount(op) <= |ElidedSlots(items)|
  {
    Ops(ElidedSlots(items), n, n + HeadCount(op))
  }

  /** The group's operations, in three parts. */
  lemma GroupSplit(items: seq<Item>, root: seq<Shape>, op: Linalg, base: Buf, n: nat)
    requires GroupAt(items, root, op, base, n)
    ensures var s, lo, hi := ElidedSlots(items), n + HeadCount(op), n + HeadCount(op) + |Mids(root, op, base)|;
      && hi + 1 == n + |Items(root, op, base)| <= |items| == |s|
      && Ops(s, n, hi + 1) == KeptHead(items, op, n) + MapOps(Unroll(Mids(root, op, base)), Reps(items)) + Ops(s, hi, hi + 1)
  {
    hide Disciplined, Items, Mids, ElidedSlots, Ops, MapOps;
    GroupParts(items, root, op, base, n);
    GroupMiddle(items, root, op, base, n);
    var s, lo, hi := ElidedSlots(items), n + HeadCount(op), n + HeadCount(op) + |Mids(root, op, base)|;
    OpsSplit(s, n, lo, hi);
    OpsSplit(s, n, hi, hi + 1);
  }

  /* ---- chains ---- */

  function GroupStart(root: seq<Shape>, ops: seq<Linalg>, i: nat): nat
    requires i <= |ops| && InRoots(root, ops)
  {
    |ChainItems(root, ops[..i])|
  }

  function GroupBase(root: seq<Shape>, ops: seq<Linalg>, i: nat): Buf
    requires i <= |ops| && InRoots(root, ops)
  {
    |ChainBufs(root, ops[..i])|
  }

  lemma {:induction false} ChainPrefix(root: seq<Shape>, ops: seq<Linalg>, i: nat)
    requires i <= |ops| && InRoots(root, ops)
    ensures ChainItems(root, ops[..i]) <= ChainItems(root, ops)
    decreases |ops|
  {
    hide Items, NewBufs, RootsIn;
    if i < |ops| {
      ChainPrefix(root, ops[..|ops| - 1], i);
      assert ops[..|ops| - 1][..i] == ops[..i];
    } else {
      assert ops[..i] == ops;
    }
  }

  /** Group `i` of the program. */
  lemma GroupOf(root: seq<Shape>, ops: seq<Linalg>, result: Root, i: nat)
    requires i < |ops| && InRoots(root, ops)
    ensures GroupAt(Program(root, ops, result), root, ops[i], GroupBase(root, ops, i), GroupStart(root, ops, i))
    ensures GroupStart(root, ops, i + 1) == GroupStart(root, ops, i) + |Items(root, ops[i], GroupBase(root, ops, i))|
    ensures GroupBase(root, ops, i + 1) == GroupBase(root, ops, i) + BufCount(ops[i])
  {
    hide Items, NewBufs, RootsIn, Disciplined;
    var p := Program(root, ops, result);
    ProgramDisciplined(root, ops, result);
    ChainPrefix(root, ops, i + 1);
    var upto := ops[..i + 1];
    assert upto[..|upto| - 1] == ops[..i] && upto[|upto| - 1] == ops[i];
    var front, group := ChainItems(root, ops[..i]), Items(root, ops[i], GroupBase(root, ops, i));
    assert ChainItems(root, upto) == front + group;
    assert p[|front|..|front| + |group|] == group;
    LoweredDisciplined(root, ops[i], GroupBase(root, ops, i));
  }

  /** Every whole-root load behind a store of its root is matched. */
  lemma {:induction false} MatchedIfStored(items: seq<Item>, n: nat, j: nat, k: nat)
    requires j < k < n <= |items| && LoadKey(items[k]).Some? && StoreKey(items[j]) == LoadKey(items[k])
    ensures LoadOf(MatchList(items, n), k)
    decreases n
  {
    hide StoreKey, LoadKey;
    if k == n - 1 {
      LastIsLast(items, k);
      var ms := MatchList(items, n);
      assert ms[|ms| - 1].load == k;
    } else {
      MatchedIfStored(items, n - 1, j, k);
      var i :| 0 <= i < |MatchList(items, n - 1)| && MatchList(items, n - 1)[i].load == k;
      assert MatchList(items, n)[i].load == k;
    }
  }

  /** Group i-1 ends with the store of its result, right before group `i`. */
  lemma StoredBefore(root: seq<Shape>, ops: seq<Linalg>, result: Root, i: nat)
    requires 0 < i < |ops| && InRoots(root, ops)
    ensures var items, n := Program(root, ops, result), GroupStart(root, ops, i);
      0 < n < |items| && StoreKey(items[n - 1]) == Some(ops[i - 1].out)
  {
    hide RootsIn, Disciplined, Items, StoreKey, Program, GroupStart, GroupBase, Mids, Heads, GroupAt, Result;
    var items, base := Program(root, ops, result), GroupBase(root, ops, i - 1);
    GroupOf(root, ops, result, i - 1);
    GroupParts(items, root, ops[i - 1], base, GroupStart(root, ops, i - 1));
    ResultKey(ops[i - 1], base);
    GroupOf(root, ops, result, i);
    GroupParts(items, root, ops[i], GroupBase(root, ops, i), GroupStart(root, ops, i));
  }

  lemma ResultKey(op: Linalg, base: Buf)
    ensures StoreKey(Leaf(Result(op, base))) == Some(op.out)
  {
    CastKey(op.out);
  }

  lemma HeadItem(root: seq<Shape>, ops: seq<Linalg>, result: Root, i: nat, x: nat)
    requires i < |ops| && InRoots(root, ops) && x < HeadCount(ops[i])
    ensures var items, n, heads := Program(root, ops, result), GroupStart(root, ops, i), Heads(root, ops[i], GroupBase(root, ops, i));
      n + x < |items| && |heads| == HeadCount(ops[i]) && items[n + x] == Leaf(heads[x])
  {
    hide RootsIn, Disciplined, Items, Heads, Program, GroupStart, GroupBase, Mids, GroupAt, Result;
    var items := Program(root, ops, result);
    GroupOf(root, ops, result, i);
    GroupParts(items, root, ops[i], GroupBase(root, ops, i), GroupStart(root, ops, i));
  }

  lemma HeadForm(root: seq<Shape>, op: Linalg, base: Buf, x: nat)
    requires RootsIn(root, op) && x < HeadCount(op)
    ensures |Heads(root, op, base)| == HeadCount(op)
    ensures var load := Heads(root, op, base)[x];
      && load.Load? && load.dst >= base && load.dst < base + BufCount(op)
      && (op.LinalgMatmul? ==> ReadsTiled(op, RootOf(load.src)))
      && (!op.LinalgMatmul? ==> CastSource(load.src) == Some(RootOf(load.src)))
  {
    hide RootOf, CastSource;
    if op.LinalgMatmul? {
      RootIs(op.lhs);
      RootIs(op.rhs);
    } else if x == 0 {
      var r := if op.LinalgEwise? then op.big else op.src;
      RootIs(r);
      CastKey(r);
    } else {
      RootIs(op.small);
      CastKey(op.small);
    }
  }

  lemma DdrRoot(r: Root)
    ensures RootOf(ToDDR(r)) == r
  {
    RootIs(r);
  }

  /** The operand types linalg.matmul's own verifier requires. */
  predicate Contracts(root: seq<Shape>, op: Linalg)
    requires RootsIn(root, op)
  {
    op.LinalgMatmul? ==> root[op.lhs].cols == root[op.rhs].rows && root[op.lhs].cols % TILE_K == 0 && root[op.lhs].cols > 0
  }

  lemma WholeTiles(cols: nat, p: Plan)
    requires cols % TILE_K == 0 && p.tiles == cols / TILE_K
    ensures Depth(p) == cols
  {
  }

  lemma UnrollOne(i: Item)
    ensures Unroll([i]) == Flat(i)
  {
    var one := [i];
    assert one[1..] == [];
    assert Unroll(one) == Flat(one[0]) + Unroll(one[1..]);
  }

  /** The elided program is the elided chain and the return. */
  lemma ElidedProgram(root: seq<Shape>, ops: seq<Linalg>, result: Root)
    requires InRoots(root, ops)
    ensures var items := Program(root, ops, result);
      && |ChainItems(root, ops)| < |items| == |ElidedSlots(items)|
      && Unroll(Elide(items)) == Ops(ElidedSlots(items), 0, |ChainItems(root, ops)|) + [ReturnOp(result)]
  {
    hide RootsIn, ElidedSlots, Reps, Live, Unroll;
    var items, n := Program(root, ops, result), |ChainItems(root, ops)|;
    SlotCount(items);
    ReturnKept(items, n, result);
    SlotForm(items, n);
    OneSlot(ElidedSlots(items), n);
    OpsSplit(ElidedSlots(items), 0, n, n + 1);
    assert ElidedSlots(items)[0..n + 1] == ElidedSlots(items);
  }

  /** The operations of the elided chain, without the return. */
  function ElidedOps(root: seq<Shape>, ops: seq<Linalg>, result: Root): seq<IrOp>
    requires InRoots(root, ops)
  {
    ElidedProgram(root, ops, result);
    Ops(ElidedSlots(Program(root, ops, result)), 0, |ChainItems(root, ops)|)
  }

  lemma WholeChain(root: seq<Shape>, ops: seq<Linalg>)
    requires InRoots(root, ops)
    ensures GroupStart(root, ops, |ops|) == |ChainItems(root, ops)|
  {
    hide RootsIn, ChainItems;
    assert ops[..|ops|] == ops;
  }

  lemma ProgramPrefix(root: seq<Shape>, ops: seq<Linalg>, result: Root)
    requires InRoots(root, ops)
    ensures var n := |ChainItems(root, ops)|;
      n <= |Program(root, ops, result)| && Program(root, ops, result)[0..n] == ChainItems(root, ops)
  {
    hide RootsIn, ChainItems;
  }
}
