/** Which stores of a chain the elision pass erases, and exactly when a load it keeps still needs one. */
module LostRoots {
  import opened Types
  import opened Machine
  import opened EclipseIR
  import opened Lowering
  import opened ElideCopies
  import opened Renaming
  import opened ElisionCorrect
  import opened ChainElision
  import opened ChainGroups

  /** The store of operation `i` is erased: its root is not returned, nobody else stores it, it is read
      whole, and only behind that store. */
  ghost predicate Erased(ops: seq<Linalg>, result: Root, i: nat)
    requires i < |ops|
  {
    var r := ops[i].out;
    && r != result && (forall j | 0 <= j < |ops| && j != i :: ops[j].out != r)
    && (forall j | 0 <= j <= i :: !ReadsWhole(ops[j], r)) && exists j | i < j < |ops| :: ReadsWhole(ops[j], r)
  }

  /** The erased store's root is also read in tiles behind it. */
  ghost predicate LostAt(ops: seq<Linalg>, result: Root, i: nat)
    requires i < |ops|
  {
    Erased(ops, result, i) && exists k | i < k < |ops| :: ReadsTiled(ops[k], ops[i].out)
  }

  ghost predicate NothingLost(ops: seq<Linalg>, result: Root) { forall i | 0 <= i < |ops| :: !LostAt(ops, result, i) }

  /* ---- positions ---- */

  /** The operation an item of the chain belongs to. */
  lemma {:induction false} OwnerFrom(root: seq<Shape>, ops: seq<Linalg>, result: Root, k: nat, n: nat) returns (o: nat)
    requires InRoots(root, ops) && n <= |ops| && k < GroupStart(root, ops, n)
    ensures o < n && GroupStart(root, ops, o) <= k < GroupStart(root, ops, o + 1)
    ensures var x, items := k - GroupStart(root, ops, o), Items(root, ops[o], GroupBase(root, ops, o));
      x < |items| && k < |Program(root, ops, result)| && Program(root, ops, result)[k] == items[x]
    decreases n
  {
    hide RootsIn, Items, Program, GroupStart, GroupBase, Disciplined, ChainItems;
    if n == 0 {
      EmptyStart(root, ops);
    } else if k < GroupStart(root, ops, n - 1) {
      o := OwnerFrom(root, ops, result, k, n - 1);
    } else {
      o := n - 1;
      GroupOf(root, ops, result, o);
      var items, start := Items(root, ops[o], GroupBase(root, ops, o)), GroupStart(root, ops, o);
      assert Program(root, ops, result)[start..start + |items|][k - start] == Program(root, ops, result)[k];
    }
  }

  lemma EmptyStart(root: seq<Shape>, ops: seq<Linalg>)
    requires InRoots(root, ops)
    ensures GroupStart(root, ops, 0) == 0
  {
    assert ops[..0] == [];
  }

  lemma Owner(root: seq<Shape>, ops: seq<Linalg>, result: Root, k: nat) returns (o: nat)
    requires InRoots(root, ops) && k < |ChainItems(root, ops)|
    ensures o < |ops| && GroupStart(root, ops, o) <= k < GroupStart(root, ops, o + 1)
    ensures var x, items := k - GroupStart(root, ops, o), Items(root, ops[o], GroupBase(root, ops, o));
      x < |items| && k < |Program(root, ops, result)| && Program(root, ops, result)[k] == items[x]
  {
    hide RootsIn, Items, Program, GroupStart, GroupBase, ChainItems;
    WholeChain(root, ops);
    o := OwnerFrom(root, ops, result, k, |ops|);
  }

  lemma {:induction false} StartsGrow(root: seq<Shape>, ops: seq<Linalg>, i: nat, j: nat)
    requires InRoots(root, ops) && i <= j <= |ops|
    ensures GroupStart(root, ops, i) <= GroupStart(root, ops, j)
    decreases j - i
  {
    hide RootsIn, Items, GroupStart, GroupBase, Disciplined, Program;
    if i < j {
      StartsGrow(root, ops, i, j - 1);
      GroupOf(root, ops, 0, j - 1);
    }
  }

  /** Where operation `i` stores its result. */
  function StoreAt(root: seq<Shape>, ops: seq<Linalg>, i: nat): int
    requires i < |ops| && InRoots(root, ops)
  {
    GroupStart(root, ops, i + 1) - 1
  }

  lemma StoreItem(root: seq<Shape>, ops: seq<Linalg>, result: Root, i: nat)
    requires InRoots(root, ops) && i < |ops|
    ensures var items, k := Program(root, ops, result), StoreAt(root, ops, i);
      && GroupStart(root, ops, i) < k < |ChainItems(root, ops)| < |items|
      && items[k] == Leaf(Result(ops[i], GroupBase(root, ops, i))) && StoreKey(items[k]) == Some(ops[i].out)
      && LoadKey(items[k]).None?
  {
    hide RootsIn, Items, GroupStart, GroupBase, Disciplined, Program, Mids, Heads, Result, ChainItems;
    var items, base := Program(root, ops, result), GroupBase(root, ops, i);
    GroupOf(root, ops, result, i);
    GroupParts(items, root, ops[i], base, GroupStart(root, ops, i));
    ResultKey(ops[i], base);
    StartsGrow(root, ops, i + 1, |ops|);
    WholeChain(root, ops);
    ProgramSize(root, ops, result);
    ResultIsStore(ops[i], base);
  }

  lemma ProgramSize(root: seq<Shape>, ops: seq<Linalg>, result: Root)
    requires InRoots(root, ops)
    ensures |Program(root, ops, result)| == |ChainItems(root, ops)| + 1
    ensures Program(root, ops, result)[|ChainItems(root, ops)|] == Leaf(ReturnOp(result))
  {
  }

  lemma ResultIsStore(op: Linalg, base: Buf)
    ensures LoadKey(Leaf(Result(op, base))).None? && StoresTo(Some(Leaf(Result(op, base))), op.out)
  {
    CastKey(op.out);
    assert ReachOf(Base(op.out), op.out) == Direct;
  }

  /** Only the operation whose output it is stores a root, with its last item. */
  lemma StoreOwner(root: seq<Shape>, ops: seq<Linalg>, result: Root, k: nat, r: Root) returns (i: nat)
    requires InRoots(root, ops) && k < |Program(root, ops, result)| && StoreKey(Program(root, ops, result)[k]) == Some(r)
    ensures i < |ops| && ops[i].out == r && k == StoreAt(root, ops, i)
  {
    hide RootsIn, Items, GroupStart, GroupBase, Disciplined, ChainItems, Program, StoreKey;
    ProgramSize(root, ops, result);
    ReturnIsPlain(result);
    i := Owner(root, ops, result, k);
    GroupOf(root, ops, result, i);
    ItemStores(root, ops[i], GroupBase(root, ops, i), k - GroupStart(root, ops, i), r);
  }

  lemma ReturnIsPlain(r: Root)
    ensures StoreKey(Leaf(ReturnOp(r))).None? && LoadKey(Leaf(ReturnOp(r))).None?
    ensures forall s :: !ReadsDeeply(Leaf(ReturnOp(r)), s)
  {
  }

  /** A whole-root load belongs to an operation that reads the root whole. */
  lemma LoadOwner(root: seq<Shape>, ops: seq<Linalg>, result: Root, k: nat, r: Root) returns (o: nat)
    requires InRoots(root, ops) && k < |Program(root, ops, result)| && LoadKey(Program(root, ops, result)[k]) == Some(r)
    ensures o < |ops| && ReadsWhole(ops[o], r) && GroupStart(root, ops, o) <= k < GroupStart(root, ops, o + 1)
  {
    hide RootsIn, Items, GroupStart, GroupBase, Disciplined, ChainItems, Program, LoadKey, ReadsWhole, ReadsDeeply;
    ProgramSize(root, ops, result);
    ReturnIsPlain(result);
    o := Owner(root, ops, result, k);
    ItemReads(root, ops[o], GroupBase(root, ops, o), k - GroupStart(root, ops, o), r);
  }

  lemma DeepOwner(root: seq<Shape>, ops: seq<Linalg>, result: Root, k: nat, r: Root) returns (o: nat)
    requires InRoots(root, ops) && k < |Program(root, ops, result)| && ReadsDeeply(Program(root, ops, result)[k], r)
    ensures o < |ops| && ReadsTiled(ops[o], r) && GroupStart(root, ops, o) <= k < GroupStart(root, ops, o + 1)
  {
    hide RootsIn, Items, GroupStart, GroupBase, Disciplined, ChainItems, Program, LoadKey, ReadsTiled, ReadsDeeply;
    ProgramSize(root, ops, result);
    ReturnIsPlain(result);
    o := Owner(root, ops, result, k);
    ItemReads(root, ops[o], GroupBase(root, ops, o), k - GroupStart(root, ops, o), r);
  }

  /** An operation that reads a root whole has a load of it among its first items. */
  lemma WholeLoad(root: seq<Shape>, ops: seq<Linalg>, result: Root, o: nat, r: Root) returns (k: nat)
    requires InRoots(root, ops) && o < |ops| && ReadsWhole(ops[o], r)
    ensures GroupStart(root, ops, o) <= k < GroupStart(root, ops, o + 1) - 1
    ensures k < |Program(root, ops, result)| && LoadKey(Program(root, ops, result)[k]) == Some(r)
    ensures Program(root, ops, result)[k].op.src == ToDDR(r)
  {
    hide RootsIn, Items, GroupStart, GroupBase, Disciplined, ChainItems, Program, Mids, Result, ToDDR;
    var x := HeadOf(root, ops[o], GroupBase(root, ops, o), r);
    HeadItem(root, ops, result, o, x);
    GroupOf(root, ops, result, o);
    GroupParts(Program(root, ops, result), root, ops[o], GroupBase(root, ops, o), GroupStart(root, ops, o));
    k := GroupStart(root, ops, o) + x;
  }

  lemma HeadOf(root: seq<Shape>, op: Linalg, base: Buf, r: Root) returns (x: nat)
    requires RootsIn(root, op) && ReadsWhole(op, r)
    ensures x < HeadCount(op) == |Heads(root, op, base)| && LoadKey(Leaf(Heads(root, op, base)[x])) == Some(r)
    ensures Heads(root, op, base)[x].src == ToDDR(r)
  {
    CastKey(r);
    x := if op.LinalgEwise? && r != op.big then 1 else 0;
  }

  /** A matmul's first tile loads read their root through a view of a view. */
  lemma TileLoad(root: seq<Shape>, ops: seq<Linalg>, result: Root, o: nat, r: Root) returns (k: nat)
    requires InRoots(root, ops) && o < |ops| && ReadsTiled(ops[o], r)
    ensures GroupStart(root, ops, o) <= k < GroupStart(root, ops, o + 1) - 1
    ensures k < |Program(root, ops, result)| && ReadsDeeply(Program(root, ops, result)[k], r)
    ensures LoadKey(Program(root, ops, result)[k]).None?
  {
    hide RootsIn, Items, GroupStart, GroupBase, Disciplined, ChainItems, Program, Mids, Result;
    var x := if r == ops[o].lhs then 0 else 1;
    HeadItem(root, ops, result, o, x);
    GroupOf(root, ops, result, o);
    GroupParts(Program(root, ops, result), root, ops[o], GroupBase(root, ops, o), GroupStart(root, ops, o));
    k := GroupStart(root, ops, o) + x;
    TileIsDeep(root, ops[o], GroupBase(root, ops, o), x, r);
  }

  lemma TileIsDeep(root: seq<Shape>, op: Linalg, base: Buf, x: nat, r: Root)
    requires RootsIn(root, op) && op.LinalgMatmul? && x < 2 && r == (if x == 0 then op.lhs else op.rhs)
    ensures |Heads(root, op, base)| == 2
    ensures ReadsDeeply(Leaf(Heads(root, op, base)[x]), r) && LoadKey(Leaf(Heads(root, op, base)[x])).None?
  {
    var load := Heads(root, op, base)[x];
    DeepView(r, r, load.src);
    assert OpsOf(Leaf(load))[0].Load? && ReachOf(OpsOf(Leaf(load))[0].src, r) == Deeper;
  }

  /* ---- exactly which stores are erased ---- */

  lemma MapAccepted(i: Item, rs: Replacements, r: Root, here: bool)
    ensures AcceptedItem(Some(MapItem(i, rs)), r, here) == AcceptedItem(Some(i), r, here)
  {
    hide Image, ReachOf;
    match i
    case Leaf(op) =>
    case For(lb, ub, body) =>
      forall k | 0 <= k < |body|
        ensures AcceptedUse(MapOps(body, rs)[k], r, false) == AcceptedUse(body[k], r, false)
      {
        assert MapOps(body, rs)[k] == MapOp(body[k], rs);
      }
  }

  /** The scan accepts every item of a lowering but its whole-root loads of `r` and another store to it. */
  lemma ItemAccepted(root: seq<Shape>, op: Linalg, base: Buf, x: nat, r: Root, here: bool)
    requires RootsIn(root, op) && x < |Items(root, op, base)|
    requires LoadKey(Items(root, op, base)[x]) != Some(r) && (StoreKey(Items(root, op, base)[x]) == Some(r) ==> here)
    ensures AcceptedItem(Some(Items(root, op, base)[x]), r, here)
  {
    hide ReachOf, CastSource;
    match op
    case LinalgMatmul(a, b, c) =>
      CastReach(a, r);
      CastReach(b, r);
      CastReach(c, r);
    case LinalgEwise(_, a, b, c) =>
      CastReach(a, r);
      CastReach(b, r);
      CastReach(c, r);
    case LinalgAct(_, a, c) =>
      CastReach(a, r);
      CastReach(c, r);
    case LinalgReduce(_, a, c) =>
      CastReach(a, r);
      CastReach(c, r);
  }

  lemma CastReach(s: Root, r: Root)
    ensures CastSource(ToDDR(s)) == Some(s) && ReachOf(ToDDR(s), r) == (if r == s then OneView else Elsewhere)
    ensures forall ro, co, rows, cols ::
      ReachOf(SubOf(ToDDR(s), ro, co, rows, cols), r) == if r == s then Deeper else Elsewhere
  {
    CastKey(s);
    assert ReachOf(Base(s), r) == (if r == s then Direct else Elsewhere);
    assert ReachOf(ToDDR(s), r) == (if r == s then OneView else Elsewhere);
  }

  /** Slot `k` after forwarding. */
  lemma Forwarded(items: seq<Item>, k: nat)
    requires k < |items|
    ensures Processable(AllSlots(items), Matches(items)) && |Forward(AllSlots(items), Matches(items))| == |items|
    ensures Forward(AllSlots(items), Matches(items))[k]
      == if LoadOf(Matches(items), k) then None else Some(MapItem(items[k], Reps(items)))
  {
    hide MapItem;
    AllProcessable(items);
    ForwardForm(AllSlots(items), Matches(items), k);
  }

  /** A root that is read behind its only store is accepted everywhere once its loads are forwarded. */
  lemma SlotAccepted(root: seq<Shape>, ops: seq<Linalg>, result: Root, i: nat, k: nat)
    requires InRoots(root, ops) && i < |ops| && Erased(ops, result, i) && k < |Program(root, ops, result)|
    ensures var items := Program(root, ops, result);
      LoadOf(Matches(items), k) || AcceptedItem(Some(items[k]), ops[i].out, k == StoreAt(root, ops, i))
  {
    hide RootsIn, Items, GroupStart, GroupBase, Disciplined, ChainItems, Program, AcceptedItem, StoreKey, LoadKey, ReadsWhole;
    var items, r := Program(root, ops, result), ops[i].out;
    ProgramSize(root, ops, result);
    StoreItem(root, ops, result, i);
    if k == |ChainItems(root, ops)| {
      ReturnAccepted(result, r);
    } else {
      if LoadKey(items[k]) == Some(r) {
        var o := LoadOwner(root, ops, result, k, r);
        StartsGrow(root, ops, i + 1, o);
        MatchedIfStored(items, |items|, StoreAt(root, ops, i), k);
      } else {
        if StoreKey(items[k]) == Some(r) {
          var j := StoreOwner(root, ops, result, k, r);
        }
        var o := Owner(root, ops, result, k);
        ItemAccepted(root, ops[o], GroupBase(root, ops, o), k - GroupStart(root, ops, o), r, k == StoreAt(root, ops, i));
      }
    }
  }

  lemma ReturnAccepted(result: Root, r: Root)
    requires r != result
    ensures AcceptedItem(Some(Leaf(ReturnOp(result))), r, false)
  {
  }

  /** The store of an operation behind which its root is read whole is matched. */
  lemma StoreMatched(root: seq<Shape>, ops: seq<Linalg>, result: Root, i: nat)
    requires InRoots(root, ops) && i < |ops| && Erased(ops, result, i)
    ensures StoreAt(root, ops, i) >= 0 && StoreOf(Matches(Program(root, ops, result)), StoreAt(root, ops, i))
  {
    hide RootsIn, Items, GroupStart, GroupBase, Disciplined, ChainItems, Program, StoreKey, LoadKey, ReadsWhole;
    var items, r := Program(root, ops, result), ops[i].out;
    var j :| i < j < |ops| && ReadsWhole(ops[j], r);
    var k := WholeLoad(root, ops, result, j, r);
    StartsGrow(root, ops, i + 1, j);
    StoreItem(root, ops, result, i);
    MatchedIfStored(items, |items|, StoreAt(root, ops, i), k);
    var x :| 0 <= x < |Matches(items)| && Matches(items)[x].load == k;
    LoadsAre(items, x);
    var o := StoreOwner(root, ops, result, Matches(items)[x].store, r);
  }

  lemma StoreErased(root: seq<Shape>, ops: seq<Linalg>, result: Root, i: nat)
    requires InRoots(root, ops) && i < |ops| && Erased(ops, result, i)
    ensures var items, k := Program(root, ops, result), StoreAt(root, ops, i);
      0 <= k < |items| == |ElidedSlots(items)| && ElidedSlots(items)[k].None? && DeadStore(items, k)
  {
    hide RootsIn, Items, GroupStart, GroupBase, Disciplined, ChainItems, Program, StoreKey, LoadKey, ReadsWhole, AcceptedItem,
      Forward, Prune, MapItem, Result, LoadOf, StoreOf;
    var items, r, at := Program(root, ops, result), ops[i].out, StoreAt(root, ops, i);
    StoreItem(root, ops, result, i);
    StoreMatched(root, ops, result, i);
    NotALoad(items, at);
    SlotCount(items);
    PruneFits(items);
    var s, ms := Forward(AllSlots(items), Matches(items)), Matches(items);
    forall k | 0 <= k < |items|
      ensures |s| == |items| && AcceptedItem(s[k], r, k == at)
    {
      Forwarded(items, k);
      SlotAccepted(root, ops, result, i, k);
      AnyNoneAccepted(r, k == at);
      MapAccepted(items[k], Reps(items), r, k == at);
    }
    Forwarded(items, at);
    MappedResult(ops[i], GroupBase(root, ops, i), Reps(items));
    PruneErases(s, ms, {}, at, r);
  }

  lemma AnyNoneAccepted(r: Root, here: bool)
    ensures AcceptedItem(None, r, here)
  {
  }

  lemma MappedResult(op: Linalg, base: Buf, rs: Replacements)
    ensures var s := Some(MapItem(Leaf(Result(op, base)), rs));
      IsStore(s) && CastSource(s.value.op.to) == Some(op.out) && StoresTo(s, op.out)
  {
    ResultIsStore(op, base);
  }

  lemma PruneFits(items: seq<Item>)
    ensures Processable(AllSlots(items), Matches(items))
    ensures var s := Forward(AllSlots(items), Matches(items));
      && (forall i | 0 <= i < |Matches(items)| :: Matches(items)[i].store < |s| && IsStore(s[Matches(items)[i].store]))
      && ElidedSlots(items) == Prune(s, Matches(items), {})
  {
    hide Forward, Prune;
    AllProcessable(items);
  }

  /** What keeps a store: nothing erased has another store, a return or an earlier whole-root load. */
  lemma OnlyErased(root: seq<Shape>, ops: seq<Linalg>, result: Root, i: nat)
    requires InRoots(root, ops) && i < |ops| && 0 <= StoreAt(root, ops, i) < |Program(root, ops, result)|
    requires DeadStore(Program(root, ops, result), StoreAt(root, ops, i))
    ensures Erased(ops, result, i)
  {
    hide RootsIn, Items, GroupStart, GroupBase, Disciplined, ChainItems, Program, StoreKey, LoadKey, ReadsWhole, AcceptedItem,
      MapItem, Result, DeadStore, ElidedSlots, StoreOf, LoadOf;
    var items, r, at := Program(root, ops, result), ops[i].out, StoreAt(root, ops, i);
    StoreItem(root, ops, result, i);
    SlotForm(items, at);
    NotReturned(root, ops, result, at, r);
    forall j | 0 <= j < |ops| && j != i
      ensures ops[j].out != r
    {
      if ops[j].out == r { BothStore(root, ops, result, i, j); }
    }
    forall j | 0 <= j <= i
      ensures !ReadsWhole(ops[j], r)
    {
      if ReadsWhole(ops[j], r) { EarlyRead(root, ops, result, i, j); }
    }
    ReadBehind(root, ops, result, i);
  }

  lemma NotReturned(root: seq<Shape>, ops: seq<Linalg>, result: Root, at: nat, r: Root)
    requires InRoots(root, ops) && at < |Program(root, ops, result)| && DeadStore(Program(root, ops, result), at)
    requires StoreKey(Program(root, ops, result)[at]) == Some(r)
    ensures r != result
  {
    hide RootsIn, DeadStore, StoreKey, Program, ChainItems, Disciplined;
    ProgramDisciplined(root, ops, result);
    ReturnedAlive(Program(root, ops, result), result);
  }

  lemma BothStore(root: seq<Shape>, ops: seq<Linalg>, result: Root, i: nat, j: nat)
    requires InRoots(root, ops) && i < |ops| && j < |ops| && i != j && ops[j].out == ops[i].out
    ensures 0 <= StoreAt(root, ops, i) < |Program(root, ops, result)|
    ensures !DeadStore(Program(root, ops, result), StoreAt(root, ops, i))
  {
    hide RootsIn, Items, GroupStart, GroupBase, Disciplined, ChainItems, Program, StoreKey, LoadKey, Prune, Forward, MapItem, Result,
      LoadOf, StoresTo;
    var items, a, b, r := Program(root, ops, result), StoreAt(root, ops, i), StoreAt(root, ops, j), ops[i].out;
    StoreItem(root, ops, result, i);
    StoreItem(root, ops, result, j);
    StartsGrow(root, ops, if i < j then i + 1 else j + 1, if i < j then j else i);
    NotALoad(items, a);
    NotALoad(items, b);
    Forwarded(items, a);
    Forwarded(items, b);
    MappedResult(ops[i], GroupBase(root, ops, i), Reps(items));
    MappedResult(ops[j], GroupBase(root, ops, j), Reps(items));
    PruneFits(items);
    PruneKeepsPair(Forward(AllSlots(items), Matches(items)), Matches(items), {}, a, b, r);
  }

  /** A whole-root load in front of the only store of its root is not forwarded. */
  lemma EarlyRead(root: seq<Shape>, ops: seq<Linalg>, result: Root, i: nat, j: nat)
    requires InRoots(root, ops) && j <= i < |ops| && ReadsWhole(ops[j], ops[i].out)
    requires forall o | 0 <= o < |ops| && o != i :: ops[o].out != ops[i].out
    ensures 0 <= StoreAt(root, ops, i) < |Program(root, ops, result)|
    ensures !DeadStore(Program(root, ops, result), StoreAt(root, ops, i))
  {
    hide RootsIn, Items, GroupStart, GroupBase, Disciplined, ChainItems, Program, StoreKey, LoadKey, MapItem, Result, DeadStore,
      AcceptedItem, ReadsWhole, ElidedSlots, StoreOf;
    var items, at, r := Program(root, ops, result), StoreAt(root, ops, i), ops[i].out;
    StoreItem(root, ops, result, i);
    var k := WholeLoad(root, ops, result, j, r);
    StartsGrow(root, ops, j + 1, i + 1);
    if LoadOf(Matches(items), k) {
      var x :| 0 <= x < |Matches(items)| && Matches(items)[x].load == k;
      LoadsAre(items, x);
      var o := StoreOwner(root, ops, result, Matches(items)[x].store, r);
    }
    KeptLoad(items, k, r);
    SlotForm(items, at);
  }

  lemma KeptLoad(items: seq<Item>, k: nat, r: Root)
    requires k < |items| && LoadKey(items[k]) == Some(r) && !LoadOf(Matches(items), k)
    requires items[k].op.src == ToDDR(r)
    ensures !Unread(ElidedSlots(items), r)
  {
    hide ElidedSlots, LoadOf, Reps, DeadStore;
    SlotForm(items, k);
    LoadIsNoStore(items[k]);
    MapAccepted(items[k], Reps(items), r, false);
    CastReach(r, r);
    assert !AcceptedItem(ElidedSlots(items)[k], r, false);
  }

  lemma LoadIsNoStore(i: Item)
    requires LoadKey(i).Some?
    ensures StoreKey(i).None?
  {
  }

  lemma ReadBehind(root: seq<Shape>, ops: seq<Linalg>, result: Root, i: nat)
    requires InRoots(root, ops) && i < |ops| && 0 <= StoreAt(root, ops, i) < |Program(root, ops, result)|
    requires StoreOf(Matches(Program(root, ops, result)), StoreAt(root, ops, i))
    ensures exists j | i < j < |ops| :: ReadsWhole(ops[j], ops[i].out)
  {
    hide RootsIn, Items, GroupStart, GroupBase, Disciplined, ChainItems, Program, StoreKey, LoadKey, ReadsWhole, Result;
    var items, at := Program(root, ops, result), StoreAt(root, ops, i);
    StoreItem(root, ops, result, i);
    var x :| 0 <= x < |Matches(items)| && Matches(items)[x].store == at;
    LoadsAre(items, x);
    var o := LoadOwner(root, ops, result, Matches(items)[x].load, ops[i].out);
    if o <= i { StartsGrow(root, ops, o + 1, i + 1); }
  }

  /* ---- exactly when the pass loses nothing ---- */

  /** No load the pass keeps reads a root whose store it erased, if and only if no root is lost. */
  lemma NoDeepReaderExactly(root: seq<Shape>, ops: seq<Linalg>, result: Root)
    requires InRoots(root, ops)
    ensures NoDeepReader(Program(root, ops, result)) <==> NothingLost(ops, result)
  {
    hide RootsIn, Program, LostAt;
    if NothingLost(ops, result) {
      NothingLostSuffices(root, ops, result);
    } else {
      var i :| 0 <= i < |ops| && LostAt(ops, result, i);
      LostIsRead(root, ops, result, i);
    }
  }

  lemma NothingLostSuffices(root: seq<Shape>, ops: seq<Linalg>, result: Root)
    requires InRoots(root, ops) && NothingLost(ops, result)
    ensures NoDeepReader(Program(root, ops, result))
  {
    hide RootsIn, Program, DeadStore, ReadsDeeply, LoadOf, GroupStart, GroupBase, Items, Erased, ReadsTiled, StoreKey, ChainItems;
    var items := Program(root, ops, result);
    forall j, k | 0 <= j < k < |items| && DeadStore(items, j) && !LoadOf(Matches(items), k)
      ensures StoreKey(items[j]).Some? && !ReadsDeeply(items[k], StoreKey(items[j]).value)
    {
      SlotForm(items, j);
      if ReadsDeeply(items[k], StoreKey(items[j]).value) {
        var i := DeepIsLost(root, ops, result, j, k);
      }
    }
  }

  lemma DeepIsLost(root: seq<Shape>, ops: seq<Linalg>, result: Root, j: nat, k: nat) returns (i: nat)
    requires InRoots(root, ops) && j < k < |Program(root, ops, result)| && DeadStore(Program(root, ops, result), j)
    requires StoreKey(Program(root, ops, result)[j]).Some?
    requires ReadsDeeply(Program(root, ops, result)[k], StoreKey(Program(root, ops, result)[j]).value)
    ensures i < |ops| && LostAt(ops, result, i)
  {
    hide RootsIn, Program, DeadStore, ReadsDeeply, GroupStart, GroupBase, Items, Erased, ReadsTiled, StoreKey, ChainItems;
    var r := StoreKey(Program(root, ops, result)[j]).value;
    i := StoreOwner(root, ops, result, j, r);
    OnlyErased(root, ops, result, i);
    var o := DeepOwner(root, ops, result, k, r);
    if o <= i { StartsGrow(root, ops, o + 1, i + 1); }
  }

  lemma LostIsRead(root: seq<Shape>, ops: seq<Linalg>, result: Root, i: nat)
    requires InRoots(root, ops) && i < |ops| && LostAt(ops, result, i)
    ensures !NoDeepReader(Program(root, ops, result))
  {
    hide RootsIn, Program, DeadStore, ReadsDeeply, LoadOf, GroupStart, GroupBase, Items, Erased, ReadsTiled, StoreKey, LoadKey, Result,
      ChainItems;
    var items, at, r := Program(root, ops, result), StoreAt(root, ops, i), ops[i].out;
    StoreErased(root, ops, result, i);
    StoreItem(root, ops, result, i);
    var o :| i < o < |ops| && ReadsTiled(ops[o], r);
    var k := TileLoad(root, ops, result, o, r);
    NotALoad(items, k);
    StartsGrow(root, ops, i + 1, o);
  }

  /** Eliding the copies of a chain that loses nothing keeps everything. */
  lemma ElidedChain<F>(f: Fpu<F>, ty: Typing, ops: seq<Linalg>, result: Root, st: State)
    requires InRoots(ty.root, ops) && NothingLost(ops, result) && st.bufs == map[]
    ensures Preserved(f, ty, Program(ty.root, ops, result), st)
    ensures Returned(Program(ty.root, ops, result), result)
  {
    hide RootsIn, NothingLost, Disciplined, NoDeepReader, EvalOps, Unroll, Program, Elide, Returned;
    ProgramDisciplined(ty.root, ops, result);
    NoDeepReaderExactly(ty.root, ops, result);
    if EvalOps(f, ty, st, Unroll(Program(ty.root, ops, result))).Some? {
      ElisionPreserves(f, ty, Program(ty.root, ops, result), st);
    }
  }
}
