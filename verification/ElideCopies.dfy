/** The store-to-load forwarding pass
    (`compiler/lib/Dialect/Eclipse/Transforms/EclipseElideCopies/EclipseElideCopies.cpp`).
    A function body is a list of slots; an erased operation leaves an empty slot. */
module ElideCopies {
  import opened Types
  import opened Machine
  import opened EclipseIR

  type Slots = seq<Option<Item>>

  /** getCastSource, for values that end in a root. A subview is a value of its own that no store
      targets. */
  function CastSource(v: View): Option<Root> {
    match v
    case Base(r) => Some(r)
    case CastOf(s) => CastSource(s)
    case SubOf(_, _, _, _, _) => None
  }

  /* ---- the walk ---- */

  /** Store and load positions in the function body. */
  datatype Match = Match(store: nat, load: nat)

  /** The root a top-level store targets. */
  function StoreKey(i: Item): Option<Root> {
    match i
    case Leaf(Store(_, v)) => CastSource(v)
    case _ => None
  }

  /** The root a top-level load reads through casts. */
  function LoadKey(i: Item): Option<Root> {
    match i
    case Leaf(Load(v, _)) => CastSource(v)
    case _ => None
  }

  /** lastStore after walking the first `k` items. */
  function LastStore(items: seq<Item>, k: nat): map<Root, nat>
    requires k <= |items|
  {
    if k == 0 then map[]
    else
      var m, key := LastStore(items, k - 1), StoreKey(items[k - 1]);
      if key.Some? then m[key.value := k - 1] else m
  }

  /** matchList after walking the first `k` items. */
  function MatchList(items: seq<Item>, k: nat): seq<Match>
    requires k <= |items|
  {
    if k == 0 then []
    else
      var ms, key := MatchList(items, k - 1), LoadKey(items[k - 1]);
      if key.Some? && key.value in LastStore(items, k - 1)
      then ms + [Match(LastStore(items, k - 1)[key.value], k - 1)] else ms
  }

  /** Every match is a store and a later load of the same root with no store to it in between. */
  lemma {:induction false} MatchesAre(items: seq<Item>, k: nat)
    requires k <= |items|
    ensures forall m | m in MatchList(items, k) ::
      && m.store < m.load < k && LoadKey(items[m.load]).Some? && StoreKey(items[m.store]) == LoadKey(items[m.load])
      && forall i | m.store < i < m.load :: StoreKey(items[i]) != LoadKey(items[m.load])
    ensures forall i, j | 0 <= i < j < |MatchList(items, k)| :: MatchList(items, k)[i].load < MatchList(items, k)[j].load
    ensures forall i | 0 <= i < |MatchList(items, k)| :: MatchList(items, k)[i].load < k
  {
    hide StoreKey, LoadKey;
    if k > 0 {
      MatchesAre(items, k - 1);
      LastIsLast(items, k - 1);
    }
  }

  lemma {:induction false} LastIsLast(items: seq<Item>, k: nat)
    requires k <= |items|
    ensures forall r | r in LastStore(items, k) ::
      var i := LastStore(items, k)[r];
      i < k && StoreKey(items[i]) == Some(r) && forall j | i < j < k :: StoreKey(items[j]) != Some(r)
    ensures forall j | 0 <= j < k && StoreKey(items[j]).Some? :: StoreKey(items[j]).value in LastStore(items, k)
  {
    hide StoreKey;
    if k > 0 {
      LastIsLast(items, k - 1);
    }
  }

  /* ---- replaceAllUsesWith ---- */

  function Put(b: Buf, from: Buf, to: Buf): Buf { if b == from then to else b }

  function RenameOp(op: IrOp, from: Buf, to: Buf): IrOp {
    match op
    case Load(v, b) => Load(v, Put(b, from, to))
    case Store(b, v) => Store(Put(b, from, to), v)
    case MatmulOp(l, r, d, acc, ta, tb) => MatmulOp(Put(l, from, to), Put(r, from, to), Put(d, from, to), acc, ta, tb)
    case EwiseOp(k, l, r, d) => EwiseOp(k, Put(l, from, to), Put(r, from, to), Put(d, from, to))
    case ActOp(k, a, d) => ActOp(k, Put(a, from, to), Put(d, from, to))
    case ReduceOp(k, a, d) => ReduceOp(k, Put(a, from, to), Put(d, from, to))
    case SyncOp => SyncOp
    case ReturnOp(r) => op
  }

  function RenameOps(ops: seq<IrOp>, from: Buf, to: Buf): seq<IrOp> {
    seq(|ops|, k requires 0 <= k < |ops| => RenameOp(ops[k], from, to))
  }

  function RenameItem(i: Item, from: Buf, to: Buf): Item {
    match i
    case Leaf(op) => Leaf(RenameOp(op, from, to))
    case For(lb, ub, body) => For(lb, ub, RenameOps(body, from, to))
  }

  function RenameSlot(s: Option<Item>, from: Buf, to: Buf): Option<Item> {
    match s
    case Some(i) => Some(RenameItem(i, from, to))
    case None => None
  }

  function RenameSlots(s: Slots, from: Buf, to: Buf): (r: Slots)
    ensures |r| == |s|
  {
    seq(|s|, k requires 0 <= k < |s| => RenameSlot(s[k], from, to))
  }

  predicate IsLoad(s: Option<Item>) { s.Some? && s.value.Leaf? && s.value.op.Load? }

  predicate IsStore(s: Option<Item>) { s.Some? && s.value.Leaf? && s.value.op.Store? }

  /** One round of forwarding: the loaded buffer's uses become the stored buffer, the load goes. */
  function ForwardOne(s: Slots, m: Match): Slots
    requires m.store < |s| && m.load < |s| && IsLoad(s[m.load]) && IsStore(s[m.store])
  {
    RenameSlots(s, s[m.load].value.op.dst, s[m.store].value.op.from)[m.load := None]
  }

  /** Matches that can still be processed: loads in place and distinct, stores in place. */
  predicate Processable(s: Slots, ms: seq<Match>) {
    && (forall i | 0 <= i < |ms| :: ms[i].store < |s| && ms[i].load < |s| && IsLoad(s[ms[i].load]) && IsStore(s[ms[i].store]))
    && (forall i, j | 0 <= i < j < |ms| :: ms[i].load != ms[j].load)
  }

  function Forward(s: Slots, ms: seq<Match>): (r: Slots)
    requires Processable(s, ms)
    ensures |r| == |s|
    ensures forall k | 0 <= k < |s| && IsStore(s[k]) :: IsStore(r[k])
    decreases |ms|
  {
    if ms == [] then s
    else
      ForwardKeeps(s, ms);
      Forward(ForwardOne(s, ms[0]), ms[1..])
  }

  lemma ForwardKeeps(s: Slots, ms: seq<Match>)
    requires Processable(s, ms) && ms != []
    ensures Processable(ForwardOne(s, ms[0]), ms[1..])
    ensures forall k | 0 <= k < |s| && IsStore(s[k]) :: IsStore(ForwardOne(s, ms[0])[k])
  {
    var s' := ForwardOne(s, ms[0]);
    forall k | 0 <= k < |s| && k != ms[0].load
      ensures IsLoad(s[k]) ==> IsLoad(s'[k])
      ensures IsStore(s[k]) ==> IsStore(s'[k])
    {
    }
    assert ms[0].store < |s| && IsLoad(s[ms[0].load]);
  }

  /* ---- rootIsDead ---- */

  /** How a view reaches a root: not at all, as the root itself, as one cast or subview of it, or
      through more. */
  datatype Reach = Elsewhere | Direct | OneView | Deeper

  function ReachOf(v: View, r: Root): Reach {
    match v
    case Base(s) => if s == r then Direct else Elsewhere
    case CastOf(s) => Further(ReachOf(s, r))
    case SubOf(s, _, _, _, _) => Further(ReachOf(s, r))
  }

  function Further(x: Reach): Reach {
    match x
    case Elsewhere => Elsewhere
    case Direct => OneView
    case _ => Deeper
  }

  /** A user the scan accepts. It looks at the uses of the first view only: what hangs off a view of
      that view is accepted unseen. */
  predicate AcceptedUse(op: IrOp, r: Root, isThisStore: bool) {
    match op
    case Load(v, _) => ReachOf(v, r) == Elsewhere || ReachOf(v, r) == Deeper
    case Store(_, v) =>
      ReachOf(v, r) == Elsewhere || ReachOf(v, r) == Deeper || (ReachOf(v, r) == OneView && isThisStore)
    case ReturnOp(s) => s != r
    case _ => true
  }

  predicate AcceptedItem(s: Option<Item>, r: Root, isThisStore: bool) {
    match s
    case None => true
    case Some(Leaf(op)) => AcceptedUse(op, r, isThisStore)
    case Some(For(_, _, body)) => forall k | 0 <= k < |body| :: AcceptedUse(body[k], r, false)
  }

  predicate RootIsDead(s: Slots, at: nat)
    requires at < |s| && IsStore(s[at])
  {
    var r := CastSource(s[at].value.op.to);
    r.Some? && forall k | 0 <= k < |s| :: AcceptedItem(s[k], r.value, k == at)
  }

  /** Erasing the dead stores, each looked at once. */
  function Prune(s: Slots, ms: seq<Match>, done: set<nat>): (r: Slots)
    requires forall i | 0 <= i < |ms| :: ms[i].store < |s| && (ms[i].store !in done ==> IsStore(s[ms[i].store]))
    ensures |r| == |s|
    decreases |ms|
  {
    if ms == [] then s
    else
      var at := ms[0].store;
      if at in done then Prune(s, ms[1..], done)
      else Prune(if RootIsDead(s, at) then s[at := None] else s, ms[1..], done + {at})
  }

  function Live(s: Slots): seq<Item> {
    if s == [] then [] else (if s[0].Some? then [s[0].value] else []) + Live(s[1..])
  }

  function AllSlots(items: seq<Item>): Slots { seq(|items|, k requires 0 <= k < |items| => Some(items[k])) }

  lemma AllProcessable(items: seq<Item>)
    ensures Processable(AllSlots(items), MatchList(items, |items|))
  {
    hide LoadKey, StoreKey;
    MatchesAre(items, |items|);
    forall m | m in MatchList(items, |items|)
      ensures IsLoad(AllSlots(items)[m.load]) && IsStore(AllSlots(items)[m.store])
    {
      KeysAre(items[m.load]);
      KeysAre(items[m.store]);
    }
  }

  lemma KeysAre(i: Item)
    ensures LoadKey(i).Some? ==> IsLoad(Some(i))
    ensures StoreKey(i).Some? ==> IsStore(Some(i))
  {
  }

  function ElidedSlots(items: seq<Item>): Slots {
    AllProcessable(items);
    var ms := MatchList(items, |items|);
    Prune(Forward(AllSlots(items), ms), ms, {})
  }

  /** The pass on a function body. */
  function Elide(items: seq<Item>): seq<Item> { Live(ElidedSlots(items)) }

  /* ---- the pass as it runs ---- */

  class FunctionBody {
    var slots: Slots

    constructor (items: seq<Item>)
      ensures slots == AllSlots(items)
    {
      slots := AllSlots(items);
    }

    method ReplaceAllUses(from: Buf, to: Buf)
      modifies this
      ensures slots == RenameSlots(old(slots), from, to)
    {
      var k, n := 0, |slots|;
      while k < n
        invariant 0 <= k <= n == |slots| == |old(slots)|
        invariant forall i | 0 <= i < k :: slots[i] == RenameSlot(old(slots)[i], from, to)
        invariant forall i | k <= i < n :: slots[i] == old(slots)[i]
      {
        slots := slots[k := RenameSlot(slots[k], from, to)];
        k := k + 1;
      }
    }

    method Erase(at: nat)
      requires at < |slots|
      modifies this
      ensures slots == old(slots)[at := None]
    {
      slots := slots[at := None];
    }

    /** The walk over loads and stores in program order. */
    method Walk(ghost items: seq<Item>) returns (matchList: seq<Match>)
      requires slots == AllSlots(items)
      ensures matchList == MatchList(items, |items|)
    {
      var lastStore: map<Root, nat>;
      matchList, lastStore := [], map[];
      var k := 0;
      while k < |slots|
        invariant 0 <= k <= |slots| == |items|
        invariant matchList == MatchList(items, k) && lastStore == LastStore(items, k)
      {
        if slots[k].Some? {
          match slots[k].value {
            case Leaf(Store(_, v)) =>
              var storeKey := CastSource(v);
              if storeKey.Some? { lastStore := lastStore[storeKey.value := k]; }
            case Leaf(Load(v, _)) =>
              var loadKey := CastSource(v);
              if loadKey.Some? && loadKey.value in lastStore {
                matchList := matchList + [Match(lastStore[loadKey.value], k)];
              }
            case _ =>
          }
        }
        k := k + 1;
      }
    }

    /** The first loop over the matches: forward the stored buffers and erase the loads. */
    method ForwardMatches(matchList: seq<Match>)
      requires Processable(slots, matchList)
      modifies this
      ensures slots == Forward(old(slots), matchList)
    {
      hide RenameSlots;
      var k := 0;
      assert matchList[0..] == matchList;
      while k < |matchList|
        invariant 0 <= k <= |matchList|
        invariant Processable(slots, matchList[k..])
        invariant Forward(slots, matchList[k..]) == Forward(old(slots), matchList)
      {
        var m := matchList[k];
        ForwardKeeps(slots, matchList[k..]);
        assert matchList[k..][1..] == matchList[k + 1..];
        assert matchList[k..][0] == m;
        var dst, src := slots[m.load].value.op.dst, slots[m.store].value.op.from;
        ReplaceAllUses(dst, src);
        Erase(m.load);
        k := k + 1;
      }
    }

    /** The second loop: erase the stores whose root is dead, looking at each once. */
    method EraseDead(matchList: seq<Match>)
      requires forall i | 0 <= i < |matchList| :: matchList[i].store < |slots| && IsStore(slots[matchList[i].store])
      modifies this
      ensures slots == Prune(old(slots), matchList, {})
    {
      hide RootIsDead, IsStore;
      var done: set<nat> := {};
      var k := 0;
      assert matchList[0..] == matchList;
      while k < |matchList|
        invariant 0 <= k <= |matchList|
        invariant forall i | k <= i < |matchList| ::
          matchList[i].store < |slots| && (matchList[i].store !in done ==> IsStore(slots[matchList[i].store]))
        invariant Prune(slots, matchList[k..], done) == Prune(old(slots), matchList, {})
      {
        var at := matchList[k].store;
        assert matchList[k..][1..] == matchList[k + 1..];
        assert matchList[k..][0] == matchList[k];
        if at !in done {
          done := done + {at};
          if RootIsDead(slots, at) {
            Erase(at);
          }
        }
        k := k + 1;
      }
    }

    method RunOnOperation(ghost items: seq<Item>)
      requires slots == AllSlots(items)
      modifies this
      ensures slots == ElidedSlots(items) && Live(slots) == Elide(items)
    {
      hide Processable, Forward, Prune, IsStore;
      AllProcessable(items);
      var matchList := Walk(items);
      StoresStay(items);
      ForwardMatches(matchList);
      EraseDead(matchList);
    }
  }

  /** Forwarding erases no store. */
  lemma StoresStay(items: seq<Item>)
    ensures Processable(AllSlots(items), MatchList(items, |items|))
    ensures var ms := MatchList(items, |items|);
      |Forward(AllSlots(items), ms)| == |items|
      && forall i | 0 <= i < |ms| :: ms[i].store < |items| && IsStore(Forward(AllSlots(items), ms)[ms[i].store])
  {
    AllProcessable(items);
  }
}
