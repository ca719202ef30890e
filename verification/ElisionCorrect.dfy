/** Eliding copies preserves what the program leaves in every root that is still alive. */
module ElisionCorrect {
  import opened Arithmetic
  import opened Types
  import opened Machine
  import opened EclipseIR
  import opened ElideCopies
  import opened Renaming

  /* ---- the forwarded slots in closed form ---- */

  function ReplacementsOf(s: Slots, ms: seq<Match>): Replacements
    requires Processable(s, ms)
    decreases |ms|
  {
    if ms == [] then []
    else
      ForwardKeeps(s, ms);
      [(s[ms[0].load].value.op.dst, s[ms[0].store].value.op.from)] + ReplacementsOf(ForwardOne(s, ms[0]), ms[1..])
  }

  predicate LoadOf(ms: seq<Match>, k: nat) { exists i :: 0 <= i < |ms| && ms[i].load == k }

  predicate StoreOf(ms: seq<Match>, k: nat) { exists i :: 0 <= i < |ms| && ms[i].store == k }

  function MapSlot(s: Option<Item>, rs: Replacements): Option<Item> {
    match s
    case Some(i) => Some(MapItem(i, rs))
    case None => None
  }

  lemma {:induction false} ForwardForm(s: Slots, ms: seq<Match>, k: nat)
    requires Processable(s, ms) && k < |s|
    ensures Forward(s, ms)[k] == if LoadOf(ms, k) then None else MapSlot(s[k], ReplacementsOf(s, ms))
    decreases |ms|
  {
    hide IsLoad, IsStore, MapItem, RenameItem;
    if ms == [] {
      if s[k].Some? { MapItemNone(s[k].value); }
    } else {
      ForwardKeeps(s, ms);
      var s', rs := ForwardOne(s, ms[0]), ReplacementsOf(s, ms);
      ForwardForm(s', ms[1..], k);
      assert rs[1..] == ReplacementsOf(s', ms[1..]);
      if s[k].Some? { MapItemStep(s[k].value, rs); }
      if LoadOf(ms, k) {
        var i :| 0 <= i < |ms| && ms[i].load == k;
        assert i > 0 ==> ms[1..][i - 1].load == k;
      }
      assert forall i | 0 <= i < |ms| - 1 :: ms[1..][i] == ms[i + 1];
    }
  }

  /** A forwarded load's buffer and the buffer its store came from have the same image. */
  lemma {:induction false} LinkedImages(s: Slots, ms: seq<Match>, i: nat)
    requires Processable(s, ms) && i < |ms|
    ensures var rs := ReplacementsOf(s, ms);
      Image(rs, s[ms[i].load].value.op.dst) == Image(rs, s[ms[i].store].value.op.from)
    decreases |ms|
  {
    ForwardKeeps(s, ms);
    var s', rs := ForwardOne(s, ms[0]), ReplacementsOf(s, ms);
    assert rs[1..] == ReplacementsOf(s', ms[1..]);
    if i > 0 {
      LinkedImages(s', ms[1..], i - 1);
      assert ms[1..][i - 1] == ms[i];
      assert ms[i].load != ms[0].load && ms[i].store != ms[0].load;
    }
  }

  /** A buffer no forwarded load fills is its own image. */
  lemma {:induction false} OwnImage(s: Slots, ms: seq<Match>, b: Buf)
    requires Processable(s, ms)
    requires forall i | 0 <= i < |ms| :: s[ms[i].load].value.op.dst != b
    requires forall i, j | 0 <= i < j < |ms| :: s[ms[i].load].value.op.dst != s[ms[j].load].value.op.dst
    ensures Image(ReplacementsOf(s, ms), b) == b
    decreases |ms|
  {
    if ms != [] {
      ForwardKeeps(s, ms);
      var s', rs := ForwardOne(s, ms[0]), ReplacementsOf(s, ms);
      assert rs[1..] == ReplacementsOf(s', ms[1..]);
      forall i | 0 <= i < |ms| - 1
        ensures s'[ms[1..][i].load].value.op.dst == s[ms[i + 1].load].value.op.dst
      {
        assert ms[1..][i] == ms[i + 1];
        assert s[ms[0].load].value.op.dst != s[ms[i + 1].load].value.op.dst;
      }
      OwnImage(s', ms[1..], b);
    }
  }

  /* ---- the pruned slots ---- */

  /** No operation left reaches root `r` in a way the scan rejects. */
  ghost predicate Unread(s: Slots, r: Root) { forall k | 0 <= k < |s| :: AcceptedItem(s[k], r, false) }

  /** A slot emptied by the scan held a store whose root nothing left over reads. */
  lemma {:induction false} PruneForm(s: Slots, ms: seq<Match>, done: set<nat>, k: nat)
    requires forall i | 0 <= i < |ms| :: ms[i].store < |s| && (ms[i].store !in done ==> IsStore(s[ms[i].store]))
    requires k < |s|
    ensures var r := Prune(s, ms, done);
      || r[k] == s[k]
      || (r[k].None? && IsStore(s[k]) && CastSource(s[k].value.op.to).Some? && StoreOf(ms, k)
          && Unread(r, CastSource(s[k].value.op.to).value))
    decreases |ms|
  {
    hide AcceptedItem, CastSource;
    if ms != [] {
      var at := ms[0].store;
      assert ms[0].store == at;
      if StoreOf(ms[1..], k) {
        var i :| 0 <= i < |ms| - 1 && ms[1..][i].store == k;
        assert ms[i + 1].store == k;
      }
      if at in done {
        PruneForm(s, ms[1..], done, k);
      } else {
        var s' := if RootIsDead(s, at) then s[at := None] else s;
        PruneForm(s', ms[1..], done + {at}, k);
        if k == at && RootIsDead(s, at) {
          var root := CastSource(s[at].value.op.to).value;
          StaysUnread(s, s', at, root);
          PruneUnread(s', ms[1..], done + {at}, root);
        }
      }
    }
  }

  lemma NoneAccepted(r: Root)
    ensures AcceptedItem(None, r, false)
  {
  }

  lemma StaysUnread(s: Slots, s': Slots, at: nat, r: Root)
    requires at < |s| && s' == s[at := None] && forall k | 0 <= k < |s| :: AcceptedItem(s[k], r, k == at)
    ensures Unread(s', r)
  {
    hide AcceptedItem;
    NoneAccepted(r);
  }

  lemma {:induction false} PruneUnread(s: Slots, ms: seq<Match>, done: set<nat>, r: Root)
    requires forall i | 0 <= i < |ms| :: ms[i].store < |s| && (ms[i].store !in done ==> IsStore(s[ms[i].store]))
    requires Unread(s, r)
    ensures Unread(Prune(s, ms, done), r)
    decreases |ms|
  {
    hide AcceptedItem, RootIsDead;
    if ms != [] {
      var at := ms[0].store;
      NoneAccepted(r);
      if at in done {
        PruneUnread(s, ms[1..], done, r);
      } else {
        PruneUnread(if RootIsDead(s, at) then s[at := None] else s, ms[1..], done + {at}, r);
      }
    }
  }

  /** A matched store whose root the scan accepts everywhere is erased. */
  lemma {:induction false} PruneErases(s: Slots, ms: seq<Match>, done: set<nat>, at: nat, r: Root)
    requires forall i | 0 <= i < |ms| :: ms[i].store < |s| && (ms[i].store !in done ==> IsStore(s[ms[i].store]))
    requires at < |s| && at !in done && StoreOf(ms, at) && IsStore(s[at]) && CastSource(s[at].value.op.to) == Some(r)
    requires forall k | 0 <= k < |s| :: AcceptedItem(s[k], r, k == at)
    ensures Prune(s, ms, done)[at].None?
    decreases |ms|
  {
    hide AcceptedItem, CastSource;
    var first := ms[0].store;
    if first != at {
      var i :| 0 <= i < |ms| && ms[i].store == at;
      assert ms[1..][i - 1].store == at;
    }
    if first in done {
      PruneErases(s, ms[1..], done, at, r);
    } else {
      var s' := if RootIsDead(s, first) then s[first := None] else s;
      if first == at {
        PruneForm(s', ms[1..], done + {at}, at);
      } else {
        NoneAccepted(r);
        PruneErases(s', ms[1..], done + {first}, at, r);
      }
    }
  }

  /** Two stores through a cast of the same root keep each other. */
  lemma {:induction false} PruneKeepsPair(s: Slots, ms: seq<Match>, done: set<nat>, a: nat, b: nat, r: Root)
    requires forall i | 0 <= i < |ms| :: ms[i].store < |s| && (ms[i].store !in done ==> IsStore(s[ms[i].store]))
    requires a < |s| && b < |s| && a != b && StoresTo(s[a], r) && StoresTo(s[b], r)
    ensures Prune(s, ms, done)[a] == s[a] && Prune(s, ms, done)[b] == s[b]
    decreases |ms|
  {
    hide AcceptedItem, ReachOf, CastSource;
    if ms != [] {
      var first := ms[0].store;
      if first in done {
        PruneKeepsPair(s, ms[1..], done, a, b, r);
      } else {
        StoreNotAccepted(s[a], r);
        StoreNotAccepted(s[b], r);
        PruneKeepsPair(if RootIsDead(s, first) then s[first := None] else s, ms[1..], done + {first}, a, b, r);
      }
    }
  }

  predicate StoresTo(s: Option<Item>, r: Root) {
    IsStore(s) && CastSource(s.value.op.to) == Some(r) && ReachOf(s.value.op.to, r) == OneView
  }

  lemma StoreNotAccepted(s: Option<Item>, r: Root)
    requires StoresTo(s, r)
    ensures !AcceptedItem(s, r, false)
  {
  }

  /* ---- what the pass needs of its input ---- */

  /** The operations of an item. */
  function OpsOf(i: Item): seq<IrOp> {
    match i
    case Leaf(op) => [op]
    case For(_, _, body) => body
  }

  predicate ItemWrites(i: Item, b: Buf) { exists k :: 0 <= k < |OpsOf(i)| && Written(OpsOf(i)[k]) == Some(b) }

  /** The buffer discipline of lowered code: a buffer is not written after it was stored to DDR, a
      buffer filled by a whole-root load is written by that load only and is no operand of a product,
      and loops store nothing. */
  ghost predicate Disciplined(items: seq<Item>) {
    && (forall i, k | 0 <= i < k < |items| && IsStore(Some(items[i])) :: !ItemWrites(items[k], items[i].op.from))
    && (forall i, k | 0 <= i < |items| && 0 <= k < |items| && i != k && LoadKey(items[i]).Some? ::
          !ItemWrites(items[k], LoadedBuf(items[i])))
    && (forall k | 0 <= k < |items| && items[k].For? :: NoStore(items[k].body))
    && (forall i, k | 0 <= i < |items| && 0 <= k < |items| && LoadKey(items[i]).Some? ::
          !FeedsProduct(items[k], LoadedBuf(items[i])))
  }

  function LoadedBuf(i: Item): Buf
    requires LoadKey(i).Some?
  {
    i.op.dst
  }

  predicate NoStore(ops: seq<IrOp>) { forall k | 0 <= k < |ops| :: !ops[k].Store? }

  predicate FeedsProduct(i: Item, b: Buf) {
    exists k :: 0 <= k < |OpsOf(i)| && OpsOf(i)[k].MatmulOp? && (OpsOf(i)[k].lhs == b || OpsOf(i)[k].rhs == b)
  }

  predicate ReadsDeeply(i: Item, r: Root) {
    exists k :: 0 <= k < |OpsOf(i)| && OpsOf(i)[k].Load? && ReachOf(OpsOf(i)[k].src, r) == Deeper
  }

  /** A forwarded root is not also read through a view of a view, unless that load is forwarded too. */
  ghost predicate ReadWhole(items: seq<Item>) {
    forall j, k | 0 <= j < k < |items| && StoreOf(Matches(items), j) && StoreKey(items[j]).Some? && !LoadOf(Matches(items), k) ::
      !ReadsDeeply(items[k], StoreKey(items[j]).value)
  }

  /* ---- the elided slots in closed form ---- */

  function Reps(items: seq<Item>): Replacements {
    AllProcessable(items);
    ReplacementsOf(AllSlots(items), MatchList(items, |items|))
  }

  function Matches(items: seq<Item>): seq<Match> { MatchList(items, |items|) }

  /** A store erased because its root is dead. */
  ghost predicate DeadStore(items: seq<Item>, k: nat)
    requires k < |items|
  {
    !LoadOf(Matches(items), k) && k < |ElidedSlots(items)| && ElidedSlots(items)[k].None?
  }

  lemma SlotForm(items: seq<Item>, k: nat)
    requires k < |items|
    ensures |ElidedSlots(items)| == |items|
    ensures LoadOf(Matches(items), k) ==> ElidedSlots(items)[k].None?
    ensures !LoadOf(Matches(items), k) && !DeadStore(items, k) ==> ElidedSlots(items)[k] == Some(MapItem(items[k], Reps(items)))
    ensures DeadStore(items, k) ==>
      StoreKey(items[k]).Some? && StoreOf(Matches(items), k) && Unread(ElidedSlots(items), StoreKey(items[k]).value)
  {
    hide AcceptedItem, RootIsDead, Prune, Forward;
    StoresStay(items);
    var ms := Matches(items);
    var fwd := Forward(AllSlots(items), ms);
    ForwardForm(AllSlots(items), ms, k);
    PruneForm(fwd, ms, {}, k);
  }

  lemma LoadsAre(items: seq<Item>, i: nat)
    requires i < |Matches(items)|
    ensures var m := Matches(items)[i];
      && m.store < m.load < |items| && LoadKey(items[m.load]).Some? && StoreKey(items[m.store]) == LoadKey(items[m.load])
      && IsStore(Some(items[m.store]))
      && forall j | m.store < j < m.load :: StoreKey(items[j]) != LoadKey(items[m.load])
  {
    hide LoadKey;
    MatchesAre(items, |items|);
    assert Matches(items)[i] in Matches(items);
  }

  /** A buffer that some item other than its whole-root load writes, or that feeds a product, is its
      own image. */
  lemma NotForwarded(items: seq<Item>, k: nat, b: Buf)
    requires Disciplined(items) && k < |items| && !LoadOf(Matches(items), k)
    requires ItemWrites(items[k], b) || FeedsProduct(items[k], b)
    ensures Image(Reps(items), b) == b
  {
    hide ItemWrites, FeedsProduct, Image, LoadKey;
    var ms, s := Matches(items), AllSlots(items);
    AllProcessable(items);
    MatchesAre(items, |items|);
    forall i | 0 <= i < |ms|
      ensures s[ms[i].load].value.op.dst != b
    {
      LoadsAre(items, i);
      assert ms[i].load != k;
    }
    forall i, j | 0 <= i < j < |ms|
      ensures s[ms[i].load].value.op.dst != s[ms[j].load].value.op.dst
    {
      LoadsAre(items, i);
      LoadsAre(items, j);
      LoadWrites(items[ms[j].load]);
    }
    OwnImage(s, ms, b);
  }

  lemma LoadWrites(i: Item)
    requires LoadKey(i).Some?
    ensures ItemWrites(i, LoadedBuf(i))
  {
    assert Written(OpsOf(i)[0]) == Some(LoadedBuf(i));
  }

  /* ---- lists of operations that store nothing ---- */

  ghost predicate SelfImages(rs: Replacements, ops: seq<IrOp>) { forall k | 0 <= k < |ops| :: SelfImage(rs, ops[k]) }

  ghost predicate SelfImage(rs: Replacements, op: IrOp) {
    && (Written(op).Some? ==> Image(rs, Written(op).value) == Written(op).value)
    && (op.MatmulOp? ==> Image(rs, op.lhs) == op.lhs && Image(rs, op.rhs) == op.rhs)
  }

  predicate Writes(ops: seq<IrOp>, b: Buf) { exists k :: 0 <= k < |ops| && Written(ops[k]) == Some(b) }

  /** Nothing in `ops` writes the image of a forwarded buffer. */
  ghost predicate Untouched(rs: Replacements, st: State, ops: seq<IrOp>) {
    forall c: nat | c in st.bufs && Image(rs, c) != c :: !Writes(ops, Image(rs, c))
  }

  ghost predicate LoadsAgree(st: State, st': State, ops: seq<IrOp>) {
    forall k | 0 <= k < |ops| && ops[k].Load? :: RootAgrees(st, st', RootOf(ops[k].src))
  }

  /** What running `ops` leaves alone. */
  ghost predicate LeavesAlone(rs: Replacements, st: State, s1: State, ops: seq<IrOp>) {
    forall b: nat :: LeavesBuf(rs, st, s1, ops, b)
  }

  ghost predicate LeavesBuf(rs: Replacements, st: State, s1: State, ops: seq<IrOp>, b: Buf) {
    && (b in st.bufs ==> b in s1.bufs && (!Writes(ops, b) ==> s1.bufs[b] == st.bufs[b]))
    && (b in s1.bufs && Image(rs, b) != b ==> b in st.bufs)
  }

  lemma OneOpLeaves<F>(f: Fpu<F>, ty: Typing, rs: Replacements, st: State, op: IrOp)
    requires EvalOp(f, ty, st, op).Some? && SelfImage(rs, op)
    ensures forall b: nat ::
      var s1 := EvalOp(f, ty, st, op).value;
      && (b in st.bufs ==> b in s1.bufs && (Written(op) != Some(b) ==> s1.bufs[b] == st.bufs[b]))
      && (b in s1.bufs && Image(rs, b) != b ==> b in st.bufs)
  {
    hide Image, Elements, Values, Value, Read, WellTyped;
  }

  lemma {:induction false} OpsRelated<F>(f: Fpu<F>, ty: Typing, rs: Replacements, st: State, st': State, ops: seq<IrOp>)
    requires NoStore(ops) && BufsRelated(ty, rs, st, st') && SelfImages(rs, ops) && Untouched(rs, st, ops)
    requires LoadsAgree(st, st', ops) && EvalOps(f, ty, st, ops).Some?
    ensures var s1, s2 := EvalOps(f, ty, st, ops).value, EvalOps(f, ty, st', MapOps(ops, rs));
      && s2.Some? && BufsRelated(ty, rs, s1, s2.value) && s1.roots == st.roots && s2.value.roots == st'.roots
      && LeavesAlone(rs, st, s1, ops)
    decreases ops
  {
    hide Image, EvalOp, BufsRelated, MapOp, Written;
    if ops != [] {
      var op, rest := ops[0], ops[1..];
      StandsAlone(rs, st, ops);
      OpRelated(f, ty, rs, st, st', op);
      OneOpLeaves(f, ty, rs, st, op);
      var m, m' := EvalOp(f, ty, st, op).value, EvalOp(f, ty, st', MapOp(op, rs)).value;
      assert MapOps(ops, rs)[1..] == MapOps(rest, rs);
      RestUntouched(rs, st, m, ops);
      OpsRelated(f, ty, rs, m, m', rest);
      var s1 := EvalOps(f, ty, m, rest).value;
      forall b: nat
        ensures LeavesBuf(rs, st, s1, ops, b)
      {
        assert LeavesBuf(rs, m, s1, rest, b);
        WritesSplit(ops, b);
      }
    }
  }

  lemma WritesSplit(ops: seq<IrOp>, b: Buf)
    requires ops != []
    ensures Writes(ops, b) <==> Written(ops[0]) == Some(b) || Writes(ops[1..], b)
  {
    if Writes(ops[1..], b) {
      var k :| 0 <= k < |ops| - 1 && Written(ops[1..][k]) == Some(b);
      assert Written(ops[k + 1]) == Some(b);
    }
    if Writes(ops, b) {
      var k :| 0 <= k < |ops| && Written(ops[k]) == Some(b);
      assert k > 0 ==> Written(ops[1..][k - 1]) == Some(b);
    }
  }

  lemma StandsAlone(rs: Replacements, st: State, ops: seq<IrOp>)
    requires ops != [] && SelfImages(rs, ops) && Untouched(rs, st, ops)
    ensures Stands(rs, st, ops[0]) && SelfImage(rs, ops[0])
  {
    hide Image, Written;
    if Written(ops[0]).Some? {
      forall c: nat | c in st.bufs && Image(rs, c) == Written(ops[0]).value
        ensures c == Written(ops[0]).value
      {
        if Image(rs, c) != c {
          assert Writes(ops, Image(rs, c));
        }
      }
    }
    assert SelfImage(rs, ops[0]);
  }

  lemma RestUntouched(rs: Replacements, st: State, m: State, ops: seq<IrOp>)
    requires ops != [] && Untouched(rs, st, ops)
    requires forall b: nat | b in m.bufs && Image(rs, b) != b :: b in st.bufs
    ensures Untouched(rs, m, ops[1..])
  {
    hide Image, Writes;
    forall c: nat | c in m.bufs && Image(rs, c) != c
      ensures !Writes(ops[1..], Image(rs, c))
    {
      WritesSplit(ops, Image(rs, c));
    }
  }

  /* ---- unrolling and renaming ---- */

  function Flat(i: Item): seq<IrOp> {
    match i
    case Leaf(op) => [op]
    case For(lb, ub, body) => UnrollLoop(body, lb, ub)
  }

  lemma {:induction false} FlatLoop(body: seq<IrOp>, rs: Replacements, lb: nat, ub: nat)
    ensures UnrollLoop(MapOps(body, rs), lb, ub) == MapOps(UnrollLoop(body, lb, ub), rs)
    decreases ub
  {
    hide MapOp, OpAt;
    if ub > lb {
      FlatLoop(body, rs, lb, ub - 1);
      var mapped, original := BodyAt(MapOps(body, rs), ub - 1), MapOps(BodyAt(body, ub - 1), rs);
      forall k | 0 <= k < |body|
        ensures mapped[k] == original[k]
      {
        AtMapped(body[k], rs, ub - 1);
      }
      assert mapped == original;
    }
  }

  lemma AtMapped(op: IrOp, rs: Replacements, iv: nat)
    ensures OpAt(MapOp(op, rs), iv) == MapOp(OpAt(op, iv), rs)
  {
  }

  lemma FlatMapped(i: Item, rs: Replacements)
    ensures Flat(MapItem(i, rs)) == MapOps(Flat(i), rs)
  {
    hide MapOp;
    match i
    case Leaf(op) =>
    case For(lb, ub, body) => FlatLoop(body, rs, lb, ub);
  }

  /** `a` is `b` at some iteration, as far as buffers and roots go. */
  predicate Instance(a: IrOp, b: IrOp) {
    && Written(a) == Written(b) && (a.Store? <==> b.Store?) && (a.Load? <==> b.Load?)
    && (a.MatmulOp? <==> b.MatmulOp?) && (a.MatmulOp? ==> a == b)
    && (a.Load? ==> RootOf(a.src) == RootOf(b.src))
  }

  lemma {:induction false} ViewAtRoot(v: View, iv: nat)
    ensures RootOf(ViewAt(v, iv)) == RootOf(v)
    decreases v
  {
    match v
    case Base(_) =>
    case CastOf(s) => ViewAtRoot(s, iv);
    case SubOf(s, _, _, _, _) => ViewAtRoot(s, iv);
  }

  lemma {:induction false} LoopOrigin(body: seq<IrOp>, lb: nat, ub: nat, k: nat) returns (j: nat)
    requires k < |UnrollLoop(body, lb, ub)|
    ensures j < |body| && Instance(UnrollLoop(body, lb, ub)[k], body[j])
    decreases ub
  {
    var front := UnrollLoop(body, lb, ub - 1);
    if k < |front| {
      j := LoopOrigin(body, lb, ub - 1, k);
    } else {
      j := k - |front|;
      if body[j].Load? { ViewAtRoot(body[j].src, ub - 1); }
    }
  }

  lemma FlatOrigin(i: Item, k: nat) returns (j: nat)
    requires k < |Flat(i)|
    ensures j < |OpsOf(i)| && Instance(Flat(i)[k], OpsOf(i)[j])
  {
    match i
    case Leaf(op) => j := 0;
    case For(lb, ub, body) => j := LoopOrigin(body, lb, ub, k);
  }

  lemma UnrollFrom(items: seq<Item>, k: nat)
    requires k < |items|
    ensures Unroll(items[k..]) == Flat(items[k]) + Unroll(items[k + 1..])
  {
    assert items[k..][1..] == items[k + 1..];
  }

  lemma LiveFrom(s: Slots, k: nat)
    requires k < |s|
    ensures Unroll(Live(s[k..])) == (if s[k].Some? then Flat(s[k].value) else []) + Unroll(Live(s[k + 1..]))
  {
    assert s[k..][1..] == s[k + 1..];
    var rest := Live(s[k + 1..]);
    if s[k].Some? {
      assert ([s[k].value] + rest)[1..] == rest;
    } else {
      assert [] + rest == rest;
    }
  }

  /* ---- the simulation ---- */

  ghost predicate DeadRoot(items: seq<Item>, k: nat, r: Root)
    requires k <= |items|
  {
    exists j: nat :: j < k && DeadStore(items, j) && StoreKey(items[j]) == Some(r)
  }

  predicate Sealed(items: seq<Item>, k: nat, b: Buf) { forall j | k <= j < |items| :: !ItemWrites(items[j], b) }

  /** The root of a pending match holds what its store's buffer holds. */
  ghost predicate Known(ty: Typing, items: seq<Item>, m: Match, st: State)
    requires m.store < |items| && IsStore(Some(items[m.store])) && StoreKey(items[m.store]).Some?
  {
    var r, b := StoreKey(items[m.store]).value, items[m.store].op.from;
    && b in st.bufs && r in st.roots && st.roots[r] == st.bufs[b]
    && b < |ty.buf| && r < |ty.root| && ty.buf[b] == ty.root[r]
  }

  ghost predicate AllKnown(ty: Typing, items: seq<Item>, k: nat, st: State) {
    forall i | 0 <= i < |Matches(items)| && Matches(items)[i].store < k <= Matches(items)[i].load ::
      && Matches(items)[i].store < |items| && IsStore(Some(items[Matches(items)[i].store]))
      && StoreKey(items[Matches(items)[i].store]).Some? && Known(ty, items, Matches(items)[i], st)
  }

  ghost predicate ImagesSealed(items: seq<Item>, k: nat, st: State) {
    forall c: nat | c in st.bufs && Image(Reps(items), c) != c :: Sealed(items, k, Image(Reps(items), c))
  }

  ghost predicate RootsAgree(items: seq<Item>, k: nat, st: State, st': State)
    requires k <= |items|
  {
    forall r: nat | !DeadRoot(items, k, r) :: RootAgrees(st, st', r)
  }

  /** Before item `k`: the original state and the state of the elided program. */
  ghost predicate Inv(ty: Typing, items: seq<Item>, k: nat, st: State, st': State)
    requires k <= |items|
  {
    && RootsAgree(items, k, st, st') && BufsRelated(ty, Reps(items), st, st')
    && ImagesSealed(items, k, st) && AllKnown(ty, items, k, st)
  }

  /** A load through casts fills its buffer with the root. */
  lemma {:induction false} CastReads(ty: Typing, st: State, v: View, r: Root)
    requires CastSource(v) == Some(r)
    ensures Read(ty, st, v) == (if r in st.roots then Some(st.roots[r]) else None)
    ensures ViewShape(ty, v) == (if r < |ty.root| then Some(ty.root[r]) else None)
    ensures RootOf(v) == r
    decreases v
  {
    match v
    case Base(_) =>
    case CastOf(s) => CastReads(ty, st, s, r);
  }

  lemma StillDead(items: seq<Item>, k: nat, r: Root)
    requires k < |items| && DeadRoot(items, k, r)
    ensures DeadRoot(items, k + 1, r)
  {
  }

  /** A forwarded load: the elided program already has its contents. */
  lemma StepLoad<F>(f: Fpu<F>, ty: Typing, items: seq<Item>, k: nat, st: State, st': State)
    requires Disciplined(items) && k < |items| && LoadOf(Matches(items), k) && Inv(ty, items, k, st, st')
    requires EvalOps(f, ty, st, Flat(items[k])).Some?
    ensures Inv(ty, items, k + 1, EvalOps(f, ty, st, Flat(items[k])).value, st')
  {
    hide Image, ItemWrites, Sealed, BufsRelated, AllKnown, ImagesSealed, Read, DeadStore, StoreKey, Disciplined;
    var ms := Matches(items);
    var i :| 0 <= i < |ms| && ms[i].load == k;
    LoadsAre(items, i);
    var op := items[k].op;
    var r := LoadKey(items[k]).value;
    CastReads(ty, st, op.src, r);
    OneOp(f, ty, st, op);
    var st1 := EvalOp(f, ty, st, op).value;
    LoadedKnown(ty, items, i, st);
    LoadKeepsKnown(ty, items, k, st, st1);
    LoadKeepsSealed(ty, items, i, st, st1);
    LoadKeepsRelated(ty, items, i, st, st', st1);
    forall s: nat | !DeadRoot(items, k + 1, s)
      ensures RootAgrees(st1, st', s)
    {
      if DeadRoot(items, k, s) { StillDead(items, k, s); }
    }
  }

  lemma OneOp<F>(f: Fpu<F>, ty: Typing, st: State, op: IrOp)
    ensures EvalOps(f, ty, st, [op]) == EvalOp(f, ty, st, op)
  {
    hide EvalOp;
    assert [op][1..] == [];
  }

  lemma LoadedKnown(ty: Typing, items: seq<Item>, i: nat, st: State)
    requires i < |Matches(items)| && Matches(items)[i].load <= |items| && AllKnown(ty, items, Matches(items)[i].load, st)
    ensures var m := Matches(items)[i];
      m.store < |items| && IsStore(Some(items[m.store])) && StoreKey(items[m.store]).Some? && Known(ty, items, m, st)
  {
    LoadsAre(items, i);
  }

  /** No pending match's buffer is the one a forwarded load fills. */
  lemma LoadKeepsKnown(ty: Typing, items: seq<Item>, k: nat, st: State, st1: State)
    requires Disciplined(items) && k < |items| && LoadKey(items[k]).Some? && AllKnown(ty, items, k, st)
    requires st1.roots == st.roots && st1.bufs.Keys == st.bufs.Keys + {LoadedBuf(items[k])}
    requires forall b: nat | b in st.bufs && b != LoadedBuf(items[k]) :: st1.bufs[b] == st.bufs[b]
    ensures AllKnown(ty, items, k + 1, st1)
  {
    hide ItemWrites;
    LoadWrites(items[k]);
    forall i | 0 <= i < |Matches(items)| && Matches(items)[i].store < k + 1 <= Matches(items)[i].load
      ensures Matches(items)[i].store < |items| && IsStore(Some(items[Matches(items)[i].store]))
      ensures StoreKey(items[Matches(items)[i].store]).Some? && Known(ty, items, Matches(items)[i], st1)
    {
      LoadsAre(items, i);
      var m := Matches(items)[i];
      assert m.store != k;
      assert Known(ty, items, m, st);
      assert items[m.store].op.from != LoadedBuf(items[k]);
    }
  }

  lemma LoadKeepsSealed(ty: Typing, items: seq<Item>, i: nat, st: State, st1: State)
    requires Disciplined(items) && i < |Matches(items)| && Matches(items)[i].load < |items|
    requires ImagesSealed(items, Matches(items)[i].load, st)
    requires Matches(items)[i].store < |items| && IsStore(Some(items[Matches(items)[i].store]))
    requires items[Matches(items)[i].store].op.from in st.bufs
    requires LoadKey(items[Matches(items)[i].load]).Some?
    requires st1.bufs.Keys == st.bufs.Keys + {LoadedBuf(items[Matches(items)[i].load])}
    ensures ImagesSealed(items, Matches(items)[i].load + 1, st1)
  {
    hide ItemWrites, Image, LoadKey;
    var m := Matches(items)[i];
    var src, dst := items[m.store].op.from, LoadedBuf(items[m.load]);
    SameImage(items, i);
    LoadsAre(items, i);
    forall c: nat | c in st1.bufs && Image(Reps(items), c) != c
      ensures Sealed(items, m.load + 1, Image(Reps(items), c))
    {
      if c == dst && Image(Reps(items), src) != src {
        assert Sealed(items, m.load, Image(Reps(items), src));
      } else if c == dst {
        assert forall j | m.load + 1 <= j < |items| :: !ItemWrites(items[j], src);
      } else {
        assert Sealed(items, m.load, Image(Reps(items), c));
      }
    }
  }

  lemma SameImage(items: seq<Item>, i: nat)
    requires i < |Matches(items)|
    ensures var m := Matches(items)[i];
      && m.store < m.load < |items| && IsStore(Some(items[m.store])) && LoadKey(items[m.load]).Some?
      && Image(Reps(items), LoadedBuf(items[m.load])) == Image(Reps(items), items[m.store].op.from)
  {
    hide Image;
    LoadsAre(items, i);
    AllProcessable(items);
    LinkedImages(AllSlots(items), Matches(items), i);
  }

  lemma LoadKeepsRelated(ty: Typing, items: seq<Item>, i: nat, st: State, st': State, st1: State)
    requires i < |Matches(items)| && BufsRelated(ty, Reps(items), st, st')
    requires var m := Matches(items)[i];
      && m.store < |items| && m.load < |items| && LoadKey(items[m.load]).Some?
      && IsStore(Some(items[m.store])) && StoreKey(items[m.store]).Some? && Known(ty, items, m, st)
      && st1.bufs == st.bufs[LoadedBuf(items[m.load]) := st.bufs[items[m.store].op.from]]
      && LoadedBuf(items[m.load]) < |ty.buf|
      && ty.buf[LoadedBuf(items[m.load])] == ty.buf[items[m.store].op.from]
    ensures BufsRelated(ty, Reps(items), st1, st')
  {
    hide Image, LoadKey, StoreKey;
    var m := Matches(items)[i];
    SameImage(items, i);
    assert BufRelated(ty, Reps(items), st, st', items[m.store].op.from);
    forall b: nat | b in st1.bufs
      ensures BufRelated(ty, Reps(items), st1, st', b)
    {
      assert b in st.bufs ==> BufRelated(ty, Reps(items), st, st', b);
    }
  }

  /** After a store: the matches that stay pending, and the one that begins. */
  lemma StoreKeepsKnown(ty: Typing, items: seq<Item>, k: nat, st: State, st1: State)
    requires k < |items| && IsStore(Some(items[k])) && AllKnown(ty, items, k, st)
    requires StoreKey(items[k]).Some? && items[k].op.from in st.bufs
    requires st1 == st.(roots := st.roots[StoreKey(items[k]).value := st.bufs[items[k].op.from]])
    requires items[k].op.from < |ty.buf| && StoreKey(items[k]).value < |ty.root|
    requires ty.buf[items[k].op.from] == ty.root[StoreKey(items[k]).value]
    ensures AllKnown(ty, items, k + 1, st1)
  {
    forall i | 0 <= i < |Matches(items)| && Matches(items)[i].store < k + 1 <= Matches(items)[i].load
      ensures Matches(items)[i].store < |items| && IsStore(Some(items[Matches(items)[i].store]))
      ensures StoreKey(items[Matches(items)[i].store]).Some? && Known(ty, items, Matches(items)[i], st1)
    {
      LoadsAre(items, i);
      var m := Matches(items)[i];
      if m.store < k {
        assert Known(ty, items, m, st);
        assert m.load != k;
        assert StoreKey(items[k]) != StoreKey(items[m.store]);
      }
    }
  }

  /** The effect of a store. */
  lemma StoreEffect<F>(f: Fpu<F>, ty: Typing, st: State, i: Item)
    requires IsStore(Some(i)) && EvalOps(f, ty, st, Flat(i)).Some?
    ensures StoreKey(i).Some? && i.op.from in st.bufs
    ensures EvalOps(f, ty, st, Flat(i)) == Some(st.(roots := st.roots[StoreKey(i).value := st.bufs[i.op.from]]))
    ensures i.op.from < |ty.buf| && StoreKey(i).value < |ty.root| && ty.buf[i.op.from] == ty.root[StoreKey(i).value]
    ensures StoredRoot(i.op.to) == StoreKey(i)
  {
    OneOp(f, ty, st, i.op);
    assert i.op.to.CastOf? && i.op.to.source.Base?;
    CastReads(ty, st, i.op.to, i.op.to.source.root);
  }

  /** An erased store: its root is dead from here on. */
  lemma StepDead<F>(f: Fpu<F>, ty: Typing, items: seq<Item>, k: nat, st: State, st': State)
    requires k < |items| && DeadStore(items, k) && Inv(ty, items, k, st, st')
    requires EvalOps(f, ty, st, Flat(items[k])).Some?
    ensures Inv(ty, items, k + 1, EvalOps(f, ty, st, Flat(items[k])).value, st')
  {
    hide Image, ItemWrites, BufsRelated, AllKnown, DeadStore, EvalOps;
    SlotForm(items, k);
    KeysAre(items[k]);
    StoreEffect(f, ty, st, items[k]);
    var st1 := EvalOps(f, ty, st, Flat(items[k])).value;
    StoreKeepsKnown(ty, items, k, st, st1);
    RelatedSameBufs(ty, Reps(items), st, st', st1, st');
    forall r: nat | !DeadRoot(items, k + 1, r)
      ensures RootAgrees(st1, st', r)
    {
      if DeadRoot(items, k, r) { StillDead(items, k, r); }
      assert StoreKey(items[k]) != Some(r);
    }
    assert ImagesSealed(items, k + 1, st1) by { SealedOn(items, k, st, st1); }
  }

  lemma SealedOn(items: seq<Item>, k: nat, st: State, st1: State)
    requires ImagesSealed(items, k, st) && forall c: nat | c in st1.bufs && Image(Reps(items), c) != c :: c in st.bufs
    ensures ImagesSealed(items, k + 1, st1)
  {
    hide Image, ItemWrites, Reps;
    forall c: nat | c in st1.bufs && Image(Reps(items), c) != c
      ensures Sealed(items, k + 1, Image(Reps(items), c))
    {
      assert Sealed(items, k, Image(Reps(items), c));
    }
  }

  /* ---- a kept item ---- */

  /** Loads of a dead root must not survive: the one way the scan lets them is a view of a view. */
  ghost predicate NoDeepReader(items: seq<Item>) {
    forall j, k | 0 <= j < k < |items| && DeadStore(items, j) && !LoadOf(Matches(items), k) ::
      StoreKey(items[j]).Some? && !ReadsDeeply(items[k], StoreKey(items[j]).value)
  }

  lemma ReadWholeSuffices(items: seq<Item>)
    requires ReadWhole(items)
    ensures NoDeepReader(items)
  {
    hide ReadsDeeply, DeadStore, LoadOf;
    forall j, k | 0 <= j < k < |items| && DeadStore(items, j) && !LoadOf(Matches(items), k)
      ensures StoreKey(items[j]).Some? && !ReadsDeeply(items[k], StoreKey(items[j]).value)
    {
      SlotForm(items, j);
    }
  }

  lemma {:induction false} ReachesRoot(v: View, r: Root)
    ensures ReachOf(v, r) != Elsewhere <==> RootOf(v) == r
    decreases v
  {
    match v
    case Base(_) =>
    case CastOf(s) => ReachesRoot(s, r);
    case SubOf(s, _, _, _, _) => ReachesRoot(s, r);
  }

  /** A root some kept item loads is alive. */
  lemma LoadedAlive(items: seq<Item>, k: nat, o: nat)
    requires k < |items| && NoDeepReader(items) && !LoadOf(Matches(items), k) && !DeadStore(items, k)
    requires o < |OpsOf(items[k])| && OpsOf(items[k])[o].Load?
    ensures !DeadRoot(items, k, RootOf(OpsOf(items[k])[o].src))
  {
    hide DeadStore, Image, LoadOf, ElidedSlots, StoreKey;
    var op := OpsOf(items[k])[o];
    var r := RootOf(op.src);
    SlotForm(items, k);
    ReachesRoot(op.src, r);
    DeepRead(items[k], o, r);
    if DeadRoot(items, k, r) {
      var j: nat :| j < k && DeadStore(items, j) && StoreKey(items[j]) == Some(r);
      SlotForm(items, j);
      assert AcceptedItem(ElidedSlots(items)[k], r, false);
      MappedAccepted(items[k], Reps(items), r, o);
    }
  }

  lemma DeepRead(i: Item, o: nat, r: Root)
    requires o < |OpsOf(i)| && OpsOf(i)[o].Load?
    ensures ReachOf(OpsOf(i)[o].src, r) == Deeper ==> ReadsDeeply(i, r)
  {
  }

  lemma MappedAccepted(i: Item, rs: Replacements, r: Root, o: nat)
    requires AcceptedItem(Some(MapItem(i, rs)), r, false) && o < |OpsOf(i)|
    ensures AcceptedUse(OpsOf(i)[o], r, false)
  {
    hide Image;
    match i
    case Leaf(op) =>
    case For(_, _, body) =>
      assert AcceptedUse(MapOps(body, rs)[o], r, false);
  }

  /** The kept item's operations meet the conditions for running them renamed. */
  lemma KeptConditions(ty: Typing, items: seq<Item>, k: nat, st: State, st': State)
    requires Disciplined(items) && k < |items| && Inv(ty, items, k, st, st')
    requires !LoadOf(Matches(items), k) && !DeadStore(items, k)
    ensures SelfImages(Reps(items), Flat(items[k])) && Untouched(Reps(items), st, Flat(items[k]))
    ensures items[k].For? ==> NoStore(Flat(items[k]))
  {
    hide Image, DeadStore, BufsRelated, AllKnown, LoadOf, Reps, Flat, Matches;
    var ops := Flat(items[k]);
    forall x | 0 <= x < |ops|
      ensures SelfImage(Reps(items), ops[x])
      ensures Written(ops[x]).Some? ==> ItemWrites(items[k], Written(ops[x]).value)
      ensures items[k].For? ==> !ops[x].Store?
    {
      var o := FlatOrigin(items[k], x);
      var op := OpsOf(items[k])[o];
      KeptImages(items, k, o);
    }
    forall c: nat | c in st.bufs && Image(Reps(items), c) != c
      ensures !Writes(ops, Image(Reps(items), c))
    {
      assert Sealed(items, k, Image(Reps(items), c));
    }
  }

  /** Kept loads read roots that agree. */
  lemma KeptLoads(ty: Typing, items: seq<Item>, k: nat, st: State, st': State)
    requires NoDeepReader(items) && k < |items| && RootsAgree(items, k, st, st')
    requires !LoadOf(Matches(items), k) && !DeadStore(items, k)
    ensures LoadsAgree(st, st', Flat(items[k]))
  {
    hide DeadStore, NoDeepReader, LoadOf, Flat, Matches, RootAgrees;
    var ops := Flat(items[k]);
    forall x | 0 <= x < |ops| && ops[x].Load?
      ensures RootAgrees(st, st', RootOf(ops[x].src))
    {
      var o := FlatOrigin(items[k], x);
      LoadedAlive(items, k, o);
    }
  }

  lemma KeptImages(items: seq<Item>, k: nat, o: nat)
    requires Disciplined(items) && k < |items| && !LoadOf(Matches(items), k) && o < |OpsOf(items[k])|
    ensures SelfImage(Reps(items), OpsOf(items[k])[o])
    ensures Written(OpsOf(items[k])[o]).Some? ==> ItemWrites(items[k], Written(OpsOf(items[k])[o]).value)
  {
    hide Image, LoadOf, Matches, Reps;
    var op := OpsOf(items[k])[o];
    if Written(op).Some? {
      assert ItemWrites(items[k], Written(op).value);
      NotForwarded(items, k, Written(op).value);
    }
    if op.MatmulOp? {
      assert FeedsProduct(items[k], op.lhs) && FeedsProduct(items[k], op.rhs);
      NotForwarded(items, k, op.lhs);
      NotForwarded(items, k, op.rhs);
    }
  }

  /** A kept item that stores nothing. */
  lemma StepQuiet<F>(f: Fpu<F>, ty: Typing, items: seq<Item>, k: nat, st: State, st': State)
    requires Disciplined(items) && k < |items| && Inv(ty, items, k, st, st')
    requires !LoadOf(Matches(items), k) && !DeadStore(items, k) && !IsStore(Some(items[k]))
    requires LoadsAgree(st, st', Flat(items[k]))
    requires EvalOps(f, ty, st, Flat(items[k])).Some?
    ensures var s1, s2 := EvalOps(f, ty, st, Flat(items[k])).value, EvalOps(f, ty, st', MapOps(Flat(items[k]), Reps(items)));
      s2.Some? && Inv(ty, items, k + 1, s1, s2.value)
  {
    hide Image, DeadStore, BufsRelated, AllKnown, LoadOf, Reps, Flat, Matches, EvalOps, ItemWrites, MapOps, LoadsAgree;
    KeptConditions(ty, items, k, st, st');
    QuietStores(items[k]);
    OpsRelated(f, ty, Reps(items), st, st', Flat(items[k]));
    var s1, s2 := EvalOps(f, ty, st, Flat(items[k])).value, EvalOps(f, ty, st', MapOps(Flat(items[k]), Reps(items))).value;
    forall c: nat | c in s1.bufs && Image(Reps(items), c) != c
      ensures c in st.bufs
    {
      assert LeavesBuf(Reps(items), st, s1, Flat(items[k]), c);
    }
    SealedOn(items, k, st, s1);
    QuietKeepsKnown(ty, items, k, st, s1);
    forall r: nat | !DeadRoot(items, k + 1, r)
      ensures RootAgrees(s1, s2, r)
    {
      if DeadRoot(items, k, r) { StillDead(items, k, r); }
    }
  }

  lemma QuietStores(i: Item)
    requires !IsStore(Some(i)) && (i.For? ==> NoStore(Flat(i)))
    ensures NoStore(Flat(i))
  {
  }

  lemma QuietKeepsKnown(ty: Typing, items: seq<Item>, k: nat, st: State, s1: State)
    requires Disciplined(items) && k < |items| && AllKnown(ty, items, k, st) && !LoadOf(Matches(items), k)
    requires !IsStore(Some(items[k])) && s1.roots == st.roots && LeavesAlone(Reps(items), st, s1, Flat(items[k]))
    ensures AllKnown(ty, items, k + 1, s1)
  {
    hide Image, Reps, Flat, ItemWrites, StoreKey;
    forall i | 0 <= i < |Matches(items)| && Matches(items)[i].store < k + 1 <= Matches(items)[i].load
      ensures Matches(items)[i].store < |items| && IsStore(Some(items[Matches(items)[i].store]))
      ensures StoreKey(items[Matches(items)[i].store]).Some? && Known(ty, items, Matches(items)[i], s1)
    {
      LoadsAre(items, i);
      var m := Matches(items)[i];
      assert Known(ty, items, m, st);
      var b := items[m.store].op.from;
      assert LeavesBuf(Reps(items), st, s1, Flat(items[k]), b);
      if Writes(Flat(items[k]), b) {
        var x :| 0 <= x < |Flat(items[k])| && Written(Flat(items[k])[x]) == Some(b);
        var o := FlatOrigin(items[k], x);
        WrittenItem(items[k], o, b);
      }
    }
  }

  lemma WrittenItem(i: Item, o: nat, b: Buf)
    requires o < |OpsOf(i)| && Written(OpsOf(i)[o]) == Some(b)
    ensures ItemWrites(i, b)
  {
  }

  /** A kept store. */
  lemma StepStore<F>(f: Fpu<F>, ty: Typing, items: seq<Item>, k: nat, st: State, st': State)
    requires k < |items| && Inv(ty, items, k, st, st') && IsStore(Some(items[k]))
    requires EvalOps(f, ty, st, Flat(items[k])).Some?
    ensures var s1, s2 := EvalOps(f, ty, st, Flat(items[k])).value, EvalOps(f, ty, st', MapOps(Flat(items[k]), Reps(items)));
      s2.Some? && Inv(ty, items, k + 1, s1, s2.value)
  {
    hide Image, DeadStore, BufsRelated, AllKnown, Reps, Matches, EvalOps, ItemWrites, EvalOp;
    var op := items[k].op;
    StoreEffect(f, ty, st, items[k]);
    OneOp(f, ty, st, op);
    OneOp(f, ty, st', MapOp(op, Reps(items)));
    assert MapOps(Flat(items[k]), Reps(items)) == [MapOp(op, Reps(items))];
    OpRelated(f, ty, Reps(items), st, st', op);
    var s1, s2 := EvalOp(f, ty, st, op).value, EvalOp(f, ty, st', MapOp(op, Reps(items))).value;
    StoreKeepsKnown(ty, items, k, st, s1);
    SealedOn(items, k, st, s1);
    forall r: nat | !DeadRoot(items, k + 1, r)
      ensures RootAgrees(s1, s2, r)
    {
      if DeadRoot(items, k, r) { StillDead(items, k, r); }
    }
  }

  /** What is left of one item. */
  function SlotOps(s: Slots, k: nat): seq<IrOp>
    requires k < |s|
  {
    if s[k].Some? then Flat(s[k].value) else []
  }

  /** One item and what the elided program has in its place. */
  lemma SimulatesItem<F>(f: Fpu<F>, ty: Typing, items: seq<Item>, k: nat, st: State, st': State)
    requires Disciplined(items) && NoDeepReader(items) && k < |items| == |ElidedSlots(items)| && Inv(ty, items, k, st, st')
    requires EvalOps(f, ty, st, Flat(items[k])).Some?
    ensures var s2 := EvalOps(f, ty, st', SlotOps(ElidedSlots(items), k));
      s2.Some? && Inv(ty, items, k + 1, EvalOps(f, ty, st, Flat(items[k])).value, s2.value)
  {
    hide Inv, Disciplined, NoDeepReader, DeadStore, Flat, MapOps, EvalOps, ElidedSlots, LoadOf, MapItem, Reps;
    SlotForm(items, k);
    NoOps(f, ty, st');
    if LoadOf(Matches(items), k) {
      StepLoad(f, ty, items, k, st, st');
    } else if DeadStore(items, k) {
      StepDead(f, ty, items, k, st, st');
      DeadSlot(items, k);
    } else {
      FlatMapped(items[k], Reps(items));
      if IsStore(Some(items[k])) {
        StepStore(f, ty, items, k, st, st');
      } else {
        AgreedLoads(ty, items, k, st, st');
        StepQuiet(f, ty, items, k, st, st');
      }
    }
  }

  lemma NoOps<F>(f: Fpu<F>, ty: Typing, st: State)
    ensures EvalOps(f, ty, st, []) == Some(st)
  {
  }

  /** From item `k` on, the elided program follows the original one. */
  lemma {:induction false} Simulates<F>(f: Fpu<F>, ty: Typing, items: seq<Item>, k: nat, st: State, st': State)
    requires Disciplined(items) && NoDeepReader(items) && k <= |items| && Inv(ty, items, k, st, st')
    requires EvalOps(f, ty, st, Unroll(items[k..])).Some?
    requires |ElidedSlots(items)| == |items|
    ensures var s2 := EvalOps(f, ty, st', Unroll(Live(ElidedSlots(items)[k..])));
      s2.Some? && Inv(ty, items, |items|, EvalOps(f, ty, st, Unroll(items[k..])).value, s2.value)
    decreases |items| - k
  {
    hide Inv, Disciplined, NoDeepReader, Flat, EvalOps, ElidedSlots, Unroll, Live;
    if k == |items| {
      NothingLeft(f, ty, items, st, st');
    } else {
      UnrollFrom(items, k);
      LiveFrom(ElidedSlots(items), k);
      EvalConcat(f, ty, st, Flat(items[k]), Unroll(items[k + 1..]));
      SimulatesItem(f, ty, items, k, st, st');
      var now, rest := SlotOps(ElidedSlots(items), k), Unroll(Live(ElidedSlots(items)[k + 1..]));
      EvalConcat(f, ty, st', now, rest);
      Simulates(f, ty, items, k + 1, EvalOps(f, ty, st, Flat(items[k])).value, EvalOps(f, ty, st', now).value);
    }
  }

  lemma AgreedLoads(ty: Typing, items: seq<Item>, k: nat, st: State, st': State)
    requires NoDeepReader(items) && k < |items| && Inv(ty, items, k, st, st')
    requires !LoadOf(Matches(items), k) && !DeadStore(items, k)
    ensures LoadsAgree(st, st', Flat(items[k]))
  {
    hide NoDeepReader, RootsAgree, DeadStore, LoadOf, Matches, Flat, Reps;
    KeptLoads(ty, items, k, st, st');
  }

  lemma DeadSlot(items: seq<Item>, k: nat)
    requires k < |items| && DeadStore(items, k)
    ensures k < |ElidedSlots(items)| && ElidedSlots(items)[k].None?
  {
  }

  lemma NothingLeft<F>(f: Fpu<F>, ty: Typing, items: seq<Item>, st: State, st': State)
    requires |ElidedSlots(items)| == |items|
    ensures EvalOps(f, ty, st, Unroll(items[|items|..])) == Some(st)
    ensures EvalOps(f, ty, st', Unroll(Live(ElidedSlots(items)[|items|..]))) == Some(st')
  {
    hide ElidedSlots;
    assert items[|items|..] == [] && ElidedSlots(items)[|items|..] == [];
  }

  /* ---- the main results ---- */

  ghost predicate Returned(items: seq<Item>, r: Root) {
    exists k :: 0 <= k < |items| && items[k] == Leaf(ReturnOp(r))
  }

  /** A returned root is never dead. */
  lemma ReturnedAlive(items: seq<Item>, r: Root)
    requires Returned(items, r)
    ensures !DeadRoot(items, |items|, r)
  {
    hide Reps, DeadStore, Image, StoreKey;
    var k :| 0 <= k < |items| && items[k] == Leaf(ReturnOp(r));
    SlotForm(items, k);
    ReturnKept(items, k, r);
    ReturnIsUse(ElidedSlots(items), k, r);
    if DeadRoot(items, |items|, r) {
      var j: nat :| j < |items| && DeadStore(items, j) && StoreKey(items[j]) == Some(r);
      SlotForm(items, j);
    }
  }

  lemma ReturnIsUse(s: Slots, k: nat, r: Root)
    requires k < |s| && s[k] == Some(Leaf(ReturnOp(r)))
    ensures !Unread(s, r)
  {
    assert !AcceptedItem(s[k], r, false);
  }

  lemma ReturnKept(items: seq<Item>, k: nat, r: Root)
    requires k < |items| && items[k] == Leaf(ReturnOp(r))
    ensures !LoadOf(Matches(items), k) && !DeadStore(items, k)
    ensures MapItem(items[k], Reps(items)) == items[k]
  {
    hide ElidedSlots;
    SlotForm(items, k);
    if LoadOf(Matches(items), k) {
      var i :| 0 <= i < |Matches(items)| && Matches(items)[i].load == k;
      LoadsAre(items, i);
    }
  }

  /** What eliding copies must keep: if the original program runs, so does the elided one; every
      returned root ends with the same contents, and every buffer's contents are in its image. */
  ghost predicate Preserved<F>(f: Fpu<F>, ty: Typing, items: seq<Item>, st: State) {
    var s1, s2 := EvalOps(f, ty, st, Unroll(items)), EvalOps(f, ty, st, Unroll(Elide(items)));
    s1.Some? ==>
      && s2.Some? && (forall r | Returned(items, r) :: RootAgrees(s1.value, s2.value, r))
      && BufsRelated(ty, Reps(items), s1.value, s2.value)
  }

  /** Eliding copies preserves meaning, from fresh buffers, and keeps every root that is not dead. */
  lemma ElisionPreserves<F>(f: Fpu<F>, ty: Typing, items: seq<Item>, st: State)
    requires Disciplined(items) && NoDeepReader(items) && st.bufs == map[]
    requires EvalOps(f, ty, st, Unroll(items)).Some?
    ensures Preserved(f, ty, items, st)
    ensures RootsAgree(items, |items|, EvalOps(f, ty, st, Unroll(items)).value, EvalOps(f, ty, st, Unroll(Elide(items))).value)
  {
    hide Image, DeadStore, Reps, Unroll, Live, EvalOps, ElidedSlots, Disciplined, NoDeepReader, Matches, Returned, RootAgrees;
    SlotCount(items);
    assert items[0..] == items && ElidedSlots(items)[0..] == ElidedSlots(items);
    assert RootsAgree(items, 0, st, st) by { SameRoots(items, st); }
    assert AllKnown(ty, items, 0, st);
    Simulates(f, ty, items, 0, st, st);
    forall r | Returned(items, r)
      ensures !DeadRoot(items, |items|, r)
    {
      ReturnedAlive(items, r);
    }
  }

  lemma SlotCount(items: seq<Item>)
    ensures |ElidedSlots(items)| == |items|
  {
    StoresStay(items);
  }

  lemma SameRoots(items: seq<Item>, st: State)
    ensures RootsAgree(items, 0, st, st)
  {
  }

  /* ---- what a dead root reads as ---- */

  lemma {:induction false} LiveUnread(s: Slots, r: Root, x: nat)
    requires Unread(s, r) && x < |Unroll(Live(s))| && Unroll(Live(s))[x].Store?
    ensures ReachOf(Unroll(Live(s))[x].to, r) == Elsewhere || ReachOf(Unroll(Live(s))[x].to, r) == Deeper
    decreases |s|
  {
    hide ReachOf, Unroll;
    assert s != [] by { NoSlots(s); }
    assert s[0..] == s;
    LiveFrom(s, 0);
    var front := if s[0].Some? then Flat(s[0].value) else [];
    assert AcceptedItem(s[0], r, false);
    if x < |front| {
      AcceptedFlat(s[0].value, r, x);
    } else {
      assert forall k | 0 <= k < |s| - 1 :: s[1..][k] == s[k + 1];
      LiveUnread(s[1..], r, x - |front|);
    }
  }

  lemma NoSlots(s: Slots)
    ensures s == [] ==> Unroll(Live(s)) == []
  {
  }

  lemma AcceptedFlat(i: Item, r: Root, x: nat)
    requires AcceptedItem(Some(i), r, false) && x < |Flat(i)| && Flat(i)[x].Store?
    ensures ReachOf(Flat(i)[x].to, r) == Elsewhere || ReachOf(Flat(i)[x].to, r) == Deeper
  {
    hide ReachOf;
    match i
    case Leaf(op) =>
    case For(lb, ub, body) => AcceptedLoop(body, lb, ub, r, x);
  }

  lemma {:induction false} AcceptedLoop(body: seq<IrOp>, lb: nat, ub: nat, r: Root, x: nat)
    requires (forall k | 0 <= k < |body| :: AcceptedUse(body[k], r, false))
    requires x < |UnrollLoop(body, lb, ub)| && UnrollLoop(body, lb, ub)[x].Store?
    ensures ReachOf(UnrollLoop(body, lb, ub)[x].to, r) == Elsewhere || ReachOf(UnrollLoop(body, lb, ub)[x].to, r) == Deeper
    decreases ub
  {
    hide ReachOf;
    var front := UnrollLoop(body, lb, ub - 1);
    if x < |front| {
      AcceptedLoop(body, lb, ub - 1, r, x);
    } else {
      assert AcceptedUse(body[x - |front|], r, false);
      ReachAt(body[x - |front|].to, ub - 1, r);
    }
  }

  lemma {:induction false} ReachAt(v: View, iv: nat, r: Root)
    ensures ReachOf(ViewAt(v, iv), r) == ReachOf(v, r)
    decreases v
  {
    match v
    case Base(_) =>
    case CastOf(s) => ReachAt(s, iv, r);
    case SubOf(s, _, _, _, _) => ReachAt(s, iv, r);
  }

  /** A run that stores into `r` through no direct view leaves it alone. */
  lemma {:induction false} NotStored<F>(f: Fpu<F>, ty: Typing, st: State, ops: seq<IrOp>, r: Root)
    requires EvalOps(f, ty, st, ops).Some?
    requires forall x | 0 <= x < |ops| && ops[x].Store? :: StoredElsewhere(ops[x].to, r)
    ensures RootAgrees(st, EvalOps(f, ty, st, ops).value, r)
    decreases ops
  {
    hide EvalOp, StoredElsewhere, RootAgrees;
    if ops == [] {
      SelfAgrees(st, r);
    } else {
      OpLeavesRoot(f, ty, st, ops[0], r);
      NotStored(f, ty, EvalOp(f, ty, st, ops[0]).value, ops[1..], r);
      AgreesTrans(st, EvalOp(f, ty, st, ops[0]).value, EvalOps(f, ty, st, ops).value, r);
    }
  }

  predicate StoredElsewhere(v: View, r: Root) { ReachOf(v, r) == Elsewhere || ReachOf(v, r) == Deeper }

  lemma SelfAgrees(st: State, r: Root)
    ensures RootAgrees(st, st, r)
  {
  }

  lemma AgreesTrans(st: State, s1: State, s2: State, r: Root)
    requires RootAgrees(st, s1, r) && RootAgrees(s1, s2, r)
    ensures RootAgrees(st, s2, r)
  {
  }

  lemma OpLeavesRoot<F>(f: Fpu<F>, ty: Typing, st: State, op: IrOp, r: Root)
    requires EvalOp(f, ty, st, op).Some? && (op.Store? ==> StoredElsewhere(op.to, r))
    ensures RootAgrees(st, EvalOp(f, ty, st, op).value, r)
  {
    hide Elements, Value, Values, Read;
    if op.Store? {
      assert ReachOf(op.to, StoredRoot(op.to).value) == OneView by {
        assert ReachOf(op.to.source, StoredRoot(op.to).value) == Direct;
      }
    }
  }

  /** After elision a dead root is never stored to: whatever still reads it gets its initial contents.
      Together with ElisionPreserves this is the pass's exact guarantee for loads it kept. */
  lemma DeadRootIsStale<F>(f: Fpu<F>, ty: Typing, items: seq<Item>, st: State, r: Root)
    requires DeadRoot(items, |items|, r) && EvalOps(f, ty, st, Unroll(Elide(items))).Some?
    ensures RootAgrees(st, EvalOps(f, ty, st, Unroll(Elide(items))).value, r)
  {
    hide ElidedSlots, DeadStore, Unroll, Live, EvalOps, Unread, RootAgrees, ReachOf;
    var j: nat :| j < |items| && DeadStore(items, j) && StoreKey(items[j]) == Some(r);
    SlotForm(items, j);
    var ops := Unroll(Elide(items));
    forall x | 0 <= x < |ops| && ops[x].Store?
      ensures StoredElsewhere(ops[x].to, r)
    {
      LiveUnread(ElidedSlots(items), r, x);
    }
    NotStored(f, ty, st, ops, r);
  }
}
