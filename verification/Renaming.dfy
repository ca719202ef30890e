/** Operations whose buffers are renamed compute the same values. */
module Renaming {
  import opened Arithmetic
  import opened Types
  import opened Machine
  import opened EclipseIR
  import opened ElideCopies

  /** A list of replacements, applied in order. */
  type Replacements = seq<(Buf, Buf)>

  function Image(rs: Replacements, b: Buf): Buf
    decreases |rs|
  {
    if rs == [] then b else Image(rs[1..], Put(b, rs[0].0, rs[0].1))
  }

  function MapOp(op: IrOp, rs: Replacements): IrOp {
    match op
    case Load(v, b) => Load(v, Image(rs, b))
    case Store(b, v) => Store(Image(rs, b), v)
    case MatmulOp(l, r, d, acc, ta, tb) => MatmulOp(Image(rs, l), Image(rs, r), Image(rs, d), acc, ta, tb)
    case EwiseOp(k, l, r, d) => EwiseOp(k, Image(rs, l), Image(rs, r), Image(rs, d))
    case ActOp(k, a, d) => ActOp(k, Image(rs, a), Image(rs, d))
    case ReduceOp(k, a, d) => ReduceOp(k, Image(rs, a), Image(rs, d))
    case SyncOp => SyncOp
    case ReturnOp(r) => op
  }

  function MapOps(ops: seq<IrOp>, rs: Replacements): (r: seq<IrOp>)
    ensures |r| == |ops|
  {
    seq(|ops|, k requires 0 <= k < |ops| => MapOp(ops[k], rs))
  }

  function MapItem(i: Item, rs: Replacements): Item {
    match i
    case Leaf(op) => Leaf(MapOp(op, rs))
    case For(lb, ub, body) => For(lb, ub, MapOps(body, rs))
  }

  lemma MapOpStep(op: IrOp, rs: Replacements)
    requires rs != []
    ensures MapOp(RenameOp(op, rs[0].0, rs[0].1), rs[1..]) == MapOp(op, rs)
  {
  }

  lemma MapItemStep(i: Item, rs: Replacements)
    requires rs != []
    ensures MapItem(RenameItem(i, rs[0].0, rs[0].1), rs[1..]) == MapItem(i, rs)
  {
    hide MapOp, RenameOp;
    match i
    case Leaf(op) => MapOpStep(op, rs);
    case For(lb, ub, body) =>
      forall k | 0 <= k < |body|
        ensures MapOps(RenameOps(body, rs[0].0, rs[0].1), rs[1..])[k] == MapOps(body, rs)[k]
      {
        MapOpStep(body[k], rs);
      }
      assert MapOps(RenameOps(body, rs[0].0, rs[0].1), rs[1..]) == MapOps(body, rs);
  }

  lemma MapItemNone(i: Item)
    ensures MapItem(i, []) == i
  {
    match i
    case Leaf(op) =>
    case For(lb, ub, body) => assert MapOps(body, []) == body;
  }

  /* ---- the simulation relation on buffers ---- */

  /** The buffer an operation writes. */
  function Written(op: IrOp): Option<Buf> {
    match op
    case Load(_, b) => Some(b)
    case MatmulOp(_, _, d, _, _, _) => Some(d)
    case EwiseOp(_, _, _, d) => Some(d)
    case ActOp(_, _, d) => Some(d)
    case ReduceOp(_, _, d) => Some(d)
    case _ => None
  }

  function RootOf(v: View): Root {
    match v
    case Base(r) => r
    case CastOf(s) => RootOf(s)
    case SubOf(s, _, _, _, _) => RootOf(s)
  }

  lemma RootIs(r: Root)
    ensures RootOf(CastOf(Base(r))) == r
    ensures forall ro, co, rows, cols :: RootOf(SubOf(CastOf(Base(r)), ro, co, rows, cols)) == r
  {
    assert RootOf(Base(r)) == r;
    assert RootOf(CastOf(Base(r))) == r;
  }

  /** Every initialised buffer is matched by its image, of the same type and contents. */
  ghost predicate BufsRelated(ty: Typing, rs: Replacements, st: State, st': State) {
    forall b: nat | b in st.bufs :: BufRelated(ty, rs, st, st', b)
  }

  ghost predicate BufRelated(ty: Typing, rs: Replacements, st: State, st': State, b: Buf)
    requires b in st.bufs
  {
    && Image(rs, b) in st'.bufs && st'.bufs[Image(rs, b)] == st.bufs[b]
    && b < |ty.buf| && Image(rs, b) < |ty.buf| && ty.buf[Image(rs, b)] == ty.buf[b]
  }

  /** The operation writes only a buffer that stands for itself alone, and a product's operands are
      their own images. */
  ghost predicate Stands(rs: Replacements, st: State, op: IrOp) {
    && (Written(op).Some? ==>
        && Image(rs, Written(op).value) == Written(op).value
        && forall c: nat | c in st.bufs && Image(rs, c) == Written(op).value :: c == Written(op).value)
    && (op.MatmulOp? ==> Image(rs, op.lhs) == op.lhs && Image(rs, op.rhs) == op.rhs)
  }

  ghost predicate RootAgrees(st: State, st': State, r: Root) {
    (r in st'.roots <==> r in st.roots) && (r in st.roots ==> st'.roots[r] == st.roots[r])
  }

  lemma {:induction false} ReadAgrees(ty: Typing, st: State, st': State, v: View)
    requires RootAgrees(st, st', RootOf(v))
    ensures Read(ty, st', v) == Read(ty, st, v)
    decreases v
  {
    match v
    case Base(r) =>
    case CastOf(s) => ReadAgrees(ty, st, st', s);
    case SubOf(s, _, _, _, _) => ReadAgrees(ty, st, st', s);
  }

  /** Writing a buffer that stands for itself alone keeps the relation. */
  lemma WriteRelated(ty: Typing, rs: Replacements, st: State, st': State, d: Buf, t: Tensor)
    requires BufsRelated(ty, rs, st, st') && d < |ty.buf| && Image(rs, d) == d
    requires forall c: nat | c in st.bufs && Image(rs, c) == d :: c == d
    ensures BufsRelated(ty, rs, st.(bufs := st.bufs[d := t]), st'.(bufs := st'.bufs[d := t]))
  {
    hide Image;
    var s1, s2 := st.(bufs := st.bufs[d := t]), st'.(bufs := st'.bufs[d := t]);
    forall b: nat | b in s1.bufs
      ensures BufRelated(ty, rs, s1, s2, b)
    {
      assert b != d ==> BufRelated(ty, rs, st, st', b);
    }
  }

  predicate Computes(op: IrOp) { op.MatmulOp? || op.EwiseOp? || op.ActOp? || op.ReduceOp? }

  /** The mapped operation is well typed and reads the same elements. */
  lemma SameElements(ty: Typing, rs: Replacements, st: State, st': State, op: IrOp)
    requires BufsRelated(ty, rs, st, st') && Computes(op) && WellTyped(ty, op) && Elements(ty, st, op).Some?
    requires Stands(rs, st, op)
    ensures WellTyped(ty, MapOp(op, rs)) && Elements(ty, st', MapOp(op, rs)) == Elements(ty, st, op)
    ensures MapOp(op, rs).out == op.out
  {
    hide Image;
    match op
    case MatmulOp(l, r, d, acc, ta, tb) =>
      assert BufRelated(ty, rs, st, st', l) && BufRelated(ty, rs, st, st', r);
      assert acc ==> BufRelated(ty, rs, st, st', d);
      assert MapOp(op, rs) == op;
      SameProducts(ty, st, st', op);
    case EwiseOp(k, l, r, d) =>
      assert BufRelated(ty, rs, st, st', l) && BufRelated(ty, rs, st, st', r);
      assert Elements(ty, st', MapOp(op, rs)).value == Elements(ty, st, op).value;
    case ActOp(k, a, d) =>
      assert BufRelated(ty, rs, st, st', a);
      assert Elements(ty, st', MapOp(op, rs)).value == Elements(ty, st, op).value;
    case ReduceOp(k, a, d) =>
      assert BufRelated(ty, rs, st, st', a);
      assert Elements(ty, st', MapOp(op, rs)).value == Elements(ty, st, op).value;
  }

  lemma SameProducts(ty: Typing, st: State, st': State, op: IrOp)
    requires op.MatmulOp? && WellTyped(ty, op) && Elements(ty, st, op).Some?
    requires forall b | b in [op.lhs, op.rhs] + (if op.acc then [op.out] else []) ::
      b in st.bufs && b in st'.bufs && st'.bufs[b] == st.bufs[b]
    ensures Elements(ty, st', op) == Elements(ty, st, op)
  {
    hide MatmulElement;
    assert op.lhs in [op.lhs, op.rhs] + (if op.acc then [op.out] else []);
    assert op.rhs in [op.lhs, op.rhs] + (if op.acc then [op.out] else []);
    assert op.acc ==> op.out in [op.lhs, op.rhs] + (if op.acc then [op.out] else []);
    assert Elements(ty, st', op).value == Elements(ty, st, op).value;
  }

  /** One operation and its renamed form, on related states. */
  lemma OpRelated<F>(f: Fpu<F>, ty: Typing, rs: Replacements, st: State, st': State, op: IrOp)
    requires BufsRelated(ty, rs, st, st') && EvalOp(f, ty, st, op).Some? && Stands(rs, st, op)
    requires op.Load? ==> RootAgrees(st, st', RootOf(op.src))
    ensures var s1, s2 := EvalOp(f, ty, st, op).value, EvalOp(f, ty, st', MapOp(op, rs));
      && s2.Some? && BufsRelated(ty, rs, s1, s2.value)
      && (op.Store? ==>
          && StoredRoot(op.to).Some? && op.from in st.bufs
          && s1.roots == st.roots[StoredRoot(op.to).value := st.bufs[op.from]]
          && s2.value.roots == st'.roots[StoredRoot(op.to).value := st.bufs[op.from]])
      && (!op.Store? ==> s1.roots == st.roots && s2.value.roots == st'.roots)
  {
    hide Image, Elements, Values, Value, Read;
    match op
    case Load(v, b) => LoadRelated(f, ty, rs, st, st', op);
    case Store(b, v) => StoreRelated(f, ty, rs, st, st', op);
    case SyncOp =>
    case ReturnOp(_) =>
    case _ => ComputeRelated(f, ty, rs, st, st', op);
  }

  lemma LoadRelated<F>(f: Fpu<F>, ty: Typing, rs: Replacements, st: State, st': State, op: IrOp)
    requires op.Load? && BufsRelated(ty, rs, st, st') && EvalOp(f, ty, st, op).Some? && Stands(rs, st, op)
    requires RootAgrees(st, st', RootOf(op.src))
    ensures var s1, s2 := EvalOp(f, ty, st, op).value, EvalOp(f, ty, st', MapOp(op, rs));
      s2.Some? && BufsRelated(ty, rs, s1, s2.value) && s1.roots == st.roots && s2.value.roots == st'.roots
  {
    hide Image, Read, BufsRelated;
    ReadAgrees(ty, st, st', op.src);
    WriteRelated(ty, rs, st, st', op.dst, Read(ty, st, op.src).value);
  }

  lemma StoreRelated<F>(f: Fpu<F>, ty: Typing, rs: Replacements, st: State, st': State, op: IrOp)
    requires op.Store? && BufsRelated(ty, rs, st, st') && EvalOp(f, ty, st, op).Some?
    ensures var s1, s2 := EvalOp(f, ty, st, op).value, EvalOp(f, ty, st', MapOp(op, rs));
      && s2.Some? && BufsRelated(ty, rs, s1, s2.value) && StoredRoot(op.to).Some? && op.from in st.bufs
      && s1.roots == st.roots[StoredRoot(op.to).value := st.bufs[op.from]]
      && s2.value.roots == st'.roots[StoredRoot(op.to).value := st.bufs[op.from]]
  {
    hide Image, ViewShape, StoredRoot;
    assert BufRelated(ty, rs, st, st', op.from);
    RelatedSameBufs(ty, rs, st, st', EvalOp(f, ty, st, op).value, EvalOp(f, ty, st', MapOp(op, rs)).value);
  }

  lemma ComputeRelated<F>(f: Fpu<F>, ty: Typing, rs: Replacements, st: State, st': State, op: IrOp)
    requires Computes(op) && BufsRelated(ty, rs, st, st') && EvalOp(f, ty, st, op).Some? && Stands(rs, st, op)
    ensures var s1, s2 := EvalOp(f, ty, st, op).value, EvalOp(f, ty, st', MapOp(op, rs));
      s2.Some? && BufsRelated(ty, rs, s1, s2.value) && s1.roots == st.roots && s2.value.roots == st'.roots
  {
    hide Image, Elements, Values, Value, BufsRelated;
    SameElements(ty, rs, st, st', op);
    WriteRelated(ty, rs, st, st', op.out, Values(f, Elements(ty, st, op).value));
  }

  lemma RelatedSameBufs(ty: Typing, rs: Replacements, st: State, st': State, s1: State, s2: State)
    requires BufsRelated(ty, rs, st, st') && s1.bufs == st.bufs && s2.bufs == st'.bufs
    ensures BufsRelated(ty, rs, s1, s2)
  {
    hide Image;
    forall b: nat | b in s1.bufs
      ensures BufRelated(ty, rs, s1, s2, b)
    {
      assert BufRelated(ty, rs, st, st', b);
    }
  }
}
