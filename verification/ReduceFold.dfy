/** What MAX and ARGMAX compute over a row, in whatever order the row is combined. */
module ReduceFold {
  import opened Arithmetic
  import opened Types
  import opened Machine
  import opened Rounding
  import opened RoundingCorrect

  /* ---- the comparison ---- */

  /** IEEE comparison: NaN compares with nothing, the other values are totally ordered up to
      equality, and equal values are the same except for the two zeros. */
  ghost predicate Ordered<F(!new)>(f: Fpu<F>) {
    && f.isNaN(f.nan) && !f.isNaN(f.zero)
    && (forall x, y :: Compared(f, x, y))
    && (forall x, y, z {:trigger f.gt(x, y), f.gt(y, z)} | !f.isNaN(x) && !f.isNaN(y) && !f.isNaN(z) ::
          !f.gt(x, y) && !f.gt(y, z) ==> !f.gt(x, z))
  }

  ghost predicate Compared<F(!new)>(f: Fpu<F>, x: F, y: F) {
    && (f.isNaN(x) || f.isNaN(y) ==> !f.gt(x, y) && !f.eq(x, y))
    && (!f.isNaN(x) && !f.isNaN(y) ==>
        && (f.eq(x, y) <==> !f.gt(x, y) && !f.gt(y, x)) && !(f.gt(x, y) && f.gt(y, x))
        && (f.eq(x, y) && (!f.eq(x, f.zero) || f.signbit(x) == f.signbit(y)) ==> x == y))
  }

  /* ---- the meaning ---- */

  ghost predicate NaNIn<F(!new)>(f: Fpu<F>, vs: seq<F>, lo: nat, hi: nat)
    requires hi <= |vs|
  {
    exists i :: lo <= i < hi && f.isNaN(vs[i])
  }

  /** `v` is the numeric maximum of vs[lo..hi), +0 rather than -0 if both occur; NaN if there is one
      (a single element is not canonicalised). */
  ghost predicate IsTop<F(!new)>(f: Fpu<F>, vs: seq<F>, lo: nat, hi: nat, v: F)
    requires lo < hi <= |vs|
  {
    if NaNIn(f, vs, lo, hi) then v == (if hi == lo + 1 then vs[lo] else f.nan)
    else
      && (exists i :: lo <= i < hi && vs[i] == v)
      && (forall i | lo <= i < hi :: !f.gt(vs[i], v))
      && (f.eq(v, f.zero) && f.signbit(v) ==> forall i | lo <= i < hi && f.eq(vs[i], f.zero) :: f.signbit(vs[i]))
  }

  /** `k` is the first NaN of vs[lo..hi), or the first element numerically equal to `v`. */
  ghost predicate IsFirst<F(!new)>(f: Fpu<F>, vs: seq<F>, lo: nat, hi: nat, v: F, k: nat)
    requires lo < hi <= |vs|
  {
    && lo <= k < hi
    && if NaNIn(f, vs, lo, hi) then f.isNaN(vs[k]) && forall i | lo <= i < k :: !f.isNaN(vs[i])
       else f.eq(vs[k], v) && forall i | lo <= i < k :: !f.eq(vs[i], v)
  }

  lemma NaNJoin<F(!new)>(f: Fpu<F>, vs: seq<F>, lo: nat, mid: nat, hi: nat)
    requires lo < mid < hi <= |vs|
    ensures NaNIn(f, vs, lo, hi) <==> NaNIn(f, vs, lo, mid) || NaNIn(f, vs, mid, hi)
  {
  }

  /** The value of a range with a NaN is a NaN, of a range without is not. */
  lemma TopNaN<F(!new)>(f: Fpu<F>, vs: seq<F>, lo: nat, hi: nat, v: F)
    requires Ordered(f) && lo < hi <= |vs| && IsTop(f, vs, lo, hi, v)
    ensures f.isNaN(v) <==> NaNIn(f, vs, lo, hi)
  {
    if NaNIn(f, vs, lo, hi) {
      var i :| lo <= i < hi && f.isNaN(vs[i]);
    }
  }

  /** Combining neighbouring ranges. */
  lemma TopJoin<F(!new)>(f: Fpu<F>, vs: seq<F>, lo: nat, mid: nat, hi: nat, a: F, b: F)
    requires Ordered(f) && lo < mid < hi <= |vs| && IsTop(f, vs, lo, mid, a) && IsTop(f, vs, mid, hi, b)
    ensures IsTop(f, vs, lo, hi, ReduceMax(f, a, b))
  {
    NaNJoin(f, vs, lo, mid, hi);
    TopNaN(f, vs, lo, mid, a);
    TopNaN(f, vs, mid, hi, b);
    if !NaNIn(f, vs, lo, hi) {
      var v := ReduceMax(f, a, b);
      assert Compared(f, a, b);
      var i :| lo <= i < mid && vs[i] == a;
      var j :| mid <= j < hi && vs[j] == b;
      assert vs[i] == v || vs[j] == v;
      forall k | lo <= k < hi
        ensures !f.gt(vs[k], v)
        ensures f.eq(v, f.zero) && f.signbit(v) && f.eq(vs[k], f.zero) ==> f.signbit(vs[k])
      {
        BelowBoth(f, vs[k], if k < mid then a else b, v);
        assert Compared(f, a, f.zero) && Compared(f, b, f.zero) && Compared(f, vs[k], f.zero);
        assert Compared(f, v, f.zero);
        assert k < mid ==> !f.gt(vs[k], a);
        assert k >= mid ==> !f.gt(vs[k], b);
      }
    }
  }

  lemma BelowBoth<F(!new)>(f: Fpu<F>, x: F, y: F, v: F)
    requires Ordered(f) && !f.isNaN(x) && !f.isNaN(y) && !f.isNaN(v)
    ensures !f.gt(x, y) && !f.gt(y, v) ==> !f.gt(x, v)
  {
  }

  lemma EqTransitive<F(!new)>(f: Fpu<F>, x: F, y: F, z: F)
    requires Ordered(f) && !f.isNaN(x) && !f.isNaN(y) && !f.isNaN(z) && f.eq(y, z)
    ensures f.eq(x, y) <==> f.eq(x, z)
    ensures f.eq(z, y)
  {
    assert Compared(f, x, y) && Compared(f, y, z) && Compared(f, x, z) && Compared(f, z, y);
    BelowBoth(f, x, y, z);
    BelowBoth(f, z, y, x);
    BelowBoth(f, x, z, y);
    BelowBoth(f, y, z, x);
  }

  lemma FirstJoin<F(!new)>(f: Fpu<F>, vs: seq<F>, lo: nat, mid: nat, hi: nat, a: ValueIndex<F>, b: ValueIndex<F>)
    requires Ordered(f) && lo < mid < hi <= |vs|
    requires IsTop(f, vs, lo, mid, a.value) && IsTop(f, vs, mid, hi, b.value)
    requires IsFirst(f, vs, lo, mid, a.value, a.index) && IsFirst(f, vs, mid, hi, b.value, b.index)
    ensures IsFirst(f, vs, lo, hi, ReduceMax(f, a.value, b.value), ReduceArgmax(f, a, b).index)
    ensures ReduceArgmax(f, a, b).value == ReduceMax(f, a.value, b.value)
  {
    NaNJoin(f, vs, lo, mid, hi);
    TopNaN(f, vs, lo, mid, a.value);
    TopNaN(f, vs, mid, hi, b.value);
    var v := ReduceMax(f, a.value, b.value);
    TopJoin(f, vs, lo, mid, hi, a.value, b.value);
    TopNaN(f, vs, lo, hi, v);
    if !NaNIn(f, vs, lo, hi) {
      if f.eq(a.value, v) {
        forall i | lo <= i < mid
          ensures f.eq(vs[i], a.value) <==> f.eq(vs[i], v)
        {
          EqTransitive(f, vs[i], a.value, v);
        }
      } else {
        LeftIsBelow(f, vs, lo, mid, a.value, b.value);
      }
    }
  }

  /** When the left value loses, no left element equals the winner. */
  lemma LeftIsBelow<F(!new)>(f: Fpu<F>, vs: seq<F>, lo: nat, mid: nat, a: F, b: F)
    requires Ordered(f) && lo < mid <= |vs| && !NaNIn(f, vs, lo, mid) && IsTop(f, vs, lo, mid, a)
    requires !f.isNaN(a) && !f.isNaN(b) && !f.eq(a, ReduceMax(f, a, b))
    ensures ReduceMax(f, a, b) == b && forall i | lo <= i < mid :: !f.eq(vs[i], b)
  {
    assert Compared(f, a, b) && Compared(f, a, a) && Compared(f, a, f.zero) && Compared(f, b, f.zero);
    forall i | lo <= i < mid
      ensures !f.eq(vs[i], b)
    {
      assert Compared(f, vs[i], b);
      BelowBoth(f, b, vs[i], a);
    }
  }

  /* ---- the folds ---- */

  lemma OneElement<F(!new)>(f: Fpu<F>, vs: seq<F>, i: nat)
    requires Ordered(f) && i < |vs|
    ensures IsTop(f, vs, i, i + 1, vs[i]) && IsFirst(f, vs, i, i + 1, vs[i], i)
  {
    assert Compared(f, vs[i], vs[i]);
  }

  /** MAX and ARGMAX of a row: the same value, which is the row's top, and the index of its first
      occurrence. */
  lemma {:induction false} FoldMeaning<F(!new)>(f: Fpu<F>, xs: seq<Word>, n: nat)
    requires Ordered(f) && 1 <= n <= |xs|
    ensures IsTop(f, Decoded(f, xs), 0, n, MaxOf(f, xs, n))
    ensures ArgmaxOf(f, xs, n).value == MaxOf(f, xs, n)
    ensures IsFirst(f, Decoded(f, xs), 0, n, MaxOf(f, xs, n), ArgmaxOf(f, xs, n).index)
    decreases n
  {
    hide Ordered, IsTop, IsFirst, ReduceMax, ReduceArgmax;
    var vs := Decoded(f, xs);
    OneElement(f, vs, n - 1);
    if n > 1 {
      FoldMeaning(f, xs, n - 1);
      TopJoin(f, vs, 0, n - 1, n, MaxOf(f, xs, n - 1), vs[n - 1]);
      FirstJoin(f, vs, 0, n - 1, n, ArgmaxOf(f, xs, n - 1), ValueIndex(vs[n - 1], n - 1));
    }
  }

  /** The meaning determines value and index. */
  lemma TopUnique<F(!new)>(f: Fpu<F>, vs: seq<F>, lo: nat, hi: nat, v: F, w: F)
    requires Ordered(f) && lo < hi <= |vs| && IsTop(f, vs, lo, hi, v) && IsTop(f, vs, lo, hi, w)
    ensures v == w
  {
    TopNaN(f, vs, lo, hi, v);
    TopNaN(f, vs, lo, hi, w);
    if !NaNIn(f, vs, lo, hi) {
      var i :| lo <= i < hi && vs[i] == v;
      var j :| lo <= j < hi && vs[j] == w;
      assert !f.gt(v, w) && !f.gt(w, v);
      assert Compared(f, v, w) && Compared(f, v, f.zero) && Compared(f, w, f.zero);
      EqTransitive(f, f.zero, v, w);
      assert Compared(f, f.zero, v) && Compared(f, f.zero, w);
    }
  }

  lemma FirstUnique<F(!new)>(f: Fpu<F>, vs: seq<F>, lo: nat, hi: nat, v: F, j: nat, k: nat)
    requires lo < hi <= |vs| && IsFirst(f, vs, lo, hi, v, j) && IsFirst(f, vs, lo, hi, v, k)
    ensures j == k
  {
  }

  /* ---- any tree ---- */

  /** A way to combine a row: one element, or two neighbouring parts. */
  datatype Tree = Tip(index: nat) | Join(left: Tree, right: Tree)

  /** The tree combines exactly the elements lo..hi, in order. */
  ghost predicate Spans(t: Tree, lo: nat, hi: nat) {
    match t
    case Tip(i) => lo == i && hi == i + 1
    case Join(l, r) => exists mid: nat :: lo < mid < hi && Spans(l, lo, mid) && Spans(r, mid, hi)
  }

  function Combined<F>(f: Fpu<F>, vs: seq<F>, t: Tree): Option<ValueIndex<F>> {
    match t
    case Tip(i) => if i < |vs| then Some(ValueIndex(vs[i], i)) else None
    case Join(l, r) =>
      var a, b := Combined(f, vs, l), Combined(f, vs, r);
      if a.Some? && b.Some? then Some(ReduceArgmax(f, a.value, b.value)) else None
  }

  lemma {:induction false} TreeMeaning<F(!new)>(f: Fpu<F>, vs: seq<F>, t: Tree, lo: nat, hi: nat)
    requires Ordered(f) && Spans(t, lo, hi) && lo < hi <= |vs|
    ensures Combined(f, vs, t).Some?
    ensures IsTop(f, vs, lo, hi, Combined(f, vs, t).value.value)
    ensures IsFirst(f, vs, lo, hi, Combined(f, vs, t).value.value, Combined(f, vs, t).value.index)
    decreases t
  {
    hide Ordered, IsTop, IsFirst, ReduceMax, ReduceArgmax;
    match t
    case Tip(i) => OneElement(f, vs, i);
    case Join(l, r) =>
      var mid: nat :| lo < mid < hi && Spans(l, lo, mid) && Spans(r, mid, hi);
      TreeMeaning(f, vs, l, lo, mid);
      TreeMeaning(f, vs, r, mid, hi);
      var a, b := Combined(f, vs, l).value, Combined(f, vs, r).value;
      TopJoin(f, vs, lo, mid, hi, a.value, b.value);
      FirstJoin(f, vs, lo, mid, hi, a, b);
  }

  /** Any tree over the row gives exactly what the sequential fold gives. */
  lemma TreeIsFold<F(!new)>(f: Fpu<F>, xs: seq<Word>, t: Tree)
    requires Ordered(f) && xs != [] && Spans(t, 0, |xs|)
    ensures Combined(f, Decoded(f, xs), t) == Some(ArgmaxOf(f, xs, |xs|))
  {
    hide Ordered, IsTop, IsFirst, Combined, ArgmaxOf, MaxOf, Spans;
    var vs, n := Decoded(f, xs), |xs|;
    FoldMeaning(f, xs, n);
    TreeMeaning(f, vs, t, 0, n);
    var a := Combined(f, vs, t).value;
    TopUnique(f, vs, 0, n, a.value, MaxOf(f, xs, n));
    FirstUnique(f, vs, 0, n, a.value, a.index, ArgmaxOf(f, xs, n).index);
  }

  /* ---- what is stored ---- */

  /** A stored 32-bit index. */
  function Joined(low: Word, high: Word): nat {
    var l: int, h: int := low, high;
    l + 0x1_0000 * h
  }

  /** REDUCE with kind MAX and with kind ARGMAX store the same value word, and ARGMAX's two index
      words are the index of the first occurrence. */
  lemma StoredAgree<F(!new)>(f: Fpu<F>, xs: seq<Word>)
    requires Ordered(f) && 0 < |xs| < TWO_32
    ensures var mx, am := Eval(f, Fold(MaxKind), xs), Eval(f, Fold(Argmax), xs);
      && mx.Some? && am.Some? && |mx.value| == 1 && |am.value| == 3 && am.value[0] == mx.value[0]
      && Joined(am.value[1], am.value[2]) == ArgmaxOf(f, xs, |xs|).index
      && IsFirst(f, Decoded(f, xs), 0, |xs|, MaxOf(f, xs, |xs|), Joined(am.value[1], am.value[2]))
  {
    hide Ordered, IsTop, MaxOf, ArgmaxOf;
    FoldMeaning(f, xs, |xs|);
  }

  /* ---- IEEE single precision is such an order ---- */

  predicate Greater32(x: Dword, y: Dword) { !IsNaN32(x) && !IsNaN32(y) && Signed32(x) > Signed32(y) }

  predicate Equal32(x: Dword, y: Dword) { !IsNaN32(x) && !IsNaN32(y) && Signed32(x) == Signed32(y) }

  /** The comparisons of `f` are those of fp32 bit patterns. */
  ghost predicate Ieee(f: Fpu<Dword>) {
    && f.zero == 0 && IsNaN32(f.nan)
    && (forall x :: f.isNaN(x) == IsNaN32(x))
    && (forall x :: f.signbit(x) == (Sign32(x) == 1))
    && (forall x, y :: f.gt(x, y) == Greater32(x, y))
    && (forall x, y :: f.eq(x, y) == Equal32(x, y))
  }

  lemma MagBounds(x: Dword)
    ensures Exp32(x) > 0 ==> Pow2(22 + Exp32(x)) <= Mag32(x)
    ensures Mag32(x) < Pow2(23 + Exp32(x))
  {
    hide Exp32, Man32, Pow2;
    SmallPowers();
    var e, m := Exp32(x), Man32(x);
    if e > 0 {
      Pow2Add(23, e - 1);
      Pow2Add(24, e - 1);
      MulMonotone(Pow2(e - 1), Pow2(23), 0x80_0000 + m);
      StrictlyBelow(0x80_0000 + m, Pow2(24), Pow2(e - 1));
    }
  }

  /** Equal magnitudes have equal fields. */
  lemma MagInjective(x: Dword, y: Dword)
    requires Mag32(x) == Mag32(y)
    ensures Exp32(x) == Exp32(y) && Man32(x) == Man32(y)
  {
    hide Exp32, Man32, Pow2;
    MagBounds(x);
    MagBounds(y);
    var ex, ey := Exp32(x), Exp32(y);
    if ex < ey {
      Pow2Monotone(23 + ex, 22 + ey);
    } else if ey < ex {
      Pow2Monotone(23 + ey, 22 + ex);
    } else if ex > 0 {
      Compare3(0x80_0000 + Man32(x), 0x80_0000 + Man32(y), Pow2(ex - 1));
    }
  }

  lemma Compare3(a: int, b: int, W: nat)
    requires W > 0 && a * W == b * W
    ensures a == b
  {
    if a < b { StrictlyBelow(a, b, W); }
    if b < a { StrictlyBelow(b, a, W); }
  }

  lemma FieldsDetermine(x: Dword, y: Dword)
    requires Sign32(x) == Sign32(y) && Exp32(x) == Exp32(y) && Man32(x) == Man32(y)
    ensures x == y
  {
    Recompose(x);
    Recompose(y);
  }

  lemma Recompose(x: Dword)
    ensures Sign32(x) < 2 && x == Sign32(x) * 0x8000_0000 + Exp32(x) * 0x80_0000 + Man32(x)
  {
  }

  lemma IeeeCompared(f: Fpu<Dword>, x: Dword, y: Dword)
    requires Ieee(f)
    ensures Compared(f, x, y)
  {
    hide Exp32, Man32, Sign32, Mag32, IsNaN32;
    Recompose(x);
    Recompose(y);
    if f.eq(x, y) && (!f.eq(x, f.zero) || f.signbit(x) == f.signbit(y)) {
      ZeroMag();
      assert Mag32(x) == Mag32(y);
      MagInjective(x, y);
      FieldsDetermine(x, y);
    }
  }

  lemma ZeroMag()
    ensures Mag32(0) == 0 && Sign32(0) == 0 && !IsNaN32(0)
  {
    ZeroFields();
    hide Pow2, Exp32, Man32, Sign32;
  }

  lemma ZeroFields()
    ensures Exp32(0) == 0 && Man32(0) == 0 && Sign32(0) == 0
  {
  }

  /** So the results above hold of the machine's own comparisons. */
  lemma IeeeOrdered(f: Fpu<Dword>)
    requires Ieee(f)
    ensures Ordered(f)
  {
    hide Exp32, Man32, Sign32, Mag32, IsNaN32, Compared;
    forall x, y
      ensures Compared(f, x, y)
    {
      IeeeCompared(f, x, y);
    }
    ZeroMag();
  }
}
