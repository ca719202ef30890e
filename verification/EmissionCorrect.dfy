/** The emitted instructions do on the machine what the IR operations do on tensors. */
module EmissionCorrect {
  import opened Arithmetic
  import opened Types
  import opened Machine
  import opened EclipseIR
  import opened Emission
  import opened StepValues
  import Commutation
  import Footprints

  /* ---- tensors in memory ---- */

  /** The packed words of `t` start at `base`. */
  ghost predicate Holds(m: Mem, base: int, t: Tensor) { Fetch(m, Row(base, |t|)) == t }

  /** Memory `m` stores the IR state: every root in its DDR slot, every initialised buffer at its
      SRAM address. */
  ghost predicate Sim(m: Mem, ty: Typing, st: State) {
    && Full(m)
    && (forall r: nat :: r in st.roots <==> r < |ty.root|)
    && (forall b: nat :: b in st.bufs ==> b < |ty.buf|)
    && (forall r: nat | r < |ty.root| :: |st.roots[r]| == Size(ty.root[r]) && Holds(m, DdrAddr(r), st.roots[r]))
    && (forall b: nat | b in st.bufs :: |st.bufs[b]| == Size(ty.buf[b]) && Holds(m, Place(ty).sram[b], st.bufs[b]))
  }

  /** Byte ranges of `n` and `k` words that do not meet. */
  predicate RangesApart(a: int, n: nat, b: int, k: nat) { a + 2 * n <= b || b + 2 * k <= a }

  lemma RowsApart(a: int, n: nat, b: int, k: nat)
    requires RangesApart(a, n, b, k)
    ensures AllApart(Row(a, n), Row(b, k))
  {
  }

  lemma PartApart(xs: seq<int>, a: int, n: nat, ys: seq<int>, b: int, k: nat)
    requires RangesApart(a, n, b, k)
    requires forall x | x in xs :: a <= x && x + 2 <= a + 2 * n
    requires forall y | y in ys :: b <= y && y + 2 <= b + 2 * k
    ensures AllApart(xs, ys)
  {
  }

  lemma {:induction false} StepsKeepFull<F>(f: Fpu<F>, m: Mem, steps: seq<Step>)
    requires Full(m) && DoSteps(f, m, steps).Some?
    ensures Full(DoSteps(f, m, steps).value)
    decreases steps
  {
    hide Full, Eval;
    if steps != [] {
      var front, s := steps[..|steps| - 1], steps[|steps| - 1];
      StepsKeepFull(f, m, front);
      var m1 := DoSteps(f, m, front).value;
      Commutation.StoreKeepsFull(m1, s.dsts, Eval(f, s.op, Fetch(m1, s.srcs)).value, s.to);
    }
  }

  /* ---- one word per step ---- */

  ghost predicate Computes<F>(f: Fpu<F>, m: Mem, steps: seq<Step>, xs: seq<Element>, base: int) {
    && |steps| == |xs|
    && forall e | 0 <= e < |xs| ::
        && steps[e].op == xs[e].op && steps[e].dsts == [base + 2 * e]
        && Reachable(steps[e].from, steps[e].srcs) && Reachable(steps[e].to, steps[e].dsts)
        && Fetch(m, steps[e].srcs) == xs[e].inputs && Value(f, xs[e]).Some?
        && forall k | 0 <= k < e :: AllApart([base + 2 * k], steps[e].srcs)
  }

  lemma ComputesResult<F>(f: Fpu<F>, m: Mem, steps: seq<Step>, xs: seq<Element>, base: int)
    requires Full(m) && Computes(f, m, steps, xs, base)
    ensures DoSteps(f, m, steps).Some? && Full(DoSteps(f, m, steps).value)
    ensures Holds(DoSteps(f, m, steps).value, base, Values(f, xs))
    ensures forall b: int, n: nat {:trigger Row(b, n)} | RangesApart(base, |xs|, b, n) ::
      Fetch(DoSteps(f, m, steps).value, Row(b, n)) == Fetch(m, Row(b, n))
  {
    hide Eval, Reachable, Fetch, Full;
    forall k | 0 <= k < |steps|
      ensures Works(f, m, steps[k]) && SelfApart(steps[k].dsts)
    {
    }
    forall k, l | 0 <= k < l < |steps|
      ensures AllApart(steps[k].dsts, steps[l].srcs) && AllApart(steps[k].dsts, steps[l].dsts)
    {
    }
    OrderlyResult(f, m, steps);
    StepsKeepFull(f, m, steps);
    var m' := DoSteps(f, m, steps).value;
    WordByWord(f, m', steps, xs, base);
    forall b: int, n: nat {:trigger Row(b, n)} | RangesApart(base, |xs|, b, n)
      ensures Fetch(m', Row(b, n)) == Fetch(m, Row(b, n))
    {
      forall k | 0 <= k < |steps|
        ensures AllApart(steps[k].dsts, Row(b, n))
      {
        PartApart(steps[k].dsts, base, |xs|, Row(b, n), b, n);
      }
    }
  }

  lemma WordByWord<F>(f: Fpu<F>, m: Mem, steps: seq<Step>, xs: seq<Element>, base: int)
    requires |steps| == |xs| && forall e | 0 <= e < |xs| :: Value(f, xs[e]).Some?
    requires forall e | 0 <= e < |xs| ::
      steps[e].dsts == [base + 2 * e] && Eval(f, xs[e].op, xs[e].inputs) == Some(Fetch(m, steps[e].dsts))
    ensures Holds(m, base, Values(f, xs))
  {
    hide Eval, Load16;
    forall e | 0 <= e < |xs|
      ensures Fetch(m, Row(base, |xs|))[e] == Values(f, xs)[e]
    {
      assert Fetch(m, steps[e].dsts)[0] == Load16(m, base + 2 * e);
    }
  }

  /* ---- row copies ---- */

  /** Rows of `cols` words copied from a pitched source to a packed destination. */
  ghost predicate Copies(steps: seq<Step>, from: Space, to: Space, rows: nat, cols: nat, src: int, pitch: nat, dst: int) {
    && |steps| == rows && from != to
    && forall i | 0 <= i < rows ::
        && steps[i] == Step(Copy, from, Row(src + pitch * i, cols), to, Row(dst + 2 * (i * cols), cols))
        && Reachable(from, steps[i].srcs) && Reachable(to, steps[i].dsts)
  }

  /** The pitched source holds the row-major tensor `t`. */
  ghost predicate SourceIs(m: Mem, t: Tensor, rows: nat, cols: nat, src: int, pitch: nat) {
    && |t| == rows * cols
    && forall i: nat, j: nat | i < rows && j < cols :: SourceWord(m, t, i, j, cols, src, pitch)
  }

  ghost predicate SourceWord(m: Mem, t: Tensor, i: nat, j: nat, cols: nat, src: int, pitch: nat) {
    0 <= i * cols + j < |t| && Load16(m, src + pitch * i + 2 * j) == t[i * cols + j]
  }

  lemma OtherSpaceApart(s: Space, t: Space, xs: seq<int>, ys: seq<int>)
    requires s != t && Reachable(s, xs) && Reachable(t, ys)
    ensures AllApart(xs, ys)
  {
  }

  lemma LaterRow(i: nat, l: nat, cols: nat)
    requires i < l
    ensures i * cols + cols <= l * cols && 0 <= i * cols
  {
    MulMonotone(cols, i + 1, l);
    MulMonotone(cols, 0, i);
  }

  lemma CopiesResult<F>(f: Fpu<F>, m: Mem, steps: seq<Step>, from: Space, to: Space, rows: nat, cols: nat,
                        src: int, pitch: nat, dst: int, t: Tensor)
    requires Full(m) && Copies(steps, from, to, rows, cols, src, pitch, dst)
    requires SourceIs(m, t, rows, cols, src, pitch)
    ensures DoSteps(f, m, steps).Some? && Full(DoSteps(f, m, steps).value)
    ensures Holds(DoSteps(f, m, steps).value, dst, t)
    ensures forall b: int, n: nat {:trigger Row(b, n)} | RangesApart(dst, rows * cols, b, n) ::
      Fetch(DoSteps(f, m, steps).value, Row(b, n)) == Fetch(m, Row(b, n))
  {
    hide Reachable, Full, Load16, Eval, AllApart, SelfApart, SourceIs;
    CopiesOrderly(f, m, steps, from, to, rows, cols, src, pitch, dst);
    OrderlyResult(f, m, steps);
    StepsKeepFull(f, m, steps);
    var m' := DoSteps(f, m, steps).value;
    CopiedTensor(f, m, m', steps, from, to, rows, cols, src, pitch, dst, t);
    forall b: int, n: nat {:trigger Row(b, n)} | RangesApart(dst, rows * cols, b, n)
      ensures Fetch(m', Row(b, n)) == Fetch(m, Row(b, n))
    {
      forall k | 0 <= k < |steps|
        ensures AllApart(steps[k].dsts, Row(b, n))
      {
        LaterRow(k, rows, cols);
        RowsApart(dst + 2 * (k * cols), cols, b, n);
      }
    }
  }

  lemma RowSelfApart(base: int, n: nat)
    ensures SelfApart(Row(base, n))
  {
  }

  lemma CopyWorks<F>(f: Fpu<F>, m: Mem, s: Step)
    requires s.op == Copy && |s.srcs| == |s.dsts| && Reachable(s.from, s.srcs) && Reachable(s.to, s.dsts)
    ensures Works(f, m, s)
  {
  }

  lemma CopiesOrderly<F>(f: Fpu<F>, m: Mem, steps: seq<Step>, from: Space, to: Space, rows: nat, cols: nat,
                         src: int, pitch: nat, dst: int)
    requires Copies(steps, from, to, rows, cols, src, pitch, dst)
    ensures Orderly(steps) && forall k | 0 <= k < |steps| :: Works(f, m, steps[k])
  {
    hide Reachable, Works, AllApart, SelfApart;
    forall k | 0 <= k < |steps|
      ensures Works(f, m, steps[k]) && SelfApart(steps[k].dsts)
    {
      CopyWorks(f, m, steps[k]);
      RowSelfApart(dst + 2 * (k * cols), cols);
    }
    forall k, l | 0 <= k < l < |steps|
      ensures AllApart(steps[k].dsts, steps[l].srcs) && AllApart(steps[k].dsts, steps[l].dsts)
    {
      OtherSpaceApart(to, from, steps[k].dsts, steps[l].srcs);
      LaterRow(k, l, cols);
      RowsApart(dst + 2 * (k * cols), cols, dst + 2 * (l * cols), cols);
    }
  }

  lemma CopiedTensor<F>(f: Fpu<F>, m: Mem, m': Mem, steps: seq<Step>, from: Space, to: Space, rows: nat, cols: nat,
                        src: int, pitch: nat, dst: int, t: Tensor)
    requires Copies(steps, from, to, rows, cols, src, pitch, dst) && SourceIs(m, t, rows, cols, src, pitch)
    requires forall k | 0 <= k < rows ::
      Eval(f, steps[k].op, Fetch(m, steps[k].srcs)) == Some(Fetch(m', steps[k].dsts))
    ensures Holds(m', dst, t)
  {
    hide Reachable, Load16;
    forall e | 0 <= e < rows * cols
      ensures Fetch(m', Row(dst, rows * cols))[e] == t[e]
    {
      PositiveFactors(rows, cols);
      RowOf(e, rows, cols);
      var i, j := e / cols, e % cols;
      assert e == i * cols + j;
      assert SourceWord(m, t, i, j, cols, src, pitch);
      assert Fetch(m, steps[i].srcs)[j] == Load16(m, src + pitch * i + 2 * j);
      assert Fetch(m', steps[i].dsts)[j] == Load16(m', dst + 2 * (i * cols) + 2 * j);
    }
  }
}
