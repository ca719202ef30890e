/** What an instruction leaves in memory when its steps do not get in each other's way. */
module StepValues {
  import opened Types
  import opened Machine
  import opened Footprints
  import opened Commutation

  /** Two words without a byte in common. */
  predicate Apart(a: int, b: int) { a + 1 < b || b + 1 < a }

  ghost predicate AllApart(xs: seq<int>, ys: seq<int>) { forall x, y | x in xs && y in ys :: Apart(x, y) }

  ghost predicate SelfApart(xs: seq<int>) { forall i, j | 0 <= i < j < |xs| :: Apart(xs[i], xs[j]) }

  /** No step stores into what a later step reads or stores. */
  ghost predicate Orderly(steps: seq<Step>) {
    && (forall k | 0 <= k < |steps| :: SelfApart(steps[k].dsts))
    && forall k, l | 0 <= k < l < |steps| ::
        AllApart(steps[k].dsts, steps[l].srcs) && AllApart(steps[k].dsts, steps[l].dsts)
  }

  /** The step is in range and evaluates on memory `m`. */
  ghost predicate Works<F>(f: Fpu<F>, m: Mem, s: Step) {
    && Reachable(s.from, s.srcs) && Reachable(s.to, s.dsts)
    && Eval(f, s.op, Fetch(m, s.srcs)).Some? && |Eval(f, s.op, Fetch(m, s.srcs)).value| == |s.dsts|
  }

  lemma {:induction false} StoredWord(m: Mem, addrs: seq<int>, ws: seq<Word>, k: nat)
    requires |addrs| == |ws| && SelfApart(addrs) && k < |addrs|
    ensures Load16(Store16s(m, addrs, ws), addrs[k]) == ws[k]
    decreases addrs
  {
    var m' := Store16(m, addrs[0], ws[0]);
    if k == 0 {
      forall x | x in addrs[1..]
        ensures Apart(x, addrs[0])
      {
        var j :| 0 <= j < |addrs| - 1 && addrs[1..][j] == x;
        assert addrs[j + 1] == x;
      }
      UntouchedWord(m', addrs[1..], ws[1..], addrs[0]);
    } else {
      StoredWord(m', addrs[1..], ws[1..], k - 1);
    }
  }

  lemma {:induction false} UntouchedWord(m: Mem, addrs: seq<int>, ws: seq<Word>, a: int)
    requires |addrs| == |ws| && forall x | x in addrs :: Apart(x, a)
    ensures Load16(Store16s(m, addrs, ws), a) == Load16(m, a)
    decreases addrs
  {
    if addrs != [] {
      assert addrs[0] in addrs;
      UntouchedWord(Store16(m, addrs[0], ws[0]), addrs[1..], ws[1..], a);
    }
  }

  lemma UntouchedWords(m: Mem, addrs: seq<int>, ws: seq<Word>, xs: seq<int>)
    requires |addrs| == |ws| && AllApart(addrs, xs)
    ensures Fetch(Store16s(m, addrs, ws), xs) == Fetch(m, xs)
  {
    hide Load16;
    forall k | 0 <= k < |xs|
      ensures Load16(Store16s(m, addrs, ws), xs[k]) == Load16(m, xs[k])
    {
      assert xs[k] in xs;
      UntouchedWord(m, addrs, ws, xs[k]);
    }
  }

  lemma StoredWords(m: Mem, addrs: seq<int>, ws: seq<Word>)
    requires |addrs| == |ws| && SelfApart(addrs)
    ensures Fetch(Store16s(m, addrs, ws), addrs) == ws
  {
    hide Load16;
    forall k | 0 <= k < |addrs|
      ensures Load16(Store16s(m, addrs, ws), addrs[k]) == ws[k]
    {
      StoredWord(m, addrs, ws, k);
    }
  }

  /** Orderly steps that all work on the initial memory all succeed, and leave alone what they do not
      store to. */
  lemma {:induction false} OrderlyFrame<F>(f: Fpu<F>, m: Mem, steps: seq<Step>)
    requires Orderly(steps) && forall k | 0 <= k < |steps| :: Works(f, m, steps[k])
    ensures DoSteps(f, m, steps).Some?
    ensures forall xs | (forall k | 0 <= k < |steps| :: AllApart(steps[k].dsts, xs)) ::
      Fetch(DoSteps(f, m, steps).value, xs) == Fetch(m, xs)
    decreases steps
  {
    hide Eval, Reachable, Fetch, AllApart, SelfApart, DoStep;
    if steps != [] {
      var n := |steps| - 1;
      var front, s := steps[..n], steps[n];
      OrderlyFrame(f, m, front);
      var m1 := DoSteps(f, m, front).value;
      assert steps == front + [s];
      StillWorks(f, m, m1, front, s);
      LastStep(f, m1, s);
      forall xs | (forall k | 0 <= k < |steps| :: AllApart(steps[k].dsts, xs))
        ensures Fetch(DoStep(f, m1, s).value, xs) == Fetch(m, xs)
      {
        assert forall k | 0 <= k < n :: AllApart(front[k].dsts, xs);
      }
    }
  }

  /** The last step reads what the initial memory held. */
  lemma StillWorks<F>(f: Fpu<F>, m: Mem, m1: Mem, front: seq<Step>, s: Step)
    requires Orderly(front + [s]) && Works(f, m, s)
    requires forall xs | (forall k | 0 <= k < |front| :: AllApart(front[k].dsts, xs)) :: Fetch(m1, xs) == Fetch(m, xs)
    ensures Fetch(m1, s.srcs) == Fetch(m, s.srcs) && Works(f, m1, s) && SelfApart(s.dsts)
  {
    hide Eval, Reachable, Fetch, AllApart, SelfApart;
    var steps, n := front + [s], |front|;
    assert steps[n] == s;
    forall k | 0 <= k < n
      ensures AllApart(front[k].dsts, s.srcs)
    {
      assert steps[k] == front[k];
    }
  }

  /** Steps that store elsewhere leave these words alone. */
  lemma {:induction false} UntouchedBySteps<F>(f: Fpu<F>, m: Mem, steps: seq<Step>, xs: seq<int>)
    requires DoSteps(f, m, steps).Some? && forall k | 0 <= k < |steps| :: AllApart(steps[k].dsts, xs)
    ensures Fetch(DoSteps(f, m, steps).value, xs) == Fetch(m, xs)
    decreases |steps|
  {
    hide Eval, Reachable, Fetch, AllApart;
    if steps != [] {
      var n := |steps| - 1;
      var front, s := steps[..n], steps[n];
      UntouchedBySteps(f, m, front, xs);
      var m1 := DoSteps(f, m, front).value;
      UntouchedWords(m1, s.dsts, Eval(f, s.op, Fetch(m1, s.srcs)).value, xs);
    }
  }

  /** A step without a result stops the instruction, if no earlier step stores into what it reads. */
  lemma NoResult<F>(f: Fpu<F>, m: Mem, steps: seq<Step>, e: nat)
    requires e < |steps| && forall k | 0 <= k < e :: AllApart(steps[k].dsts, steps[e].srcs)
    requires var r := Eval(f, steps[e].op, Fetch(m, steps[e].srcs)); r.None? || |r.value| != |steps[e].dsts|
    ensures DoSteps(f, m, steps).None?
  {
    hide Eval, Reachable, Fetch, AllApart;
    var front := steps[..e];
    if DoSteps(f, m, front).Some? {
      UntouchedBySteps(f, m, front, steps[e].srcs);
      MoreSteps(f, m, steps, e);
      StepsStop(f, m, steps, e + 1);
    } else {
      StepsStop(f, m, steps, e);
    }
  }

  /** Every step leaves its result, computed from the initial memory. */
  lemma {:induction false} OrderlyValue<F>(f: Fpu<F>, m: Mem, steps: seq<Step>, k: nat)
    requires Orderly(steps) && (forall j | 0 <= j < |steps| :: Works(f, m, steps[j])) && k < |steps|
    ensures DoSteps(f, m, steps).Some?
    ensures Eval(f, steps[k].op, Fetch(m, steps[k].srcs)) == Some(Fetch(DoSteps(f, m, steps).value, steps[k].dsts))
    decreases steps
  {
    hide Eval, Reachable, Fetch, AllApart, SelfApart, DoStep;
    var n := |steps| - 1;
    var front, s := steps[..n], steps[n];
    OrderlyFrame(f, m, front);
    var m1 := DoSteps(f, m, front).value;
    assert steps == front + [s];
    StillWorks(f, m, m1, front, s);
    LastStep(f, m1, s);
    if k < n {
      OrderlyValue(f, m, front, k);
      assert front[k] == steps[k];
      ApartSwap(steps[k].dsts, s.dsts);
    }
  }

  /** Both, for all steps. */
  lemma OrderlyResult<F>(f: Fpu<F>, m: Mem, steps: seq<Step>)
    requires Orderly(steps) && forall k | 0 <= k < |steps| :: Works(f, m, steps[k])
    ensures DoSteps(f, m, steps).Some?
    ensures forall k | 0 <= k < |steps| ::
      Eval(f, steps[k].op, Fetch(m, steps[k].srcs)) == Some(Fetch(DoSteps(f, m, steps).value, steps[k].dsts))
    ensures forall xs | (forall k | 0 <= k < |steps| :: AllApart(steps[k].dsts, xs)) ::
      Fetch(DoSteps(f, m, steps).value, xs) == Fetch(m, xs)
  {
    hide Eval, Reachable, Fetch, AllApart, SelfApart, DoSteps, Orderly;
    OrderlyFrame(f, m, steps);
    forall k | 0 <= k < |steps|
      ensures Eval(f, steps[k].op, Fetch(m, steps[k].srcs)) == Some(Fetch(DoSteps(f, m, steps).value, steps[k].dsts))
    {
      OrderlyValue(f, m, steps, k);
    }
  }

  /** One step: its destinations hold its result, words apart from them are as before. */
  lemma LastStep<F>(f: Fpu<F>, m: Mem, s: Step)
    requires Works(f, m, s) && SelfApart(s.dsts)
    ensures DoStep(f, m, s).Some?
    ensures Eval(f, s.op, Fetch(m, s.srcs)) == Some(Fetch(DoStep(f, m, s).value, s.dsts))
    ensures forall xs | AllApart(s.dsts, xs) :: Fetch(DoStep(f, m, s).value, xs) == Fetch(m, xs)
  {
    hide Eval, Reachable, Fetch, AllApart, SelfApart;
    var ws := Eval(f, s.op, Fetch(m, s.srcs)).value;
    StoredWords(m, s.dsts, ws);
    forall xs | AllApart(s.dsts, xs)
      ensures Fetch(DoStep(f, m, s).value, xs) == Fetch(m, xs)
    {
      UntouchedWords(m, s.dsts, ws, xs);
    }
  }

  lemma ApartSwap(xs: seq<int>, ys: seq<int>)
    requires AllApart(xs, ys)
    ensures AllApart(ys, xs)
  {
  }
}
