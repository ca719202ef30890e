/** Instructions whose footprints do not conflict commute on the machine. */
module Commutation {
  import opened Types
  import opened Machine
  import opened HazardChecker
  import opened Footprints
  import opened Reach

  ghost predicate Agree(m1: Mem, m2: Mem, s: iset<int>) { forall a | a in s :: Get(m1, a) == Get(m2, a) }

  /** Both runs abort, or both continue and agree on `s`. */
  ghost predicate SameOn(r1: Option<Mem>, r2: Option<Mem>, s: iset<int>) {
    r1.Some? == r2.Some? && (r1.Some? ==> Agree(r1.value, r2.value, s))
  }

  /** `m2` differs from `m1` only inside `s`. */
  ghost predicate ChangedOnly(m1: Mem, m2: Mem, s: iset<int>) { forall a | a !in s :: Get(m1, a) == Get(m2, a) }

  /* ---- one step ---- */

  lemma {:induction false} StoreWithin(m: Mem, addrs: seq<int>, ws: seq<Word>, s: iset<int>)
    requires |addrs| == |ws| && forall a | a in addrs :: Holds(s, a)
    ensures ChangedOnly(m, Store16s(m, addrs, ws), s)
    decreases addrs
  {
    if addrs != [] {
      assert addrs[0] in addrs;
      StoreWithin(Store16(m, addrs[0], ws[0]), addrs[1..], ws[1..], s);
    }
  }

  lemma {:induction false} StoreKeepsFull(m: Mem, addrs: seq<int>, ws: seq<Word>, space: Space)
    requires |addrs| == |ws| && Full(m) && Reachable(space, addrs)
    ensures Full(Store16s(m, addrs, ws))
    decreases addrs
  {
    if addrs != [] {
      assert In(space, addrs[0]) && In(space, addrs[0] + 1);
      StoreKeepsFull(Store16(m, addrs[0], ws[0]), addrs[1..], ws[1..], space);
    }
  }

  lemma {:induction false} StoreAgrees(m1: Mem, m2: Mem, addrs: seq<int>, ws: seq<Word>, s: iset<int>)
    requires |addrs| == |ws| && Agree(m1, m2, s)
    ensures Agree(Store16s(m1, addrs, ws), Store16s(m2, addrs, ws), s)
    decreases addrs
  {
    if addrs != [] {
      StoreAgrees(Store16(m1, addrs[0], ws[0]), Store16(m2, addrs[0], ws[0]), addrs[1..], ws[1..], s);
    }
  }

  lemma FetchAgrees(m1: Mem, m2: Mem, addrs: seq<int>, s: iset<int>)
    requires Agree(m1, m2, s) && forall a | a in addrs :: Holds(s, a)
    ensures Fetch(m1, addrs) == Fetch(m2, addrs)
  {
    forall k | 0 <= k < |addrs|
      ensures Load16(m1, addrs[k]) == Load16(m2, addrs[k])
    {
      assert addrs[k] in addrs;
    }
  }

  lemma StepFrame<F>(f: Fpu<F>, m: Mem, s: Step, rs: iset<int>, ws: iset<int>)
    requires Full(m) && Covered(s, rs, ws) && DoStep(f, m, s).Some?
    ensures Full(DoStep(f, m, s).value) && ChangedOnly(m, DoStep(f, m, s).value, ws)
  {
    hide Full, ChangedOnly, Eval, Holds;
    var r := Eval(f, s.op, Fetch(m, s.srcs)).value;
    StoreWithin(m, s.dsts, r, ws);
    StoreKeepsFull(m, s.dsts, r, s.to);
  }

  lemma StepLocal<F>(f: Fpu<F>, m1: Mem, m2: Mem, s: Step, rs: iset<int>, ws: iset<int>)
    requires Covered(s, rs, ws) && Agree(m1, m2, rs + ws)
    ensures SameOn(DoStep(f, m1, s), DoStep(f, m2, s), rs + ws)
  {
    hide Eval;
    FetchAgrees(m1, m2, s.srcs, rs + ws);
    var r := Eval(f, s.op, Fetch(m1, s.srcs));
    if r.Some? && |r.value| == |s.dsts| {
      StoreAgrees(m1, m2, s.dsts, r.value, rs + ws);
    }
  }

  /* ---- whole instructions ---- */

  lemma {:induction false} StepsFrame<F>(f: Fpu<F>, m: Mem, steps: seq<Step>, rs: iset<int>, ws: iset<int>)
    requires Full(m) && (forall s | s in steps :: Covered(s, rs, ws)) && DoSteps(f, m, steps).Some?
    ensures Full(DoSteps(f, m, steps).value) && ChangedOnly(m, DoSteps(f, m, steps).value, ws)
  {
    hide Covered, DoStep, Full;
    if steps != [] {
      var front := steps[..|steps| - 1];
      StepsFrame(f, m, front, rs, ws);
      StepFrame(f, DoSteps(f, m, front).value, steps[|steps| - 1], rs, ws);
    }
  }

  lemma {:induction false} StepsLocal<F>(f: Fpu<F>, m1: Mem, m2: Mem, steps: seq<Step>, rs: iset<int>, ws: iset<int>)
    requires (forall s | s in steps :: Covered(s, rs, ws)) && Agree(m1, m2, rs + ws)
    ensures SameOn(DoSteps(f, m1, steps), DoSteps(f, m2, steps), rs + ws)
  {
    hide Covered, DoStep;
    if steps != [] {
      var front := steps[..|steps| - 1];
      StepsLocal(f, m1, m2, front, rs, ws);
      if DoSteps(f, m1, front).Some? {
        StepLocal(f, DoSteps(f, m1, front).value, DoSteps(f, m2, front).value, steps[|steps| - 1], rs, ws);
      }
    }
  }

  lemma MoreSteps<F>(f: Fpu<F>, m: Mem, steps: seq<Step>, r: nat)
    requires r < |steps| && DoSteps(f, m, steps[..r]).Some?
    ensures DoSteps(f, m, steps[..r + 1]) == DoStep(f, DoSteps(f, m, steps[..r]).value, steps[r])
  {
    hide DoStep;
    assert steps[..r + 1][..r] == steps[..r];
  }

  lemma {:induction false} StepsStop<F>(f: Fpu<F>, m: Mem, steps: seq<Step>, r: nat)
    requires r <= |steps| && DoSteps(f, m, steps[..r]).None?
    ensures DoSteps(f, m, steps).None?
    decreases |steps|
  {
    hide DoStep;
    if r < |steps| {
      assert steps[..|steps| - 1][..r] == steps[..r];
      StepsStop(f, m, steps[..|steps| - 1], r);
    } else {
      assert steps[..r] == steps;
    }
  }

  /** An instruction changes nothing outside the checker's write intervals. */
  lemma ExecFrame<F>(f: Fpu<F>, m: Mem, i: Instr)
    requires Full(m) && Plain(i) && Exec(f, m, i).Some?
    ensures Full(Exec(f, m, i).value) && ChangedOnly(m, Exec(f, m, i).value, WriteSet(i))
  {
    hide Covered, Full, ChangedOnly, ReadSet, WriteSet, Steps, DoSteps, Asserts, Runs, Plain;
    if !Runs(i) {
      Aborts(f, m, i);
    }
    FootprintSound(i);
    StepsFrame(f, m, Steps(i), ReadSet(i), WriteSet(i));
  }

  /** Whether an instruction aborts, and what it stores, depends only on the checker's intervals. */
  lemma ExecLocal<F>(f: Fpu<F>, m1: Mem, m2: Mem, i: Instr)
    requires Plain(i) && Agree(m1, m2, ReadSet(i) + WriteSet(i))
    ensures SameOn(Exec(f, m1, i), Exec(f, m2, i), ReadSet(i) + WriteSet(i))
  {
    hide Covered, Agree, ReadSet, WriteSet, Steps, DoSteps, Asserts, Plain, Runs;
    if Asserts(i) {
      if Runs(i) {
        FootprintSound(i);
        StepsLocal(f, m1, m2, Steps(i), ReadSet(i), WriteSet(i));
      } else {
        Aborts(f, m1, i);
        Aborts(f, m2, i);
      }
    }
  }

  ghost predicate Disjoint(s: iset<int>, t: iset<int>) { forall a | a in s :: a !in t }

  /** No RAW, WAR or WAW between the two. */
  ghost predicate Independent(i: Instr, j: Instr) {
    && Disjoint(WriteSet(i), ReadSet(j)) && Disjoint(WriteSet(j), ReadSet(i))
    && Disjoint(WriteSet(i), WriteSet(j))
  }

  function Then<F>(f: Fpu<F>, r: Option<Mem>, i: Instr): Option<Mem> {
    if r.Some? then Exec(f, r.value, i) else None
  }

  /** If `j` runs first, `i` finds its footprint untouched. */
  lemma Undisturbed<F>(f: Fpu<F>, m: Mem, i: Instr, j: Instr)
    requires Full(m) && Plain(i) && Plain(j) && Independent(i, j) && Exec(f, m, j).Some?
    ensures Full(Exec(f, m, j).value)
    ensures SameOn(Exec(f, m, i), Exec(f, Exec(f, m, j).value, i), ReadSet(i) + WriteSet(i))
  {
    hide Full, Exec, ReadSet, WriteSet;
    ExecFrame(f, m, j);
    ExecLocal(f, m, Exec(f, m, j).value, i);
  }

  lemma MemEqual(m1: Mem, m2: Mem)
    requires Full(m1) && Full(m2) && forall a :: Get(m1, a) == Get(m2, a)
    ensures m1 == m2
  {
    forall a
      ensures a in m1 <==> a in m2
      ensures a in m1 ==> m1[a] == m2[a]
    {
      assert Get(m1, a) == Get(m2, a);
    }
  }

  /** Independent instructions commute, aborts included. */
  lemma IndependentCommute<F>(f: Fpu<F>, m: Mem, i: Instr, j: Instr)
    requires Full(m) && Plain(i) && Plain(j) && Independent(i, j)
    ensures Then(f, Exec(f, m, i), j) == Then(f, Exec(f, m, j), i)
  {
    hide Full, Exec, ReadSet, WriteSet, Plain;
    var a, b := Exec(f, m, i), Exec(f, m, j);
    if a.Some? {
      Undisturbed(f, m, j, i);
    }
    if b.Some? {
      Undisturbed(f, m, i, j);
    }
    if a.Some? && b.Some? {
      var ab, ba := Exec(f, a.value, j), Exec(f, b.value, i);
      assert ab.Some? && ba.Some?;
      ExecFrame(f, m, i);
      ExecFrame(f, m, j);
      ExecFrame(f, a.value, j);
      ExecFrame(f, b.value, i);
      forall x
        ensures Get(ab.value, x) == Get(ba.value, x)
      {
        if x in WriteSet(i) {
          assert x !in WriteSet(j);
          assert x in ReadSet(i) + WriteSet(i);
        } else if x in WriteSet(j) {
          assert x in ReadSet(j) + WriteSet(j);
        }
      }
      MemEqual(ab.value, ba.value);
    }
  }
}
