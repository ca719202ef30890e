/** Instructions that overlap in time: a clean report makes every interleaving of the loop iterations
    between two SYNCs end as the in-order run does. */
module Interleavings {
  import opened Types
  import opened Machine
  import opened HazardChecker
  import opened Footprints
  import opened Reach
  import opened Commutation
  import opened HazardSoundness

  /* ---- steps that commute ---- */

  predicate InWords(addrs: seq<int>, a: int) { a in addrs || a - 1 in addrs }

  ghost function ReadCells(x: Step): iset<int> { iset a | InWords(x.srcs, a) }

  ghost function WriteCells(x: Step): iset<int> { iset a | InWords(x.dsts, a) }

  ghost predicate StepsApart(x: Step, y: Step) {
    && Disjoint(WriteCells(x), ReadCells(y)) && Disjoint(WriteCells(y), ReadCells(x))
    && Disjoint(WriteCells(x), WriteCells(y))
  }

  lemma OwnCells(x: Step)
    ensures Covered(x, ReadCells(x), WriteCells(x))
  {
  }

  lemma CellsCovered(x: Step, rs: iset<int>, ws: iset<int>)
    requires Covered(x, rs, ws)
    ensures (forall a | a in ReadCells(x) :: a in rs) && (forall a | a in WriteCells(x) :: a in ws)
  {
  }

  function AndThen<F>(f: Fpu<F>, r: Option<Mem>, x: Step): Option<Mem> {
    if r.Some? then DoStep(f, r.value, x) else None
  }

  lemma StepUndisturbed<F>(f: Fpu<F>, m: Mem, x: Step, y: Step)
    requires Full(m) && StepsApart(x, y) && DoStep(f, m, y).Some?
    ensures Full(DoStep(f, m, y).value)
    ensures SameOn(DoStep(f, m, x), DoStep(f, DoStep(f, m, y).value, x), ReadCells(x) + WriteCells(x))
  {
    hide Full, DoStep, ReadCells, WriteCells;
    OwnCells(x);
    OwnCells(y);
    StepFrame(f, m, y, ReadCells(y), WriteCells(y));
    StepLocal(f, m, DoStep(f, m, y).value, x, ReadCells(x), WriteCells(x));
  }

  lemma StepsCommute<F>(f: Fpu<F>, m: Mem, x: Step, y: Step)
    requires Full(m) && StepsApart(x, y)
    ensures AndThen(f, DoStep(f, m, x), y) == AndThen(f, DoStep(f, m, y), x)
  {
    hide Full, DoStep, ReadCells, WriteCells;
    var a, b := DoStep(f, m, x), DoStep(f, m, y);
    if a.Some? { StepUndisturbed(f, m, y, x); }
    if b.Some? { StepUndisturbed(f, m, x, y); }
    if a.Some? && b.Some? {
      var ab, ba := DoStep(f, a.value, y), DoStep(f, b.value, x);
      assert ab.Some? && ba.Some?;
      OwnCells(x);
      OwnCells(y);
      StepFrame(f, m, x, ReadCells(x), WriteCells(x));
      StepFrame(f, m, y, ReadCells(y), WriteCells(y));
      StepFrame(f, a.value, y, ReadCells(y), WriteCells(y));
      StepFrame(f, b.value, x, ReadCells(x), WriteCells(x));
      forall c
        ensures Get(ab.value, c) == Get(ba.value, c)
      {
        if c in WriteCells(x) {
          assert c !in WriteCells(y);
          assert c in ReadCells(x) + WriteCells(x);
        } else if c in WriteCells(y) {
          assert c in ReadCells(y) + WriteCells(y);
        }
      }
      MemEqual(ab.value, ba.value);
    }
  }

  lemma {:induction false} StepsAppend<F>(f: Fpu<F>, m: Mem, xs: seq<Step>, ys: seq<Step>)
    ensures DoSteps(f, m, xs + ys) == var r := DoSteps(f, m, xs); if r.Some? then DoSteps(f, r.value, ys) else None
    decreases ys
  {
    hide DoStep;
    if ys == [] {
      assert xs + ys == xs;
    } else {
      var n := |ys| - 1;
      assert (xs + ys)[..|xs + ys| - 1] == xs + ys[..n];
      StepsAppend(f, m, xs, ys[..n]);
    }
  }

  lemma {:induction false} StepsStayFull<F>(f: Fpu<F>, m: Mem, xs: seq<Step>)
    requires Full(m) && DoSteps(f, m, xs).Some?
    ensures Full(DoSteps(f, m, xs).value)
    decreases xs
  {
    hide Full, DoStep, ReadCells, WriteCells;
    if xs != [] {
      var n := |xs| - 1;
      StepsStayFull(f, m, xs[..n]);
      OwnCells(xs[n]);
      StepFrame(f, DoSteps(f, m, xs[..n]).value, xs[n], ReadCells(xs[n]), WriteCells(xs[n]));
    }
  }

  /** A step moves in front of steps it is apart from. */
  lemma {:induction false} MovePast<F>(f: Fpu<F>, m: Mem, ys: seq<Step>, x: Step)
    requires Full(m) && forall y | y in ys :: StepsApart(x, y)
    ensures DoSteps(f, m, ys + [x]) == DoSteps(f, m, [x] + ys)
    decreases ys
  {
    hide Full, DoStep, StepsApart;
    if ys == [] {
      assert ys + [x] == [x] + ys;
    } else {
      var n := |ys| - 1;
      var front, y := ys[..n], ys[n];
      MovePast(f, m, front, x);
      assert (ys + [x])[..|ys + [x]| - 1] == ys && ([x] + ys)[..|[x] + ys| - 1] == [x] + front;
      assert (front + [x])[..|front + [x]| - 1] == front;
      if DoSteps(f, m, front).Some? {
        StepsStayFull(f, m, front);
        StepsCommute(f, DoSteps(f, m, front).value, x, y);
      }
    }
  }

  /* ---- interleavings ---- */

  /** `z` runs the steps of every thread, each thread's in order. */
  ghost predicate Interleaves(z: seq<Step>, ts: seq<seq<Step>>)
    decreases z
  {
    if z == [] then forall i | 0 <= i < |ts| :: ts[i] == []
    else exists i | 0 <= i < |ts| :: EndsWith(ts[i], z[|z| - 1]) && Interleaves(z[..|z| - 1], ts[i := ts[i][..|ts[i]| - 1]])
  }

  predicate EndsWith(t: seq<Step>, x: Step) { t != [] && t[|t| - 1] == x }

  lemma {:induction false} EveryStep(z: seq<Step>, ts: seq<seq<Step>>, k: nat, x: Step)
    requires Interleaves(z, ts) && k < |ts| && x in ts[k]
    ensures x in z
    decreases z
  {
    if z != [] && x != z[|z| - 1] {
      var i :| 0 <= i < |ts| && EndsWith(ts[i], z[|z| - 1]) && Interleaves(z[..|z| - 1], ts[i := ts[i][..|ts[i]| - 1]]);
      EveryStep(z[..|z| - 1], ts[i := ts[i][..|ts[i]| - 1]], k, x);
    }
  }

  function InOrder(ts: seq<seq<Step>>): seq<Step> {
    if ts == [] then [] else ts[0] + InOrder(ts[1..])
  }

  /** Steps of different threads are apart. */
  ghost predicate ThreadsApart(ts: seq<seq<Step>>) {
    forall i, j, x, y | 0 <= i < |ts| && 0 <= j < |ts| && i != j && x in ts[i] && y in ts[j] :: StepsApart(x, y)
  }

  lemma {:induction false} NoThreads(ts: seq<seq<Step>>)
    requires forall i | 0 <= i < |ts| :: ts[i] == []
    ensures InOrder(ts) == []
    decreases ts
  {
    if ts != [] {
      NoThreads(ts[1..]);
    }
  }

  lemma {:induction false} InOrderParts(ts: seq<seq<Step>>, i: nat)
    requires i < |ts|
    ensures InOrder(ts) == InOrder(ts[..i]) + (ts[i] + InOrder(ts[i + 1..]))
    decreases i
  {
    if i == 0 {
      assert ts[..0] == [];
    } else {
      InOrderParts(ts[1..], i - 1);
      assert ts[1..][..i - 1] == ts[..i][1..] && ts[1..][i..] == ts[i + 1..] && ts[1..][i - 1] == ts[i];
      assert InOrder(ts[..i]) == ts[0] + InOrder(ts[..i][1..]);
      var a, b := InOrder(ts[..i][1..]), ts[i] + InOrder(ts[i + 1..]);
      assert ts[0] + (a + b) == (ts[0] + a) + b;
    }
  }

  lemma {:induction false} InSomeThread(ts: seq<seq<Step>>, y: Step)
    requires y in InOrder(ts)
    ensures exists j :: 0 <= j < |ts| && y in ts[j]
    decreases ts
  {
    if y !in ts[0] {
      InSomeThread(ts[1..], y);
      var j :| 0 <= j < |ts| - 1 && y in ts[1..][j];
      assert y in ts[j + 1];
    }
  }

  lemma FrontApart(ts: seq<seq<Step>>, i: nat)
    requires ThreadsApart(ts) && i < |ts| && ts[i] != []
    ensures ThreadsApart(ts[i := ts[i][..|ts[i]| - 1]])
  {
    hide StepsApart;
  }

  /** Any interleaving of threads that are apart ends as running them one after the other. */
  lemma {:induction false} InterleavingIsInOrder<F>(f: Fpu<F>, m: Mem, z: seq<Step>, ts: seq<seq<Step>>)
    requires Full(m) && ThreadsApart(ts) && Interleaves(z, ts)
    ensures DoSteps(f, m, z) == DoSteps(f, m, InOrder(ts))
    decreases z
  {
    hide Full, DoStep, StepsApart, InOrder;
    if z == [] {
      NoThreads(ts);
    } else {
      var n := |z| - 1;
      var x := z[n];
      var i :| 0 <= i < |ts| && EndsWith(ts[i], x) && Interleaves(z[..n], ts[i := ts[i][..|ts[i]| - 1]]);
      var front := ts[i][..|ts[i]| - 1];
      FrontApart(ts, i);
      InterleavingIsInOrder(f, m, z[..n], ts[i := front]);
      LastIn(f, m, ts, i, x);
    }
  }

  /** The last step of thread `i`, run behind everything, may as well run in its place. */
  lemma LastIn<F>(f: Fpu<F>, m: Mem, ts: seq<seq<Step>>, i: nat, x: Step)
    requires Full(m) && ThreadsApart(ts) && i < |ts| && EndsWith(ts[i], x)
    ensures AndThen(f, DoSteps(f, m, InOrder(ts[i := ts[i][..|ts[i]| - 1]])), x) == DoSteps(f, m, InOrder(ts))
  {
    hide Full, DoStep, StepsApart, InOrder;
    var front := ts[i][..|ts[i]| - 1];
    var before, after := InOrder(ts[..i]), InOrder(ts[i + 1..]);
    InOrderParts(ts, i);
    InOrderParts(ts[i := front], i);
    assert ts[i := front][..i] == ts[..i] && ts[i := front][i + 1..] == ts[i + 1..];
    var a := before + front;
    assert InOrder(ts[i := front]) == a + after;
    assert ts[i] == front + [x];
    assert before + ((front + [x]) + after) == a + ([x] + after);
    forall y | y in after
      ensures StepsApart(x, y)
    {
      InSomeThread(ts[i + 1..], y);
      var j :| 0 <= j < |ts| - (i + 1) && y in ts[i + 1..][j];
      assert y in ts[i + 1 + j] && x in ts[i];
    }
    StepsAppend(f, m, a, after);
    StepsAppend(f, m, a, [x] + after);
    if DoSteps(f, m, a).Some? {
      StepsStayFull(f, m, a);
      MovePast(f, DoSteps(f, m, a).value, after, x);
      assert (after + [x])[..|after + [x]| - 1] == after;
    }
  }

  /* ---- segments ---- */

  /** The threads of a segment; an instruction that aborts on its descriptor has none. */
  function Threads(s: seq<Instr>): (ts: seq<seq<Step>>)
    ensures |ts| == |s|
  {
    seq(|s|, k requires 0 <= k < |s| => if Asserts(s[k]) then Steps(s[k]) else [])
  }

  /** Issuing all instructions of a segment and running their steps in the order `z`. */
  function RunOverlapped<F>(f: Fpu<F>, m: Mem, s: seq<Instr>, z: seq<Step>): Option<Mem> {
    if forall i | i in s :: Asserts(i) then DoSteps(f, m, z) else None
  }

  lemma {:induction false} RunIsInOrder<F>(f: Fpu<F>, m: Mem, s: seq<Instr>)
    requires forall i | i in s :: Asserts(i)
    ensures Run(f, m, s) == DoSteps(f, m, InOrder(Threads(s)))
    decreases s
  {
    hide Steps, Asserts;
    if s != [] {
      assert s[0] in s;
      assert Threads(s)[1..] == Threads(s[1..]);
      StepsAppend(f, m, Steps(s[0]), InOrder(Threads(s[1..])));
      var r := Exec(f, m, s[0]);
      if r.Some? {
        RunIsInOrder(f, r.value, s[1..]);
      }
    }
  }

  /** The descriptor passes its assertions and every access its range check. */
  ghost predicate GetsThrough(i: Instr) { Asserts(i) && Runs(i) }

  lemma {:induction false} RunFails<F>(f: Fpu<F>, m: Mem, s: seq<Instr>)
    requires exists i :: i in s && !GetsThrough(i)
    ensures Run(f, m, s).None?
    decreases s
  {
    hide Steps, Asserts, Runs;
    if Asserts(s[0]) && !Runs(s[0]) {
      Aborts(f, m, s[0]);
    }
    var r := Exec(f, m, s[0]);
    if r.Some? {
      RunFails(f, r.value, s[1..]);
    }
  }

  /** An access that fails its range check fails in every interleaving. */
  lemma OverlappedFails<F>(f: Fpu<F>, m: Mem, s: seq<Instr>, z: seq<Step>)
    requires Interleaves(z, Threads(s)) && exists i :: i in s && !GetsThrough(i)
    ensures RunOverlapped(f, m, s, z).None?
  {
    hide Steps, Asserts, Passes, DoSteps;
    if forall i | i in s :: Asserts(i) {
      var i :| i in s && !GetsThrough(i);
      var x :| x in Steps(i) && !Passes(x);
      var k :| 0 <= k < |s| && s[k] == i;
      EveryStep(z, Threads(s), k, x);
      StepsAbort(f, m, z, x);
    }
  }

  lemma ClearThreads(s: seq<Instr>)
    requires AllPlain(s) && PairwiseClear(s) && forall i | i in s :: GetsThrough(i)
    ensures ThreadsApart(Threads(s))
  {
    hide Clear, Plain, StepsApart, Steps, Asserts, Runs;
    var ts := Threads(s);
    forall i, j, x, y | 0 <= i < |ts| && 0 <= j < |ts| && i != j && x in ts[i] && y in ts[j]
      ensures StepsApart(x, y)
    {
      assert Plain(s[i]) && Plain(s[j]) && GetsThrough(s[i]) && GetsThrough(s[j]);
      if i < j { ClearSteps(s[i], s[j], x, y); } else { ClearSteps(s[j], s[i], y, x); }
      ApartSwap(x, y);
    }
  }

  lemma ApartSwap(x: Step, y: Step)
    ensures StepsApart(x, y) <==> StepsApart(y, x)
  {
    hide ReadCells, WriteCells;
  }

  lemma ClearSteps(i: Instr, j: Instr, x: Step, y: Step)
    requires Plain(i) && Plain(j) && Clear(i, j) && GetsThrough(i) && GetsThrough(j) && x in Steps(i) && y in Steps(j)
    ensures StepsApart(x, y)
  {
    hide Clear, Plain, Steps, Asserts, Runs, Covered, ReadSet, WriteSet, ReadCells, WriteCells;
    ClearIsIndependent(i, j);
    FootprintSound(i);
    FootprintSound(j);
    CellsCovered(x, ReadSet(i), WriteSet(i));
    CellsCovered(y, ReadSet(j), WriteSet(j));
  }

  /** One segment: whichever iterations of which instructions overlap. */
  lemma OverlapIrrelevant<F>(f: Fpu<F>, m: Mem, s: seq<Instr>, z: seq<Step>)
    requires Full(m) && AllPlain(s) && PairwiseClear(s) && Interleaves(z, Threads(s))
    ensures RunOverlapped(f, m, s, z) == Run(f, m, s)
  {
    hide Full, Plain, Clear, Steps, Asserts, Runs, Run, DoSteps, Interleaves, InOrder;
    if forall i | i in s :: GetsThrough(i) {
      ClearThreads(s);
      InterleavingIsInOrder(f, m, z, Threads(s));
      RunIsInOrder(f, m, s);
    } else {
      RunFails(f, m, s);
      OverlappedFails(f, m, s, z);
    }
  }

  /* ---- whole programs ---- */

  /** A SYNC waits for every instruction in front of it. */
  function RunFenced<F>(f: Fpu<F>, m: Mem, segments: seq<seq<Instr>>, zs: seq<seq<Step>>): Option<Mem>
    requires |zs| == |segments|
    decreases segments
  {
    if segments == [] then Some(m)
    else
      var r := RunOverlapped(f, m, segments[0], zs[0]);
      if r.Some? then RunFenced(f, r.value, segments[1..], zs[1..]) else None
  }

  lemma {:induction false} SegmentsOverlapped<F>(f: Fpu<F>, m: Mem, ps: seq<seq<Instr>>, zs: seq<seq<Step>>)
    requires Full(m) && |ps| == |zs|
    requires forall k | 0 <= k < |ps| :: AllPlain(ps[k]) && PairwiseClear(ps[k]) && Interleaves(zs[k], Threads(ps[k]))
    ensures RunFenced(f, m, ps, zs) == RunSegments(f, m, ps)
    decreases ps
  {
    hide Full, Run, AllPlain, PairwiseClear, Interleaves, RunOverlapped;
    if ps != [] {
      OverlapIrrelevant(f, m, ps[0], zs[0]);
      OrderIrrelevant(f, m, ps[0], ps[0]);
      var r := Run(f, m, ps[0]);
      if r.Some? {
        SegmentsOverlapped(f, r.value, ps[1..], zs[1..]);
      }
    }
  }

  /** If the checker reports nothing, instructions need not be complete before the next one starts:
      every interleaving of their iterations between two SYNCs leaves the memory of the in-order run,
      and aborts exactly when it does. */
  lemma {:induction false} CleanMeansOverlapFree<F>(f: Fpu<F>, m: Mem, p: seq<Instr>, zs: seq<seq<Step>>)
    requires Full(m) && Clean(p) && AllPlain(p) && |zs| == |Segments(p)|
    requires forall k | 0 <= k < |zs| :: Interleaves(zs[k], Threads(Segments(p)[k]))
    ensures RunFenced(f, m, Segments(p), zs) == Run(f, m, p)
  {
    hide Full, Run, Plain, PairwiseClear, IsHazard, Interleaves, RunOverlapped;
    CleanSegments(p);
    SegmentsOf(p);
    forall k | 0 <= k < |Segments(p)|
      ensures AllPlain(Segments(p)[k])
    {
      assert Segments(p)[k] in Segments(p);
    }
    SegmentsOverlapped(f, m, Segments(p), zs);
    SyncIsNoOp(f, m, p);
  }
}
