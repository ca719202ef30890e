/** What the hazard checker gets wrong: DMA rows that wrap around in 32 bits, and a broadcast pitch above
    the block. In both cases it passes a pair whose result depends on the order. */
module HazardLimits {
  import opened Types
  import opened Machine
  import opened HazardChecker
  import opened HazardSoundness

  /* ---- single words ---- */

  function LoadWord(sram: Dword, ddr: Dword): Instr { DmaLoad(DmaParam(sram, ddr, 1, 1, 2, 2)) }

  lemma CopyRow<F>(f: Fpu<F>, m: Mem, d: DmaParam, r: nat)
    requires d.cols == 1 && In(Sram, DmaSram(d, true, r)) && In(Ddr, DmaDdr(d, true, r))
    requires In(Sram, DmaSram(d, true, r) + 1) && In(Ddr, DmaDdr(d, true, r) + 1)
    ensures DoStep(f, m, DmaRow(d, true, r)) == Some(Store16(m, DmaSram(d, true, r), Load16(m, DmaDdr(d, true, r))))
  {
    hide Store16, Load16, DmaSram, DmaDdr;
    var s := DmaRow(d, true, r);
    assert s.dsts == [DmaSram(d, true, r)] && s.srcs == [DmaDdr(d, true, r)];
    OneStore(m, s.dsts[0], Load16(m, s.srcs[0]));
    assert Fetch(m, s.srcs) == [Load16(m, s.srcs[0])];
  }

  lemma OneStore(m: Mem, a: int, w: Word)
    ensures Store16s(m, [a], [w]) == Store16(m, a, w)
  {
    hide Store16;
    assert [a][1..] == [] && [w][1..] == [];
  }

  lemma OneStep<F>(f: Fpu<F>, m: Mem, x: Step)
    ensures DoSteps(f, m, [x]) == DoStep(f, m, x)
  {
    hide DoStep;
    assert [x][..0] == [];
  }

  lemma TwoSteps<F>(f: Fpu<F>, m: Mem, x: Step, y: Step)
    ensures DoSteps(f, m, [x, y]) == var r := DoStep(f, m, x); if r.Some? then DoStep(f, r.value, y) else None
  {
    hide DoStep;
    assert [x, y][..1] == [x];
    OneStep(f, m, x);
  }

  lemma WordLoaded<F>(f: Fpu<F>, m: Mem, sram: Dword, ddr: Dword)
    requires sram % 16 == 0 && ddr % 16 == 0 && In(Sram, sram) && In(Ddr, ddr)
    ensures Exec(f, m, LoadWord(sram, ddr)) == Some(Store16(m, sram, Load16(m, ddr)))
  {
    hide Store16, Load16, DoStep;
    var d := LoadWord(sram, ddr).dma;
    assert DmaSram(d, true, 0) == sram && DmaDdr(d, true, 0) == ddr;
    CopyRow(f, m, d, 0);
    assert Steps(DmaLoad(d)) == [DmaRow(d, true, 0)];
    OneStep(f, m, DmaRow(d, true, 0));
  }

  lemma LoadStored(m: Mem, a: int, w: Word, b: int)
    ensures Load16(Store16(m, a, w), a) == w
    ensures a + 2 <= b || b + 2 <= a ==> Load16(Store16(m, a, w), b) == Load16(m, b)
  {
  }

  lemma RunOne<F>(f: Fpu<F>, m: Mem, i: Instr)
    ensures Run(f, m, [i]) == Exec(f, m, i)
  {
    hide Exec;
    assert [i][1..] == [];
  }

  lemma RunTwo<F>(f: Fpu<F>, m: Mem, i: Instr, j: Instr)
    ensures Run(f, m, [i, j]) == var r := Exec(f, m, i); if r.Some? then Exec(f, r.value, j) else None
  {
    hide Exec;
    assert [i, j][1..] == [j];
    var r := Exec(f, m, i);
    if r.Some? {
      RunOne(f, r.value, j);
    }
  }

  /** Two instructions that share no interval pass the checker. */
  lemma PairIsClean(i: Instr, j: Instr)
    requires Clear(i, j)
    ensures Clean([i, j])
  {
    hide Reads, Writes, Overlap;
    forall v
      ensures !IsHazard([i, j], v)
    {
    }
  }

  /* ---- rows that wrap around ---- */

  const LOW: Dword := 0x1000_0000
  const FIRST: Dword := 0x4001_0000
  const OTHER: Dword := 0x4002_0000

  /** Two rows with a pitch of minus 16 bytes: the second one goes to LOW. */
  const BACKWARDS := DmaLoad(DmaParam(LOW + 16, FIRST, 2, 1, 16, 0xFFFF_FFF0))

  lemma BackwardsLoaded<F>(f: Fpu<F>, m: Mem)
    ensures Exec(f, m, BACKWARDS) == Some(Store16(Store16(m, LOW + 16, Load16(m, FIRST)), LOW, Load16(m, FIRST + 16)))
  {
    hide Store16, Load16, DoStep;
    var d := BACKWARDS.dma;
    assert DmaSram(d, true, 0) == LOW + 16 && DmaDdr(d, true, 0) == FIRST;
    assert DmaSram(d, true, 1) == LOW && DmaDdr(d, true, 1) == FIRST + 16;
    var m1 := Store16(m, LOW + 16, Load16(m, FIRST));
    CopyRow(f, m, d, 0);
    CopyRow(f, m1, d, 1);
    LoadStored(m, LOW + 16, Load16(m, FIRST), FIRST + 16);
    assert Steps(BACKWARDS) == [DmaRow(d, true, 0), DmaRow(d, true, 1)];
    TwoSteps(f, m, DmaRow(d, true, 0), DmaRow(d, true, 1));
  }

  lemma BackwardsClear()
    ensures Clear(BACKWARDS, LoadWord(LOW, OTHER))
  {
  }

  /** Both load the word at LOW, and the checker does not see it. */
  lemma WrappedRowsPass<F>(f: Fpu<F>, m: Mem)
    requires Load16(m, FIRST + 16) != Load16(m, OTHER)
    ensures Clean([BACKWARDS, LoadWord(LOW, OTHER)])
    ensures var r, r' := Run(f, m, [BACKWARDS, LoadWord(LOW, OTHER)]), Run(f, m, [LoadWord(LOW, OTHER), BACKWARDS]);
      r.Some? && r'.Some? && Load16(r.value, LOW) != Load16(r'.value, LOW)
  {
    var i, j := BACKWARDS, LoadWord(LOW, OTHER);
    hide Clear, Clean, Store16, Load16, Exec;
    BackwardsClear();
    PairIsClean(i, j);
    RunTwo(f, m, i, j);
    RunTwo(f, m, j, i);
    BackwardsLoaded(f, m);
    WordLoaded(f, m, LOW, OTHER);
    var a := Store16(m, LOW + 16, Load16(m, FIRST));
    var b := Store16(a, LOW, Load16(m, FIRST + 16));
    WordLoaded(f, b, LOW, OTHER);
    LoadStored(m, LOW + 16, Load16(m, FIRST), OTHER);
    LoadStored(a, LOW, Load16(m, FIRST + 16), OTHER);
    LoadStored(b, LOW, Load16(b, OTHER), LOW);
    var c := Store16(m, LOW, Load16(m, OTHER));
    BackwardsLoaded(f, c);
    LoadStored(m, LOW, Load16(m, OTHER), FIRST + 16);
    LoadStored(Store16(c, LOW + 16, Load16(c, FIRST)), LOW, Load16(c, FIRST + 16), LOW);
  }

  /* ---- a pitch above the block ---- */

  const LEFT: Dword := 0x1000_1000
  const SUM: Dword := 0x1000_2000

  /** Two rows of one element, the right operand 8 words apart: the second is at LOW + 16, outside the
      two words the checker counts. */
  const WIDE := Ewise(Add, EwiseParam(SUM, LOW, LEFT, 2, 1, 1, 8))

  function Added<F>(f: Fpu<F>, x: Word, y: Word): Word { f.enc(f.add(f.dec(x), f.dec(y))) }

  lemma AddStep<F>(f: Fpu<F>, m: Mem, l: int, r: int, d: int)
    requires Reachable(Sram, [l, r]) && Reachable(Sram, [d])
    ensures DoStep(f, m, Step(Arith(Add), Sram, [l, r], Sram, [d])) == Some(Store16(m, d, Added(f, Load16(m, l), Load16(m, r))))
  {
    hide Store16, Load16;
    assert Fetch(m, [l, r]) == [Load16(m, l), Load16(m, r)];
    OneStore(m, d, Added(f, Load16(m, l), Load16(m, r)));
  }

  lemma WideSteps()
    ensures Asserts(WIDE)
    ensures Steps(WIDE) == [Step(Arith(Add), Sram, [LEFT, LOW], Sram, [SUM]),
                            Step(Arith(Add), Sram, [LEFT + 2, LOW + 16], Sram, [SUM + 2])]
  {
    var d := WIDE.ew;
    assert d.cols % d.rhsBlk == 0;
    assert EwiseStep(Add, d, 0) == Step(Arith(Add), Sram, [LEFT, LOW], Sram, [SUM]);
    assert EwiseStep(Add, d, 1) == Step(Arith(Add), Sram, [LEFT + 2, LOW + 16], Sram, [SUM + 2]);
    assert U32(d.rows * d.cols) == 2;
  }

  lemma WideAdds<F>(f: Fpu<F>, m: Mem)
    ensures Exec(f, m, WIDE).Some?
    ensures Load16(Exec(f, m, WIDE).value, SUM + 2) == Added(f, Load16(m, LEFT + 2), Load16(m, LOW + 16))
  {
    WideSteps();
    hide Store16, Load16, DoStep, Asserts, Steps, Added;
    var m1 := Store16(m, SUM, Added(f, Load16(m, LEFT), Load16(m, LOW)));
    AddStep(f, m, LEFT, LOW, SUM);
    AddStep(f, m1, LEFT + 2, LOW + 16, SUM + 2);
    TwoSteps(f, m, Steps(WIDE)[0], Steps(WIDE)[1]);
    LoadStored(m, SUM, Added(f, Load16(m, LEFT), Load16(m, LOW)), LEFT + 2);
    LoadStored(m, SUM, Added(f, Load16(m, LEFT), Load16(m, LOW)), LOW + 16);
    LoadStored(m1, SUM + 2, Added(f, Load16(m1, LEFT + 2), Load16(m1, LOW + 16)), SUM + 2);
  }

  lemma WideClear()
    ensures Clear(LoadWord(LOW + 16, OTHER), WIDE)
  {
  }

  lemma LoadThenAdd<F>(f: Fpu<F>, m: Mem)
    ensures var r := Run(f, m, [LoadWord(LOW + 16, OTHER), WIDE]);
      r.Some? && Load16(r.value, SUM + 2) == Added(f, Load16(m, LEFT + 2), Load16(m, OTHER))
  {
    hide Store16, Load16, Exec, Added;
    RunTwo(f, m, LoadWord(LOW + 16, OTHER), WIDE);
    WordLoaded(f, m, LOW + 16, OTHER);
    var a := Store16(m, LOW + 16, Load16(m, OTHER));
    WideAdds(f, a);
    LoadStored(m, LOW + 16, Load16(m, OTHER), LEFT + 2);
    LoadStored(m, LOW + 16, Load16(m, OTHER), LOW + 16);
  }

  lemma AddThenLoad<F>(f: Fpu<F>, m: Mem)
    ensures var r := Run(f, m, [WIDE, LoadWord(LOW + 16, OTHER)]);
      r.Some? && Load16(r.value, SUM + 2) == Added(f, Load16(m, LEFT + 2), Load16(m, LOW + 16))
  {
    hide Store16, Load16, Exec, Added;
    RunTwo(f, m, WIDE, LoadWord(LOW + 16, OTHER));
    WideAdds(f, m);
    var b := Exec(f, m, WIDE).value;
    WordLoaded(f, b, LOW + 16, OTHER);
    LoadStored(b, LOW + 16, Load16(b, OTHER), SUM + 2);
  }

  /** A load into the word the second row reads passes the checker in front of it. */
  lemma WidePitchPasses<F>(f: Fpu<F>, m: Mem)
    requires Added(f, Load16(m, LEFT + 2), Load16(m, LOW + 16)) != Added(f, Load16(m, LEFT + 2), Load16(m, OTHER))
    ensures Clean([LoadWord(LOW + 16, OTHER), WIDE])
    ensures var r, r' := Run(f, m, [LoadWord(LOW + 16, OTHER), WIDE]), Run(f, m, [WIDE, LoadWord(LOW + 16, OTHER)]);
      r.Some? && r'.Some? && Load16(r.value, SUM + 2) != Load16(r'.value, SUM + 2)
  {
    hide Clear, Clean, Load16, Run, Added, LoadWord;
    WideClear();
    PairIsClean(LoadWord(LOW + 16, OTHER), WIDE);
    LoadThenAdd(f, m);
    AddThenLoad(f, m);
  }
}
