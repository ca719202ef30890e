/** The simulated chip as an object: SRAM and DDR as byte arrays that the execution loops of
    `runtime/lib/cmodel_exec.cpp` overwrite. Every loop is proved against the steps of Machine. */
module CModel {
  import opened Types
  import opened Machine
  import opened CommandQueue

  class Chip<F> {
    const f: Fpu<F>
    const sram: array<Byte>
    const ddr: array<Byte>

    ghost predicate Valid()
      reads this
    {
      sram.Length == SRAM_SIZE && ddr.Length == DDR_SIZE && sram != ddr
    }

    function ByteAt(a: int): Byte
      requires Valid() && (In(Sram, a) || In(Ddr, a))
      reads this, sram, ddr
    {
      if In(Sram, a) then sram[a - SRAM_ADDR] else ddr[a - DDR_ADDR]
    }

    ghost function Contents(): Mem
      requires Valid()
      reads this, sram, ddr
    {
      map a | SRAM_ADDR <= a < DDR_ADDR + DDR_SIZE && (In(Sram, a) || In(Ddr, a)) :: ByteAt(a)
    }

    constructor (f: Fpu<F>)
      ensures Valid() && Full(Contents()) && this.f == f && fresh(sram) && fresh(ddr)
      ensures forall a :: Get(Contents(), a) == 0
    {
      this.f := f;
      sram := new Byte[SRAM_SIZE](_ => 0);
      ddr := new Byte[DDR_SIZE](_ => 0);
    }

    /* ---- accessors ---- */

    method Peek(s: Space, a: int) returns (b: Byte)
      requires Valid() && In(s, a)
      ensures b == Get(Contents(), a)
    {
      b := match s case Sram => sram[a - SRAM_ADDR] case Ddr => ddr[a - DDR_ADDR];
    }

    method Poke(s: Space, a: int, b: Byte)
      requires Valid() && In(s, a)
      modifies sram, ddr
      ensures Contents() == old(Contents())[a := b]
    {
      match s
      case Sram => sram[a - SRAM_ADDR] := b;
      case Ddr => ddr[a - DDR_ADDR] := b;
    }

    /** loadU16 behind the range check of `sram()` or `ddr()`. */
    method ReadWord(s: Space, a: int) returns (ok: bool, w: Word)
      requires Valid()
      ensures ok == Accessible(s, a)
      ensures ok ==> w == Load16(Contents(), a)
    {
      ok, w := Accessible(s, a), 0;
      if ok {
        var lo: int := Peek(s, a);
        var hi: int := Peek(s, a + 1);
        w := lo + 256 * hi;
      }
    }

    /** storeU16 behind the range check. */
    method WriteWord(s: Space, a: int, w: Word) returns (ok: bool)
      requires Valid()
      modifies sram, ddr
      ensures ok == Accessible(s, a)
      ensures Contents() == if ok then Store16(old(Contents()), a, w) else old(Contents())
    {
      ok := Accessible(s, a);
      if ok {
        Poke(s, a, w % 256);
        Poke(s, a + 1, w / 256);
      }
    }

    /** Simulator::writeDDR: the accessor checks the first byte, the copy must not leave DDR. */
    method WriteDdr(a: int, bs: seq<Byte>) returns (ok: bool)
      requires Valid()
      modifies sram, ddr
      ensures ok == FitsDdr(a, |bs|)
      ensures Contents() == if ok then WriteBytes(old(Contents()), a, bs) else old(Contents())
    {
      hide Contents;
      ok := FitsDdr(a, |bs|);
      if ok {
        for k := 0 to |bs|
          invariant Contents() == WriteBytes(old(Contents()), a, bs[..k])
        {
          assert bs[..k + 1][..k] == bs[..k];
          Poke(Ddr, a + k, bs[k]);
        }
        assert bs[..|bs|] == bs;
      }
    }

    /** fwrite from the pointer the accessor returns. */
    method ReadDdr(a: int, n: nat) returns (ok: bool, bs: seq<Byte>)
      requires Valid()
      ensures ok == FitsDdr(a, n) && (ok ==> bs == ReadBytes(Contents(), a, n))
    {
      hide Contents;
      ok, bs := FitsDdr(a, n), [];
      if ok {
        for k := 0 to n
          invariant bs == ReadBytes(Contents(), a, k)
        {
          var b := Peek(Ddr, a + k);
          bs := bs + [b];
        }
      }
    }

    /** readFP16. */
    method ReadFP16(a: int) returns (ok: bool, v: F)
      requires Valid()
      ensures ok == Accessible(Sram, a)
      ensures ok ==> v == f.dec(Load16(Contents(), a))
    {
      var w;
      ok, w := ReadWord(Sram, a);
      v := f.dec(w);
    }

    /* ---- DMA ---- */

    /** One row: memcpy of `cols` fp16 words from one space into the other. */
    method CopyRow(from: Space, src: int, to: Space, dst: int, cols: nat) returns (ok: bool)
      requires Valid() && from != to
      modifies sram, ddr
      ensures var r := DoStep(f, old(Contents()), Step(Copy, from, Row(src, cols), to, Row(dst, cols)));
        ok == r.Some? && (ok ==> Contents() == r.value)
    {
      hide Contents, Store16, Store16s, In, Load16, Get;
      ghost var m := Contents();
      ghost var srcs, dsts := Row(src, cols), Row(dst, cols);
      ghost var xs := Fetch(m, srcs);
      ok := true;
      NothingStored(m, dsts, xs);
      for j := 0 to cols
        invariant ok
        invariant forall k | 0 <= k < j :: Accessible(from, srcs[k]) && Accessible(to, dsts[k])
        invariant Contents() == Store16s(m, dsts[..j], xs[..j])
      {
        LoadElsewhere(m, dsts[..j], xs[..j], to, from, src + 2 * j);
        var w;
        ok, w := ReadWord(from, src + 2 * j);
        if !ok {
          NotReachable(from, srcs, j);
          return;
        }
        ok := WriteWord(to, dst + 2 * j, w);
        if !ok {
          NotReachable(to, dsts, j);
          return;
        }
        StoreSnoc(m, dsts, xs, j);
      }
      assert dsts[..cols] == dsts && xs[..cols] == xs;
      AllReachable(from, srcs);
      AllReachable(to, dsts);
    }

    /** execDmaLoad. */
    method ExecDmaLoad(d: DmaParam) returns (ok: bool)
      requires Valid()
      modifies sram, ddr
      ensures var r := Exec(f, old(Contents()), DmaLoad(d)); ok == r.Some? && (ok ==> Contents() == r.value)
    {
      hide Contents, DoStep, DoSteps, DmaRow, In, Exec, DmaSram, DmaDdr, Row;
      ghost var m, steps := Contents(), LoadRows(d);
      ok := d.sramAddr % 16 == 0 && d.ddrAddr % 16 == 0;
      if !ok {
        Misaligned(f, m, d);
        return;
      }
      NoStepsYet(f, m, steps);
      for r := 0 to d.rows
        invariant ok && DoSteps(f, m, steps[..r]) == Some(Contents())
        invariant forall k | 0 <= k < r :: In(Sram, DmaSram(d, true, k)) && In(Ddr, DmaDdr(d, true, k))
      {
        ok := In(Sram, DmaSram(d, true, r)) && In(Ddr, DmaDdr(d, true, r));
        if !ok {
          RowOutside(f, m, d, r);
          return;
        }
        ok := CopyRow(Ddr, DmaDdr(d, true, r), Sram, DmaSram(d, true, r), d.cols);
        DmaRowIs(d, true, r);
        StepsNext(f, m, steps, r);
        if !ok {
          LoadAborts(f, m, d);
          return;
        }
      }
      assert steps[..d.rows] == steps;
      LoadCompletes(f, m, d);
    }

    method ReadDma(desc: int) returns (d: DmaParam)
      requires Valid()
      ensures d == StoreFields(Contents(), desc)
    {
      hide Contents, Load32;
      var w := ReadFields(desc, 6);
      d := DmaParam(w[0], w[1], w[2], w[3], w[4], w[5]);
    }

    /** execDmaStore: the fields are read through the pointer again in every row, after the row before
        may have overwritten them. */
    method ExecDmaStore(desc: int) returns (ok: bool)
      requires Valid() && In(Ddr, desc)
      modifies sram, ddr
      ensures var r := ExecInsn(f, old(Contents()), Insn(OpDmaStore, desc)); ok == r.Some? && (ok ==> Contents() == r.value)
    {
      hide Contents, DoStep, DmaRow, In, DmaSram, DmaDdr, Row, Decode, StoreRows, ExecInsn;
      ghost var m := Contents();
      StoreEntry(f, m, desc);
      var d := ReadDma(desc);
      ok := d.sramAddr % 16 == 0 && d.ddrAddr % 16 == 0;
      if !ok {
        return;
      }
      var r := 0;
      while r < d.rows
        invariant ok && d == StoreFields(Contents(), desc)
        invariant StoreRows(f, Contents(), desc, r) == ExecInsn(f, m, Insn(OpDmaStore, desc))
        decreases TWO_32 - r
      {
        ghost var now := Contents();
        NextRow(f, now, desc, r);
        DmaRowIs(d, false, r);
        ok := In(Sram, DmaSram(d, false, r)) && In(Ddr, DmaDdr(d, false, r));
        if !ok {
          return;
        }
        ok := CopyRow(Sram, DmaSram(d, false, r), Ddr, DmaDdr(d, false, r), d.cols);
        if !ok {
          return;
        }
        r := r + 1;
        d := ReadDma(desc);
      }
      NextRow(f, Contents(), desc, r);
    }

    /* ---- MATMUL ---- */

    /** One term: both operands read and decoded. */
    method ReadPair(d: MatmulParam, m: nat, n: nat, k: nat) returns (ok: bool, l: F, r: F)
      requires Valid() && k < d.K
      ensures var step := MatmulStep(d, m, n);
        if ok then Accessible(Sram, step.srcs[k]) && Accessible(Sram, step.srcs[d.K + k])
                   && l == f.dec(Load16(Contents(), step.srcs[k])) && r == f.dec(Load16(Contents(), step.srcs[d.K + k]))
        else DoStep(f, Contents(), step).None?
    {
      hide Contents, Load16, LhsAt, RhsAt, DstAt, DoStep, Accessible, MatmulStep;
      ghost var step := MatmulStep(d, m, n);
      MatmulStepIs(d, m, n);
      ok, l := ReadFP16(LhsAt(d, m, k));
      r := l;
      if !ok {
        SourceFails(f, Contents(), step, k);
        return;
      }
      ok, r := ReadFP16(RhsAt(d, k, n));
      if !ok {
        SourceFails(f, Contents(), step, d.K + k);
      }
    }

    /** The k loop: the float accumulator of one output element. */
    method DotLoop(d: MatmulParam, m: nat, n: nat) returns (ok: bool, acc: F)
      requires Valid()
      ensures var step := MatmulStep(d, m, n);
        if ok then (forall j | 0 <= j < 2 * d.K :: Accessible(Sram, step.srcs[j]))
                   && acc == DotSum(f, Fetch(Contents(), step.srcs), d.K, d.K)
        else DoStep(f, Contents(), step).None?
    {
      hide Contents, Load16, DoStep, Accessible, MatmulStep, Fetch, DotSum;
      ghost var step := MatmulStep(d, m, n);
      MatmulStepIs(d, m, n);
      ok, acc := true, f.zero;
      NoTerms(f, Fetch(Contents(), step.srcs), d.K);
      for k := 0 to d.K
        invariant ok && acc == DotSum(f, Fetch(Contents(), step.srcs), d.K, k)
        invariant forall j | 0 <= j < k :: Accessible(Sram, step.srcs[j])
        invariant forall j | d.K <= j < d.K + k :: Accessible(Sram, step.srcs[j])
      {
        var l, r;
        ok, l, r := ReadPair(d, m, n, k);
        if !ok {
          return;
        }
        NextTerm(f, Contents(), step.srcs, d.K, k);
        acc := f.add(acc, f.mul(l, r));
      }
    }

    method MatmulElement(d: MatmulParam, m: nat, n: nat) returns (ok: bool)
      requires Valid()
      modifies sram, ddr
      ensures var r := DoStep(f, old(Contents()), MatmulStep(d, m, n));
        ok == r.Some? && (ok ==> Contents() == r.value)
    {
      hide Contents, Load16, DstAt, LhsAt, RhsAt, Store16, Store16s, DoStep, Reachable, Eval, Accessible, MatmulStep, DotSum;
      ghost var was, step := Contents(), MatmulStep(d, m, n);
      MatmulStepIs(d, m, n);
      var acc;
      ok, acc := DotLoop(d, m, n);
      if !ok {
        return;
      }
      if d.accumulate != 0 {
        var old';
        ok, old' := ReadFP16(DstAt(d, m, n));
        if !ok {
          SourceFails(f, was, step, 2 * d.K);
          return;
        }
        acc := f.add(acc, old');
      }
      EvalDot(f, Fetch(was, step.srcs), d.K, d.accumulate != 0);
      StepResult(f, was, step, [f.enc(acc)]);
      ok := WriteResult(DstAt(d, m, n), acc);
    }

    /** writeFP16 as the last act of a step with one destination. */
    method WriteResult(a: int, v: F) returns (ok: bool)
      requires Valid()
      modifies sram, ddr
      ensures ok == Reachable(Sram, [a])
      ensures Contents() == if ok then Store16s(old(Contents()), [a], [f.enc(v)]) else old(Contents())
    {
      hide Contents, In;
      ok := WriteWord(Sram, a, f.enc(v));
      SingleReachable(Sram, a);
      SingleStore(old(Contents()), a, f.enc(v));
    }

    method ExecMatmul(d: MatmulParam) returns (ok: bool)
      requires Valid()
      modifies sram, ddr
      ensures var r := Exec(f, old(Contents()), Matmul(d)); ok == r.Some? && (ok ==> Contents() == r.value)
    {
      hide Contents, DoSteps, U32, MatmulSteps;
      var dstEnd := U32(d.dstAddr + 2 * U32(d.M * d.N));
      var lhsEnd := U32(d.lhsAddr + 2 * U32(d.M * d.K));
      var rhsEnd := U32(d.rhsAddr + 2 * U32(d.K * d.N));
      ok := (d.dstAddr >= lhsEnd || d.lhsAddr >= dstEnd) && (d.dstAddr >= rhsEnd || d.rhsAddr >= dstEnd)
            && (d.lhsAddr >= rhsEnd || d.rhsAddr >= lhsEnd);
      if ok {
        ok := MatmulLoops(d);
      }
    }

    method MatmulLoops(d: MatmulParam) returns (ok: bool)
      requires Valid()
      modifies sram, ddr
      ensures var r := DoSteps(f, old(Contents()), MatmulSteps(d)); ok == r.Some? && (ok ==> Contents() == r.value)
    {
      hide Contents, DoStep, MatmulStep, DoSteps;
      ghost var was := Contents();
      ok := true;
      EmptyRun(f, was);
      for m := 0 to d.M
        invariant ok && DoSteps(f, was, MatmulRows(d, m)) == Some(Contents())
      {
        ok := MatmulRowLoop(d, m, was);
        if !ok {
          RowsFail(f, was, d, m + 1);
          return;
        }
      }
    }

    method MatmulRowLoop(d: MatmulParam, m: nat, ghost was: Mem) returns (ok: bool)
      requires Valid() && DoSteps(f, was, MatmulRows(d, m)) == Some(Contents())
      modifies sram, ddr
      ensures var r := DoSteps(f, was, MatmulRows(d, m + 1)); ok == r.Some? && (ok ==> Contents() == r.value)
    {
      hide Contents, DoStep, MatmulStep, DoSteps;
      ghost var before, all := |MatmulRows(d, m)|, MatmulRows(d, m + 1);
      assert all[..before] == MatmulRows(d, m);
      ok := true;
      for n := 0 to d.N
        invariant ok && DoSteps(f, was, all[..before + n]) == Some(Contents())
      {
        ok := MatmulElement(d, m, n);
        StepsNext(f, was, all, before + n);
        if !ok {
          return;
        }
      }
      assert all[..before + d.N] == all;
    }

    /* ---- ELEMENTWISE ---- */

    method EwiseElement(op: EwiseKind, d: EwiseParam, i: nat) returns (ok: bool)
      requires Valid() && d.cols != 0 && d.rhsBlk != 0
      modifies sram, ddr
      ensures var r := DoStep(f, old(Contents()), EwiseStep(op, d, i));
        ok == r.Some? && (ok ==> Contents() == r.value)
    {
      hide Contents, Load16, Store16, Store16s, DoStep, Reachable, Accessible, Eval, U32, EwiseRhsAt;
      ghost var was, step := Contents(), EwiseStep(op, d, i);
      ghost var xs := Fetch(was, step.srcs);
      var l, r;
      ok, l := ReadFP16(U32(d.lhsAddr + 2 * i));
      if !ok {
        SourceFails(f, was, step, 0);
        return;
      }
      ok, r := ReadFP16(EwiseRhsAt(d, i));
      if !ok {
        SourceFails(f, was, step, 1);
        return;
      }
      EvalArith(f, op, xs);
      if op == Div && f.eq(r, f.zero) {
        EvalFails(f, was, step);
        ok := false;
        return;
      }
      var v;
      match op {
        case Add => v := f.add(l, r);
        case Sub => v := f.sub(l, r);
        case Mul => v := f.mul(l, r);
        case Div => v := f.div(l, r);
      }
      StepResult(f, was, step, [f.enc(v)]);
      ok := WriteResult(U32(d.dstAddr + 2 * i), v);
    }

    method ExecElementwise(op: EwiseKind, d: EwiseParam) returns (ok: bool)
      requires Valid()
      modifies sram, ddr
      ensures var r := Exec(f, old(Contents()), Ewise(op, d)); ok == r.Some? && (ok ==> Contents() == r.value)
    {
      hide Contents, DoStep, EwiseStep;
      ghost var was := Contents();
      ok := d.cols != 0 && d.rhsBlk != 0 && d.cols % d.rhsBlk == 0;
      if !ok {
        return;
      }
      var n := U32(d.rows * d.cols);
      ghost var steps := Steps(Ewise(op, d));
      NoStepsYet(f, was, steps);
      for i := 0 to n
        invariant ok && DoSteps(f, was, steps[..i]) == Some(Contents())
      {
        ok := EwiseElement(op, d, i);
        StepsNext(f, was, steps, i);
        if !ok {
          return;
        }
      }
      assert steps[..n] == steps;
    }

    /* ---- ACT ---- */

    method ActElement(d: ActParam, i: nat) returns (ok: bool)
      requires Valid() && ActKindOf(d.kind).Some?
      modifies sram, ddr
      ensures var r := DoStep(f, old(Contents()), ActStep(d, ActKindOf(d.kind).value, i));
        ok == r.Some? && (ok ==> Contents() == r.value)
    {
      hide Contents, Load16, Store16, Store16s, U32, DoStep, Reachable, Accessible, Eval;
      ghost var was, kind := Contents(), ActKindOf(d.kind).value;
      ghost var step := ActStep(d, kind, i);
      var x;
      ok, x := ReadFP16(U32(d.srcAddr + 2 * i));
      if !ok {
        SourceFails(f, was, step, 0);
        return;
      }
      EvalActivate(f, kind, Fetch(was, step.srcs));
      var v;
      if d.kind == 0 {
        v := if f.gt(x, f.zero) then x else f.zero;
      } else if d.kind == 1 {
        v := f.exp(x);
      } else if d.kind == 2 {
        v := f.rsqrt(x);
      } else {
        v := f.silu(x);
      }
      StepResult(f, was, step, [f.enc(v)]);
      ok := WriteResult(U32(d.dstAddr + 2 * i), v);
    }

    method ExecAct(d: ActParam) returns (ok: bool)
      requires Valid()
      modifies sram, ddr
      ensures var r := Exec(f, old(Contents()), Act(d)); ok == r.Some? && (ok ==> Contents() == r.value)
    {
      hide Contents, DoStep, ActStep;
      ghost var was := Contents();
      ok := d.kind < 4;
      if !ok {
        return;
      }
      ghost var steps := Steps(Act(d));
      NoStepsYet(f, was, steps);
      for i := 0 to d.n
        invariant ok && DoSteps(f, was, steps[..i]) == Some(Contents())
      {
        ok := ActElement(d, i);
        StepsNext(f, was, steps, i);
        if !ok {
          return;
        }
      }
      assert steps[..d.n] == steps;
    }

    /* ---- REDUCE ---- */

    method MaxLoop(d: ReduceParam, i: nat) returns (ok: bool, max: F)
      requires Valid() && d.cols != 0
      ensures var step := ReduceStep(d, MaxKind, i);
        |step.srcs| == d.cols &&
        if ok then (forall k | 0 <= k < d.cols :: Accessible(Sram, step.srcs[k])) && max == MaxOf(f, Fetch(Contents(), step.srcs), d.cols)
        else DoStep(f, Contents(), step).None?
    {
      hide Contents, Load16, U32, DoStep, Accessible, ReduceStep, ReduceMax, Fetch, MaxOf;
      var row := U32(d.srcAddr + 2 * U32(i * d.cols));
      ghost var step := ReduceStep(d, MaxKind, i);
      ReduceStepIs(d, MaxKind, i);
      ghost var srcs, xs := step.srcs, Fetch(Contents(), step.srcs);
      var x;
      ok, x := ReadFP16(U32(row + 2 * 0));
      max := x;
      FetchedWord(Contents(), srcs, 0);
      FirstInMax(f, xs);
      if !ok {
        SourceFails(f, Contents(), step, 0);
        return;
      }
      for j := 1 to d.cols
        invariant ok && max == MaxOf(f, xs, j)
        invariant forall k | 0 <= k < j :: Accessible(Sram, srcs[k])
      {
        ok, x := ReadFP16(U32(row + 2 * j));
        if !ok {
          SourceFails(f, Contents(), step, j);
          return;
        }
        FetchedWord(Contents(), srcs, j);
        NextInMax(f, xs, j);
        max := ReduceMax(f, max, x);
      }
    }

    method ReduceMaxRow(d: ReduceParam, i: nat) returns (ok: bool)
      requires Valid() && d.cols != 0
      modifies sram, ddr
      ensures var r := DoStep(f, old(Contents()), ReduceStep(d, MaxKind, i));
        ok == r.Some? && (ok ==> Contents() == r.value)
    {
      hide Contents, Load16, Store16, Store16s, U32, DoStep, Reachable, Accessible, Eval, ReduceStep, MaxOf, SumOf, ArgmaxOf, Fetch;
      ghost var was, step := Contents(), ReduceStep(d, MaxKind, i);
      ReduceStepIs(d, MaxKind, i);
      var max;
      ok, max := MaxLoop(d, i);
      if !ok {
        return;
      }
      EvalFold(f, step.op.red, Fetch(was, step.srcs));
      StepResult(f, was, step, [f.enc(max)]);
      ok := WriteResult(U32(d.dstAddr + 2 * i), max);
    }

    method SumLoop(d: ReduceParam, kind: ReduceKind, i: nat) returns (ok: bool, sum: F)
      requires Valid() && d.cols != 0 && (kind == SumKind || kind == SquareSum)
      ensures var step := ReduceStep(d, kind, i);
        |step.srcs| == d.cols &&
        if ok then (forall k | 0 <= k < d.cols :: Accessible(Sram, step.srcs[k])) && sum == SumOf(f, kind == SquareSum, Fetch(Contents(), step.srcs), d.cols)
        else DoStep(f, Contents(), step).None?
    {
      hide Contents, Load16, U32, DoStep, Accessible, ReduceStep, Fetch, SumOf, Scale;
      var square := kind == SquareSum;
      var row := U32(d.srcAddr + 2 * U32(i * d.cols));
      ghost var step := ReduceStep(d, kind, i);
      ReduceStepIs(d, kind, i);
      ghost var srcs, xs := step.srcs, Fetch(Contents(), step.srcs);
      assert |xs| == d.cols;
      var x;
      ok, x := ReadFP16(U32(row + 2 * 0));
      sum := x;
      if square {
        sum := f.mul(x, x);
      }
      FetchedWord(Contents(), srcs, 0);
      FirstInSum(f, square, xs);
      if !ok {
        SourceFails(f, Contents(), step, 0);
        return;
      }
      for j := 1 to d.cols
        invariant ok && sum == SumOf(f, square, xs, j)
        invariant forall k | 0 <= k < j :: Accessible(Sram, srcs[k])
      {
        ok, x := ReadFP16(U32(row + 2 * j));
        if !ok {
          SourceFails(f, Contents(), step, j);
          return;
        }
        FetchedWord(Contents(), srcs, j);
        NextInSum(f, square, xs, j);
        if square {
          x := f.mul(x, x);
        }
        sum := f.add(sum, x);
      }
    }

    method ReduceSumRow(d: ReduceParam, kind: ReduceKind, i: nat) returns (ok: bool)
      requires Valid() && d.cols != 0 && (kind == SumKind || kind == SquareSum)
      modifies sram, ddr
      ensures var r := DoStep(f, old(Contents()), ReduceStep(d, kind, i));
        ok == r.Some? && (ok ==> Contents() == r.value)
    {
      hide Contents, Load16, Store16, Store16s, U32, DoStep, Reachable, Accessible, Eval, ReduceStep, MaxOf, SumOf, ArgmaxOf, Fetch;
      ghost var was, step := Contents(), ReduceStep(d, kind, i);
      ReduceStepIs(d, kind, i);
      var sum;
      ok, sum := SumLoop(d, kind, i);
      if !ok {
        return;
      }
      EvalFold(f, step.op.red, Fetch(was, step.srcs));
      StepResult(f, was, step, [f.enc(sum)]);
      ok := WriteResult(U32(d.dstAddr + 2 * i), sum);
    }

    method ArgmaxLoop(d: ReduceParam, i: nat) returns (ok: bool, result: ValueIndex<F>)
      requires Valid() && d.cols != 0
      ensures var step := ReduceStep(d, Argmax, i);
        |step.srcs| == d.cols &&
        if ok then (forall k | 0 <= k < d.cols :: Accessible(Sram, step.srcs[k])) && result == ArgmaxOf(f, Fetch(Contents(), step.srcs), d.cols)
        else DoStep(f, Contents(), step).None?
    {
      hide Contents, Load16, U32, DoStep, Accessible, ReduceStep, ReduceArgmax, Fetch, ArgmaxOf;
      var row := U32(d.srcAddr + 2 * U32(i * d.cols));
      ghost var step := ReduceStep(d, Argmax, i);
      ReduceStepIs(d, Argmax, i);
      ghost var srcs, xs := step.srcs, Fetch(Contents(), step.srcs);
      var x;
      ok, x := ReadFP16(U32(row + 2 * 0));
      result := ValueIndex(x, 0);
      FetchedWord(Contents(), srcs, 0);
      FirstInArgmax(f, xs);
      if !ok {
        SourceFails(f, Contents(), step, 0);
        return;
      }
      for j := 1 to d.cols
        invariant ok && result == ArgmaxOf(f, xs, j)
        invariant forall k | 0 <= k < j :: Accessible(Sram, srcs[k])
      {
        ok, x := ReadFP16(U32(row + 2 * j));
        if !ok {
          SourceFails(f, Contents(), step, j);
          return;
        }
        FetchedWord(Contents(), srcs, j);
        NextInArgmax(f, xs, j);
        result := ReduceArgmax(f, result, ValueIndex(x, j));
      }
    }

    method ReduceArgmaxRow(d: ReduceParam, i: nat) returns (ok: bool)
      requires Valid() && d.cols != 0
      modifies sram, ddr
      ensures var r := DoStep(f, old(Contents()), ReduceStep(d, Argmax, i));
        ok == r.Some? && (ok ==> Contents() == r.value)
    {
      hide Contents, Load16, Store16, Store16s, U32, DoStep, Reachable, Accessible, Eval, ReduceStep, MaxOf, SumOf, ArgmaxOf, Fetch;
      ghost var was, step := Contents(), ReduceStep(d, Argmax, i);
      ReduceStepIs(d, Argmax, i);
      var result;
      ok, result := ArgmaxLoop(d, i);
      if !ok {
        return;
      }
      EvalFold(f, step.op.red, Fetch(was, step.srcs));
      StepResult(f, was, step, ArgmaxWords(f, result));
      ok := WriteArgmax(U32(d.dstAddr + 2 * i), U32(d.idxAddr + 4 * i), result);
    }

    /** writeFP16 of the value, then storeU32 of the index. */
    method WriteArgmax(dst: int, idx: int, r: ValueIndex<F>) returns (ok: bool)
      requires Valid()
      modifies sram, ddr
      ensures ok == Reachable(Sram, [dst, idx, idx + 2])
      ensures ok ==> Contents() == Store16s(old(Contents()), [dst, idx, idx + 2], ArgmaxWords(f, r))
    {
      hide Contents, In, Store16;
      ghost var m, addrs := Contents(), [dst, idx, idx + 2];
      ghost var ws := [f.enc(r.value), r.index % 0x1_0000, r.index / 0x1_0000 % 0x1_0000];
      ok := WriteWord(Sram, dst, f.enc(r.value));
      if !ok {
        NotReachable(Sram, addrs, 0);
        return;
      }
      ok := WriteWord(Sram, idx, r.index % 0x1_0000);
      if !ok {
        NotReachable(Sram, addrs, 1);
        return;
      }
      ok := WriteWord(Sram, idx + 2, r.index / 0x1_0000 % 0x1_0000);
      if !ok {
        NotReachable(Sram, addrs, 2);
        return;
      }
      AllReachable(Sram, addrs);
      ThreeStores(m, dst, idx, idx + 2, ws[0], ws[1], ws[2]);
    }

    method ExecReduce(d: ReduceParam) returns (ok: bool)
      requires Valid()
      modifies sram, ddr
      ensures var r := Exec(f, old(Contents()), Reduce(d)); ok == r.Some? && (ok ==> Contents() == r.value)
    {
      hide Contents, DoStep, ReduceStep;
      ghost var was := Contents();
      ok := d.rows != 0 && d.cols != 0 && (d.kind == 3 <==> d.idxAddr != 0) && d.kind < 4;
      if !ok {
        return;
      }
      ghost var steps := Steps(Reduce(d));
      NoStepsYet(f, was, steps);
      for i := 0 to d.rows
        invariant ok && DoSteps(f, was, steps[..i]) == Some(Contents())
      {
        if d.kind == 0 {
          ok := ReduceMaxRow(d, i);
        } else if d.kind == 1 {
          ok := ReduceSumRow(d, SumKind, i);
        } else if d.kind == 2 {
          ok := ReduceSumRow(d, SquareSum, i);
        } else {
          ok := ReduceArgmaxRow(d, i);
        }
        StepsNext(f, was, steps, i);
        if !ok {
          return;
        }
      }
      assert steps[..d.rows] == steps;
    }

    /* ---- dispatch ---- */

    /** CModel::exec: the descriptor is read from DDR when the instruction executes. Only DMA_STORE writes
        to DDR, so only there it matters that the loops read the fields again (`OnlyStoresWriteDdr`). */
    method ExecInstruction(i: Insn) returns (ok: bool)
      requires Valid()
      modifies sram, ddr
      ensures var r := ExecInsn(f, old(Contents()), i); ok == r.Some? && (ok ==> Contents() == r.value)
    {
      hide Contents, Steps, Asserts, Decode, DoSteps, StoreRows, In;
      EntryCases(f, Contents(), i);
      if i.op == OpSync {
        return true;
      }
      if !In(Ddr, i.desc) {
        return false;
      }
      if i.op == OpDmaStore {
        ok := ExecDmaStore(i.desc);
        return;
      }
      var instr := ReadDescriptor(i.op, i.desc);
      KindOfDecoded(i.op, Contents(), i.desc);
      match instr
      case DmaLoad(d) => ok := ExecDmaLoad(d);
      case Matmul(d) => ok := ExecMatmul(d);
      case Ewise(op, d) => ok := ExecElementwise(op, d);
      case Act(d) => ok := ExecAct(d);
      case Reduce(d) => ok := ExecReduce(d);
      case _ => assert false;
    }

    method ReadDescriptor(op: OpCode, desc: int) returns (i: Instr)
      requires Valid()
      ensures i == Decode(op, Contents(), desc)
    {
      hide Contents, In;
      match op {
        case OpDmaLoad =>
          var w := ReadFields(desc, 6);
          i := DmaLoad(DmaParam(w[0], w[1], w[2], w[3], w[4], w[5]));
        case OpDmaStore =>
          var w := ReadFields(desc, 6);
          i := DmaStore(DmaParam(w[0], w[1], w[2], w[3], w[4], w[5]));
        case OpMatmul =>
          var w := ReadFields(desc, 7);
          var ta, tb := DescByte(desc + 28), DescByte(desc + 29);
          i := Matmul(MatmulParam(w[0], w[1], w[2], w[3], w[4], w[5], w[6], ta != 0, tb != 0));
        case OpEwise(k) =>
          var w := ReadFields(desc, 7);
          i := Ewise(k, EwiseParam(w[0], w[1], w[2], w[3], w[4], w[5], w[6]));
        case OpAct =>
          var w := ReadFields(desc, 4);
          i := Act(ActParam(w[0], w[1], w[2], w[3]));
        case OpReduce =>
          var w := ReadFields(desc, 6);
          i := Reduce(ReduceParam(w[0], w[1], w[2], w[3], w[4], w[5]));
        case OpSync => i := Sync;
      }
    }

    function DescByte(a: int): (b: Byte)
      requires Valid()
      reads this, sram, ddr
      ensures b == Get(Contents(), a)
    {
      if In(Sram, a) || In(Ddr, a) then ByteAt(a) else 0
    }

    method ReadFields(desc: int, n: nat) returns (w: seq<Dword>)
      requires Valid()
      ensures |w| == n && forall k | 0 <= k < n :: w[k] == Load32(Contents(), desc + 4 * k)
    {
      hide Contents, In;
      w := [];
      for k := 0 to n
        invariant |w| == k && forall j | 0 <= j < k :: w[j] == Load32(Contents(), desc + 4 * j)
      {
        var a := desc + 4 * k;
        var b0: int, b1: int, b2: int, b3: int := DescByte(a), DescByte(a + 1), DescByte(a + 2), DescByte(a + 3);
        w := w + [b0 + 256 * b1 + 0x1_0000 * (b2 + 256 * b3)];
      }
    }

    /** Simulator::run: pop, execute, until the queue is empty. */
    method RunAll(queue: seq<Insn>) returns (ok: bool)
      requires Valid()
      modifies sram, ddr
      ensures var r := RunQueue(f, old(Contents()), queue); ok == r.Some? && (ok ==> Contents() == r.value)
    {
      hide Contents, ExecInsn;
      var rest := queue;
      ok := true;
      while rest != []
        invariant ok && RunQueue(f, old(Contents()), queue) == RunQueue(f, Contents(), rest)
        decreases |rest|
      {
        ok := ExecInstruction(rest[0]);
        if !ok {
          return;
        }
        rest := rest[1..];
      }
    }
  }

  lemma NothingStored(m: Mem, addrs: seq<int>, ws: seq<Word>)
    ensures Store16s(m, addrs[..0], ws[..0]) == m
  {
  }

  lemma NotReachable(s: Space, addrs: seq<int>, j: nat)
    requires j < |addrs| && !Accessible(s, addrs[j])
    ensures !Reachable(s, addrs)
  {
  }

  lemma AllReachable(s: Space, addrs: seq<int>)
    requires forall k | 0 <= k < |addrs| :: Accessible(s, addrs[k])
    ensures Reachable(s, addrs)
  {
  }

  predicate Accessible(s: Space, a: int) { In(s, a) && In(s, a + 1) }

  lemma {:induction false} StoreSnoc(m: Mem, addrs: seq<int>, ws: seq<Word>, j: nat)
    requires |addrs| == |ws| && j < |addrs|
    ensures Store16s(m, addrs[..j + 1], ws[..j + 1]) == Store16(Store16s(m, addrs[..j], ws[..j]), addrs[j], ws[j])
    decreases addrs
  {
    if j > 0 {
      StoreSnoc(Store16(m, addrs[0], ws[0]), addrs[1..], ws[1..], j - 1);
      assert addrs[..j + 1][1..] == addrs[1..][..j] && ws[..j + 1][1..] == ws[1..][..j];
      assert addrs[..j][1..] == addrs[1..][..j - 1] && ws[..j][1..] == ws[1..][..j - 1];
    }
  }

  /** Stores into one space leave the other alone. */
  lemma {:induction false} StoreElsewhere(m: Mem, addrs: seq<int>, ws: seq<Word>, to: Space, other: Space)
    requires |addrs| == |ws| && to != other && forall k | 0 <= k < |addrs| :: Accessible(to, addrs[k])
    ensures forall a | In(other, a) :: Get(Store16s(m, addrs, ws), a) == Get(m, a)
    decreases addrs
  {
    if addrs != [] {
      StoreElsewhere(Store16(m, addrs[0], ws[0]), addrs[1..], ws[1..], to, other);
    }
  }

  lemma LoadElsewhere(m: Mem, addrs: seq<int>, ws: seq<Word>, to: Space, other: Space, a: int)
    requires |addrs| == |ws| && to != other && forall k | 0 <= k < |addrs| :: Accessible(to, addrs[k])
    ensures Accessible(other, a) ==> Load16(Store16s(m, addrs, ws), a) == Load16(m, a)
  {
    StoreElsewhere(m, addrs, ws, to, other);
  }

  /* ---- addresses and bookkeeping of the loops ---- */

  lemma DmaRowIs(d: DmaParam, load: bool, r: nat)
    ensures DmaRow(d, load, r) ==
      if load then Step(Copy, Ddr, Row(DmaDdr(d, load, r), d.cols), Sram, Row(DmaSram(d, load, r), d.cols))
      else Step(Copy, Sram, Row(DmaSram(d, load, r), d.cols), Ddr, Row(DmaDdr(d, load, r), d.cols))
  {
  }

  lemma EntryCases<F>(f: Fpu<F>, m: Mem, i: Insn)
    ensures ExecInsn(f, m, i) ==
      if i.op == OpSync then Some(m)
      else if !In(Ddr, i.desc) then None
      else if i.op == OpDmaStore then ExecInsn(f, m, Insn(OpDmaStore, i.desc))
      else Exec(f, m, Decode(i.op, m, i.desc))
  {
    hide Exec, Decode, In, StoreRows;
  }

  lemma KindOfDecoded(op: OpCode, m: Mem, desc: int)
    ensures OpOf(Decode(op, m, desc)) == op
  {
    hide Load32;
  }

  lemma StoreEntry<F>(f: Fpu<F>, m: Mem, desc: int)
    requires In(Ddr, desc)
    ensures var d := StoreFields(m, desc);
      ExecInsn(f, m, Insn(OpDmaStore, desc))
        == if d.sramAddr % 16 == 0 && d.ddrAddr % 16 == 0 then StoreRows(f, m, desc, 0) else None
  {
    hide StoreRows, Decode;
  }

  lemma NextRow<F>(f: Fpu<F>, m: Mem, desc: int, r: nat)
    ensures var d := StoreFields(m, desc);
      StoreRows(f, m, desc, r) ==
        if r >= d.rows then Some(m)
        else if !In(Sram, DmaSram(d, false, r)) || !In(Ddr, DmaDdr(d, false, r)) then None
        else
          var next := DoStep(f, m, DmaRow(d, false, r));
          if next.Some? then StoreRows(f, next.value, desc, r + 1) else None
  {
    hide In, DoStep, DmaRow, DmaSram, DmaDdr, Decode;
  }

  lemma NoStepsYet<F>(f: Fpu<F>, m: Mem, steps: seq<Step>)
    ensures DoSteps(f, m, steps[..0]) == Some(m)
  {
  }

  /** One more step; a step that aborts aborts the whole instruction. */
  lemma StepsNext<F>(f: Fpu<F>, m: Mem, steps: seq<Step>, k: nat)
    requires k < |steps|
    ensures var before, after := DoSteps(f, m, steps[..k]), DoSteps(f, m, steps[..k + 1]);
      && after == (if before.Some? then DoStep(f, before.value, steps[k]) else None)
      && (after.None? ==> DoSteps(f, m, steps).None?)
  {
    hide DoStep;
    assert steps[..k + 1][..k] == steps[..k];
    if DoSteps(f, m, steps[..k + 1]).None? {
      StepsFail(f, m, steps, k + 1);
    }
  }

  lemma {:induction false} StepsFail<F>(f: Fpu<F>, m: Mem, steps: seq<Step>, k: nat)
    requires k <= |steps| && DoSteps(f, m, steps[..k]).None?
    ensures DoSteps(f, m, steps).None?
    decreases steps
  {
    hide DoStep;
    if k == |steps| {
      assert steps[..k] == steps;
    } else {
      assert steps[..|steps| - 1][..k] == steps[..k];
      StepsFail(f, m, steps[..|steps| - 1], k);
    }
  }

  lemma {:induction false} RowsPrefix(d: MatmulParam, m: nat, n: nat)
    requires m <= n
    ensures MatmulRows(d, m) <= MatmulRows(d, n)
  {
    if m < n {
      RowsPrefix(d, m, n - 1);
    }
  }

  lemma RowsFail<F>(f: Fpu<F>, was: Mem, d: MatmulParam, m: nat)
    requires m <= d.M && DoSteps(f, was, MatmulRows(d, m)).None?
    ensures DoSteps(f, was, MatmulSteps(d)).None?
  {
    RowsPrefix(d, m, d.M);
    var rows := MatmulRows(d, m);
    assert MatmulSteps(d)[..|rows|] == rows;
    StepsFail(f, was, MatmulSteps(d), |rows|);
  }

  lemma SingleReachable(s: Space, a: int)
    ensures Reachable(s, [a]) == Accessible(s, a)
  {
    assert [a][0] == a;
  }

  lemma SingleStore(m: Mem, a: int, w: Word)
    ensures Store16s(m, [a], [w]) == Store16(m, a, w)
  {
    assert [a][1..] == [] && [w][1..] == [];
  }

  lemma ThreeStores(m: Mem, a: int, b: int, c: int, x: Word, y: Word, z: Word)
    ensures Store16s(m, [a, b, c], [x, y, z]) == Store16(Store16(Store16(m, a, x), b, y), c, z)
  {
    assert [a, b, c][1..] == [b, c] && [x, y, z][1..] == [y, z];
    assert [b, c][1..] == [c] && [y, z][1..] == [z];
    SingleStore(Store16(Store16(m, a, x), b, y), c, z);
  }

  /* ---- what one step comes to ---- */

  lemma MatmulStepIs(d: MatmulParam, m: nat, n: nat)
    ensures var s, acc := MatmulStep(d, m, n), d.accumulate != 0;
      && s.op == Dot(d.K, acc) && s.from == Sram && s.to == Sram && s.dsts == [DstAt(d, m, n)]
      && |s.srcs| == 2 * d.K + (if acc then 1 else 0)
      && (forall k | 0 <= k < d.K :: s.srcs[k] == LhsAt(d, m, k))
      && (forall k {:trigger RhsAt(d, k, n)} | 0 <= k < d.K :: s.srcs[d.K + k] == RhsAt(d, k, n))
      && (acc ==> s.srcs[2 * d.K] == DstAt(d, m, n))
  {
    hide LhsAt, RhsAt, DstAt;
  }

  lemma FetchedWord(m: Mem, srcs: seq<int>, j: nat)
    requires j < |srcs|
    ensures |Fetch(m, srcs)| == |srcs| && Fetch(m, srcs)[j] == Load16(m, srcs[j])
  {
  }

  lemma FirstInMax<F>(f: Fpu<F>, xs: seq<Word>)
    requires xs != []
    ensures MaxOf(f, xs, 1) == f.dec(xs[0])
  {
  }

  lemma NextInMax<F>(f: Fpu<F>, xs: seq<Word>, n: nat)
    requires 1 <= n < |xs|
    ensures MaxOf(f, xs, n + 1) == ReduceMax(f, MaxOf(f, xs, n), f.dec(xs[n]))
  {
    hide ReduceMax;
  }

  lemma FirstInArgmax<F>(f: Fpu<F>, xs: seq<Word>)
    requires xs != []
    ensures ArgmaxOf(f, xs, 1) == ValueIndex(f.dec(xs[0]), 0)
  {
  }

  lemma NextInArgmax<F>(f: Fpu<F>, xs: seq<Word>, n: nat)
    requires 1 <= n < |xs|
    ensures ArgmaxOf(f, xs, n + 1) == ReduceArgmax(f, ArgmaxOf(f, xs, n), ValueIndex(f.dec(xs[n]), n))
  {
    hide ReduceArgmax;
  }

  lemma FirstInSum<F>(f: Fpu<F>, square: bool, xs: seq<Word>)
    requires xs != []
    ensures SumOf(f, square, xs, 1) == var x := f.dec(xs[0]); if square then f.mul(x, x) else x
  {
  }

  lemma NextInSum<F>(f: Fpu<F>, square: bool, xs: seq<Word>, n: nat)
    requires 1 <= n < |xs|
    ensures SumOf(f, square, xs, n + 1) == var x := f.dec(xs[n]); f.add(SumOf(f, square, xs, n), if square then f.mul(x, x) else x)
  {
  }

  lemma ReduceStepIs(d: ReduceParam, kind: ReduceKind, i: nat)
    ensures var s, row, dst, idx := ReduceStep(d, kind, i), U32(d.srcAddr + 2 * U32(i * d.cols)),
                                    U32(d.dstAddr + 2 * i), U32(d.idxAddr + 4 * i);
      && s.op == Fold(kind) && s.from == Sram && s.to == Sram
      && s.dsts == (if kind == Argmax then [dst, idx, idx + 2] else [dst])
      && |s.srcs| == d.cols && forall j | 0 <= j < d.cols :: s.srcs[j] == U32(row + 2 * j)
  {
    hide U32;
  }

  lemma SourceFails<F>(f: Fpu<F>, m: Mem, s: Step, j: nat)
    requires j < |s.srcs| && !Accessible(s.from, s.srcs[j])
    ensures DoStep(f, m, s).None?
  {
    NotReachable(s.from, s.srcs, j);
  }

  lemma EvalFails<F>(f: Fpu<F>, m: Mem, s: Step)
    requires Eval(f, s.op, Fetch(m, s.srcs)).None?
    ensures DoStep(f, m, s).None?
  {
  }

  lemma StepResult<F>(f: Fpu<F>, m: Mem, s: Step, ws: seq<Word>)
    requires (forall k | 0 <= k < |s.srcs| :: Accessible(s.from, s.srcs[k])) && |ws| == |s.dsts|
    requires Eval(f, s.op, Fetch(m, s.srcs)) == Some(ws)
    ensures DoStep(f, m, s) == if Reachable(s.to, s.dsts) then Some(Store16s(m, s.dsts, ws)) else None
  {
    AllReachable(s.from, s.srcs);
  }

  function ArgmaxWords<F>(f: Fpu<F>, r: ValueIndex<F>): seq<Word> {
    [f.enc(r.value), r.index % 0x1_0000, r.index / 0x1_0000 % 0x1_0000]
  }

  lemma NoTerms<F>(f: Fpu<F>, xs: seq<Word>, k: nat)
    requires 2 * k <= |xs|
    ensures DotSum(f, xs, k, 0) == f.zero
  {
  }

  lemma NextTerm<F>(f: Fpu<F>, m: Mem, srcs: seq<int>, n: nat, k: nat)
    requires k < n && 2 * n <= |srcs|
    ensures DotSum(f, Fetch(m, srcs), n, k + 1) ==
      f.add(DotSum(f, Fetch(m, srcs), n, k), f.mul(f.dec(Load16(m, srcs[k])), f.dec(Load16(m, srcs[n + k]))))
  {
  }

  lemma EvalDot<F>(f: Fpu<F>, xs: seq<Word>, k: nat, acc: bool)
    requires |xs| == 2 * k + if acc then 1 else 0
    ensures Eval(f, Dot(k, acc), xs) == Some([f.enc(DotValue(f, xs, k, acc))])
  {
  }

  lemma EvalArith<F>(f: Fpu<F>, kind: EwiseKind, xs: seq<Word>)
    requires |xs| == 2
    ensures Eval(f, Arith(kind), xs) ==
      if kind == Div && f.eq(f.dec(xs[1]), f.zero) then None
      else Some([f.enc(ArithValue(f, kind, f.dec(xs[0]), f.dec(xs[1])))])
  {
  }

  lemma EvalActivate<F>(f: Fpu<F>, kind: ActKind, xs: seq<Word>)
    requires |xs| == 1
    ensures Eval(f, Activate(kind), xs) == Some([f.enc(ActValue(f, kind, f.dec(xs[0])))])
  {
  }

  lemma EvalFold<F>(f: Fpu<F>, kind: ReduceKind, xs: seq<Word>)
    requires |xs| > 0
    ensures Eval(f, Fold(kind), xs) == Some(match kind
      case MaxKind => [f.enc(MaxOf(f, xs, |xs|))]
      case SumKind => [f.enc(SumOf(f, false, xs, |xs|))]
      case SquareSum => [f.enc(SumOf(f, true, xs, |xs|))]
      case Argmax => ArgmaxWords(f, ArgmaxOf(f, xs, |xs|)))
  {
  }

  lemma EmptyRun<F>(f: Fpu<F>, m: Mem)
    ensures DoSteps(f, m, []) == Some(m)
  {
  }

  function LoadRows(d: DmaParam): seq<Step> { seq(d.rows, r requires r >= 0 => DmaRow(d, true, r)) }

  lemma Misaligned<F>(f: Fpu<F>, m: Mem, d: DmaParam)
    requires !(d.sramAddr % 16 == 0 && d.ddrAddr % 16 == 0)
    ensures Exec(f, m, DmaLoad(d)).None?
  {
  }

  lemma RowOutside<F>(f: Fpu<F>, m: Mem, d: DmaParam, r: nat)
    requires r < d.rows && !(In(Sram, DmaSram(d, true, r)) && In(Ddr, DmaDdr(d, true, r)))
    ensures Exec(f, m, DmaLoad(d)).None?
  {
    hide In, DoSteps, U32;
  }

  lemma LoadStepsAre(d: DmaParam)
    requires Asserts(DmaLoad(d))
    ensures Steps(DmaLoad(d)) == LoadRows(d)
  {
    hide In, DmaRow;
  }

  lemma LoadAborts<F>(f: Fpu<F>, m: Mem, d: DmaParam)
    requires DoSteps(f, m, LoadRows(d)).None?
    ensures Exec(f, m, DmaLoad(d)).None?
  {
    hide Asserts, DoSteps, Steps;
    if Asserts(DmaLoad(d)) {
      LoadStepsAre(d);
    }
  }

  lemma LoadCompletes<F>(f: Fpu<F>, m: Mem, d: DmaParam)
    requires d.sramAddr % 16 == 0 && d.ddrAddr % 16 == 0
    requires forall k | 0 <= k < d.rows :: In(Sram, DmaSram(d, true, k)) && In(Ddr, DmaDdr(d, true, k))
    ensures Exec(f, m, DmaLoad(d)) == DoSteps(f, m, LoadRows(d))
  {
    hide In, DoSteps, Steps, U32;
    LoadStepsAre(d);
  }
}
