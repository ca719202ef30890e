/** What the hazard checker does not look at: descriptors are memory too. */
module QueueLimit {
  import opened Types
  import opened Machine
  import opened HazardChecker
  import opened HazardSoundness
  import opened Footprints
  import opened EmissionCorrect
  import opened CommandQueue
  import DmaOps

  /** A store of 16 bytes over an ACT descriptor at `slot`. */
  function Overwrite(sram: Dword, slot: Dword): Instr { DmaStore(DmaParam(sram, slot, 1, 8, 16, 16)) }

  /** An ACT over nothing. */
  const IDLE := Act(ActParam(0, 0, 0, 0))

  ghost predicate InPlace(sram: Dword, slot: Dword) {
    && sram % 16 == 0 && slot % 16 == 0
    && SRAM_ADDR <= sram && sram + 16 <= SRAM_ADDR + SRAM_SIZE && DDR_ADDR <= slot && slot + 16 <= DDR_ADDR + DDR_SIZE
  }

  lemma NoOverlap(a: Access, b: Access, sram: Dword, slot: Dword)
    requires InPlace(sram, slot)
    requires a in Reads(IDLE) || a in Writes(IDLE)
    requires b in Reads(Overwrite(sram, slot)) || b in Writes(Overwrite(sram, slot))
    ensures !Overlap(a.ranges, b.ranges)
  {
    assert a.ranges == [Interval(0, 0)];
  }

  /** The checker reports nothing about the pair, in the queue's order. */
  lemma PairIsClean(sram: Dword, slot: Dword)
    requires InPlace(sram, slot)
    ensures Clean([Overwrite(sram, slot), IDLE]) && AllPlain([Overwrite(sram, slot), IDLE])
  {
    hide Overlap, Reads, Writes;
    var p := [Overwrite(sram, slot), IDLE];
    forall v
      ensures !IsHazard(p, v)
    {
      forall a, b | a in (if v.hazard == RAW then Reads(IDLE) else Writes(IDLE))
                    && b in (if v.hazard == WAR then Reads(p[0]) else Writes(p[0]))
        ensures !Overlap(a.ranges, b.ranges)
      {
        NoOverlap(a, b, sram, slot);
      }
    }
    PairPlain(sram, slot);
  }

  lemma PairPlain(sram: Dword, slot: Dword)
    requires InPlace(sram, slot)
    ensures Plain(Overwrite(sram, slot)) && Plain(IDLE)
  {
  }

  /** The store replaces the descriptor by the 16 bytes of SRAM. */
  lemma StoreReplaces<F>(f: Fpu<F>, m: Mem, sram: Dword, slot: Dword)
    requires Full(m) && InPlace(sram, slot)
    ensures Exec(f, m, Overwrite(sram, slot)).Some?
    ensures Load32(Exec(f, m, Overwrite(sram, slot)).value, slot + 12) == Load32(m, sram + 12)
  {
    hide Full, Exec, Load16;
    var t := Fetch(m, Row(sram, 8));
    DmaOps.PackedSource(m, t, 1, 8, sram);
    DmaOps.StoreMoves(f, m, sram, slot, 1, 8, t);
    var m' := Exec(f, m, Overwrite(sram, slot)).value;
    assert Fetch(m', Row(slot, 8))[6] == t[6] && Fetch(m', Row(slot, 8))[7] == t[7];
  }

  lemma IdleRuns<F>(f: Fpu<F>, m: Mem)
    ensures Exec(f, m, IDLE) == Some(m)
  {
  }

  /** Descriptors outside all store targets is a real condition: a queue the checker passes, where
      the machine asserts in one order and not in the other. */
  lemma OverwrittenDescriptor<F>(f: Fpu<F>, m: Mem, sram: Dword, slot: Dword, other: Dword)
    requires Full(m) && InPlace(sram, slot) && In(Ddr, other) && (other + DESC_LEN <= slot || slot + 16 <= other)
    requires Decode(OpDmaStore, m, other) == Overwrite(sram, slot) && Decode(OpAct, m, slot) == IDLE
    requires Load32(m, sram + 12) >= 4
    ensures var q, q' := [Insn(OpDmaStore, other), Insn(OpAct, slot)], [Insn(OpAct, slot), Insn(OpDmaStore, other)];
      && Clean(DecodeAll(m, q)) && AllPlain(DecodeAll(m, q)) && multiset(q) == multiset(q')
      && RunQueue(f, m, q).None? && RunQueue(f, m, q').Some?
  {
    hide Full, Exec, Clean, AllPlain, Load32, Decode;
    var q, q' := [Insn(OpDmaStore, other), Insn(OpAct, slot)], [Insn(OpAct, slot), Insn(OpDmaStore, other)];
    assert DecodeAll(m, q) == [Overwrite(sram, slot), IDLE];
    PairIsClean(sram, slot);
    StoreReplaces(f, m, sram, slot);
    var m' := Exec(f, m, Overwrite(sram, slot)).value;
    StoreEntry(f, m, sram, slot, other);
    BadKind(f, m', slot);
    IdleRuns(f, m);
    assert q[1..] == [Insn(OpAct, slot)] && q'[1..] == [Insn(OpDmaStore, other)];
    RunOne(f, m', Insn(OpAct, slot));
    RunOne(f, m, Insn(OpDmaStore, other));
  }

  /** The store leaves its own descriptor alone. */
  lemma StoreEntry<F>(f: Fpu<F>, m: Mem, sram: Dword, slot: Dword, other: Dword)
    requires Full(m) && InPlace(sram, slot) && In(Ddr, other) && (other + DESC_LEN <= slot || slot + 16 <= other)
    requires Decode(OpDmaStore, m, other) == Overwrite(sram, slot)
    ensures ExecInsn(f, m, Insn(OpDmaStore, other)) == Exec(f, m, Overwrite(sram, slot))
  {
    hide Full, Exec, ExecInsn, Decode;
    PairPlain(sram, slot);
    WritesOnlySlot(sram, slot);
    StoreRunsAsDecoded(f, m, other);
  }

  lemma WritesOnlySlot(sram: Dword, slot: Dword)
    ensures forall a | a in WriteSet(Overwrite(sram, slot)) :: slot <= a < slot + 16
  {
  }

  lemma RunOne<F>(f: Fpu<F>, m: Mem, i: Insn)
    ensures RunQueue(f, m, [i]) == ExecInsn(f, m, i)
  {
    hide ExecInsn;
    assert [i][1..] == [];
  }

  lemma BadKind<F>(f: Fpu<F>, m: Mem, slot: int)
    requires Load32(m, slot + 12) >= 4
    ensures Exec(f, m, Decode(OpAct, m, slot)).None?
  {
  }

  /* ---- a store over its own descriptor ---- */

  /** Two rows of 16 bytes; the first one goes over the descriptor itself. */
  function SelfStore(sram: Dword, slot: Dword): Instr { DmaStore(DmaParam(sram, slot, 2, 8, 16, 64)) }

  ghost predicate RoomForTwo(sram: Dword, slot: Dword) {
    && InPlace(sram, slot) && sram + 32 <= SRAM_ADDR + SRAM_SIZE && slot + 80 <= DDR_ADDR + DDR_SIZE
  }

  lemma RowAddress(sram: Dword, slot: Dword, rows: Dword, r: nat)
    requires InPlace(sram, slot) && (r == 0 || (r == 1 && RoomForTwo(sram, slot)))
    ensures var d := DmaParam(sram, slot, rows, 8, 16, 64); DmaSram(d, false, r) == sram + 16 * r && DmaDdr(d, false, r) == slot + 64 * r
    ensures var d := DmaParam(sram, slot, rows, 8, 16, 16); r == 0 ==> DmaSram(d, false, r) == sram && DmaDdr(d, false, r) == slot
  {
  }

  lemma OverwriteStep(sram: Dword, slot: Dword)
    requires InPlace(sram, slot)
    ensures Asserts(Overwrite(sram, slot))
    ensures Steps(Overwrite(sram, slot)) == [Step(Copy, Sram, Row(sram, 8), Ddr, Row(slot, 8))]
  {
    RowAddress(sram, slot, 1, 0);
    hide DmaSram, DmaDdr, Row;
  }

  lemma SelfSteps(sram: Dword, slot: Dword)
    requires RoomForTwo(sram, slot)
    ensures Asserts(SelfStore(sram, slot)) && Asserts(Overwrite(sram, slot)) && Asserts(Overwrite(sram + 16, slot + 64))
    ensures var d, x, y := SelfStore(sram, slot).dma, DmaRow(SelfStore(sram, slot).dma, false, 0), DmaRow(SelfStore(sram, slot).dma, false, 1);
      && Steps(SelfStore(sram, slot)) == [x, y]
      && Steps(Overwrite(sram, slot)) == [x] && Steps(Overwrite(sram + 16, slot + 64)) == [y]
      && In(Sram, DmaSram(d, false, 0)) && In(Ddr, DmaDdr(d, false, 0))
  {
    RowAddress(sram, slot, 2, 0);
    RowAddress(sram, slot, 2, 1);
    OverwriteStep(sram, slot);
    OverwriteStep(sram + 16, slot + 64);
    hide DmaSram, DmaDdr, Row;
  }

  lemma OneStep<F>(f: Fpu<F>, m: Mem, x: Step)
    ensures DoSteps(f, m, [x]) == DoStep(f, m, x)
  {
    hide DoStep;
    assert [x][..0] == [];
  }

  lemma TwoSteps<F>(f: Fpu<F>, m: Mem, x: Step, y: Step)
    ensures DoSteps(f, m, [x, y]) == var r := DoStep(f, m, x); if r.Some? then DoStep(f, r.value, y) else None
  {
    hide DoStep;
    assert [x, y][..1] == [x];
    OneStep(f, m, x);
  }

  /** One row of 16 bytes leaves the words outside its target alone and copies its first word. */
  lemma RowStored<F>(f: Fpu<F>, m: Mem, sram: Dword, slot: Dword, b: int)
    requires Full(m) && InPlace(sram, slot)
    ensures var r := Exec(f, m, Overwrite(sram, slot));
      && r.Some? && Full(r.value) && Load16(r.value, slot) == Load16(m, sram)
      && Load32(r.value, slot + 8) == Load32(m, sram + 8)
      && (b + 2 <= slot || slot + 16 <= b ==> Load16(r.value, b) == Load16(m, b))
  {
    hide Full, Exec, Load16;
    var t := Fetch(m, Row(sram, 8));
    DmaOps.PackedSource(m, t, 1, 8, sram);
    DmaOps.StoreMoves(f, m, sram, slot, 1, 8, t);
    var m' := Exec(f, m, Overwrite(sram, slot)).value;
    assert Fetch(m', Row(slot, 8))[0] == t[0] && Fetch(m', Row(slot, 8))[4] == t[4] && Fetch(m', Row(slot, 8))[5] == t[5];
    if b + 2 <= slot || slot + 16 <= b {
      assert RangesApart(slot, 8, b, 1);
      assert Fetch(m', Row(b, 1))[0] == Fetch(m, Row(b, 1))[0];
    }
  }

  /** As decoded, both rows are stored. */
  lemma SelfAsDecoded<F>(f: Fpu<F>, m: Mem, sram: Dword, slot: Dword)
    requires Full(m) && RoomForTwo(sram, slot)
    ensures var r := Exec(f, m, SelfStore(sram, slot)); r.Some? && Load16(r.value, slot + 64) == Load16(m, sram + 16)
  {
    hide Full, Load16, DoStep, DmaRow, Asserts, Steps;
    SelfSteps(sram, slot);
    var d := SelfStore(sram, slot).dma;
    var x, y := DmaRow(d, false, 0), DmaRow(d, false, 1);
    RowStored(f, m, sram, slot, sram + 16);
    var m1 := Exec(f, m, Overwrite(sram, slot)).value;
    RowStored(f, m1, sram + 16, slot + 64, 0);
    TwoSteps(f, m, x, y);
    OneStep(f, m, x);
    OneStep(f, m1, y);
  }

  /** On the machine the first row replaces the row count, and the loop ends. */
  lemma SelfEndsEarly<F>(f: Fpu<F>, m: Mem, sram: Dword, slot: Dword)
    requires Full(m) && RoomForTwo(sram, slot) && Decode(OpDmaStore, m, slot) == SelfStore(sram, slot)
    requires Load32(m, sram + 8) <= 1
    ensures var r := ExecInsn(f, m, Insn(OpDmaStore, slot)); r.Some? && Load16(r.value, slot + 64) == Load16(m, slot + 64)
  {
    hide Full, Load16, Load32, DoStep, DmaRow, DmaSram, DmaDdr, Asserts, Steps;
    SelfSteps(sram, slot);
    var d := SelfStore(sram, slot).dma;
    OneStep(f, m, DmaRow(d, false, 0));
    RowStored(f, m, sram, slot, slot + 64);
    var m1 := Exec(f, m, Overwrite(sram, slot)).value;
    assert StoreFields(m1, slot).rows <= 1;
    assert StoreRows(f, m1, slot, 1) == Some(m1);
    assert StoreFields(m, slot) == d;
    assert StoreRows(f, m, slot, 0) == Some(m1);
  }

  /** Reading the fields again in every row is a real difference: a store that passes the checker, alone
      in its queue, leaves another memory than the instruction it decodes to. */
  lemma OwnDescriptor<F>(f: Fpu<F>, m: Mem, sram: Dword, slot: Dword)
    requires Full(m) && RoomForTwo(sram, slot) && Decode(OpDmaStore, m, slot) == SelfStore(sram, slot)
    requires Load32(m, sram + 8) <= 1 && Load16(m, sram + 16) != Load16(m, slot + 64)
    ensures var q := [Insn(OpDmaStore, slot)]; var r, r' := RunQueue(f, m, q), Run(f, m, DecodeAll(m, q));
      && Clean(DecodeAll(m, q)) && AllPlain(DecodeAll(m, q))
      && r.Some? && r'.Some? && Load16(r.value, slot + 64) != Load16(r'.value, slot + 64)
  {
    hide Full, Exec, ExecInsn, Load16, Load32, Decode;
    var q := [Insn(OpDmaStore, slot)];
    assert DecodeAll(m, q) == [SelfStore(sram, slot)];
    AloneIsClean(SelfStore(sram, slot));
    SelfIsPlain(sram, slot);
    SelfAsDecoded(f, m, sram, slot);
    SelfEndsEarly(f, m, sram, slot);
    RunOne(f, m, q[0]);
    assert [SelfStore(sram, slot)][1..] == [];
  }

  lemma SelfIsPlain(sram: Dword, slot: Dword)
    requires RoomForTwo(sram, slot)
    ensures AllPlain([SelfStore(sram, slot)])
  {
  }

  lemma AloneIsClean(i: Instr)
    ensures Clean([i])
  {
    hide Reads, Writes, Overlap;
  }
}
