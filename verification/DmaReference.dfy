/** The RTL engine against the reference machine: the same SRAM contents as `execDmaLoad`, and the
    burst count of `cyclesDma`. */
module DmaReference {
  import opened Arithmetic
  import opened Types
  import M = Machine
  import opened DmaEngine
  import opened DmaTransfer
  import opened DmaRun
  import DmaOverCrossbar
  import Crossbar
  import DmaOps
  import EmissionCorrect

  const DMA_BURST_BYTES := 16
  const DMA_BYTES_PER_CYCLE := 32
  const DMA_FIXED_OVERHEAD := 16

  /* ---- cycles ---- */

  /** The descriptor as the engine sees it; its dstStride input does not exist. */
  function DescOf(d: M.DmaParam): Desc { Desc(d.sramAddr, d.ddrAddr, d.rows, d.cols, d.srcStride) }

  /** The engine's view of a DMA_LOAD; for a DMA_STORE the DDR side has the other pitch. */
  function DdrSide(d: M.DmaParam, isLoad: bool): Desc { DescOf(if isLoad then d else d.(srcStride := d.dstStride)) }

  /** The bursts cyclesDma counts for row `i`, in 32 bits. */
  function RowCharge(e: Desc, i: nat): M.Dword {
    var start := M.U32(e.ddrAddr + M.U32(e.srcStride * i));
    M.U32(M.U32(M.U32(start + M.U32(e.cols * 2)) - 1) / DMA_BURST_BYTES - start / DMA_BURST_BYTES + 1)
  }

  function Charge(e: Desc, n: nat): nat { if n == 0 then 0 else Charge(e, n - 1) + RowCharge(e, n - 1) }

  function U64(x: int): int { x % 0x1_0000_0000_0000_0000 }

  /** What the machine charges for a transfer, for any descriptor. */
  function DmaCycles(e: Desc): int {
    U64(U64(Charge(e, e.rows) * DMA_BURST_BYTES) + DMA_BYTES_PER_CYCLE - 1) / DMA_BYTES_PER_CYCLE + DMA_FIXED_OVERHEAD
  }

  /** cyclesDma. For a legal descriptor it charges the cycles in which the engine issues bursts. */
  method CyclesDma(d: M.DmaParam, isLoad: bool) returns (cycles: int)
    ensures cycles == DmaCycles(DdrSide(d, isLoad))
    ensures Legal(DdrSide(d, isLoad)) ==> cycles == IssueCycles(DdrSide(d, isLoad)) + 16
  {
    hide M.U32, U64, IssueCycles, Legal;
    var stride := if isLoad then d.srcStride else d.dstStride;
    ghost var e := DdrSide(d, isLoad);
    var rowBytes := M.U32(d.cols * 2);
    var bursts: nat := 0;
    for i := 0 to d.rows
      invariant bursts == Charge(e, i)
    {
      var start := M.U32(d.ddrAddr + M.U32(stride * i));
      bursts := bursts + M.U32(M.U32(M.U32(start + rowBytes) - 1) / DMA_BURST_BYTES - start / DMA_BURST_BYTES + 1);
    }
    cycles := U64(U64(bursts * DMA_BURST_BYTES) + DMA_BYTES_PER_CYCLE - 1) / DMA_BYTES_PER_CYCLE + DMA_FIXED_OVERHEAD;
    if Legal(e) {
      LegalCycles(e);
    }
  }

  lemma LegalCycles(e: Desc)
    requires Legal(e)
    ensures DmaCycles(e) == IssueCycles(e) + DMA_FIXED_OVERHEAD
  {
    LegalCharge(e, e.rows);
    RowCount(e);
    hide Legal, BurstsBefore, Charge, U64;
    EvenCeil(Charge(e, e.rows));
  }

  lemma RowCount(e: Desc)
    requires Legal(e)
    ensures e.rows <= 0xFFFF_FFFF
  {
  }

  /** A sum of less than 2^60 bursts does not wrap around in 64 bits. */
  lemma EvenCeil(b: nat)
    requires b <= 0xFFFF_FFFF * 0x1000_0000
    ensures U64(U64(b * 16) + 31) / 32 == (b + 1) / 2
  {
    assert b * 16 + 31 < 0x1_0000_0000_0000_0000;
  }

  lemma LegalRowCharge(e: Desc, i: nat)
    requires Legal(e) && i < e.rows
    ensures RowCharge(e, i) == BurstsBefore(e, i + 1) - BurstsBefore(e, i) <= 0x1000_0000
  {
    hide M.U32, RowBursts, RowStart, Bounded, BurstsBefore;
    RowStartFits(e, i);
    LegalIsBounded(e);
    RowInBounds(e, i);
    RowBurstsFit(e, RowStart(e, i), M.U32(e.cols * 2));
  }

  lemma {:induction false} LegalCharge(e: Desc, n: nat)
    requires Legal(e) && n <= e.rows
    ensures Charge(e, n) == BurstsBefore(e, n) <= n * 0x1000_0000
  {
    hide Legal, RowCharge, RowBursts, RowStart;
    if n > 0 {
      LegalCharge(e, n - 1);
      LegalRowCharge(e, n - 1);
    }
  }

  lemma RowStartFits(e: Desc, i: nat)
    requires Legal(e) && i < e.rows
    ensures M.U32(e.ddrAddr + M.U32(e.srcStride * i)) == RowStart(e, i)
    ensures RowStart(e, i) + 2 * e.cols <= M.TWO_32
  {
    RowSums(e, i);
    MulMonotone(e.srcStride, i, e.rows - 1);
    MulMonotone(e.srcStride, 0, i);
    SmallSum(e.ddrAddr, e.srcStride * i);
    assert e.srcStride * (e.rows - 1) == (e.rows - 1) * e.srcStride;
  }

  lemma SmallSum(a: nat, b: nat)
    requires a + b < M.TWO_32
    ensures M.U32(a + M.U32(b)) == a + b
  {
  }

  /** The end of a row may be 2^32 itself; the subtraction wraps back. */
  lemma RowBurstsFit(e: Desc, start: nat, rowBytes: nat)
    requires 1 <= e.cols < 0x8000_0000 && rowBytes == M.U32(e.cols * 2) && start + 2 * e.cols <= M.TWO_32
    ensures M.U32(M.U32(M.U32(start + rowBytes) - 1) / 16 - start / 16 + 1) == RowBursts(e, start) <= 0x1000_0000
  {
    EndOfRow(start, e.cols);
    var last := start + 2 * e.cols - 1;
    hide M.U32;
    BlocksBetween(start, last);
  }

  lemma EndOfRow(start: nat, cols: nat)
    requires 1 <= cols < 0x8000_0000 && start + 2 * cols <= M.TWO_32
    ensures M.U32(M.U32(start + M.U32(cols * 2)) - 1) == start + 2 * cols - 1
  {
    assert M.U32(cols * 2) == cols * 2;
  }

  lemma BlocksBetween(start: nat, last: nat)
    requires start <= last < M.TWO_32
    ensures var n := last / 16 - start / 16 + 1; 1 <= n <= 0x1000_0000 && M.U32(n) == n
  {
  }

  /** What the machine charges for a transfer and what the engine takes differ by the constant
      overheads alone. */
  lemma CyclesMatchEngine(p: Params, e: Desc)
    requires ValidParams(p) && Legal(e)
    ensures TransferCycles(p, e) + 16 == DmaCycles(e) + p.latency + 3
  {
    LegalCycles(e);
  }

  /** One aligned row of 8 words is one burst, and is charged 17 cycles; two such rows share one cycle of
      issue, a third takes another. */
  lemma ChargeOfShortRows(e: Desc)
    requires Legal(e) && e.cols == 8 && e.srcStride % 16 == 0 && e.rows <= 3
    ensures DmaCycles(e) == if e.rows == 3 then 18 else 17
  {
    assert 1 <= e.rows;
    hide Legal, RowCharge;
    forall i: nat | i < e.rows
      ensures RowCharge(e, i) == 1
    {
      ShortRow(e, i);
    }
    OneEach(e, e.rows);
    EvenCeil(e.rows);
  }

  lemma {:induction false} OneEach(e: Desc, n: nat)
    requires forall i: nat | i < n :: RowCharge(e, i) == 1
    ensures Charge(e, n) == n
  {
    hide RowCharge;
    if n > 0 {
      OneEach(e, n - 1);
    }
  }

  lemma ShortRow(e: Desc, i: nat)
    requires Legal(e) && e.cols == 8 && e.srcStride % 16 == 0 && i < e.rows
    ensures RowCharge(e, i) == 1
  {
    RowStartFits(e, i);
    var k := e.srcStride / 16;
    assert e.srcStride == 16 * k;
    var start := RowStart(e, i);
    assert start % 16 == 0 by { AlignedRow(e, i, k); }
    hide Legal, RowStart;
    OneBurst(start);
  }

  lemma AlignedRow(e: Desc, i: nat, k: nat)
    requires Legal(e) && e.srcStride == 16 * k && i < e.rows
    ensures RowStart(e, i) % 16 == 0
  {
    RowSums(e, i);
    assert e.ddrAddr % 16 == 0;
    hide Legal, RowStart;
    assert e.srcStride * i == 16 * (k * i);
    ModUnique(e.ddrAddr + 16 * (k * i), e.ddrAddr / 16 + k * i, 0, 16);
  }

  lemma OneBurst(start: nat)
    requires start % 16 == 0 && start + 16 <= M.TWO_32
    ensures M.U32(M.U32(M.U32(start + M.U32(16)) - 1) / DMA_BURST_BYTES - start / DMA_BURST_BYTES + 1) == 1
  {
  }

  /* ---- contents ---- */

  /** The engine's SRAM covers the machine's: 2^18 words. */
  predicate Covers(p: Params) { ValidParams(p) && p.aw == 18 }

  /** SRAM as words. */
  function SramWords(m: M.Mem, n: nat): seq<nat> { seq(n, x requires x >= 0 => M.Load16(m, M.SRAM_ADDR + 2 * x)) }

  function DdrOf(m: M.Mem): Ddr { a => M.Get(m, a) }

  /** Writes to consecutive words. */
  lemma {:induction false} ConsecutiveWrites(mem: seq<nat>, ws: seq<Write>, base: nat, x: nat)
    requires base + |ws| <= |mem| && x < |mem| && forall k | 0 <= k < |ws| :: ws[k].addr == base + k
    ensures Crossbar.ApplyWrites(mem, ws)[x] == if base <= x < base + |ws| then ws[x - base].data else mem[x]
    decreases ws
  {
    if ws != [] {
      ConsecutiveWrites(Crossbar.ApplyWrite(mem, ws[0]), ws[1..], base + 1, x);
    }
  }

  /** A load whose rectangles lie inside the memories, packed in SRAM. */
  ghost predicate InMemory(d: M.DmaParam) {
    DmaOps.Placed(d.sramAddr, d.ddrAddr, d.rows, d.cols, d.srcStride) && d.dstStride == 2 * d.cols && d.srcStride % 2 == 0
  }

  lemma InMemoryIsLegal(d: M.DmaParam)
    requires InMemory(d)
    ensures Legal(DescOf(d))
  {
    RectEnd(d);
  }

  lemma RectEnd(d: M.DmaParam)
    requires InMemory(d)
    ensures (d.rows - 1) * d.srcStride == d.srcStride * (d.rows - 1)
  {
  }

  /** The tensor a load reads. */
  function Source(m: M.Mem, d: M.DmaParam): seq<M.Word>
    requires d.cols > 0
  {
    seq(d.rows * d.cols, e requires e >= 0 => M.Load16(m, d.ddrAddr + d.srcStride * (e / d.cols) + 2 * (e % d.cols)))
  }

  lemma SourceRead(m: M.Mem, d: M.DmaParam)
    requires InMemory(d)
    ensures EmissionCorrect.SourceIs(m, Source(m, d), d.rows, d.cols, d.ddrAddr, d.srcStride)
  {
    hide M.Load16;
    forall i: nat, j: nat | i < d.rows && j < d.cols
      ensures EmissionCorrect.SourceWord(m, Source(m, d), i, j, d.cols, d.ddrAddr, d.srcStride)
    {
      RowMajor(i, j, d.rows, d.cols);
      MulMonotone(d.cols, 0, i);
      DivModOfMulAdd(i, j, d.cols);
    }
  }

  /** The SRAM word `x` after the machine's load. */
  lemma MachineWord<F>(f: M.Fpu<F>, m: M.Mem, d: M.DmaParam, x: nat)
    requires M.Full(m) && InMemory(d) && x < 0x4_0000
    ensures M.Exec(f, m, M.DmaLoad(d)).Some?
    ensures var base := (d.sramAddr - M.SRAM_ADDR) / 2;
      M.Load16(M.Exec(f, m, M.DmaLoad(d)).value, M.SRAM_ADDR + 2 * x)
        == if base <= x < base + d.rows * d.cols then Source(m, d)[x - base] else M.Load16(m, M.SRAM_ADDR + 2 * x)
  {
    hide M.Load16, M.Full, M.Exec, EmissionCorrect.SourceIs, DmaOps.Placed, M.Fetch, M.Row, EmissionCorrect.RangesApart;
    Inside(d);
    SourceRead(m, d);
    SourceSize(m, d);
    DmaOps.LoadMoves(f, m, d.sramAddr, d.ddrAddr, d.rows, d.cols, d.srcStride, Source(m, d));
    LoadParamIs(d);
    var m' := M.Exec(f, m, M.DmaLoad(d)).value;
    SramAligned(d);
    WordAfter(m, m', d, Source(m, d), x);
  }

  lemma SourceSize(m: M.Mem, d: M.DmaParam)
    requires InMemory(d)
    ensures |Source(m, d)| == d.rows * d.cols
  {
  }

  lemma LoadParamIs(d: M.DmaParam)
    requires InMemory(d)
    ensures DmaOps.LoadParam(d.sramAddr, d.ddrAddr, d.rows, d.cols, d.srcStride) == d
  {
  }

  lemma SramAligned(d: M.DmaParam)
    requires InMemory(d)
    ensures d.sramAddr == M.SRAM_ADDR + 2 * ((d.sramAddr - M.SRAM_ADDR) / 2) && d.sramAddr >= M.SRAM_ADDR
  {
  }

  lemma WordAfter(m: M.Mem, m': M.Mem, d: M.DmaParam, t: seq<M.Word>, x: nat)
    requires d.sramAddr == M.SRAM_ADDR + 2 * ((d.sramAddr - M.SRAM_ADDR) / 2) && |t| == d.rows * d.cols
    requires EmissionCorrect.Holds(m', d.sramAddr, t)
    requires forall b: int, n: nat {:trigger M.Row(b, n)} | EmissionCorrect.RangesApart(d.sramAddr, d.rows * d.cols, b, n) ::
      M.Fetch(m', M.Row(b, n)) == M.Fetch(m, M.Row(b, n))
    ensures var base := (d.sramAddr - M.SRAM_ADDR) / 2;
      M.Load16(m', M.SRAM_ADDR + 2 * x) == if base <= x < base + |t| then t[x - base] else M.Load16(m, M.SRAM_ADDR + 2 * x)
  {
    hide M.Load16;
    var base, a := (d.sramAddr - M.SRAM_ADDR) / 2, M.SRAM_ADDR + 2 * x;
    if base <= x < base + |t| {
      assert M.Fetch(m', M.Row(d.sramAddr, |t|))[x - base] == M.Load16(m', d.sramAddr + 2 * (x - base));
    } else {
      assert EmissionCorrect.RangesApart(d.sramAddr, d.rows * d.cols, a, 1);
      assert M.Fetch(m', M.Row(a, 1))[0] == M.Load16(m', a);
      assert M.Fetch(m, M.Row(a, 1))[0] == M.Load16(m, a);
    }
  }

  /** The engine's writes, applied to the machine's SRAM. */
  lemma EngineWord(p: Params, m: M.Mem, d: M.DmaParam, x: nat)
    requires Covers(p) && InMemory(d) && x < 0x4_0000
    ensures |Crossbar.ApplyWrites(SramWords(m, 0x4_0000), Transfer(p, DescOf(d), DdrOf(m)))| == 0x4_0000
    ensures var base := (d.sramAddr - M.SRAM_ADDR) / 2;
      Crossbar.ApplyWrites(SramWords(m, 0x4_0000), Transfer(p, DescOf(d), DdrOf(m)))[x]
        == if base <= x < base + d.rows * d.cols then Source(m, d)[x - base] else M.Load16(m, M.SRAM_ADDR + 2 * x)
  {
    hide M.Load16, DmaOps.Placed, Transfer, SramWords, Crossbar.ApplyWrites, Source, Covers, InMemory;
    SramAligned(d);
    Inside(d);
    var base, ws := (d.sramAddr - M.SRAM_ADDR) / 2, Transfer(p, DescOf(d), DdrOf(m));
    EngineWrites(p, m, d);
    SramLength(m, 0x4_0000);
    ConsecutiveWrites(SramWords(m, 0x4_0000), ws, base, x);
  }

  lemma SramLength(m: M.Mem, n: nat)
    ensures |SramWords(m, n)| == n && forall x: nat | x < n :: SramWords(m, n)[x] == M.Load16(m, M.SRAM_ADDR + 2 * x)
  {
    hide M.Load16;
  }

  lemma EngineWrites(p: Params, m: M.Mem, d: M.DmaParam)
    requires Covers(p) && InMemory(d)
    ensures d.cols > 0
    ensures var ws := Transfer(p, DescOf(d), DdrOf(m));
      |ws| == d.rows * d.cols
      && forall k | 0 <= k < |ws| :: ws[k].addr == (d.sramAddr - M.SRAM_ADDR) / 2 + k && ws[k].data == Source(m, d)[k]
  {
    hide M.Load16, DmaOps.Placed, TransferWrite, Source, Covers, InMemory;
    Inside(d);
    SourceSize(m, d);
    var ws := Transfer(p, DescOf(d), DdrOf(m));
    forall k | 0 <= k < |ws|
      ensures ws[k].addr == (d.sramAddr - M.SRAM_ADDR) / 2 + k && ws[k].data == Source(m, d)[k]
    {
      EngineWrite(p, m, d, k);
    }
  }

  lemma Inside(d: M.DmaParam)
    requires InMemory(d)
    ensures (d.sramAddr - M.SRAM_ADDR) / 2 + d.rows * d.cols <= 0x4_0000 && d.cols > 0
  {
  }

  lemma EngineWrite(p: Params, m: M.Mem, d: M.DmaParam, k: nat)
    requires Covers(p) && InMemory(d) && k < d.rows * d.cols
    ensures d.cols > 0
    ensures var w := TransferWrite(p, DescOf(d), DdrOf(m), k);
      w.addr == (d.sramAddr - M.SRAM_ADDR) / 2 + k && w.data == Source(m, d)[k]
  {
    Inside(d);
    SramAligned(d);
    EighteenBits(p);
    var base := (d.sramAddr - M.SRAM_ADDR) / 2;
    ModUnique(d.sramAddr / 2 + k, M.SRAM_ADDR / 2 / 0x4_0000, base + k, 0x4_0000);
  }

  lemma EighteenBits(p: Params)
    requires Covers(p)
    ensures Words(p) == 0x4_0000
  {
    assert Pow2(8) == 0x100;
    assert Pow2(10) == 0x400 by { assert Pow2(10) == 4 * Pow2(8); }
    Pow2Add(8, 10);
  }

  /** Refinement: after `done`, the SRAM behind the engine is the SRAM of the reference machine after
      the same DMA_LOAD, word for word, and the machine did not assert. */
  lemma EngineRefinesMachine<F>(f: M.Fpu<F>, p: Params, m: M.Mem, d: M.DmaParam, starts: nat -> bool, s: System)
    requires Covers(p) && M.Full(m) && InMemory(d) && Shaped(p, s)
    requires s.regs.state == Idle && Quiet(s) && starts(0) && s.log == []
    ensures M.Exec(f, m, M.DmaLoad(d)).Some?
    ensures var s' := Trace(p, DescOf(d), DdrOf(m), starts, s, TransferCycles(p, DescOf(d)));
      && s'.regs.state == Done && Quiet(s')
      && Crossbar.ApplyWrites(SramWords(m, 0x4_0000), s'.log) == SramWords(M.Exec(f, m, M.DmaLoad(d)).value, 0x4_0000)
  {
    hide M.Load16, M.Exec, M.Full, Trace, Transfer, Quiet, Crossbar.ApplyWrites, InMemory;
    InMemoryIsLegal(d);
    TransferCompletes(p, DescOf(d), DdrOf(m), starts, s);
    var ws := Transfer(p, DescOf(d), DdrOf(m));
    assert [] + ws == ws;
    var after := Crossbar.ApplyWrites(SramWords(m, 0x4_0000), ws);
    MachineWord(f, m, d, 0);
    var expected := SramWords(M.Exec(f, m, M.DmaLoad(d)).value, 0x4_0000);
    forall x: nat | x < 0x4_0000
      ensures after[x] == expected[x]
    {
      EngineWord(p, m, d, x);
      MachineWord(f, m, d, x);
    }
    assert after == expected;
  }

  /** The same through the banked SRAM: with plain mapping the engine drives the crossbar and the
      banks, read as one flat memory, end up as the machine's SRAM. */
  lemma BankedEngineRefinesMachine<F>(f: M.Fpu<F>, p: Params, m: M.Mem, d: M.DmaParam, starts: nat -> bool, s: System,
                                      g: Crossbar.Geometry, banks: Crossbar.Banks)
    requires Covers(p) && DmaOverCrossbar.Fits(p, g) && M.Full(m) && InMemory(d) && Shaped(p, s)
    requires s.regs.state == Idle && Quiet(s) && starts(0)
    requires Crossbar.ValidBanks(g, banks) && Crossbar.Flat(g, banks) == SramWords(m, 0x4_0000)
    ensures M.Exec(f, m, M.DmaLoad(d)).Some?
    ensures var after := DmaOverCrossbar.BanksAfter(p, DescOf(d), DdrOf(m), starts, s, g, banks, TransferCycles(p, DescOf(d)));
      && Crossbar.ValidBanks(g, after)
      && Crossbar.Flat(g, after) == SramWords(M.Exec(f, m, M.DmaLoad(d)).value, 0x4_0000)
  {
    hide M.Load16, M.Exec, M.Full, Trace, Transfer, Quiet, Crossbar.ApplyWrites, InMemory, Crossbar.ValidBanks, Crossbar.Flat,
      DmaOverCrossbar.BanksAfter, DmaOverCrossbar.Fits, TransferCycles;
    InMemoryIsLegal(d);
    DmaOverCrossbar.TransferThroughCrossbar(p, DescOf(d), DdrOf(m), starts, s, g, banks);
    MachineWord(f, m, d, 0);
    var ws := Transfer(p, DescOf(d), DdrOf(m));
    var after := Crossbar.ApplyWrites(SramWords(m, 0x4_0000), ws);
    var expected := SramWords(M.Exec(f, m, M.DmaLoad(d)).value, 0x4_0000);
    forall x: nat | x < 0x4_0000
      ensures after[x] == expected[x]
    {
      EngineWord(p, m, d, x);
      MachineWord(f, m, d, x);
    }
    assert after == expected;
  }
}
