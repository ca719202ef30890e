/** The DMA_LOAD engine: burst arithmetic, registers and write port of `rtl/dma/dma.sv`,
    clocked together with a DDR that answers `latency` cycles after each request. */
module DmaEngine {
  import opened Arithmetic
  import opened Types

  const TWO_32 := 0x1_0000_0000

  /** The contents of DDR, by byte address. */
  type Ddr = int -> Byte

  datatype Params = Params(nbank: nat, aw: nat, latency: nat)

  predicate ValidParams(p: Params) { p.nbank >= 16 && p.aw >= 5 && p.latency >= 1 }

  datatype Desc = Desc(sramAddr: nat, ddrAddr: nat, rows: nat, cols: nat, srcStride: nat)

  /** What the engine is built for: at least one element, 16-byte aligned bases, an even row
      pitch, and a source rectangle that does not wrap around the 32-bit address space. */
  predicate Legal(d: Desc) {
    && 1 <= d.rows < TWO_32 && 1 <= d.cols < 0x8000_0000
    && d.sramAddr % 16 == 0 && d.ddrAddr % 16 == 0 && d.srcStride % 2 == 0
    && d.ddrAddr + (d.rows - 1) * d.srcStride + 2 * d.cols <= TWO_32
  }

  /* ---- burst arithmetic ---- */

  /** st_row, st_rstart, st_blk, st_left. */
  datatype Cursor = Cursor(row: nat, rstart: nat, blk: nat, left: nat)

  function Align16(a: nat): nat { a / 16 * 16 }

  function RowBytes(d: Desc): nat { d.cols * 2 % TWO_32 }

  function Lo(c: Cursor): nat { if c.blk == Align16(c.rstart) then c.rstart % 16 else 0 }

  function Take(c: Cursor): nat { if c.left < 16 - Lo(c) then c.left else 16 - Lo(c) }

  function First(d: Desc): Cursor { Cursor(0, d.ddrAddr, Align16(d.ddrAddr), RowBytes(d)) }

  /** One burst consumed. Bursts A and B of a cycle are this function applied once and twice. */
  function Advance(d: Desc, c: Cursor): Cursor {
    var left := c.left - Take(c);
    if left == 0 then
      var rstart := (c.rstart + d.srcStride) % TWO_32;
      Cursor((c.row + 1) % TWO_32, rstart, Align16(rstart), RowBytes(d))
    else
      Cursor(c.row, c.rstart, (c.blk + 16) % TWO_32, left)
  }

  /* ---- registers ---- */

  datatype Fsm = Idle | Check | Run | Done

  /** One stage of the write-command pipeline. */
  datatype Cmd = Cmd(v0: bool, v1: bool, addr: nat, lo0: nat, n0: nat, lo1: nat, n1: nat)

  datatype Regs = Regs(state: Fsm, cur: Cursor, wptr: nat, pl: seq<Cmd>)

  function Words(p: Params): (r: nat)
    ensures r >= 1
  {
    Pow2(p.aw)
  }

  predicate AlignedOk(d: Desc) { d.sramAddr % 16 == 0 && d.ddrAddr % 16 == 0 }

  predicate Issue0(d: Desc, r: Regs) { r.state == Run && r.cur.row < d.rows }

  predicate Issue1(d: Desc, r: Regs) { Issue0(d, r) && Advance(d, r.cur).row < d.rows }

  function Command(d: Desc, r: Regs): Cmd {
    var b := Advance(d, r.cur);
    Cmd(Issue0(d, r), Issue1(d, r), r.wptr, Lo(r.cur) / 2, Take(r.cur) / 2,
        Lo(b) / 2, if Issue1(d, r) then Take(b) / 2 else 0)
  }

  predicate PipeEmpty(pl: seq<Cmd>) { forall i | 0 <= i < |pl| :: !pl[i].v0 && !pl[i].v1 }

  function NextState(d: Desc, start: bool, r: Regs): Fsm {
    match r.state
    case Idle => if start then Check else Idle
    case Check => if AlignedOk(d) then Run else Idle
    case Run => if !Issue0(d, r) && PipeEmpty(r.pl) then Done else Run
    case Done => Idle
  }

  /** The registers after a rising edge with rst_n high. */
  function Next(p: Params, d: Desc, start: bool, r: Regs): Regs
    requires ValidParams(p) && |r.pl| == p.latency
  {
    var b := Advance(d, r.cur);
    var pl := [Command(d, r)] + r.pl[..p.latency - 1];
    if r.state == Check && AlignedOk(d) then
      Regs(NextState(d, start, r), First(d), d.sramAddr / 2 % Words(p), pl)
    else if Issue0(d, r) then
      Regs(NextState(d, start, r), if Issue1(d, r) then Advance(d, b) else b,
           (r.wptr + Take(r.cur) / 2 + if Issue1(d, r) then Take(b) / 2 else 0) % Words(p), pl)
    else
      r.(state := NextState(d, start, r), pl := pl)
  }

  /** The registers after a rising edge with rst_n low. */
  function Reset(r: Regs): Regs {
    Regs(Idle, Cursor(0, 0, 0, 0), 0, seq(|r.pl|, i requires 0 <= i < |r.pl| => r.pl[i].(v0 := false, v1 := false)))
  }

  /* ---- write port ---- */

  /** A 16-byte burst returned by DDR; `v` is ddr_rvalid. */
  datatype Response = Response(v: bool, addr: nat)

  /** The little-endian fp16 at byte address `a`. */
  function Word16(ddr: Ddr, a: int): nat { ddr(a) + 256 * ddr(a + 1) }

  /** What write slot `k` carries: slots 0-7 belong to burst A, 8-15 to burst B. */
  function Slot(p: Params, cmd: Cmd, ddr: Ddr, r0: Response, r1: Response, k: nat): Option<Write> {
    if k < 8 && cmd.v0 && r0.v && cmd.lo0 <= k < cmd.lo0 + cmd.n0 then
      Some(Write((cmd.addr + (k - cmd.lo0)) % Words(p), Word16(ddr, r0.addr + 2 * k)))
    else if 8 <= k < 16 && cmd.v1 && r1.v && cmd.lo1 <= k - 8 < cmd.lo1 + cmd.n1 then
      Some(Write(((cmd.addr + cmd.n0) % Words(p) + (k - 8 - cmd.lo1)) % Words(p),
                 Word16(ddr, r1.addr + 2 * (k - 8))))
    else
      None
  }

  function WritePort(p: Params, cmd: Cmd, ddr: Ddr, r0: Response, r1: Response): seq<Option<Write>> {
    seq(p.nbank, k requires k >= 0 => Slot(p, cmd, ddr, r0, r1, k))
  }

  /* ---- engine, DDR delay lines and the writes made so far ---- */

  datatype System = System(regs: Regs, q0: seq<Response>, q1: seq<Response>, log: seq<Write>)

  predicate Shaped(p: Params, s: System) {
    |s.regs.pl| == p.latency && |s.q0| == p.latency && |s.q1| == p.latency
  }

  /** The slots driven during the cycle that `s` is in. */
  function Port(p: Params, ddr: Ddr, s: System): seq<Option<Write>>
    requires ValidParams(p) && Shaped(p, s)
  {
    WritePort(p, s.regs.pl[p.latency - 1], ddr, s.q0[p.latency - 1], s.q1[p.latency - 1])
  }

  function Step(p: Params, d: Desc, ddr: Ddr, start: bool, s: System): (s': System)
    requires ValidParams(p) && Shaped(p, s)
    ensures Shaped(p, s')
  {
    System(Next(p, d, start, s.regs),
           [Response(Issue0(d, s.regs), s.regs.cur.blk)] + s.q0[..p.latency - 1],
           [Response(Issue1(d, s.regs), Advance(d, s.regs.cur).blk)] + s.q1[..p.latency - 1],
           s.log + Driven(Port(p, ddr, s)))
  }

  /** `n` cycles with the descriptor held stable; `starts(t)` is desc_start in cycle t. */
  function Trace(p: Params, d: Desc, ddr: Ddr, starts: nat -> bool, s: System, n: nat): (s': System)
    requires ValidParams(p) && Shaped(p, s)
    ensures Shaped(p, s')
  {
    if n == 0 then s else Step(p, d, ddr, starts(n - 1), Trace(p, d, ddr, starts, s, n - 1))
  }

  /** Nothing in flight anywhere. */
  predicate Quiet(s: System) {
    && PipeEmpty(s.regs.pl)
    && (forall i | 0 <= i < |s.q0| :: !s.q0[i].v)
    && (forall i | 0 <= i < |s.q1| :: !s.q1[i].v)
  }
}
