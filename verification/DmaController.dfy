/** The registers of `rtl/dma/dma.sv` as an object that a clock edge updates in place. */
module DmaController {
  import opened Arithmetic
  import opened Types
  import opened DmaEngine

  class Controller {
    const p: Params
    var state: Fsm
    var stRow: nat
    var stRstart: nat
    var stBlk: nat
    var stLeft: nat
    var stWptr: nat
    const pl: array<Cmd>

    ghost predicate Valid()
      reads this, pl
    {
      ValidParams(p) && pl.Length == p.latency
    }

    function Cur(): Cursor
      reads this
    {
      Cursor(stRow, stRstart, stBlk, stLeft)
    }

    ghost function Registers(): Regs
      reads this, pl
    {
      Regs(state, Cur(), stWptr, pl[..])
    }

    /** Power-up with rst_n held low for one edge: idle, and nothing in flight. */
    constructor (p: Params)
      requires ValidParams(p)
      ensures Valid() && this.p == p && fresh(pl)
      ensures Registers().state == Idle && PipeEmpty(Registers().pl)
    {
      this.p := p;
      state, stRow, stRstart, stBlk, stLeft, stWptr := Idle, 0, 0, 0, 0, 0;
      pl := new Cmd[p.latency](_ => Cmd(false, false, 0, 0, 0, 0, 0));
    }

    /** One rising edge of clk. */
    method Posedge(rst_n: bool, d: Desc, start: bool)
      requires Valid()
      modifies this, pl
      ensures Valid()
      ensures Registers() == if rst_n then Next(p, d, start, old(Registers())) else Reset(old(Registers()))
    {
      if rst_n {
        ClockEdge(d, start);
      } else {
        ResetEdge();
      }
    }

    /** Reset leaves nothing valid in the pipeline. */
    method ResetEdge()
      requires Valid()
      modifies this, pl
      ensures Valid() && Registers() == Reset(old(Registers()))
    {
      ghost var was := pl[..];
      for i := 0 to pl.Length
        modifies pl
        invariant forall k | 0 <= k < i :: pl[k] == was[k].(v0 := false, v1 := false)
        invariant forall k | i <= k < pl.Length :: pl[k] == was[k]
      {
        pl[i] := pl[i].(v0 := false, v1 := false);
      }
      state, stRow, stRstart, stBlk, stLeft, stWptr := Idle, 0, 0, 0, 0, 0;
      assert pl[..] == Reset(old(Registers())).pl;
    }

    method ClockEdge(d: Desc, start: bool)
      requires Valid()
      modifies this, pl
      ensures Valid() && Registers() == Next(p, d, start, old(Registers()))
    {
      hide Advance, Lo, Take, RowBytes, Align16, Words;
      var a, b := Cur(), Advance(d, Cur());
      var c := Advance(d, b);
      var issue0 := state == Run && stRow < d.rows;
      var issue1 := issue0 && b.row < d.rows;
      var empty := IsPipeEmpty();
      var cmd := Cmd(issue0, issue1, stWptr, Lo(a) / 2, Take(a) / 2, Lo(b) / 2, if issue1 then Take(b) / 2 else 0);
      ShiftIn(cmd);
      if state == Check && AlignedOk(d) {
        stRow, stRstart, stBlk, stLeft := 0, d.ddrAddr, Align16(d.ddrAddr), RowBytes(d);
        stWptr := d.sramAddr / 2 % Words(p);
      } else if issue0 {
        var next := if issue1 then c else b;
        stRow, stRstart, stBlk, stLeft := next.row, next.rstart, next.blk, next.left;
        stWptr := (stWptr + cmd.n0 + cmd.n1) % Words(p);
      }
      match state {
        case Idle => if start { state := Check; }
        case Check => state := if AlignedOk(d) then Run else Idle;
        case Run => if !issue0 && empty { state := Done; }
        case Done => state := Idle;
      }
    }

    method IsPipeEmpty() returns (empty: bool)
      requires Valid()
      ensures empty == PipeEmpty(pl[..])
    {
      empty := true;
      for i := 0 to pl.Length
        invariant empty <==> forall k | 0 <= k < i :: !pl[k].v0 && !pl[k].v1
      {
        if pl[i].v0 || pl[i].v1 {
          empty := false;
        }
      }
    }

    /** The write-command pipeline moves one stage. */
    method ShiftIn(cmd: Cmd)
      requires Valid()
      modifies pl
      ensures pl[..] == [cmd] + old(pl[..])[..p.latency - 1]
    {
      var i := pl.Length - 1;
      while i > 0
        invariant 0 <= i < pl.Length
        invariant forall k | 0 <= k <= i :: pl[k] == old(pl[k])
        invariant forall k | i < k < pl.Length :: pl[k] == old(pl[k - 1])
      {
        pl[i] := pl[i - 1];
        i := i - 1;
      }
      pl[0] := cmd;
    }

    /** The write port driven from the oldest stage, lane by lane and word by word. */
    method DriveWritePort(ddr: Ddr, r0: Response, r1: Response) returns (port: array<Option<Write>>)
      requires Valid()
      ensures fresh(port) && port[..] == WritePort(p, pl[p.latency - 1], ddr, r0, r1)
    {
      port := new Option<Write>[p.nbank](_ => None);
      var cmd := pl[p.latency - 1];
      DriveLaneA(port, cmd, ddr, r0, r1);
      DriveLaneB(port, cmd, ddr, r0, r1);
    }

    method DriveLaneA(port: array<Option<Write>>, cmd: Cmd, ddr: Ddr, r0: Response, r1: Response)
      requires port.Length >= 16 && forall k | 0 <= k < port.Length :: port[k].None?
      modifies port
      ensures forall k | 0 <= k < port.Length :: port[k] == if k < 8 then Slot(p, cmd, ddr, r0, r1, k) else None
    {
      hide Words, Word16;
      if cmd.v0 && r0.v {
        for w := 0 to 8
          invariant forall k | 0 <= k < port.Length ::
            port[k] == if k < w then Slot(p, cmd, ddr, r0, r1, k) else None
        {
          if cmd.lo0 <= w < cmd.lo0 + cmd.n0 {
            port[w] := Some(Write((cmd.addr + (w - cmd.lo0)) % Words(p), Word16(ddr, r0.addr + 2 * w)));
          }
        }
      }
    }

    method DriveLaneB(port: array<Option<Write>>, cmd: Cmd, ddr: Ddr, r0: Response, r1: Response)
      requires port.Length >= 16
      requires forall k | 0 <= k < port.Length :: port[k] == if k < 8 then Slot(p, cmd, ddr, r0, r1, k) else None
      modifies port
      ensures forall k | 0 <= k < port.Length :: port[k] == Slot(p, cmd, ddr, r0, r1, k)
    {
      hide Words, Word16;
      if cmd.v1 && r1.v {
        var base := (cmd.addr + cmd.n0) % Words(p);
        for w := 0 to 8
          invariant forall k | 0 <= k < port.Length ::
            port[k] == if k < w + 8 then Slot(p, cmd, ddr, r0, r1, k) else None
        {
          if cmd.lo1 <= w < cmd.lo1 + cmd.n1 {
            port[w + 8] := Some(Write((base + (w - cmd.lo1)) % Words(p), Word16(ddr, r1.addr + 2 * w)));
          }
        }
      }
    }
  }
}
