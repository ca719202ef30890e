/** The DMA engine in front of the crossbar: although the engine never looks at wr_grant, no write
    it drives is ever refused. */
module DmaOverCrossbar {
  import opened Arithmetic
  import opened Types
  import opened DmaEngine
  import opened DmaTransfer
  import opened DmaRun
  import Crossbar
  import CrossbarDrain

  /** Plain mapping, at least 16 banks, and matching address widths. */
  ghost predicate Fits(p: Params, g: Crossbar.Geometry) {
    && ValidParams(p) && !g.hashed
    && p.nbank == Crossbar.NBank(g) && p.nbank >= 16
    && Words(p) == Crossbar.Size(g)
  }

  /** The banks after `n` cycles of the engine driving them directly. */
  ghost function BanksAfter(p: Params, d: Desc, ddr: Ddr, starts: nat -> bool, s: System,
                            g: Crossbar.Geometry, m: Crossbar.Banks, n: nat): Crossbar.Banks
    requires ValidParams(p) && Shaped(p, s)
  {
    if n == 0 then m
    else Crossbar.WriteEdge(g, BanksAfter(p, d, ddr, starts, s, g, m, n - 1),
                            Port(p, ddr, Trace(p, d, ddr, starts, s, n - 1)))
  }

  /** At most 16 writes to consecutive word addresses modulo the memory size. */
  ghost predicate Consecutive(p: Params, ws: seq<Write>, base: nat) {
    |ws| <= 16 && forall k {:trigger ws[k]} | 0 <= k < |ws| :: ws[k].addr == (base + k) % Words(p)
  }

  lemma PortIsConsecutive(p: Params, d: Desc, ddr: Ddr, starts: nat -> bool, s: System, n: nat) returns (base: nat)
    requires ValidParams(p) && Shaped(p, s) && Legal(d)
    requires s.regs.state == Idle && Quiet(s) && starts(0) && n <= TransferCycles(p, d)
    ensures Consecutive(p, Driven(Port(p, ddr, Trace(p, d, ddr, starts, s, n))), base)
  {
    hide Step, Running, IssueCycles, Driven, WritePort, Words;
    LegalIsBounded(d);
    var s' := Trace(p, d, ddr, starts, s, n);
    base := 0;
    if n < 2 {
      EarlyIsQuiet(p, d, ddr, starts, s, n);
      QuietDrivesNothing(p, ddr, s');
    } else if n == TransferCycles(p, d) {
      TransferCompletes(p, d, ddr, starts, s);
      QuietDrivesNothing(p, ddr, s');
    } else {
      RunContinues(p, d, ddr, starts, s, n - 2);
      base := RunningIsConsecutive(p, d, ddr, s.log, s', n - 2);
    }
  }

  lemma EarlyIsQuiet(p: Params, d: Desc, ddr: Ddr, starts: nat -> bool, s: System, n: nat)
    requires ValidParams(p) && Shaped(p, s) && s.regs.state == Idle && Quiet(s) && n < 2
    ensures Quiet(Trace(p, d, ddr, starts, s, n))
  {
    hide Step, Quiet;
    if n == 1 {
      QuietStep(p, d, ddr, starts(0), s);
      assert Trace(p, d, ddr, starts, s, 0) == s;
    }
  }

  lemma QuietDrivesNothing(p: Params, ddr: Ddr, s: System)
    requires ValidParams(p) && Shaped(p, s) && Quiet(s)
    ensures Driven(Port(p, ddr, s)) == []
  {
    var last := p.latency - 1;
    VacantDrivesNothing(p, s.regs.pl[last], ddr, s.q0[last], s.q1[last]);
  }

  lemma RunningIsConsecutive(p: Params, d: Desc, ddr: Ddr, log: seq<Write>, s: System, t: nat) returns (base: nat)
    requires ValidParams(p) && Shaped(p, s) && Bounded(d) && Running(p, d, ddr, log, s, t)
    ensures Consecutive(p, Driven(Port(p, ddr, s)), base)
  {
    hide Words, After, Advance, WordsAfter, Bursts, WptrAt, WritePort, Driven, CommandAt, Word16;
    var last := p.latency - 1;
    var cmd, r0, r1 := s.regs.pl[last], s.q0[last], s.q1[last];
    base := 0;
    if 0 <= t - p.latency < IssueCycles(d) {
      var c := t - p.latency;
      PortOfCommand(p, d, ddr, c, cmd, r0, r1);
      AtMostSixteen(p, d, c);
      SliceIsConsecutive(p, d, ddr, WordsAfter(d, 2 * c), WordsAfter(d, Issued(d, c + 1)));
      base := d.sramAddr / 2 + WordsAfter(d, 2 * c);
    } else {
      assert Vacant(cmd, r0, r1);
      VacantDrivesNothing(p, cmd, ddr, r0, r1);
    }
  }

  lemma SliceIsConsecutive(p: Params, d: Desc, ddr: Ddr, from: nat, to: nat)
    requires d.cols > 0 && from <= to <= from + 16
    ensures Consecutive(p, TransferSlice(p, d, ddr, from, to), d.sramAddr / 2 + from)
  {
    hide Words, Word16;
    var ws := TransferSlice(p, d, ddr, from, to);
    forall k {:trigger ws[k]} | 0 <= k < |ws|
      ensures ws[k].addr == (d.sramAddr / 2 + from + k) % Words(p)
    {
      assert ws[k] == TransferWrite(p, d, ddr, from + k);
    }
  }

  lemma AtMostSixteen(p: Params, d: Desc, t: nat)
    requires ValidParams(p) && Bounded(d) && t < IssueCycles(d)
    ensures WordsAfter(d, Issued(d, t + 1)) <= WordsAfter(d, 2 * t) + 16
  {
    hide After, Lo, WordsAfter, Bursts;
    BurstLeads(p, d, 2 * t);
    if 2 * t + 1 < Bursts(d) {
      BurstLeads(p, d, 2 * t + 1);
    }
  }

  /** Consecutive addresses lie in different banks, so nothing loses arbitration. */
  lemma ConsecutiveAllWin(p: Params, g: Crossbar.Geometry, ws: seq<Write>, base: nat)
    requires Fits(p, g) && Consecutive(p, ws, base)
    ensures CrossbarDrain.Winners(g, ws, {}) == ws && CrossbarDrain.Losers(g, ws, {}) == []
    ensures forall w | w in ws :: w.addr < Crossbar.Size(g)
  {
    forall i, j | 0 <= i < j < |ws|
      ensures Crossbar.BankOf(g, ws[i].addr) != Crossbar.BankOf(g, ws[j].addr)
    {
      DifferentBanks(p, g, base + i, base + j);
    }
    AllDistinctWin(g, ws, {});
  }

  lemma DifferentBanks(p: Params, g: Crossbar.Geometry, a: nat, b: nat)
    requires Fits(p, g) && a < b < a + 16
    ensures Crossbar.BankOf(g, a % Words(p)) != Crossbar.BankOf(g, b % Words(p))
  {
    hide Words, Crossbar.Size, Crossbar.NBank, Crossbar.Depth;
    var n := Crossbar.NBank(g);
    assert Crossbar.Size(g) == n * Crossbar.Depth(g) by { SizeIsProduct(g); }
    ModOfMultiple(a, n, Crossbar.Depth(g));
    ModOfMultiple(b, n, Crossbar.Depth(g));
    if a % n == b % n {
      assert b - a == n * (b / n - a / n);
      if b / n > a / n {
        MulMonotone(n, 1, b / n - a / n);
      } else {
        MulMonotone(n, b / n - a / n, 0);
      }
    }
  }

  lemma SizeIsProduct(g: Crossbar.Geometry)
    ensures Crossbar.Size(g) == Crossbar.NBank(g) * Crossbar.Depth(g)
  {
  }

  lemma {:induction false} AllDistinctWin(g: Crossbar.Geometry, ws: seq<Write>, taken: set<nat>)
    requires forall i, j | 0 <= i < j < |ws| :: Crossbar.BankOf(g, ws[i].addr) != Crossbar.BankOf(g, ws[j].addr)
    requires forall i | 0 <= i < |ws| :: Crossbar.BankOf(g, ws[i].addr) !in taken
    ensures CrossbarDrain.Winners(g, ws, taken) == ws && CrossbarDrain.Losers(g, ws, taken) == []
    decreases ws
  {
    hide Crossbar.BankOf;
    if ws != [] {
      AllDistinctWin(g, ws[1..], taken + {Crossbar.BankOf(g, ws[0].addr)});
    }
  }

  /** In every cycle of a transfer everything the engine drives is granted, and the flat memory
      changes by exactly those writes. */
  lemma {:induction false} NothingIsLost(p: Params, d: Desc, ddr: Ddr, starts: nat -> bool, s: System,
                                         g: Crossbar.Geometry, m: Crossbar.Banks, n: nat)
    requires Fits(p, g) && Shaped(p, s) && Legal(d) && Crossbar.ValidBanks(g, m)
    requires s.regs.state == Idle && Quiet(s) && starts(0) && n <= TransferCycles(p, d)
    ensures CrossbarDrain.Losers(g, Driven(Port(p, ddr, Trace(p, d, ddr, starts, s, n))), {}) == []
    ensures var banks, log := BanksAfter(p, d, ddr, starts, s, g, m, n), Trace(p, d, ddr, starts, s, n).log;
      && Crossbar.ValidBanks(g, banks) && |s.log| <= |log|
      && Crossbar.Flat(g, banks) == Crossbar.ApplyWrites(Crossbar.Flat(g, m), log[|s.log|..])
  {
    hide Driven, Port, Next, Crossbar.ValidBanks, Crossbar.WriteEdge, Crossbar.Flat, CrossbarDrain.Losers, CrossbarDrain.Winners, Quiet, Legal, TransferCycles;
    var base := PortIsConsecutive(p, d, ddr, starts, s, n);
    ConsecutiveAllWin(p, g, Driven(Port(p, ddr, Trace(p, d, ddr, starts, s, n))), base);
    if n == 0 {
      assert s.log[|s.log|..] == [];
    } else {
      NothingIsLost(p, d, ddr, starts, s, g, m, n - 1);
      CycleLosesNothing(p, d, ddr, starts, s, g, m, n - 1);
    }
  }

  /** One cycle: the flat memory takes the writes the engine drives. */
  lemma CycleLosesNothing(p: Params, d: Desc, ddr: Ddr, starts: nat -> bool, s: System,
                          g: Crossbar.Geometry, m: Crossbar.Banks, n: nat)
    requires Fits(p, g) && Shaped(p, s) && Legal(d) && Crossbar.ValidBanks(g, m)
    requires s.regs.state == Idle && Quiet(s) && starts(0) && n <= TransferCycles(p, d)
    requires var banks, log := BanksAfter(p, d, ddr, starts, s, g, m, n), Trace(p, d, ddr, starts, s, n).log;
      && Crossbar.ValidBanks(g, banks) && |s.log| <= |log|
      && Crossbar.Flat(g, banks) == Crossbar.ApplyWrites(Crossbar.Flat(g, m), log[|s.log|..])
    ensures var banks, log := BanksAfter(p, d, ddr, starts, s, g, m, n + 1), Trace(p, d, ddr, starts, s, n + 1).log;
      && Crossbar.ValidBanks(g, banks) && |s.log| <= |log|
      && Crossbar.Flat(g, banks) == Crossbar.ApplyWrites(Crossbar.Flat(g, m), log[|s.log|..])
  {
    hide Driven, Port, Next, Crossbar.ValidBanks, Crossbar.WriteEdge, Crossbar.Flat, CrossbarDrain.Losers, CrossbarDrain.Winners, Quiet, Legal, TransferCycles, Crossbar.ApplyWrites;
    var was := Trace(p, d, ddr, starts, s, n);
    var banks, port := BanksAfter(p, d, ddr, starts, s, g, m, n), Port(p, ddr, was);
    var base := PortIsConsecutive(p, d, ddr, starts, s, n);
    ConsecutiveAllWin(p, g, Driven(port), base);
    CrossbarDrain.EdgeIsFlat(g, banks, port);
    var k := |s.log|;
    assert Trace(p, d, ddr, starts, s, n + 1).log == was.log + Driven(port);
    assert (was.log + Driven(port))[k..] == was.log[k..] + Driven(port);
    ApplyAppend(Crossbar.Flat(g, m), was.log[k..], Driven(port));
  }

  lemma {:induction false} ApplyAppend(mem: seq<nat>, a: seq<Write>, b: seq<Write>)
    ensures Crossbar.ApplyWrites(mem, a + b) == Crossbar.ApplyWrites(Crossbar.ApplyWrites(mem, a), b)
    decreases a
  {
    if a == [] {
      assert a + b == b;
    } else {
      assert (a + b)[1..] == a[1..] + b;
      ApplyAppend(Crossbar.ApplyWrite(mem, a[0]), a[1..], b);
    }
  }

  /** The banked memory at `done`, as one flat array, is the memory before with the transfer
      applied. */
  lemma TransferThroughCrossbar(p: Params, d: Desc, ddr: Ddr, starts: nat -> bool, s: System,
                                g: Crossbar.Geometry, m: Crossbar.Banks)
    requires Fits(p, g) && Shaped(p, s) && Legal(d) && Crossbar.ValidBanks(g, m)
    requires s.regs.state == Idle && Quiet(s) && starts(0)
    ensures var banks := BanksAfter(p, d, ddr, starts, s, g, m, TransferCycles(p, d));
      && Crossbar.ValidBanks(g, banks)
      && Crossbar.Flat(g, banks) == Crossbar.ApplyWrites(Crossbar.Flat(g, m), Transfer(p, d, ddr))
  {
    hide Step, Port, Crossbar.ValidBanks, Crossbar.WriteEdge, Crossbar.Flat, Quiet, TransferCycles, Transfer;
    NothingIsLost(p, d, ddr, starts, s, g, m, TransferCycles(p, d));
    TransferCompletes(p, d, ddr, starts, s);
    assert (s.log + Transfer(p, d, ddr))[|s.log|..] == Transfer(p, d, ddr);
  }
}
