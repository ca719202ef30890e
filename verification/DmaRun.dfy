/** Whole runs of the DMA engine: contents, order and exact timing. */
module DmaRun {
  import opened Arithmetic
  import opened Types
  import opened DmaEngine
  import opened DmaTransfer

  /** SRAM write pointer before burst `k`. */
  function WptrAt(p: Params, d: Desc, k: nat): nat { (d.sramAddr / 2 + WordsAfter(d, k)) % Words(p) }

  /** Words carried by burst `k`. */
  function Len(d: Desc, k: nat): nat { Take(After(d, k)) / 2 }

  /** Cycles in which bursts are issued: two bursts a cycle. */
  function IssueCycles(d: Desc): nat { (Bursts(d) + 1) / 2 }

  /** Bursts issued in the first `t` cycles of S_RUN. */
  function Issued(d: Desc, t: nat): nat { if 2 * t <= Bursts(d) then 2 * t else Bursts(d) }

  /** The pipeline stage filled by issue cycle `t`. */
  function CommandAt(p: Params, d: Desc, t: nat): Cmd {
    var v1 := 2 * t + 1 < Bursts(d);
    Cmd(true, v1, WptrAt(p, d, 2 * t), Lo(After(d, 2 * t)) / 2, Len(d, 2 * t),
        Lo(After(d, 2 * t + 1)) / 2, if v1 then Len(d, 2 * t + 1) else 0)
  }

  /** The stage and the two DDR requests in flight belong to issue cycle `t`. */
  ghost predicate Carries(p: Params, d: Desc, t: nat, cmd: Cmd, r0: Response, r1: Response) {
    && cmd == CommandAt(p, d, t)
    && r0 == Response(true, After(d, 2 * t).blk)
    && r1.v == cmd.v1 && (cmd.v1 ==> r1.addr == After(d, 2 * t + 1).blk)
  }

  ghost predicate Vacant(cmd: Cmd, r0: Response, r1: Response) {
    !cmd.v0 && !cmd.v1 && !r0.v && !r1.v
  }

  /** Burst `k` leads from inside the rectangle to burst `k + 1`. */
  lemma BurstLeads(p: Params, d: Desc, k: nat)
    requires ValidParams(p) && Bounded(d) && k < Bursts(d)
    ensures After(d, k).row < d.rows && After(d, k + 1) == Advance(d, After(d, k))
    ensures 0 <= WordsAfter(d, k) && WordsAfter(d, k + 1) == WordsAfter(d, k) + Len(d, k)
    ensures Lo(After(d, k)) / 2 + Len(d, k) <= 8
  {
    CursorAfter(d, k);
    WordsAfterSteps(d, k);
    LoIsOffset(d, After(d, k));
  }

  lemma WptrMoves(p: Params, d: Desc, k: nat)
    requires ValidParams(p) && Bounded(d) && k < Bursts(d)
    ensures (WptrAt(p, d, k) + Len(d, k)) % Words(p) == WptrAt(p, d, k + 1)
  {
    hide Words, After, WordsAfter, Len, Bounded, Bursts;
    BurstLeads(p, d, k);
    var w := d.sramAddr / 2 + WordsAfter(d, k);
    AddAfterWrap(w, Len(d, k), WptrAt(p, d, k), Words(p));
  }

  lemma AddAfterWrap(w: nat, len: nat, wrapped: nat, words: nat)
    requires words > 0 && wrapped == w % words
    ensures (w + len) % words == (wrapped + len) % words
  {
    ModAddLeft(w, len, words);
  }

  lemma WptrMovesTwice(p: Params, d: Desc, k: nat)
    requires ValidParams(p) && Bounded(d) && k + 1 < Bursts(d)
    ensures (WptrAt(p, d, k) + Len(d, k) + Len(d, k + 1)) % Words(p) == WptrAt(p, d, k + 2)
  {
    hide Words, WptrAt, Len, Bounded, Bursts;
    WptrMoves(p, d, k);
    WptrMoves(p, d, k + 1);
    AddAfterWrap(WptrAt(p, d, k) + Len(d, k), Len(d, k + 1), WptrAt(p, d, k + 1), Words(p));
  }

  /** Word `j` of burst `k` is the next word of the transfer. */
  lemma WordOfBurst(p: Params, d: Desc, ddr: Ddr, k: nat, j: nat)
    requires ValidParams(p) && Bounded(d) && k < Bursts(d) && j < Len(d, k)
    ensures 0 <= WordsAfter(d, k)
    ensures TransferWrite(p, d, ddr, WordsAfter(d, k) + j) ==
      Write((WptrAt(p, d, k) + j) % Words(p), Word16(ddr, After(d, k).blk + 2 * (Lo(After(d, k)) / 2 + j)))
  {
    hide Words, After, Lo, Take, Index, TransferWrite, Word16, InRow, Bursts;
    CursorAfter(d, k);
    assert Index(d, After(d, k)) == WordsAfter(d, k);
    hide WordsAfter;
    BurstLeads(p, d, k);
    BurstWord(p, d, ddr, After(d, k), j);
    var w := d.sramAddr / 2 + WordsAfter(d, k);
    ModAddLeft(w, j, Words(p));
  }

  lemma BurstWords(p: Params, d: Desc, ddr: Ddr, k: nat)
    requires ValidParams(p) && Bounded(d) && k < Bursts(d)
    requires 0 <= WordsAfter(d, k) <= WordsAfter(d, k + 1)
    ensures var ws := TransferSlice(p, d, ddr, WordsAfter(d, k), WordsAfter(d, k + 1));
      |ws| == Len(d, k) && LaneWords(p, ddr, ws, WptrAt(p, d, k), Lo(After(d, k)) / 2, After(d, k).blk)
  {
    hide Words, After, Lo, WordsAfter, Len, WptrAt, TransferWrite, Word16, Bursts;
    var ws := TransferSlice(p, d, ddr, WordsAfter(d, k), WordsAfter(d, k + 1));
    BurstLeads(p, d, k);
    forall j {:trigger ws[j]} | 0 <= j < |ws|
      ensures ws[j] == Write((WptrAt(p, d, k) + j) % Words(p),
                             Word16(ddr, After(d, k).blk + 2 * (Lo(After(d, k)) / 2 + j)))
    {
      WordOfBurst(p, d, ddr, k, j);
    }
  }

  /** Both bursts of issue cycle `t`, driven into the SRAM in one cycle, are the next words of
      the transfer in order. */
  lemma PortOfCommand(p: Params, d: Desc, ddr: Ddr, t: nat, cmd: Cmd, r0: Response, r1: Response)
    requires ValidParams(p) && Bounded(d) && t < IssueCycles(d) && Carries(p, d, t, cmd, r0, r1)
    ensures 0 <= WordsAfter(d, 2 * t) <= WordsAfter(d, Issued(d, t + 1))
    ensures Driven(WritePort(p, cmd, ddr, r0, r1)) ==
      TransferSlice(p, d, ddr, WordsAfter(d, 2 * t), WordsAfter(d, Issued(d, t + 1)))
  {
    hide Words, After, Lo, WordsAfter, Len, Bursts, TransferSlice, LaneWords, WritePort, Driven, WptrAt;
    var k := 2 * t;
    BurstLeads(p, d, k);
    var a := TransferSlice(p, d, ddr, WordsAfter(d, k), WordsAfter(d, k + 1));
    BurstWords(p, d, ddr, k);
    if cmd.v1 {
      BurstLeads(p, d, k + 1);
      var b := TransferSlice(p, d, ddr, WordsAfter(d, k + 1), WordsAfter(d, k + 2));
      BurstWords(p, d, ddr, k + 1);
      WptrMoves(p, d, k);
      DrivenLanes(p, cmd, ddr, r0, r1, a, b);
      SliceAppend(p, d, ddr, WordsAfter(d, k), WordsAfter(d, k + 1), WordsAfter(d, k + 2));
    } else {
      NoWords(p, ddr, (cmd.addr + cmd.n0) % Words(p), cmd.lo1, r1.addr);
      DrivenLanes(p, cmd, ddr, r0, r1, a, []);
    }
  }

  lemma NoWords(p: Params, ddr: Ddr, wptr: nat, lo: nat, blk: nat)
    ensures LaneWords(p, ddr, [], wptr, lo, blk)
  {
  }

  lemma SliceAppend(p: Params, d: Desc, ddr: Ddr, from: nat, mid: nat, to: nat)
    requires d.cols > 0 && from <= mid <= to
    ensures TransferSlice(p, d, ddr, from, mid) + TransferSlice(p, d, ddr, mid, to) == TransferSlice(p, d, ddr, from, to)
  {
    hide TransferWrite;
  }

  /* ---- the invariant of S_RUN ---- */

  /** Issue cycles whose data has reached the SRAM. */
  function Retired(p: Params, t: nat): nat { if t <= p.latency then 0 else t - p.latency }

  /** `t` cycles into S_RUN; `log` is what had been written before this transfer. */
  ghost predicate Running(p: Params, d: Desc, ddr: Ddr, log: seq<Write>, s: System, t: nat)
    requires ValidParams(p) && Shaped(p, s) && Bounded(d)
  {
    var k, done := Issued(d, t), WordsAfter(d, Issued(d, Retired(p, t)));
    && s.regs.state == Run
    && s.regs.cur == After(d, k)
    && s.regs.wptr == WptrAt(p, d, k)
    && (forall i {:trigger s.regs.pl[i]} | 0 <= i < p.latency ::
          if 0 <= t - 1 - i < IssueCycles(d)
          then Carries(p, d, t - 1 - i, s.regs.pl[i], s.q0[i], s.q1[i])
          else Vacant(s.regs.pl[i], s.q0[i], s.q1[i]))
    && 0 <= done && s.log == log + TransferSlice(p, d, ddr, 0, done)
  }

  /** Issue side: cursor, write pointer, first pipeline stage and requests. */
  lemma IssueStep(p: Params, d: Desc, ddr: Ddr, log: seq<Write>, start: bool, s: System, t: nat)
    requires ValidParams(p) && Shaped(p, s) && Bounded(d) && Running(p, d, ddr, log, s, t)
    ensures Issue0(d, s.regs) <==> t < IssueCycles(d)
    ensures var s' := Step(p, d, ddr, start, s);
      && s'.regs.cur == After(d, Issued(d, t + 1))
      && s'.regs.wptr == WptrAt(p, d, Issued(d, t + 1))
      && if t < IssueCycles(d) then Carries(p, d, t, s'.regs.pl[0], s'.q0[0], s'.q1[0])
         else Vacant(s'.regs.pl[0], s'.q0[0], s'.q1[0])
  {
    hide Words, After, Lo, Take, Advance, WordsAfter, Bursts, WptrAt, Port, Driven, TransferSlice, AlignedOk;
    var k := Issued(d, t);
    LastCursor(d);
    if k < Bursts(d) {
      BurstLeads(p, d, k);
      if k + 1 < Bursts(d) {
        BurstLeads(p, d, k + 1);
        WptrMovesTwice(p, d, k);
      } else {
        WptrMoves(p, d, k);
      }
    }
  }

  lemma LastCursor(d: Desc)
    requires Bounded(d)
    ensures After(d, Bursts(d)).row == d.rows
  {
    CursorAfter(d, Bursts(d));
  }

  /** Write side: the oldest stage appends its words to the log. */
  lemma LogStep(p: Params, d: Desc, ddr: Ddr, log: seq<Write>, start: bool, s: System, t: nat)
    requires ValidParams(p) && Shaped(p, s) && Bounded(d) && Running(p, d, ddr, log, s, t)
    ensures var done := WordsAfter(d, Issued(d, Retired(p, t + 1)));
      0 <= done && Step(p, d, ddr, start, s).log == log + TransferSlice(p, d, ddr, 0, done)
  {
    hide Words, After, Lo, Take, Advance, WordsAfter, Bursts, WptrAt, WritePort, Driven, CommandAt, Next, TransferWrite, Issue0, Issue1;
    var last := p.latency - 1;
    var cmd, r0, r1 := s.regs.pl[last], s.q0[last], s.q1[last];
    if 0 <= t - p.latency < IssueCycles(d) {
      var c := t - p.latency;
      PortOfCommand(p, d, ddr, c, cmd, r0, r1);
      var from, to := WordsAfter(d, 2 * c), WordsAfter(d, Issued(d, c + 1));
      SliceAppend(p, d, ddr, 0, from, to);
    } else {
      assert Vacant(cmd, r0, r1);
      VacantDrivesNothing(p, cmd, ddr, r0, r1);
    }
  }

  lemma VacantDrivesNothing(p: Params, cmd: Cmd, ddr: Ddr, r0: Response, r1: Response)
    requires Vacant(cmd, r0, r1)
    ensures Driven(WritePort(p, cmd, ddr, r0, r1)) == []
  {
    DrivenNone(WritePort(p, cmd, ddr, r0, r1));
  }

  /** A cycle of S_RUN other than the last keeps the invariant. */
  lemma RunningStep(p: Params, d: Desc, ddr: Ddr, log: seq<Write>, start: bool, s: System, t: nat)
    requires ValidParams(p) && Shaped(p, s) && Bounded(d) && Running(p, d, ddr, log, s, t)
    requires t < IssueCycles(d) + p.latency
    ensures Running(p, d, ddr, log, Step(p, d, ddr, start, s), t + 1)
  {
    hide Words, After, Lo, Take, Advance, WordsAfter, Bursts, WptrAt, Port, Driven, TransferSlice, Command, AlignedOk, Issue1;
    IssueStep(p, d, ddr, log, start, s, t);
    LogStep(p, d, ddr, log, start, s, t);
    if t >= IssueCycles(d) {
      AllWords(d);
      assert s.regs.pl[t - IssueCycles(d)].v0;
    }
  }

  /* ---- whole transfers ---- */

  /** Cycles from the start pulse to `done`. */
  function TransferCycles(p: Params, d: Desc): nat { IssueCycles(d) + p.latency + 3 }

  lemma RunEntered(p: Params, d: Desc, ddr: Ddr, starts: nat -> bool, s: System)
    requires ValidParams(p) && Shaped(p, s) && Bounded(d) && AlignedOk(d)
    requires s.regs.state == Idle && Quiet(s) && starts(0)
    ensures Trace(p, d, ddr, starts, s, 1).regs.state == Check
    ensures Running(p, d, ddr, s.log, Trace(p, d, ddr, starts, s, 2), 0)
  {
    hide Words, Advance, Bursts, Driven, TransferSlice, Word16;
    var s1 := Step(p, d, ddr, starts(0), s);
    assert s1 == Trace(p, d, ddr, starts, s, 1);
    assert Trace(p, d, ddr, starts, s, 2) == Step(p, d, ddr, starts(1), s1);
    QuietStep(p, d, ddr, starts(0), s);
    QuietStep(p, d, ddr, starts(1), s1);
    RunBegins(p, d, ddr, starts(1), s.log, s1);
  }

  lemma RunBegins(p: Params, d: Desc, ddr: Ddr, start: bool, log: seq<Write>, s: System)
    requires ValidParams(p) && Shaped(p, s) && Bounded(d) && AlignedOk(d)
    requires s.regs.state == Check && s.log == log && Quiet(s)
    requires Quiet(Step(p, d, ddr, start, s)) && Step(p, d, ddr, start, s).log == log
    ensures Running(p, d, ddr, log, Step(p, d, ddr, start, s), 0)
  {
    hide Words, Advance, Bursts, Port, Driven, TransferSlice, Index, Command;
    FirstInRow(d);
    var s' := Step(p, d, ddr, start, s);
    assert TransferSlice(p, d, ddr, 0, 0) == [] by { EmptySlice(p, d, ddr); }
    assert forall i {:trigger s'.regs.pl[i]} | 0 <= i < p.latency :: Vacant(s'.regs.pl[i], s'.q0[i], s'.q1[i]);
  }

  lemma EmptySlice(p: Params, d: Desc, ddr: Ddr)
    requires d.cols > 0
    ensures TransferSlice(p, d, ddr, 0, 0) == []
  {
  }

  /** A cycle outside S_RUN with nothing in flight writes nothing and issues nothing. */
  lemma QuietStep(p: Params, d: Desc, ddr: Ddr, start: bool, s: System)
    requires ValidParams(p) && Shaped(p, s) && Quiet(s) && !Issue0(d, s.regs)
    ensures Quiet(Step(p, d, ddr, start, s)) && Step(p, d, ddr, start, s).log == s.log
  {
    hide Words, Advance, WritePort, Driven, First;
    VacantDrivesNothing(p, s.regs.pl[p.latency - 1], ddr, s.q0[p.latency - 1], s.q1[p.latency - 1]);
  }

  lemma {:induction false} RunContinues(p: Params, d: Desc, ddr: Ddr, starts: nat -> bool, s: System, t: nat)
    requires ValidParams(p) && Shaped(p, s) && Bounded(d) && AlignedOk(d)
    requires s.regs.state == Idle && Quiet(s) && starts(0)
    requires t <= IssueCycles(d) + p.latency
    ensures Running(p, d, ddr, s.log, Trace(p, d, ddr, starts, s, t + 2), t)
  {
    hide Running, Step, IssueCycles, Quiet;
    if t == 0 {
      RunEntered(p, d, ddr, starts, s);
    } else {
      RunContinues(p, d, ddr, starts, s, t - 1);
      RunningStep(p, d, ddr, s.log, starts(t + 1), Trace(p, d, ddr, starts, s, t + 1), t - 1);
    }
  }

  /** The last cycle of S_RUN: everything is written and nothing is left in flight. */
  lemma RunEnds(p: Params, d: Desc, ddr: Ddr, start: bool, log: seq<Write>, s: System)
    requires ValidParams(p) && Shaped(p, s) && Bounded(d)
    requires Running(p, d, ddr, log, s, IssueCycles(d) + p.latency)
    ensures var s' := Step(p, d, ddr, start, s);
      s'.regs.state == Done && Quiet(s') && s'.log == log + Transfer(p, d, ddr)
  {
    hide Words, After, Advance, WordsAfter, Bursts, WptrAt, Port, Driven, CommandAt, TransferSlice, First;
    var t := IssueCycles(d) + p.latency;
    IssueStep(p, d, ddr, log, start, s, t);
    LogStep(p, d, ddr, log, start, s, t);
    AllWords(d);
    assert forall i {:trigger s.regs.pl[i]} | 0 <= i < p.latency :: Vacant(s.regs.pl[i], s.q0[i], s.q1[i]);
    AllVacant(p, s);
    QuietStep(p, d, ddr, start, s);
  }

  lemma AllVacant(p: Params, s: System)
    requires Shaped(p, s)
    requires forall i {:trigger s.regs.pl[i]} | 0 <= i < p.latency :: Vacant(s.regs.pl[i], s.q0[i], s.q1[i])
    ensures Quiet(s)
  {
    forall i | 0 <= i < p.latency
      ensures !s.q0[i].v && !s.q1[i].v
    {
      assert Vacant(s.regs.pl[i], s.q0[i], s.q1[i]);
    }
  }

  /** One DMA_LOAD, start to done. For every legal descriptor and every latency the engine is busy
      for exactly ceil(bursts / 2) + 2 + latency cycles, then raises done for the words of the
      row-wise copy written exactly once each, in row-major order, and nothing else. */
  lemma {:induction false} TransferCompletes(p: Params, d: Desc, ddr: Ddr, starts: nat -> bool, s: System)
    requires ValidParams(p) && Shaped(p, s) && Legal(d)
    requires s.regs.state == Idle && Quiet(s) && starts(0)
    ensures forall n: nat | 0 < n < TransferCycles(p, d) ::
      Trace(p, d, ddr, starts, s, n).regs.state == (if n == 1 then Check else Run)
    ensures var s' := Trace(p, d, ddr, starts, s, TransferCycles(p, d));
      s'.regs.state == Done && Quiet(s') && s'.log == s.log + Transfer(p, d, ddr)
  {
    hide Step, Quiet, Transfer, IssueCycles;
    LegalIsBounded(d);
    forall n: nat | 0 < n < TransferCycles(p, d)
      ensures Trace(p, d, ddr, starts, s, n).regs.state == (if n == 1 then Check else Run)
    {
      if n == 1 {
        RunEntered(p, d, ddr, starts, s);
      } else {
        RunContinues(p, d, ddr, starts, s, n - 2);
      }
    }
    var n := IssueCycles(d) + p.latency;
    RunContinues(p, d, ddr, starts, s, n);
    RunEnds(p, d, ddr, starts(n + 2), s.log, Trace(p, d, ddr, starts, s, n + 2));
  }

  /** Issue timing: two bursts in every issue cycle but possibly the last, no bubble at row ends,
      and none afterwards. */
  lemma IssueTiming(p: Params, d: Desc, ddr: Ddr, starts: nat -> bool, s: System, t: nat)
    requires ValidParams(p) && Shaped(p, s) && Legal(d)
    requires s.regs.state == Idle && Quiet(s) && starts(0)
    requires t <= IssueCycles(d) + p.latency
    ensures var r := Trace(p, d, ddr, starts, s, t + 2).regs;
      (Issue0(d, r) <==> 2 * t < Bursts(d)) && (Issue1(d, r) <==> 2 * t + 1 < Bursts(d))
  {
    hide Advance, Step, Quiet, Bursts;
    LegalIsBounded(d);
    RunContinues(p, d, ddr, starts, s, t);
    IssueStep(p, d, ddr, s.log, false, Trace(p, d, ddr, starts, s, t + 2), t);
    LastCursor(d);
    if 2 * t < Bursts(d) {
      BurstLeads(p, d, 2 * t);
      if 2 * t + 1 < Bursts(d) {
        BurstLeads(p, d, 2 * t + 1);
      }
    }
  }

  /** A misaligned descriptor is dropped: after one cycle in CHECK the engine is idle again, has written
      nothing and has not been in DONE. */
  lemma MisalignedIsDropped(p: Params, d: Desc, ddr: Ddr, starts: nat -> bool, s: System)
    requires ValidParams(p) && Shaped(p, s) && !AlignedOk(d)
    requires s.regs.state == Idle && Quiet(s) && starts(0)
    ensures Trace(p, d, ddr, starts, s, 1).regs.state == Check && Trace(p, d, ddr, starts, s, 1).log == s.log
    ensures var s' := Trace(p, d, ddr, starts, s, 2);
      s'.regs.state == Idle && Quiet(s') && s'.log == s.log
  {
    hide Quiet, Words, Command, Port, Driven, Advance, PipeEmpty, First;
    var s1 := Step(p, d, ddr, starts(0), s);
    assert s1 == Trace(p, d, ddr, starts, s, 1);
    assert Trace(p, d, ddr, starts, s, 2) == Step(p, d, ddr, starts(1), s1);
    QuietStep(p, d, ddr, starts(0), s);
    QuietStep(p, d, ddr, starts(1), s1);
  }

  /* ---- reset ---- */

  /** Idle, nothing in the pipeline, and no answer of DDR among the youngest `n`. */
  ghost predicate Flushed(p: Params, s: System, n: nat) {
    && s.regs.state == Idle && PipeEmpty(s.regs.pl) && Shaped(p, s)
    && forall i | 0 <= i < n && i < p.latency :: !s.q0[i].v && !s.q1[i].v
  }

  /** An idle cycle drives no slot, whatever answers are still on their way, and lets them age. */
  lemma IdleStep(p: Params, d: Desc, ddr: Ddr, s: System, n: nat)
    requires ValidParams(p) && Flushed(p, s, n)
    ensures var s' := Step(p, d, ddr, false, s); Flushed(p, s', n + 1) && s'.log == s.log
  {
    hide Words, Advance, First, Driven, WritePort;
    var cmd := s.regs.pl[p.latency - 1];
    NoCommandDrivesNothing(p, cmd, ddr, s.q0[p.latency - 1], s.q1[p.latency - 1]);
  }

  lemma NoCommandDrivesNothing(p: Params, cmd: Cmd, ddr: Ddr, r0: Response, r1: Response)
    requires !cmd.v0 && !cmd.v1
    ensures Driven(WritePort(p, cmd, ddr, r0, r1)) == []
  {
    hide Words, Word16;
    NoneDriven(WritePort(p, cmd, ddr, r0, r1));
  }

  lemma {:induction false} NoneDriven(port: seq<Option<Write>>)
    requires forall k | 0 <= k < |port| :: port[k].None?
    ensures Driven(port) == []
    decreases port
  {
    if port != [] {
      NoneDriven(port[1..]);
    }
  }

  predicate Never(t: nat) { false }

  lemma {:induction false} StaysIdle(p: Params, d: Desc, ddr: Ddr, s: System, n: nat)
    requires ValidParams(p) && Flushed(p, s, 0)
    ensures var s' := Trace(p, d, ddr, Never, s, n); Flushed(p, s', n) && s'.log == s.log
    decreases n
  {
    hide Step;
    assert Shaped(p, s);
    hide Flushed;
    if n > 0 {
      StaysIdle(p, d, ddr, s, n - 1);
      IdleStep(p, d, ddr, Trace(p, d, ddr, Never, s, n - 1), n - 1);
    }
  }

  /** Reset in any state, in the middle of a transfer with answers of DDR on their way: the engine is
      idle and writes nothing until it is started, and once those answers are in, jobs run as ever. */
  lemma ResetRecovers(p: Params, d: Desc, ddr: Ddr, s: System, n: nat, jobs: seq<Desc>)
    requires ValidParams(p) && Shaped(p, s)
    requires forall i {:trigger jobs[i]} | 0 <= i < |jobs| :: Legal(jobs[i])
    ensures Shaped(p, s.(regs := Reset(s.regs)))
    ensures var s' := Trace(p, d, ddr, Never, s.(regs := Reset(s.regs)), n);
      && s'.regs.state == Idle && PipeEmpty(s'.regs.pl) && s'.log == s.log
      && (n >= p.latency ==> RunJobs(p, ddr, jobs, s').log == s.log + Transfers(p, ddr, jobs))
  {
    hide Step, Trace, Transfers, RunJobs;
    StaysIdle(p, d, ddr, s.(regs := Reset(s.regs)), n);
    var s' := Trace(p, d, ddr, Never, s.(regs := Reset(s.regs)), n);
    if n >= p.latency {
      assert Quiet(s');
      JobsComplete(p, ddr, jobs, s');
    }
  }

  /* ---- back-to-back descriptors ---- */

  predicate Pulse(t: nat) { t == 0 }

  /** Each descriptor is started the cycle after the previous one's done. */
  function RunJobs(p: Params, ddr: Ddr, jobs: seq<Desc>, s: System): (s': System)
    requires ValidParams(p) && Shaped(p, s)
    ensures Shaped(p, s')
  {
    if jobs == [] then s
    else RunJobs(p, ddr, jobs[1..], Trace(p, jobs[0], ddr, Pulse, s, TransferCycles(p, jobs[0]) + 1))
  }

  function Transfers(p: Params, ddr: Ddr, jobs: seq<Desc>): seq<Write>
    requires forall i {:trigger jobs[i]} | 0 <= i < |jobs| :: Legal(jobs[i])
  {
    if |jobs| == 0 then [] else
      assert Legal(jobs[0]);
      Transfer(p, jobs[0], ddr) + Transfers(p, ddr, jobs[1..])
  }

  lemma {:induction false} JobsComplete(p: Params, ddr: Ddr, jobs: seq<Desc>, s: System)
    requires ValidParams(p) && Shaped(p, s) && s.regs.state == Idle && Quiet(s)
    requires forall i {:trigger jobs[i]} | 0 <= i < |jobs| :: Legal(jobs[i])
    ensures var s' := RunJobs(p, ddr, jobs, s);
      s'.regs.state == Idle && Quiet(s') && s'.log == s.log + Transfers(p, ddr, jobs)
  {
    hide Quiet, TransferCycles, Transfer, Step, Words;
    if jobs == [] {
      assert s.log + [] == s.log;
    } else {
      var d, starts := jobs[0], Pulse;
      var n := TransferCycles(p, d);
      TransferCompletes(p, d, ddr, starts, s);
      var s1 := Trace(p, d, ddr, starts, s, n);
      BackToIdle(p, d, ddr, starts(n), s1);
      JobsComplete(p, ddr, jobs[1..], Trace(p, d, ddr, starts, s, n + 1));
      assert s.log + (Transfer(p, d, ddr) + Transfers(p, ddr, jobs[1..]))
        == s.log + Transfer(p, d, ddr) + Transfers(p, ddr, jobs[1..]);
    }
  }

  lemma BackToIdle(p: Params, d: Desc, ddr: Ddr, start: bool, s: System)
    requires ValidParams(p) && Shaped(p, s) && Quiet(s) && s.regs.state == Done
    ensures var s' := Step(p, d, ddr, start, s); s'.regs.state == Idle && Quiet(s') && s'.log == s.log
  {
    hide Quiet, Words, Command, Port, Driven, Advance, PipeEmpty, First;
    QuietStep(p, d, ddr, start, s);
  }
}
