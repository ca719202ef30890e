/** What a DMA_LOAD transfer does, for every legal descriptor and every DDR latency. */
module DmaTransfer {
  import opened Arithmetic
  import opened Types
  import opened DmaEngine

  /* ---- reference: the burst count of `cyclesDma` and the words of the row-wise copy ---- */

  /** Bursts of the row that starts at byte `start`: block of its last byte minus block of its
      first byte, plus one. */
  function RowBursts(d: Desc, start: nat): nat { (start + 2 * d.cols - 1) / 16 - start / 16 + 1 }

  /** The sum `cyclesDma` forms over the first `n` rows. */
  function BurstsBefore(d: Desc, n: nat): nat {
    if n == 0 then 0 else BurstsBefore(d, n - 1) + RowBursts(d, RowStart(d, n - 1))
  }

  function Bursts(d: Desc): nat { BurstsBefore(d, d.rows) }

  function WordCount(d: Desc): nat { d.rows * d.cols }

  /** The `j`-th word of the transfer, row-major: column j % cols of row j / cols. */
  function TransferWrite(p: Params, d: Desc, ddr: Ddr, j: nat): Write
    requires d.cols > 0
  {
    Write((d.sramAddr / 2 + j) % Words(p),
          Word16(ddr, d.ddrAddr + d.srcStride * (j / d.cols) + 2 * (j % d.cols)))
  }

  function TransferSlice(p: Params, d: Desc, ddr: Ddr, from: nat, to: nat): seq<Write>
    requires d.cols > 0 && from <= to
  {
    seq(to - from, k requires 0 <= k < to - from => TransferWrite(p, d, ddr, from + k))
  }

  /** Every word once, in row-major order. */
  function Transfer(p: Params, d: Desc, ddr: Ddr): seq<Write>
    requires d.cols > 0
  {
    TransferSlice(p, d, ddr, 0, WordCount(d))
  }

  /* ---- the cursor walks the rectangle ---- */

  /** Row starts and word counts the way the engine accumulates them: by repeated addition. */
  function RowStart(d: Desc, i: nat): nat { if i == 0 then d.ddrAddr else RowStart(d, i - 1) + d.srcStride }

  function RowBase(d: Desc, i: nat): nat { if i == 0 then 0 else RowBase(d, i - 1) + d.cols }

  lemma {:induction false} RowSums(d: Desc, i: nat)
    ensures RowStart(d, i) == d.ddrAddr + d.srcStride * i && RowBase(d, i) == i * d.cols
  {
    if i > 0 {
      RowSums(d, i - 1);
      assert d.srcStride * i == d.srcStride * (i - 1) + d.srcStride;
      assert i * d.cols == (i - 1) * d.cols + d.cols;
    }
  }

  /** Legal, with the end of the rectangle stated through the accumulated row starts. */
  ghost predicate Bounded(d: Desc) {
    && 1 <= d.rows < TWO_32 && 1 <= d.cols < 0x8000_0000
    && d.ddrAddr % 16 == 0 && d.srcStride % 2 == 0
    && RowStart(d, d.rows - 1) + 2 * d.cols <= TWO_32
  }

  lemma LegalIsBounded(d: Desc)
    requires Legal(d)
    ensures Bounded(d)
  {
    RowSums(d, d.rows - 1);
  }

  lemma EvenSum(x: int, y: int)
    requires x % 2 == 0 && y % 2 == 0
    ensures (x + y) % 2 == 0 && (x - y) % 2 == 0
  {
  }

  lemma EvenBlock(x: nat)
    requires x % 2 == 0 || x % 16 == 0
    ensures x % 2 == 0 && x % 16 % 2 == 0
  {
    ModOfMultiple(x, 2, 8);
  }

  lemma {:induction false} RowStartEven(d: Desc, i: nat)
    requires Bounded(d)
    ensures RowStart(d, i) % 2 == 0
  {
    if i > 0 {
      RowStartEven(d, i - 1);
      hide Bounded;
      EvenSum(RowStart(d, i - 1), d.srcStride);
    } else {
      EvenBlock(d.ddrAddr);
    }
  }

  lemma {:induction false} RowStartMonotone(d: Desc, i: nat, j: nat)
    requires i <= j
    ensures RowStart(d, i) <= RowStart(d, j)
  {
    if i < j {
      RowStartMonotone(d, i, j - 1);
    }
  }

  lemma RowInBounds(d: Desc, i: nat)
    requires Bounded(d) && i < d.rows
    ensures RowStart(d, i) + 2 * d.cols <= TWO_32 && RowStart(d, i) % 2 == 0
    ensures BurstsBefore(d, i + 1) == BurstsBefore(d, i) + RowBursts(d, RowStart(d, i))
  {
    RowStartEven(d, i);
    RowStartMonotone(d, i, d.rows - 1);
  }

  function Addr(d: Desc, c: Cursor): int { c.rstart + 2 * d.cols - c.left }

  /** The cursor stands inside a row, either at its first byte or on a burst boundary. */
  ghost predicate InRow(d: Desc, c: Cursor) {
    && c.row < d.rows && c.rstart == RowStart(d, c.row)
    && 0 < c.left <= 2 * d.cols && c.left % 2 == 0
    && c.blk == Align16(Addr(d, c))
    && (c.left == 2 * d.cols || Addr(d, c) % 16 == 0)
  }

  ghost predicate Finished(d: Desc, c: Cursor) { c.row == d.rows && c.left == 2 * d.cols }

  /** Words of the transfer before the cursor. */
  function Index(d: Desc, c: Cursor): int { RowBase(d, c.row) + (2 * d.cols - c.left) / 2 }

  /** Bursts from the cursor to the end of the transfer. */
  function Remaining(d: Desc, c: Cursor): int {
    if c.row >= d.rows then 0
    else (Addr(d, c) + c.left - 1) / 16 - Addr(d, c) / 16 + 1 + Bursts(d) - BurstsBefore(d, c.row + 1)
  }

  lemma FirstInRow(d: Desc)
    requires Bounded(d)
    ensures InRow(d, First(d)) && Index(d, First(d)) == 0
    ensures Remaining(d, First(d)) == Bursts(d)
  {
    RowInBounds(d, 0);
  }

  /** The burst at byte `a` of a row that starts at `rstart` and has `left` bytes to go. */
  lemma BurstOffset(c: Cursor, a: nat)
    requires c.left > 0 && c.rstart <= a && c.blk == Align16(a) && (a == c.rstart || a % 16 == 0)
    ensures Lo(c) == a % 16 && 0 < Take(c) <= c.left && Lo(c) + Take(c) <= 16
    ensures Take(c) < c.left ==> Lo(c) + Take(c) == 16
  {
  }

  lemma EvenBurst(a: nat, lo: nat, take: nat, left: nat)
    requires a % 2 == 0 && left % 2 == 0 && lo == a % 16 && (take == left || lo + take == 16)
    ensures lo % 2 == 0 && take % 2 == 0
  {
    EvenBlock(a);
    EvenSum(16, lo);
  }

  lemma LoIsOffset(d: Desc, c: Cursor)
    requires Bounded(d) && InRow(d, c)
    ensures Lo(c) == Addr(d, c) % 16 && 0 < Take(c) <= c.left && Lo(c) + Take(c) <= 16
    ensures Take(c) < c.left ==> Lo(c) + Take(c) == 16
    ensures Addr(d, c) % 2 == 0 && Lo(c) % 2 == 0 && Take(c) % 2 == 0
  {
    RowStartEven(d, c.row);
    hide Lo, Take, Align16, RowStart, Bounded;
    var a := Addr(d, c);
    EvenSum(c.rstart, 2 * d.cols);
    EvenSum(c.rstart + 2 * d.cols, c.left);
    BurstOffset(c, a);
    EvenBurst(a, Lo(c), Take(c), c.left);
  }

  lemma SameBlock(a: nat, left: nat)
    requires 0 < left && a % 16 + left <= 16
    ensures (a + left - 1) / 16 == a / 16
  {
  }

  lemma NoWrap(a: nat)
    requires a < TWO_32
    ensures a % TWO_32 == a
  {
  }

  lemma NextBlock(a: nat, take: nat)
    requires a % 16 + take == 16
    ensures (a + take) % 16 == 0 && (a + take) / 16 == a / 16 + 1
    ensures Align16(a + take) == Align16(a) + 16 == a + take
  {
  }

  /** Within a row the next cursor is one burst further, with nothing wrapping around. */
  lemma WithinRow(d: Desc, c: Cursor)
    requires Bounded(d) && InRow(d, c) && Take(c) < c.left
    ensures Advance(d, c) == Cursor(c.row, c.rstart, Align16(Addr(d, c) + Take(c)), c.left - Take(c))
    ensures (Addr(d, c) + Take(c)) % 16 == 0 && (Addr(d, c) + Take(c)) / 16 == Addr(d, c) / 16 + 1
  {
    RowInBounds(d, c.row);
    LoIsOffset(d, c);
    NextBlock(Addr(d, c), Take(c));
    NoWrap(c.blk + 16);
  }

  lemma AdvanceWithinRow(d: Desc, c: Cursor)
    requires Bounded(d) && InRow(d, c) && Take(c) < c.left
    ensures var c' := Advance(d, c);
      InRow(d, c') && Remaining(d, c') == Remaining(d, c) - 1 && Index(d, c') == Index(d, c) + Take(c) / 2
  {
    LoIsOffset(d, c);
    WithinRow(d, c);
    assert Addr(d, Advance(d, c)) == Addr(d, c) + Take(c);
  }

  /** The cursor at the first byte of row `i`. */
  function RowHead(d: Desc, i: nat, rstart: nat): Cursor { Cursor(i, rstart, Align16(rstart), 2 * d.cols) }

  lemma RowHeadInside(d: Desc, i: nat)
    requires Bounded(d) && i < d.rows
    ensures var c := RowHead(d, i, RowStart(d, i));
      InRow(d, c) && Index(d, c) == RowBase(d, i) && Remaining(d, c) == Bursts(d) - BurstsBefore(d, i)
  {
    RowInBounds(d, i);
    var c := RowHead(d, i, RowStart(d, i));
    assert Addr(d, c) == c.rstart && c.left == 2 * d.cols;
    assert RowBursts(d, c.rstart) == (c.rstart + 2 * d.cols - 1) / 16 - c.rstart / 16 + 1;
    hide Addr, RowStart, RowBase, BurstsBefore, Bursts, Bounded, RowBursts, Align16;
  }

  lemma RowHeadTracks(d: Desc, i: nat, rstart: nat)
    requires Bounded(d) && i <= d.rows && (i < d.rows ==> rstart == RowStart(d, i))
    ensures var c := RowHead(d, i, rstart);
      (if i < d.rows then InRow(d, c) else Finished(d, c)) && Index(d, c) == RowBase(d, i) &&
      Remaining(d, c) == Bursts(d) - BurstsBefore(d, i)
  {
    hide Addr, RowStart, RowBase, BurstsBefore, Bounded, InRow, Align16;
    if i < d.rows {
      RowHeadInside(d, i);
    }
  }

  lemma AdvanceIsRowHead(d: Desc, c: Cursor)
    requires Bounded(d) && InRow(d, c) && Take(c) == c.left
    ensures Advance(d, c) == RowHead(d, c.row + 1, (c.rstart + d.srcStride) % TWO_32)
  {
    hide Take, Align16, RowStart;
    NoWrap(2 * d.cols);
    NoWrap(c.row + 1);
  }

  /** The last burst of a row. */
  lemma RowEnds(d: Desc, c: Cursor)
    requires Bounded(d) && InRow(d, c) && Take(c) == c.left
    ensures Index(d, c) + Take(c) / 2 == RowBase(d, c.row + 1)
    ensures Remaining(d, c) == 1 + Bursts(d) - BurstsBefore(d, c.row + 1)
    ensures RowStart(d, c.row + 1) == c.rstart + d.srcStride
  {
    LoIsOffset(d, c);
    SameBlock(Addr(d, c), c.left);
  }

  lemma AdvanceToNextRow(d: Desc, c: Cursor)
    requires Bounded(d) && InRow(d, c) && Take(c) == c.left
    ensures var c' := Advance(d, c);
      (InRow(d, c') || Finished(d, c')) && Remaining(d, c') == Remaining(d, c) - 1 &&
      Index(d, c') == Index(d, c) + Take(c) / 2
  {
    hide Take, Lo, Advance, Align16, RowBursts, BurstsBefore, RowStart;
    RowEnds(d, c);
    AdvanceIsRowHead(d, c);
    var rstart := (c.rstart + d.srcStride) % TWO_32;
    if c.row + 1 < d.rows {
      RowInBounds(d, c.row + 1);
      NoWrap(RowStart(d, c.row + 1));
    }
    RowHeadTracks(d, c.row + 1, rstart);
  }

  /** The cursor after `k` bursts. */
  function After(d: Desc, k: nat): Cursor {
    if k == 0 then First(d) else Advance(d, After(d, k - 1))
  }

  /** The first `k` cursors walk the rectangle; the transfer is finished after exactly the number
      of bursts that `cyclesDma` counts. */
  lemma {:induction false} CursorAfter(d: Desc, k: nat)
    requires Bounded(d) && k <= Bursts(d)
    ensures var c := After(d, k);
      Remaining(d, c) == Bursts(d) - k && if k < Bursts(d) then InRow(d, c) else Finished(d, c)
  {
    if k == 0 {
      FirstInRow(d);
    } else {
      CursorAfter(d, k - 1);
      AdvanceTracks(d, After(d, k - 1));
    }
    if InRow(d, After(d, k)) {
      RemainingPositive(d, After(d, k));
    }
  }

  lemma AdvanceTracks(d: Desc, c: Cursor)
    requires Bounded(d) && InRow(d, c)
    ensures var c' := Advance(d, c);
      (InRow(d, c') || Finished(d, c')) && Remaining(d, c') == Remaining(d, c) - 1 &&
      Index(d, c') == Index(d, c) + Take(c) / 2
  {
    LoIsOffset(d, c);
    if Take(c) < c.left {
      AdvanceWithinRow(d, c);
    } else {
      AdvanceToNextRow(d, c);
    }
  }

  lemma RemainingPositive(d: Desc, c: Cursor)
    requires Bounded(d) && InRow(d, c)
    ensures Remaining(d, c) > 0
  {
    BurstsMonotone(d, c.row + 1, d.rows);
  }

  lemma {:induction false} BurstsMonotone(d: Desc, m: nat, n: nat)
    requires m <= n && d.cols >= 1
    ensures BurstsBefore(d, m) + (n - m) <= BurstsBefore(d, n)
  {
    if m < n {
      BurstsMonotone(d, m, n - 1);
    }
  }

  /** Words written by the first `k` bursts. */
  function WordsAfter(d: Desc, k: nat): int { Index(d, After(d, k)) }

  lemma WordsAfterSteps(d: Desc, k: nat)
    requires Bounded(d) && k < Bursts(d)
    ensures 0 <= WordsAfter(d, k)
    ensures WordsAfter(d, k + 1) == WordsAfter(d, k) + Take(After(d, k)) / 2
  {
    CursorAfter(d, k);
    AdvanceTracks(d, After(d, k));
    IndexNonNegative(d, After(d, k));
  }

  lemma IndexNonNegative(d: Desc, c: Cursor)
    requires c.left <= 2 * d.cols
    ensures Index(d, c) >= 0
  {
    RowSums(d, c.row);
    MulMonotone(d.cols, 0, c.row);
  }

  lemma AllWords(d: Desc)
    requires Bounded(d)
    ensures Bursts(d) >= 1 && WordsAfter(d, 0) == 0 && WordsAfter(d, Bursts(d)) == WordCount(d)
  {
    FirstInRow(d);
    BurstsMonotone(d, 0, d.rows);
    CursorAfter(d, Bursts(d));
    RowSums(d, d.rows);
  }

  /* ---- what one cycle of the write port drives ---- */

  lemma BlockPlusOffset(d: Desc, c: Cursor)
    requires Bounded(d) && InRow(d, c)
    ensures c.blk + 2 * (Lo(c) / 2) == Addr(d, c)
  {
    hide Lo, Take;
    LoIsOffset(d, c);
  }

  /** Where word `j` of the burst at cursor `c` sits in the rectangle. */
  lemma WordPlace(d: Desc, c: Cursor, j: nat)
    requires Bounded(d) && InRow(d, c) && j < Take(c) / 2
    ensures Index(d, c) >= 0
    ensures (Index(d, c) + j) / d.cols == c.row && (Index(d, c) + j) % d.cols == (2 * d.cols - c.left) / 2 + j
  {
    hide Lo, Take, RowStart, RowBase, Align16;
    LoIsOffset(d, c);
    var column := (2 * d.cols - c.left) / 2 + j;
    assert column < d.cols;
    RowSums(d, c.row);
    IndexNonNegative(d, c);
    DivModOfMulAdd(c.row, column, d.cols);
  }

  /** Word `j` of the burst at cursor `c` is the next word of the transfer. */
  lemma HalfOfEven(x: int)
    requires x % 2 == 0
    ensures 2 * (x / 2) == x
  {
  }

  lemma WordAddress(d: Desc, c: Cursor, j: nat)
    requires Bounded(d) && InRow(d, c)
    ensures d.ddrAddr + d.srcStride * c.row + 2 * ((2 * d.cols - c.left) / 2 + j) == c.blk + 2 * (Lo(c) / 2 + j)
  {
    hide Lo, RowStart, RowBase, Align16, Bounded, InRow;
    RowSums(d, c.row);
    BlockPlusOffset(d, c);
    BytesLeft(d, c);
    var x := 2 * d.cols - c.left;
    HalfOfEven(x);
    SameWord(d.ddrAddr + d.srcStride * c.row, c.blk, x / 2, Lo(c) / 2, j);
  }

  lemma BytesLeft(d: Desc, c: Cursor)
    requires InRow(d, c)
    ensures c.rstart == RowStart(d, c.row) && (2 * d.cols - c.left) % 2 == 0
  {
    hide RowStart, Align16;
    EvenSum(2 * d.cols, c.left);
  }

  lemma SameWord(start: int, blk: int, column: int, offset: int, j: int)
    requires blk + 2 * offset == start + 2 * column
    ensures start + 2 * (column + j) == blk + 2 * (offset + j)
  {
  }

  lemma BurstWord(p: Params, d: Desc, ddr: Ddr, c: Cursor, j: nat)
    requires Bounded(d) && InRow(d, c) && j < Take(c) / 2
    ensures Index(d, c) >= 0
    ensures TransferWrite(p, d, ddr, Index(d, c) + j) ==
      Write((d.sramAddr / 2 + Index(d, c) + j) % Words(p), Word16(ddr, c.blk + 2 * (Lo(c) / 2 + j)))
  {
    hide Lo, Take, RowStart, RowBase, Words, Word16, Align16, Index, InRow;
    WordPlace(d, c, j);
    WordAddress(d, c, j);
    var x := Index(d, c) + j;
    assert x / d.cols == c.row && x % d.cols == (2 * d.cols - c.left) / 2 + j;
    assert d.sramAddr / 2 + x == d.sramAddr / 2 + Index(d, c) + j;
  }

  lemma DrivenFirst(x: Option<Write>, rest: seq<Option<Write>>)
    ensures Driven([x] + rest) == (if x.Some? then [x.value] else []) + Driven(rest)
  {
    assert ([x] + rest)[1..] == rest;
  }

  lemma {:induction false} DrivenAppend(a: seq<Option<Write>>, b: seq<Option<Write>>)
    ensures Driven(a + b) == Driven(a) + Driven(b)
    decreases a
  {
    if a == [] {
      assert a + b == b;
    } else {
      var x, rest := a[0], a[1..];
      DrivenAppend(rest, b);
      hide Driven;
      assert a == [x] + rest && a + b == [x] + (rest + b);
      DrivenFirst(x, rest);
      DrivenFirst(x, rest + b);
      Associative(if x.Some? then [x.value] else [], Driven(rest), Driven(b));
    }
  }

  lemma Associative<T>(a: seq<T>, b: seq<T>, c: seq<T>)
    ensures a + (b + c) == (a + b) + c
  {
  }

  lemma {:induction false} DrivenNone(port: seq<Option<Write>>)
    requires forall k | 0 <= k < |port| :: port[k].None?
    ensures Driven(port) == []
  {
    if port != [] {
      DrivenNone(port[1..]);
    }
  }

  lemma {:induction false} DrivenAll(port: seq<Option<Write>>, ws: seq<Write>)
    requires |port| == |ws| && forall k | 0 <= k < |port| :: port[k] == Some(ws[k])
    ensures Driven(port) == ws
  {
    if port != [] {
      DrivenAll(port[1..], ws[1..]);
    }
  }

  /** A port whose valid slots are exactly lo .. lo + |ws|. */
  lemma DrivenWindow(port: seq<Option<Write>>, lo: nat, ws: seq<Write>)
    requires lo + |ws| <= |port|
    requires forall k | 0 <= k < |port| :: port[k] == if lo <= k < lo + |ws| then Some(ws[k - lo]) else None
    ensures Driven(port) == ws
  {
    hide Driven;
    var hi := lo + |ws|;
    var a, b, c := port[..lo], port[lo..hi], port[hi..];
    assert port == a + (b + c);
    forall k | 0 <= k < |ws|
      ensures b[k] == Some(ws[k])
    {
      assert b[k] == port[lo + k];
    }
    DrivenBetween(a, b, c, ws);
  }

  lemma DrivenBetween(a: seq<Option<Write>>, b: seq<Option<Write>>, c: seq<Option<Write>>, ws: seq<Write>)
    requires (forall k | 0 <= k < |a| :: a[k].None?) && forall k | 0 <= k < |c| :: c[k].None?
    requires |b| == |ws| && forall k | 0 <= k < |b| :: b[k] == Some(ws[k])
    ensures Driven(a + (b + c)) == ws
  {
    hide Driven;
    DrivenAppend(a, b + c);
    DrivenAppend(b, c);
    DrivenNone(a);
    DrivenNone(c);
    DrivenAll(b, ws);
    assert [] + (ws + []) == ws;
  }

  /** `ws` goes to consecutive SRAM words from `wptr` on and comes from word slots `lo` on of the
      DDR block `blk`. */
  ghost predicate LaneWords(p: Params, ddr: Ddr, ws: seq<Write>, wptr: nat, lo: nat, blk: nat) {
    forall j {:trigger ws[j]} | 0 <= j < |ws| ::
      ws[j] == Write((wptr + j) % Words(p), Word16(ddr, blk + 2 * (lo + j)))
  }

  lemma SlotsOfA(p: Params, cmd: Cmd, ddr: Ddr, r0: Response, r1: Response, ws: seq<Write>, k: nat)
    requires cmd.v0 && r0.v && cmd.lo0 + cmd.n0 <= 8 && |ws| == cmd.n0 && k < 8
    requires LaneWords(p, ddr, ws, cmd.addr, cmd.lo0, r0.addr)
    ensures Slot(p, cmd, ddr, r0, r1, k) == if cmd.lo0 <= k < cmd.lo0 + |ws| then Some(ws[k - cmd.lo0]) else None
  {
    hide Words, Word16;
  }

  lemma SlotsOfB(p: Params, cmd: Cmd, ddr: Ddr, r0: Response, r1: Response, ws: seq<Write>, k: nat)
    requires cmd.v1 && r1.v && cmd.lo1 + cmd.n1 <= 8 && |ws| == cmd.n1
    requires LaneWords(p, ddr, ws, (cmd.addr + cmd.n0) % Words(p), cmd.lo1, r1.addr)
    ensures Slot(p, cmd, ddr, r0, r1, k + 8) == if cmd.lo1 <= k < cmd.lo1 + |ws| then Some(ws[k - cmd.lo1]) else None
  {
    hide Words, Word16;
  }

  /** The two lanes of the write port, in terms of the command and responses alone. */
  lemma DrivenLanes(p: Params, cmd: Cmd, ddr: Ddr, r0: Response, r1: Response, a: seq<Write>, b: seq<Write>)
    requires ValidParams(p) && cmd.v0 && r0.v && cmd.lo0 + cmd.n0 <= 8 && |a| == cmd.n0
    requires LaneWords(p, ddr, a, cmd.addr, cmd.lo0, r0.addr)
    requires if cmd.v1 && r1.v then cmd.lo1 + cmd.n1 <= 8 && |b| == cmd.n1 else b == []
    requires LaneWords(p, ddr, b, (cmd.addr + cmd.n0) % Words(p), cmd.lo1, r1.addr)
    ensures Driven(WritePort(p, cmd, ddr, r0, r1)) == a + b
  {
    hide Words, Word16, Driven, LaneWords, Slot;
    var port := WritePort(p, cmd, ddr, r0, r1);
    var lower, upper := port[..8], port[8..];
    assert port == lower + upper;
    DrivenAppend(lower, upper);
    forall k | 0 <= k < 8
      ensures lower[k] == if cmd.lo0 <= k < cmd.lo0 + |a| then Some(a[k - cmd.lo0]) else None
    {
      SlotsOfA(p, cmd, ddr, r0, r1, a, k);
    }
    DrivenWindow(lower, cmd.lo0, a);
    if cmd.v1 && r1.v {
      forall k | 0 <= k < p.nbank - 8
        ensures upper[k] == if cmd.lo1 <= k < cmd.lo1 + |b| then Some(b[k - cmd.lo1]) else None
      {
        SlotsOfB(p, cmd, ddr, r0, r1, b, k);
      }
      DrivenWindow(upper, cmd.lo1, b);
    } else {
      UnusedLaneB(p, cmd, ddr, r0, r1);
      assert a + [] == a;
    }
  }

  lemma UnusedLaneB(p: Params, cmd: Cmd, ddr: Ddr, r0: Response, r1: Response)
    requires ValidParams(p) && !(cmd.v1 && r1.v)
    ensures Driven(WritePort(p, cmd, ddr, r0, r1)[8..]) == []
  {
    DrivenNone(WritePort(p, cmd, ddr, r0, r1)[8..]);
  }
}
