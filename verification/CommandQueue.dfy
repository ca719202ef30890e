/** Descriptors in DDR: `eclipse-run` writes one per instruction and the machine decodes it again
    when the instruction executes. */
module CommandQueue {
  import opened Types
  import opened Machine
  import opened HazardChecker
  import opened Footprints
  import opened Commutation
  import opened HazardSoundness

  datatype OpCode = OpDmaLoad | OpDmaStore | OpMatmul | OpEwise(kind: EwiseKind) | OpAct | OpReduce | OpSync

  /** (opcode, descPtr). */
  datatype Insn = Insn(op: OpCode, desc: int)

  /** Bytes reserved for a descriptor. */
  const DESC_LEN := 0x40

  function OpOf(i: Instr): OpCode {
    match i
    case DmaLoad(_) => OpDmaLoad
    case DmaStore(_) => OpDmaStore
    case Matmul(_) => OpMatmul
    case Ewise(k, _) => OpEwise(k)
    case Act(_) => OpAct
    case Reduce(_) => OpReduce
    case Sync => OpSync
  }

  /** The struct of an instruction, field by field; the two bools of MatmulParam share the last
      word, ActParam ends in its four extra words. */
  function Fields(i: Instr): seq<Dword> {
    match i
    case DmaLoad(d) => [d.sramAddr, d.ddrAddr, d.rows, d.cols, d.srcStride, d.dstStride]
    case DmaStore(d) => [d.sramAddr, d.ddrAddr, d.rows, d.cols, d.srcStride, d.dstStride]
    case Matmul(d) =>
      [d.dstAddr, d.rhsAddr, d.lhsAddr, d.M, d.K, d.N, d.accumulate,
       (if d.transA then 1 else 0) + (if d.transB then 256 else 0)]
    case Ewise(_, d) => [d.dstAddr, d.rhsAddr, d.lhsAddr, d.rows, d.cols, d.rhsBlk, d.rhsStride]
    case Act(d) => [d.dstAddr, d.srcAddr, d.n, d.kind, 0, 0, 0, 0]
    case Reduce(d) => [d.dstAddr, d.idxAddr, d.srcAddr, d.rows, d.cols, d.kind]
    case Sync => []
  }

  function Store32(m: Mem, a: int, w: Dword): Mem {
    Store16(Store16(m, a, w % 0x1_0000), a + 2, w / 0x1_0000)
  }

  function WriteFields(m: Mem, a: int, ws: seq<Dword>): Mem
    decreases ws
  {
    if ws == [] then m else WriteFields(Store32(m, a, ws[0]), a + 4, ws[1..])
  }

  /** Bytes copied to consecutive addresses. */
  function WriteBytes(m: Mem, a: int, bs: seq<Byte>): Mem {
    if bs == [] then m else WriteBytes(m, a, bs[..|bs| - 1])[a + |bs| - 1 := bs[|bs| - 1]]
  }

  function ReadBytes(m: Mem, a: int, n: nat): (bs: seq<Byte>)
    ensures |bs| == n
  {
    if n == 0 then [] else ReadBytes(m, a, n - 1) + [Get(m, a + n - 1)]
  }

  /** The block lies inside DDR, the first byte even if it is empty. */
  predicate FitsDdr(a: int, n: nat) { In(Ddr, a) && (n > 0 ==> In(Ddr, a + n - 1)) }

  /** The struct in memory: four bytes a field, the lowest first. */
  function FieldBytes(ws: seq<Dword>): (bs: seq<Byte>)
    ensures |bs| == 4 * |ws|
  {
    if ws == [] then []
    else [ws[0] % 256, ws[0] / 256 % 256, ws[0] / 0x1_0000 % 256, ws[0] / 0x100_0000] + FieldBytes(ws[1..])
  }

  /** Reading the struct back. */
  function Decode(op: OpCode, m: Mem, a: int): Instr {
    match op
    case OpDmaLoad => DmaLoad(DmaParam(Load32(m, a), Load32(m, a + 4), Load32(m, a + 8), Load32(m, a + 12),
                                       Load32(m, a + 16), Load32(m, a + 20)))
    case OpDmaStore => DmaStore(DmaParam(Load32(m, a), Load32(m, a + 4), Load32(m, a + 8), Load32(m, a + 12),
                                         Load32(m, a + 16), Load32(m, a + 20)))
    case OpMatmul => Matmul(MatmulParam(Load32(m, a), Load32(m, a + 4), Load32(m, a + 8), Load32(m, a + 12),
                                        Load32(m, a + 16), Load32(m, a + 20), Load32(m, a + 24),
                                        Get(m, a + 28) != 0, Get(m, a + 29) != 0))
    case OpEwise(k) => Ewise(k, EwiseParam(Load32(m, a), Load32(m, a + 4), Load32(m, a + 8), Load32(m, a + 12),
                                           Load32(m, a + 16), Load32(m, a + 20), Load32(m, a + 24)))
    case OpAct => Act(ActParam(Load32(m, a), Load32(m, a + 4), Load32(m, a + 8), Load32(m, a + 12)))
    case OpReduce => Reduce(ReduceParam(Load32(m, a), Load32(m, a + 4), Load32(m, a + 8), Load32(m, a + 12),
                                        Load32(m, a + 16), Load32(m, a + 20)))
    case OpSync => Sync
  }

  function StoreFields(m: Mem, desc: int): DmaParam { Decode(OpDmaStore, m, desc).dma }

  /** execDmaStore from row `r` on. Every row reads the fields through the descriptor pointer again, and
      the rows are written to the memory the descriptor is in. */
  function StoreRows<F>(f: Fpu<F>, m: Mem, desc: int, r: nat): Option<Mem>
    decreases TWO_32 - r
  {
    var d := StoreFields(m, desc);
    if r >= d.rows then Some(m)
    else if !In(Sram, DmaSram(d, false, r)) || !In(Ddr, DmaDdr(d, false, r)) then None
    else
      var next := DoStep(f, m, DmaRow(d, false, r));
      if next.Some? then StoreRows(f, next.value, desc, r + 1) else None
  }

  /** One entry of the queue. The descriptor must be in DDR; only DMA_STORE can change its own. */
  function ExecInsn<F>(f: Fpu<F>, m: Mem, i: Insn): Option<Mem> {
    if i.op == OpSync then Some(m)
    else if !In(Ddr, i.desc) then None
    else if i.op == OpDmaStore then
      var d := StoreFields(m, i.desc);
      if d.sramAddr % 16 == 0 && d.ddrAddr % 16 == 0 then StoreRows(f, m, i.desc, 0) else None
    else Exec(f, m, Decode(i.op, m, i.desc))
  }

  /** Simulator::run: the queue in order, each descriptor read when its turn comes. */
  function RunQueue<F>(f: Fpu<F>, m: Mem, q: seq<Insn>): Option<Mem>
    decreases q
  {
    if q == [] then Some(m)
    else
      var r := ExecInsn(f, m, q[0]);
      if r.Some? then RunQueue(f, r.value, q[1..]) else None
  }

  function DecodeAll(m: Mem, q: seq<Insn>): (p: seq<Instr>)
    ensures |p| == |q|
  {
    seq(|q|, k requires 0 <= k < |q| => Decode(q[k].op, m, q[k].desc))
  }

  /** The bytes of a descriptor slot. */
  predicate InSlot(desc: int, a: int) { desc <= a < desc + DESC_LEN }

  ghost function SlotBytes(desc: int): iset<int> { iset a | InSlot(desc, a) }

  /** Every descriptor is in DDR, no instruction writes into that of a later one, and no DMA_STORE into
      its own. */
  ghost predicate SlotsAhead(p: seq<Instr>, q: seq<Insn>)
    requires |p| == |q|
  {
    && (forall k | 0 <= k < |q| && q[k].op != OpSync :: In(Ddr, q[k].desc))
    && forall i, k | 0 <= i <= k < |q| && q[k].op != OpSync && (i < k || q[k].op == OpDmaStore) ::
        Disjoint(WriteSet(p[i]), SlotBytes(q[k].desc))
  }

  /** Every descriptor is in DDR, and no instruction writes into any of them. */
  ghost predicate SlotsSafe(p: seq<Instr>, q: seq<Insn>) {
    && (forall j | j in q && j.op != OpSync :: In(Ddr, j.desc))
    && forall i, j | i in p && j in q :: Disjoint(WriteSet(i), SlotBytes(j.desc))
  }

  lemma SafeIsAhead(p: seq<Instr>, q: seq<Insn>)
    requires |p| == |q| && SlotsSafe(p, q)
    ensures SlotsAhead(p, q)
  {
    hide WriteSet, SlotBytes, In;
  }

  lemma DecodeDependsOnSlot(op: OpCode, m1: Mem, m2: Mem, desc: int)
    requires Agree(m1, m2, SlotBytes(desc))
    ensures Decode(op, m1, desc) == Decode(op, m2, desc)
  {
    FieldInSlot(m1, m2, desc, desc);
    FieldInSlot(m1, m2, desc, desc + 4);
    FieldInSlot(m1, m2, desc, desc + 8);
    FieldInSlot(m1, m2, desc, desc + 12);
    FieldInSlot(m1, m2, desc, desc + 16);
    FieldInSlot(m1, m2, desc, desc + 20);
    FieldInSlot(m1, m2, desc, desc + 24);
    FieldInSlot(m1, m2, desc, desc + 28);
    assert Get(m1, desc + 28) == Get(m2, desc + 28) && Get(m1, desc + 29) == Get(m2, desc + 29);
    hide Load32, Get, Agree;
  }

  lemma FieldInSlot(m1: Mem, m2: Mem, desc: int, a: int)
    requires Agree(m1, m2, SlotBytes(desc)) && desc <= a && a + 4 <= desc + DESC_LEN
    ensures Load32(m1, a) == Load32(m2, a) && Get(m1, a) == Get(m2, a) && Get(m1, a + 1) == Get(m2, a + 1)
  {
  }

  /* ---- a store that leaves its own descriptor alone ---- */

  function StoreSteps(d: DmaParam): seq<Step> { seq(d.rows, r requires r >= 0 => DmaRow(d, false, r)) }

  lemma StoreFieldsStay(m: Mem, m': Mem, desc: int, s: iset<int>)
    requires ChangedOnly(m, m', s) && Disjoint(s, SlotBytes(desc))
    ensures StoreFields(m', desc) == StoreFields(m, desc)
  {
    hide Get, SlotBytes, Decode;
    DecodeDependsOnSlot(OpDmaStore, m, m', desc);
  }

  /** The rows of a store change nothing outside its write intervals. */
  lemma StoreFrame<F>(f: Fpu<F>, m: Mem, d: DmaParam, r: nat)
    requires Full(m) && Plain(DmaStore(d)) && r <= d.rows && DoSteps(f, m, StoreSteps(d)[..r]).Some?
    ensures ChangedOnly(m, DoSteps(f, m, StoreSteps(d)[..r]).value, WriteSet(DmaStore(d)))
  {
    hide Full, Covered, DmaRow, DoSteps, ChangedOnly, Plain, ReadSet, WriteSet;
    var steps := StoreSteps(d)[..r];
    forall s | s in steps
      ensures Covered(s, ReadSet(DmaStore(d)), WriteSet(DmaStore(d)))
    {
      var k :| 0 <= k < r && steps[k] == s;
      DmaRowCovered(d, false, k);
    }
    StepsFrame(f, m, steps, ReadSet(DmaStore(d)), WriteSet(DmaStore(d)));
  }

  /** Rows read with the fields that were there at the start. */
  lemma {:induction false} StoreRowsFrom<F>(f: Fpu<F>, m: Mem, desc: int, r: nat)
    requires Full(m) && Plain(Decode(OpDmaStore, m, desc))
    requires Disjoint(WriteSet(Decode(OpDmaStore, m, desc)), SlotBytes(desc))
    requires var d := StoreFields(m, desc);
      && r <= d.rows && DoSteps(f, m, StoreSteps(d)[..r]).Some?
      && forall k | 0 <= k < r :: In(Sram, DmaSram(d, false, k)) && In(Ddr, DmaDdr(d, false, k))
    ensures var d := StoreFields(m, desc);
      StoreRows(f, DoSteps(f, m, StoreSteps(d)[..r]).value, desc, r)
        == if forall k | 0 <= k < d.rows :: In(Sram, DmaSram(d, false, k)) && In(Ddr, DmaDdr(d, false, k))
           then DoSteps(f, m, StoreSteps(d)) else None
    decreases StoreFields(m, desc).rows - r
  {
    hide Full, Plain, Decode, WriteSet, SlotBytes, DmaRow, DmaSram, DmaDdr, DoStep, DoSteps, In;
    var d := StoreFields(m, desc);
    var steps := StoreSteps(d);
    var now := DoSteps(f, m, steps[..r]).value;
    assert Decode(OpDmaStore, m, desc) == DmaStore(d) by { StoreDecodes(m, desc); }
    StoreFrame(f, m, d, r);
    StoreFieldsStay(m, now, desc, WriteSet(DmaStore(d)));
    if r == d.rows {
      assert steps[..r] == steps;
    } else if In(Sram, DmaSram(d, false, r)) && In(Ddr, DmaDdr(d, false, r)) {
      MoreSteps(f, m, steps, r);
      assert steps[r] == DmaRow(d, false, r);
      if DoStep(f, now, steps[r]).Some? {
        StoreRowsFrom(f, m, desc, r + 1);
      } else {
        StepsStop(f, m, steps, r + 1);
      }
    }
  }

  lemma StoreDecodes(m: Mem, desc: int)
    ensures Decode(OpDmaStore, m, desc) == DmaStore(StoreFields(m, desc))
  {
    hide Load32;
  }

  /** Then it does not matter that the fields are read again in every row. */
  lemma StoreRunsAsDecoded<F>(f: Fpu<F>, m: Mem, desc: int)
    requires Full(m) && In(Ddr, desc) && Plain(Decode(OpDmaStore, m, desc))
    requires Disjoint(WriteSet(Decode(OpDmaStore, m, desc)), SlotBytes(desc))
    ensures ExecInsn(f, m, Insn(OpDmaStore, desc)) == Exec(f, m, Decode(OpDmaStore, m, desc))
  {
    hide Full, Plain, Decode, WriteSet, SlotBytes, DmaRow, DmaSram, DmaDdr, DoStep, In, StoreRows;
    var d := StoreFields(m, desc);
    StoreDecodes(m, desc);
    assert StoreSteps(d)[..0] == [];
    StoreRowsFrom(f, m, desc, 0);
    assert Asserts(DmaStore(d)) ==> Steps(DmaStore(d)) == StoreSteps(d);
  }

  /* ---- no other instruction reaches a descriptor ---- */

  lemma {:induction false} SramSteps<F>(f: Fpu<F>, m: Mem, steps: seq<Step>)
    requires (forall s | s in steps :: s.to == Sram) && DoSteps(f, m, steps).Some?
    ensures forall a | !In(Sram, a) :: Get(DoSteps(f, m, steps).value, a) == Get(m, a)
    decreases |steps|
  {
    hide Eval, In;
    if steps != [] {
      var front, s := steps[..|steps| - 1], steps[|steps| - 1];
      SramSteps(f, m, front);
      var now := DoSteps(f, m, front).value;
      var sram := iset a | In(Sram, a);
      forall a | a in s.dsts
        ensures Holds(sram, a)
      {
        var k :| 0 <= k < |s.dsts| && s.dsts[k] == a;
      }
      StoreWithin(now, s.dsts, Eval(f, s.op, Fetch(now, s.srcs)).value, sram);
    }
  }

  lemma SramOnly(i: Instr)
    requires Asserts(i) && !i.DmaStore?
    ensures forall s | s in Steps(i) :: s.to == Sram
  {
    if i.Matmul? {
      MatmulSramOnly(i.mm, i.mm.M);
    }
  }

  lemma {:induction false} MatmulSramOnly(d: MatmulParam, rows: nat)
    ensures forall s | s in MatmulRows(d, rows) :: s.to == Sram
  {
    if rows > 0 {
      MatmulSramOnly(d, rows - 1);
    }
  }

  /** At every point of an instruction other than DMA_STORE, DDR holds what it held at the start: reading
      the descriptor again would give the same fields. */
  lemma OnlyStoresWriteDdr<F>(f: Fpu<F>, m: Mem, i: Instr, n: nat)
    requires Asserts(i) && !i.DmaStore? && n <= |Steps(i)| && DoSteps(f, m, Steps(i)[..n]).Some?
    ensures forall a | In(Ddr, a) :: Get(DoSteps(f, m, Steps(i)[..n]).value, a) == Get(m, a)
  {
    hide Steps, Asserts, DoSteps, Get;
    SramOnly(i);
    assert forall s | s in Steps(i)[..n] :: s in Steps(i);
    SramSteps(f, m, Steps(i)[..n]);
  }

  /** One entry of the queue executes as the instruction it decodes to. */
  lemma EntryRuns<F>(f: Fpu<F>, m: Mem, q: seq<Insn>, k: nat)
    requires Full(m) && AllPlain(DecodeAll(m, q)) && SlotsAhead(DecodeAll(m, q), q) && k < |q|
    ensures ExecInsn(f, m, q[k]) == Exec(f, m, DecodeAll(m, q)[k])
  {
    hide Full, Plain, WriteSet, SlotBytes, StoreRows, Asserts, Steps, In;
    var i := DecodeAll(m, q)[k];
    assert i in DecodeAll(m, q) && Plain(i);
    if q[k].op == OpDmaStore {
      hide Decode, Exec;
      StoreRunsAsDecoded(f, m, q[k].desc);
      assert q[k] == Insn(OpDmaStore, q[k].desc);
    } else if q[k].op == OpSync {
      SyncRuns(f, m);
    }
  }

  lemma SyncRuns<F>(f: Fpu<F>, m: Mem)
    ensures Exec(f, m, Sync) == Some(m)
  {
  }

  /** The instructions behind the first one decode to the same after it. */
  lemma StillDecodes<F>(f: Fpu<F>, m: Mem, q: seq<Insn>, k: nat)
    requires Full(m) && AllPlain(DecodeAll(m, q)) && SlotsAhead(DecodeAll(m, q), q) && 0 < k < |q|
    requires Exec(f, m, DecodeAll(m, q)[0]).Some?
    ensures Decode(q[k].op, Exec(f, m, DecodeAll(m, q)[0]).value, q[k].desc) == DecodeAll(m, q)[k]
  {
    hide Full, Exec, Plain, WriteSet;
    var i := DecodeAll(m, q)[0];
    assert Plain(i);
    ExecFrame(f, m, i);
    if q[k].op != OpSync {
      assert Disjoint(WriteSet(i), SlotBytes(q[k].desc));
      DecodeDependsOnSlot(q[k].op, m, Exec(f, m, i).value, q[k].desc);
    }
  }

  /** As long as no write interval meets a descriptor still to be read, every instruction executes with
      the descriptor that was loaded for it. */
  lemma {:induction false} DescriptorsSurvive<F>(f: Fpu<F>, m: Mem, q: seq<Insn>)
    requires Full(m) && AllPlain(DecodeAll(m, q)) && SlotsAhead(DecodeAll(m, q), q)
    ensures RunQueue(f, m, q) == Run(f, m, DecodeAll(m, q))
    decreases q
  {
    hide Full, Exec, ExecInsn, Plain, WriteSet, Decode, SlotBytes, In;
    if q != [] {
      var p := DecodeAll(m, q);
      assert p[0] in p && Plain(p[0]);
      EntryRuns(f, m, q, 0);
      var r := Exec(f, m, p[0]);
      if r.Some? {
        ExecFrame(f, m, p[0]);
        forall k | 0 <= k < |q| - 1
          ensures DecodeAll(r.value, q[1..])[k] == p[1..][k]
        {
          StillDecodes(f, m, q, k + 1);
        }
        assert DecodeAll(r.value, q[1..]) == p[1..];
        assert forall i | i in p[1..] :: i in p;
        DescriptorsSurvive(f, r.value, q[1..]);
      }
    }
  }

  lemma SlotsSafeReordered(p: seq<Instr>, q: seq<Insn>, p': seq<Instr>, q': seq<Insn>)
    requires SlotsSafe(p, q) && (forall i | i in p' :: i in p) && (forall j | j in q' :: j in q)
    ensures SlotsSafe(p', q')
  {
    hide WriteSet, SlotBytes;
  }

  /** A permuted queue denotes a permuted program. */
  lemma PermutedProgram(m: Mem, q: seq<Insn>, q': seq<Insn>)
    requires multiset(q) == multiset(q')
    ensures (forall j | j in q' :: j in q) && forall i | i in DecodeAll(m, q') :: i in DecodeAll(m, q)
  {
    hide Decode;
    var p, p' := DecodeAll(m, q), DecodeAll(m, q');
    forall j | j in q'
      ensures j in q
    {
      assert j in multiset(q');
    }
    forall i | i in p'
      ensures i in p
    {
      var k :| 0 <= k < |q'| && p'[k] == i;
      assert q'[k] in q;
      var l :| 0 <= l < |q| && q[l] == q'[k];
      assert p[l] == i;
    }
  }

  /** Order freedom at the level the machine runs at: opcodes with descriptor pointers. */
  lemma QueueOrderFree<F>(f: Fpu<F>, m: Mem, q: seq<Insn>, q': seq<Insn>)
    requires Full(m) && Clean(DecodeAll(m, q)) && AllPlain(DecodeAll(m, q))
    requires Reordered(DecodeAll(m, q), DecodeAll(m, q')) && multiset(q) == multiset(q')
    requires SlotsAhead(DecodeAll(m, q), q) && SlotsAhead(DecodeAll(m, q'), q')
    ensures RunQueue(f, m, q) == RunQueue(f, m, q')
  {
    hide Full, Exec, Plain, WriteSet, Decode, Clean, SlotsAhead, Reordered, RunQueue;
    var p, p' := DecodeAll(m, q), DecodeAll(m, q');
    PermutedProgram(m, q, q');
    DescriptorsSurvive(f, m, q);
    DescriptorsSurvive(f, m, q');
    CleanMeansOrderFree(f, m, p, p');
  }

  /* ---- the bytes of a descriptor ---- */

  lemma {:induction false} WriteBytesConcat(m: Mem, a: int, xs: seq<Byte>, ys: seq<Byte>)
    ensures WriteBytes(m, a, xs + ys) == WriteBytes(WriteBytes(m, a, xs), a + |xs|, ys)
    decreases ys
  {
    if ys == [] {
      assert xs + ys == xs;
    } else {
      var n := |ys| - 1;
      assert (xs + ys)[..|xs| + n] == xs + ys[..n];
      WriteBytesConcat(m, a, xs, ys[..n]);
    }
  }

  lemma {:induction false} WriteBytesAt(m: Mem, a: int, bs: seq<Byte>, x: int)
    ensures Get(WriteBytes(m, a, bs), x) == if a <= x < a + |bs| then bs[x - a] else Get(m, x)
    decreases bs
  {
    if bs != [] {
      WriteBytesAt(m, a, bs[..|bs| - 1], x);
    }
  }

  lemma FourBytes(m: Mem, a: int, w: Dword)
    ensures WriteBytes(m, a, [w % 256, w / 256 % 256, w / 0x1_0000 % 256, w / 0x100_0000]) == Store32(m, a, w)
  {
    LowWord(w);
    var w0, w1, w2, w3 := w % 256, w / 256 % 256, w / 0x1_0000 % 256, w / 0x100_0000;
    assert [w0, w1, w2, w3][..3] == [w0, w1, w2] && [w0, w1, w2][..2] == [w0, w1] && [w0, w1][..1] == [w0] && [w0][..0] == [];
    assert WriteBytes(m, a, [w0]) == m[a := w0];
    assert WriteBytes(m, a, [w0, w1]) == m[a := w0][a + 1 := w1];
    assert WriteBytes(m, a, [w0, w1, w2]) == m[a := w0][a + 1 := w1][a + 2 := w2];
  }

  lemma LowWord(w: Dword)
    ensures w % 0x1_0000 % 256 == w % 256 && w % 0x1_0000 / 256 == w / 256 % 256
    ensures w / 0x1_0000 % 256 == w / 0x1_0000 % 256 && w / 0x1_0000 / 256 == w / 0x100_0000
  {
  }

  /** Writing the fields is copying the struct's bytes. */
  lemma {:induction false} FieldsAreBytes(m: Mem, a: int, ws: seq<Dword>)
    ensures WriteFields(m, a, ws) == WriteBytes(m, a, FieldBytes(ws))
    decreases ws
  {
    hide Store32;
    if ws != [] {
      var first := [ws[0] % 256, ws[0] / 256 % 256, ws[0] / 0x1_0000 % 256, ws[0] / 0x100_0000];
      FourBytes(m, a, ws[0]);
      WriteBytesConcat(m, a, first, FieldBytes(ws[1..]));
      FieldsAreBytes(Store32(m, a, ws[0]), a + 4, ws[1..]);
    }
  }

  /** The offsets of the fields, in bytes from the start of the struct. */
  ghost predicate LaidOut(m: Mem, a: int, i: Instr) {
    match i
    case DmaLoad(d) =>
      && Load32(m, a) == d.sramAddr && Load32(m, a + 4) == d.ddrAddr && Load32(m, a + 8) == d.rows
      && Load32(m, a + 12) == d.cols && Load32(m, a + 16) == d.srcStride && Load32(m, a + 20) == d.dstStride
    case DmaStore(d) =>
      && Load32(m, a) == d.sramAddr && Load32(m, a + 4) == d.ddrAddr && Load32(m, a + 8) == d.rows
      && Load32(m, a + 12) == d.cols && Load32(m, a + 16) == d.srcStride && Load32(m, a + 20) == d.dstStride
    case Matmul(d) =>
      && Load32(m, a) == d.dstAddr && Load32(m, a + 4) == d.rhsAddr && Load32(m, a + 8) == d.lhsAddr
      && Load32(m, a + 12) == d.M && Load32(m, a + 16) == d.K && Load32(m, a + 20) == d.N && Load32(m, a + 24) == d.accumulate
      && Get(m, a + 28) == (if d.transA then 1 else 0) && Get(m, a + 29) == (if d.transB then 1 else 0)
    case Ewise(_, d) =>
      && Load32(m, a) == d.dstAddr && Load32(m, a + 4) == d.rhsAddr && Load32(m, a + 8) == d.lhsAddr
      && Load32(m, a + 12) == d.rows && Load32(m, a + 16) == d.cols && Load32(m, a + 20) == d.rhsBlk && Load32(m, a + 24) == d.rhsStride
    case Act(d) =>
      && Load32(m, a) == d.dstAddr && Load32(m, a + 4) == d.srcAddr && Load32(m, a + 8) == d.n && Load32(m, a + 12) == d.kind
    case Reduce(d) =>
      && Load32(m, a) == d.dstAddr && Load32(m, a + 4) == d.idxAddr && Load32(m, a + 8) == d.srcAddr
      && Load32(m, a + 12) == d.rows && Load32(m, a + 16) == d.cols && Load32(m, a + 20) == d.kind
    case Sync => true
  }

  /** The host writes every struct with these offsets, and the machine reads exactly these. */
  lemma DescriptorLayout(m: Mem, a: int, i: Instr)
    ensures LaidOut(WriteFields(m, a, Fields(i)), a, i)
  {
    hide WriteFields, Load32;
    var m', ws := WriteFields(m, a, Fields(i)), Fields(i);
    forall k | 0 <= k < |ws|
      ensures Load32(m', a + 4 * k) == ws[k]
    {
      FieldsReadBack(m, a, ws, k);
    }
    if i.Matmul? {
      assert Load32(m', a + 4 * 7) == ws[7];
      FlagBytes(m', a + 28, i.mm.transA, i.mm.transB);
    }
    assert |ws| > 0 ==> Load32(m', a + 4 * 0) == ws[0];
    assert |ws| > 1 ==> Load32(m', a + 4 * 1) == ws[1];
    assert |ws| > 2 ==> Load32(m', a + 4 * 2) == ws[2];
    assert |ws| > 3 ==> Load32(m', a + 4 * 3) == ws[3];
    assert |ws| > 4 ==> Load32(m', a + 4 * 4) == ws[4];
    assert |ws| > 5 ==> Load32(m', a + 4 * 5) == ws[5];
    assert |ws| > 6 ==> Load32(m', a + 4 * 6) == ws[6];
  }

  lemma FlagBytes(m: Mem, a: int, x: bool, y: bool)
    requires Load32(m, a) == (if x then 1 else 0) + (if y then 256 else 0)
    ensures Get(m, a) == (if x then 1 else 0) && Get(m, a + 1) == (if y then 1 else 0)
  {
  }

  lemma DecodedLayout(m: Mem, a: int, i: Instr)
    requires LaidOut(m, a, i)
    ensures Decode(OpOf(i), m, a) == i
  {
    hide Load32, Get;
  }

  /* ---- loading ---- */

  lemma Load32Stored(m: Mem, a: int, w: Dword)
    ensures Load32(Store32(m, a, w), a) == w
  {
  }

  lemma {:induction false} WriteFieldsFrame(m: Mem, a: int, ws: seq<Dword>)
    ensures forall b | b < a || b >= a + 4 * |ws| :: Get(WriteFields(m, a, ws), b) == Get(m, b)
    decreases ws
  {
    if ws != [] {
      WriteFieldsFrame(Store32(m, a, ws[0]), a + 4, ws[1..]);
    }
  }

  lemma {:induction false} FieldsReadBack(m: Mem, a: int, ws: seq<Dword>, k: nat)
    requires k < |ws|
    ensures Load32(WriteFields(m, a, ws), a + 4 * k) == ws[k]
    decreases ws
  {
    hide Store32;
    if k == 0 {
      var m' := Store32(m, a, ws[0]);
      Load32Stored(m, a, ws[0]);
      WriteFieldsFrame(m', a + 4, ws[1..]);
    } else {
      FieldsReadBack(Store32(m, a, ws[0]), a + 4, ws[1..], k - 1);
    }
  }

  /** A descriptor reads back as the instruction it was written for. */
  lemma DescriptorRoundTrip(m: Mem, a: int, i: Instr)
    ensures Decode(OpOf(i), WriteFields(m, a, Fields(i)), a) == i
  {
    hide WriteFields, LaidOut, Decode, Fields;
    DescriptorLayout(m, a, i);
    DecodedLayout(WriteFields(m, a, Fields(i)), a, i);
  }

  /** The host writes every descriptor before the machine starts. */
  function LoadAll(m: Mem, p: seq<Instr>, slots: seq<int>): Mem
    requires |p| == |slots|
    decreases p
  {
    if p == [] then m else LoadAll(WriteFields(m, slots[0], Fields(p[0])), p[1..], slots[1..])
  }

  function QueueOf(p: seq<Instr>, slots: seq<int>): seq<Insn>
    requires |p| == |slots|
  {
    seq(|p|, k requires 0 <= k < |p| => Insn(OpOf(p[k]), slots[k]))
  }

  /** Descriptors of different instructions do not overlap; a SYNC has none. */
  ghost predicate SlotsApart(p: seq<Instr>, slots: seq<int>)
    requires |p| == |slots|
  {
    forall i, j | 0 <= i < j < |slots| && p[i] != Sync && p[j] != Sync ::
      slots[i] + DESC_LEN <= slots[j] || slots[j] + DESC_LEN <= slots[i]
  }

  lemma {:induction false} LoadAllFrame(m: Mem, p: seq<Instr>, slots: seq<int>, b: int)
    requires |p| == |slots|
    requires forall k | 0 <= k < |slots| :: p[k] == Sync || b < slots[k] || b >= slots[k] + DESC_LEN
    ensures Get(LoadAll(m, p, slots), b) == Get(m, b)
    decreases p
  {
    hide Fields;
    if p != [] {
      FieldsFit(p[0]);
      WriteFieldsFrame(m, slots[0], Fields(p[0]));
      SyncHasNoFields();
      LoadAllFrame(WriteFields(m, slots[0], Fields(p[0])), p[1..], slots[1..], b);
    }
  }

  lemma SyncHasNoFields()
    ensures Fields(Sync) == []
  {
  }

  lemma FieldsFit(i: Instr)
    ensures 4 * |Fields(i)| <= DESC_LEN
  {
  }

  /** Slots a descriptor length apart: every instruction of the queue decodes to what was loaded. */
  lemma {:induction false} LoadedDecodes(m: Mem, p: seq<Instr>, slots: seq<int>, k: nat)
    requires |p| == |slots| && SlotsApart(p, slots) && k < |p|
    ensures Decode(OpOf(p[k]), LoadAll(m, p, slots), slots[k]) == p[k]
    decreases p
  {
    hide Fields, Decode, WriteFields;
    if p[k] == Sync {
      SyncDecodes(LoadAll(m, p, slots), slots[k]);
    } else {
      var m1 := WriteFields(m, slots[0], Fields(p[0]));
      if k == 0 {
        DescriptorRoundTrip(m, slots[0], p[0]);
        forall b | b in SlotBytes(slots[0])
          ensures Get(LoadAll(m1, p[1..], slots[1..]), b) == Get(m1, b)
        {
          LoadAllFrame(m1, p[1..], slots[1..], b);
        }
        DecodeDependsOnSlot(OpOf(p[0]), LoadAll(m1, p[1..], slots[1..]), m1, slots[0]);
      } else {
        LoadedDecodes(m1, p[1..], slots[1..], k - 1);
      }
    }
  }

  lemma SyncDecodes(m: Mem, desc: int)
    ensures OpOf(Sync) == OpSync && Decode(OpSync, m, desc) == Sync
  {
  }

  /** Running the loaded queue is running the program. */
  lemma LoadedRuns<F>(f: Fpu<F>, m: Mem, p: seq<Instr>, slots: seq<int>)
    requires |p| == |slots| && SlotsApart(p, slots) && Full(LoadAll(m, p, slots))
    requires AllPlain(p) && SlotsAhead(p, QueueOf(p, slots))
    ensures RunQueue(f, LoadAll(m, p, slots), QueueOf(p, slots)) == Run(f, LoadAll(m, p, slots), p)
  {
    hide Full, Exec, Plain, WriteSet, Decode, Run, RunQueue, LoadAll;
    var m', q := LoadAll(m, p, slots), QueueOf(p, slots);
    forall k | 0 <= k < |p|
      ensures DecodeAll(m', q)[k] == p[k]
    {
      LoadedDecodes(m, p, slots, k);
    }
    assert DecodeAll(m', q) == p;
    DescriptorsSurvive(f, m', q);
  }
}
