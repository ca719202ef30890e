/** The program `eclipse-run`: input files into DDR, the .easm file into descriptors and a queue, the
    run, and the output file. */
module EclipseRun {
  import opened Types
  import opened Machine
  import opened AsmText
  import opened Assembly
  import opened CommandQueue
  import opened EasmFiles
  import opened CModel

  /* ---- what the program does ---- */

  type File = seq<Byte>

  /** How a run ends: an abort or an error exit, or the bytes of the output file, if it writes one. */
  datatype RunResult = Failed | Finished(out: Option<File>)

  /** The memory of a new simulator. */
  ghost function ZeroMemory(): Mem { map a | SRAM_ADDR <= a < DDR_ADDR + DDR_SIZE && (In(Sram, a) || In(Ddr, a)) :: 0 }

  /** Every file behind the one before it, 64 KB apart, the first 64 KB behind the start of DDR. */
  function WithFiles(m: Mem, files: seq<File>): Option<Mem> {
    if files == [] then Some(m)
    else
      var front, file := WithFiles(m, files[..|files| - 1]), files[|files| - 1];
      var addr := U32(0x4000_0000 + 0x1_0000 * |files|);
      if front.Some? && FitsDdr(addr, |file|) then Some(WriteBytes(front.value, addr, file)) else None
  }

  /** The host can write every descriptor. */
  predicate Installs(ps: seq<Placed>) {
    forall k | 0 <= k < |ps| && ps[k].instr != Sync :: FitsDdr(ps[k].desc, 4 * |Fields(ps[k].instr)|)
  }

  /** DDR address and size in bytes of the last DMA_STORE of the file; 0 and 0 if there is none. */
  function DumpedBlock(p: seq<Instr>): (Dword, Dword) {
    if p == [] then (0, 0)
    else
      var last := p[|p| - 1];
      if last.DmaStore? then (last.dma.ddrAddr, U32(2 * U32(last.dma.rows * last.dma.cols))) else DumpedBlock(p[..|p| - 1])
  }

  /** Memory and queue when the machine starts. */
  ghost function Loaded(lines: seq<string>, files: seq<File>): Option<(Mem, seq<Insn>)> {
    var m, ps := WithFiles(ZeroMemory(), files), LoadRecords(ReadLines(lines));
    if m.None? || ps.None? || !Installs(ps.value) then None
    else Some((LoadAll(m.value, Instrs(ps.value), Descs(ps.value)), QueueOf(Instrs(ps.value), Descs(ps.value))))
  }

  ghost function FinalMemory<F>(f: Fpu<F>, lines: seq<string>, files: seq<File>): Option<Mem> {
    var l := Loaded(lines, files);
    if l.Some? then RunQueue(f, l.value.0, l.value.1) else None
  }

  /** The tensor dumped is the one the last DMA_STORE of the file names. */
  function Dump(m: Mem, store: (Dword, Dword)): RunResult {
    if store.1 == 0 then Finished(None)
    else if FitsDdr(store.0, store.1) then Finished(Some(ReadBytes(m, store.0, store.1)))
    else Failed
  }

  ghost function ToolResult<F>(f: Fpu<F>, lines: seq<string>, files: seq<File>): RunResult {
    var m := FinalMemory(f, lines, files);
    if files == [] || m.None? then Failed else Dump(m.value, DumpedBlock(Instrs(LoadRecords(ReadLines(lines)).value)))
  }

  /* ---- where the inputs end up ---- */

  /** At most one file a slot, none larger than its slot. */
  ghost predicate InputsFit(files: seq<File>) {
    |files| <= 0x7FFF && forall k | 0 <= k < |files| :: |files[k]| <= 0x1_0000
  }

  /** Byte `o` of file `r`, zero where there is none. */
  function InputByte(files: seq<File>, r: nat, o: nat): Byte {
    if r < |files| && o < |files[r]| then files[r][o] else 0
  }

  lemma {:induction false} FilesFit(files: seq<File>)
    requires InputsFit(files)
    ensures WithFiles(ZeroMemory(), files).Some? && Full(WithFiles(ZeroMemory(), files).value)
    decreases files
  {
    hide ZeroMemory, Full;
    if files == [] {
      ZeroIsFull();
    } else {
      FilesFit(files[..|files| - 1]);
      BytesFull(WithFiles(ZeroMemory(), files[..|files| - 1]).value, U32(0x4000_0000 + 0x1_0000 * |files|), files[|files| - 1]);
    }
  }

  lemma ZeroIsFull()
    ensures Full(ZeroMemory()) && forall a :: Get(ZeroMemory(), a) == 0
  {
  }

  lemma {:induction false} BytesFull(m: Mem, a: int, bs: File)
    requires Full(m) && FitsDdr(a, |bs|)
    ensures Full(WriteBytes(m, a, bs))
    decreases bs
  {
    if bs != [] {
      BytesFull(m, a, bs[..|bs| - 1]);
    }
  }

  /** The slots hold the files, padded with zeros. */
  lemma {:induction false} FilesPlaced(files: seq<File>, r: nat, o: nat)
    requires InputsFit(files) && o < 0x1_0000
    ensures WithFiles(ZeroMemory(), files).Some?
    ensures Get(WithFiles(ZeroMemory(), files).value, 0x4001_0000 + 0x1_0000 * r + o) == InputByte(files, r, o)
    decreases files
  {
    hide ZeroMemory, FitsDdr, Get, WriteBytes;
    FilesFit(files);
    if files == [] {
      ZeroIsFull();
    } else {
      var front, file := files[..|files| - 1], files[|files| - 1];
      FilesPlaced(front, r, o);
      WriteBytesAt(WithFiles(ZeroMemory(), front).value, 0x4000_0000 + 0x1_0000 * |files|, file, 0x4001_0000 + 0x1_0000 * r + o);
      assert U32(0x4000_0000 + 0x1_0000 * |files|) == 0x4000_0000 + 0x1_0000 * |files|;
    }
  }

  /* ---- the program ---- */

  /** The loop over the input files: argv[3] on. */
  method PlaceInputs<F>(chip: Chip<F>, files: seq<File>) returns (ok: bool)
    requires chip.Valid()
    modifies chip.sram, chip.ddr
    ensures var m := WithFiles(old(chip.Contents()), files); ok == m.Some? && (ok ==> chip.Contents() == m.value)
  {
    var argc := |files| + 3;
    ok := true;
    for i := 3 to argc
      invariant ok && WithFiles(old(chip.Contents()), files[..i - 3]) == Some(chip.Contents())
    {
      assert files[..i - 2][..i - 3] == files[..i - 3];
      ok := chip.WriteDdr(U32(DDR_ADDR + 0x1_0000 * (i - 2)), files[i - 3]);
      if !ok {
        NoRoom(old(chip.Contents()), files, i - 2);
        return;
      }
    }
    assert files[..|files|] == files;
  }

  lemma {:induction false} NoRoom(m: Mem, files: seq<File>, n: nat)
    requires n <= |files| && WithFiles(m, files[..n]).None?
    ensures WithFiles(m, files).None?
    decreases |files|
  {
    if n == |files| {
      assert files[..n] == files;
    } else {
      assert files[..|files| - 1][..n] == files[..n];
      NoRoom(m, files[..|files| - 1], n);
    }
  }

  /** The loop over the instructions: every descriptor is written to DDR and its instruction pushed; the
      last DMA_STORE seen decides what will be dumped. */
  method LoadProgram<F>(chip: Chip<F>, rs: seq<Record>) returns (ok: bool, queue: seq<Insn>, outDdr: Dword, outBytes: Dword)
    requires chip.Valid()
    modifies chip.sram, chip.ddr
    ensures ok <==> LoadRecords(rs).Some? && Installs(LoadRecords(rs).value)
    ensures ok ==> var ps := LoadRecords(rs).value;
      && chip.Contents() == LoadAll(old(chip.Contents()), Instrs(ps), Descs(ps)) && queue == QueueOf(Instrs(ps), Descs(ps))
      && (outDdr, outBytes) == DumpedBlock(Instrs(ps))
  {
    hide Load, WriteFields, Fields;
    ghost var m := chip.Contents();
    queue, outDdr, outBytes := [], 0, 0;
    ghost var ps: seq<Placed> := [];
    for k := 0 to |rs|
      invariant LoadRecords(rs[..k]) == Some(ps) && Installs(ps)
      invariant chip.Contents() == LoadAll(m, Instrs(ps), Descs(ps)) && queue == QueueOf(Instrs(ps), Descs(ps))
      invariant (outDdr, outBytes) == DumpedBlock(Instrs(ps))
    {
      assert rs[..k + 1][..k] == rs[..k];
      var r := Load(rs[k]);
      if r.None? {
        FailsOn(rs, k);
        return false, queue, outDdr, outBytes;
      }
      var x := r.value;
      if x.instr != Sync {
        ok := chip.WriteDdr(x.desc, FieldBytes(Fields(x.instr)));
        if !ok {
          CannotInstall(rs, k);
          return;
        }
        FieldsAreBytes(LoadAll(m, Instrs(ps), Descs(ps)), x.desc, Fields(x.instr));
      } else {
        NoDescriptor(LoadAll(m, Instrs(ps), Descs(ps)), x.desc);
      }
      queue := queue + [Insn(OpOf(x.instr), x.desc)];
      if x.instr.DmaStore? {
        outDdr, outBytes := x.instr.dma.ddrAddr, U32(2 * U32(x.instr.dma.rows * x.instr.dma.cols));
      }
      Appended(m, ps, x);
      AppendedInstr(ps, x);
      ps := ps + [x];
    }
    assert rs[..|rs|] == rs;
    ok := true;
  }

  lemma NoDescriptor(m: Mem, a: int)
    ensures WriteFields(m, a, Fields(Sync)) == m
  {
  }

  lemma AppendedInstr(ps: seq<Placed>, x: Placed)
    ensures Instrs(ps + [x]) == Instrs(ps) + [x.instr]
  {
  }

  lemma {:induction false} RecordOfIndex(rs: seq<Record>, k: nat)
    requires k < |rs| && LoadRecords(rs).Some?
    ensures |LoadRecords(rs).value| == |rs| && Load(rs[k]) == Some(LoadRecords(rs).value[k])
    decreases |rs|
  {
    hide Load;
    if |rs| > 1 {
      RecordOfIndex(rs[..|rs| - 1], if k < |rs| - 1 then k else 0);
    }
  }

  lemma CannotInstall(rs: seq<Record>, k: nat)
    requires k < |rs| && Load(rs[k]).Some?
    requires var x := Load(rs[k]).value; x.instr != Sync && !FitsDdr(x.desc, 4 * |Fields(x.instr)|)
    ensures LoadRecords(rs).None? || !Installs(LoadRecords(rs).value)
  {
    hide Load, Fields, FitsDdr;
    if LoadRecords(rs).Some? {
      RecordOfIndex(rs, k);
    }
  }

  lemma NewMemory(m: Mem)
    requires Full(m) && forall a :: Get(m, a) == 0
    ensures m == ZeroMemory()
  {
    forall a
      ensures a in m <==> a in ZeroMemory()
      ensures a in m ==> m[a] == 0
    {
      assert Get(m, a) == 0;
    }
  }

  /** main: without an input file it only prints its usage. */
  method RunFile<F>(f: Fpu<F>, lines: seq<string>, files: seq<File>) returns (r: RunResult)
    ensures r == ToolResult(f, lines, files)
  {
    hide ZeroMemory, WithFiles, Installs, DumpedBlock, LoadRecords, ReadLines, RunQueue, LoadAll, QueueOf, FitsDdr, ReadBytes, Full, In;
    if files == [] {
      return Failed;
    }
    var insns := ParseEasm(lines);
    var chip := new Chip(f);
    NewMemory(chip.Contents());
    var ok := PlaceInputs(chip, files);
    if !ok {
      return Failed;
    }
    var queue, outDdr, outBytes;
    ok, queue, outDdr, outBytes := LoadProgram(chip, insns);
    if !ok {
      return Failed;
    }
    ok := chip.RunAll(queue);
    if !ok {
      return Failed;
    }
    if outBytes == 0 {
      return Finished(None);
    }
    var bytes;
    ok, bytes := chip.ReadDdr(outDdr, outBytes);
    r := if ok then Finished(Some(bytes)) else Failed;
  }
}
