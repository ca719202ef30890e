/** Emitting instructions as .easm lines and reading them back. */
module Assembly {
  import opened Arithmetic
  import opened Types
  import opened Machine
  import opened HazardChecker
  import opened AsmText
  import CommandQueue

  /** Where EclipseToEasm puts the first descriptor. */
  const DESC_START := DDR_ADDR + 0x100

  /* ---- printing ---- */

  function Mnemonic(i: Instr): string {
    match i
    case DmaLoad(_) => "DMA_LOAD"
    case DmaStore(_) => "DMA_STORE"
    case Matmul(_) => "MATMUL"
    case Ewise(Add, _) => "ELEMENTWISE_ADD"
    case Ewise(Sub, _) => "ELEMENTWISE_SUB"
    case Ewise(Mul, _) => "ELEMENTWISE_MUL"
    case Ewise(Div, _) => "ELEMENTWISE_DIV"
    case Act(_) => "ACT"
    case Reduce(_) => "REDUCE"
    case Sync => "SYNC"
  }

  function Flag(b: bool): nat { if b then 1 else 0 }

  /** The fields of a line. */
  function Bindings(i: Instr, desc: nat): seq<Binding> {
    match i
    case DmaLoad(d) => DmaBindings(d, desc)
    case DmaStore(d) => DmaBindings(d, desc)
    case Matmul(d) =>
      [("desc", Hex(desc)), ("dst", Hex(d.dstAddr)), ("lhs", Hex(d.lhsAddr)), ("rhs", Hex(d.rhsAddr)), ("M", Dec(d.M)),
       ("N", Dec(d.N)), ("K", Dec(d.K)), ("acc", Dec(d.accumulate)), ("ta", Dec(Flag(d.transA))), ("tb", Dec(Flag(d.transB)))]
    case Ewise(_, d) =>
      [("desc", Hex(desc)), ("dst", Hex(d.dstAddr)), ("lhs", Hex(d.lhsAddr)), ("rhs", Hex(d.rhsAddr)), ("rows", Dec(d.rows)),
       ("cols", Dec(d.cols)), ("blk", Dec(d.rhsBlk)), ("stride", Dec(d.rhsStride))]
    case Act(d) =>
      [("desc", Hex(desc)), ("dst", Hex(d.dstAddr)), ("src", Hex(d.srcAddr)), ("n", Dec(d.n)), ("kind", Dec(d.kind))]
    case Reduce(d) =>
      [("desc", Hex(desc)), ("dst", Hex(d.dstAddr))] + (if d.idxAddr != 0 then [("idx", Hex(d.idxAddr))] else [])
        + [("src", Hex(d.srcAddr)), ("rows", Dec(d.rows)), ("cols", Dec(d.cols)), ("kind", Dec(d.kind))]
    case Sync => []
  }

  function DmaBindings(d: DmaParam, desc: nat): seq<Binding> {
    [("desc", Hex(desc)), ("sram", Hex(d.sramAddr)), ("ddr", Hex(d.ddrAddr)), ("rows", Dec(d.rows)), ("cols", Dec(d.cols)),
     ("srcStride", Dec(d.srcStride)), ("dstStride", Dec(d.dstStride))]
  }

  /** One line, without its newline. */
  function Line(i: Instr, desc: nat): string {
    if i == Sync then "SYNC"
    else Padded(Mnemonic(i), if i.Matmul? then 14 else 15) + Spread(BoundAll(Bindings(i, desc)))
  }

  /** The descriptor address after an instruction. */
  function NextDesc(i: Instr, desc: nat): nat { if i == Sync then desc else desc + CommandQueue.DESC_LEN }

  /** The stream, with the descriptor address threaded through. */
  function Listing(p: seq<Instr>, desc: nat): seq<string>
    decreases p
  {
    if p == [] then [] else [Line(p[0], desc)] + Listing(p[1..], NextDesc(p[0], desc))
  }

  method WriteListing(p: seq<Instr>) returns (lines: seq<string>)
    ensures lines == Listing(p, DESC_START)
  {
    var descAddr: nat := DESC_START;
    lines := [];
    for k := 0 to |p|
      invariant lines + Listing(p[k..], descAddr) == Listing(p, DESC_START)
    {
      assert p[k..][1..] == p[k + 1..];
      lines := lines + [Line(p[k], descAddr)];
      descAddr := NextDesc(p[k], descAddr);
    }
  }

  /* ---- what can be printed ---- */

  /** A REDUCE has an index operand exactly when it is an ARGMAX. */
  predicate Printable(i: Instr) { i.Reduce? ==> (i.red.kind == 3 <==> i.red.idxAddr != 0) }

  /* ---- eclipse-run ---- */

  /** A field that f.at finds; None is the exception. */
  function Num(r: Record, key: string): Option<Dword> {
    if key in r.fields then Some(U32(ParseAnyBase(r.fields[key]))) else None
  }

  /** An instruction with its descriptor address. */
  datatype Placed = Placed(instr: Instr, desc: Dword)

  function ReadDma(r: Record): Option<DmaParam> {
    var a, b, c, d, e, f := Num(r, "sram"), Num(r, "ddr"), Num(r, "rows"), Num(r, "cols"), Num(r, "srcStride"), Num(r, "dstStride");
    if a.Some? && b.Some? && c.Some? && d.Some? && e.Some? && f.Some?
    then Some(DmaParam(a.value, b.value, c.value, d.value, e.value, f.value)) else None
  }

  function ReadMatmul(r: Record): Option<MatmulParam> {
    var a, b, c, m, n, k := Num(r, "dst"), Num(r, "rhs"), Num(r, "lhs"), Num(r, "M"), Num(r, "N"), Num(r, "K");
    var acc, ta, tb := Num(r, "acc"), Num(r, "ta"), Num(r, "tb");
    if a.Some? && b.Some? && c.Some? && m.Some? && n.Some? && k.Some? && acc.Some? && ta.Some? && tb.Some?
    then Some(MatmulParam(a.value, b.value, c.value, m.value, k.value, n.value, acc.value, ta.value != 0, tb.value != 0))
    else None
  }

  function ReadEwise(r: Record): Option<EwiseParam> {
    var a, b, c := Num(r, "dst"), Num(r, "rhs"), Num(r, "lhs");
    var rows, cols, blk, stride := Num(r, "rows"), Num(r, "cols"), Num(r, "blk"), Num(r, "stride");
    if a.Some? && b.Some? && c.Some? && rows.Some? && cols.Some? && blk.Some? && stride.Some?
    then Some(EwiseParam(a.value, b.value, c.value, rows.value, cols.value, blk.value, stride.value)) else None
  }

  function ReadAct(r: Record): Option<ActParam> {
    var a, b, n, k := Num(r, "dst"), Num(r, "src"), Num(r, "n"), Num(r, "kind");
    if a.Some? && b.Some? && n.Some? && k.Some? then Some(ActParam(a.value, b.value, n.value, k.value)) else None
  }

  /** idx is read for ARGMAX only. */
  function ReadReduce(r: Record): Option<ReduceParam> {
    var a, b, rows, cols, k := Num(r, "dst"), Num(r, "src"), Num(r, "rows"), Num(r, "cols"), Num(r, "kind");
    if a.Some? && b.Some? && rows.Some? && cols.Some? && k.Some? then
      var idx := if k.value == 3 then Num(r, "idx") else Some(0);
      if idx.Some? then Some(ReduceParam(a.value, idx.value, b.value, rows.value, cols.value, k.value)) else None
    else None
  }

  function EwiseOpCode(op: string): EwiseKind {
    if op == "ELEMENTWISE_SUB" then Sub
    else if op == "ELEMENTWISE_MUL" then Mul
    else if op == "ELEMENTWISE_DIV" then Div
    else Add
  }

  /** The body of eclipse-run's loop: the instruction it pushes with the descriptor it writes. None is
      an unknown opcode or a missing field. */
  function Load(r: Record): Option<Placed> {
    if r.op == "SYNC" then Some(Placed(Sync, 0))
    else
      var desc := Num(r, "desc");
      if desc.None? then None
      else if r.op == "DMA_LOAD" || r.op == "DMA_STORE" then
        var d := ReadDma(r);
        if d.None? then None
        else Some(Placed(if r.op == "DMA_LOAD" then DmaLoad(d.value) else DmaStore(d.value), desc.value))
      else if r.op == "MATMUL" then
        var d := ReadMatmul(r);
        if d.None? then None else Some(Placed(Matmul(d.value), desc.value))
      else if r.op == "ELEMENTWISE_ADD" || r.op == "ELEMENTWISE_SUB" || r.op == "ELEMENTWISE_MUL" || r.op == "ELEMENTWISE_DIV" then
        var d := ReadEwise(r);
        if d.None? then None else Some(Placed(Ewise(EwiseOpCode(r.op), d.value), desc.value))
      else if r.op == "ACT" then
        var d := ReadAct(r);
        if d.None? then None else Some(Placed(Act(d.value), desc.value))
      else if r.op == "REDUCE" then
        var d := ReadReduce(r);
        if d.None? then None else Some(Placed(Reduce(d.value), desc.value))
      else None
  }

  /* ---- round trip of one line ---- */

  lemma NumberText(n: nat)
    ensures forall k | 0 <= k < |Hex(n)| :: !WhiteSpace(Hex(n)[k])
    ensures forall k | 0 <= k < |Dec(n)| :: !WhiteSpace(Dec(n)[k])
  {
    hide Digits;
    LeadingDigit(n, 16);
    LeadingDigit(n, 10);
    forall k | 0 <= k < |Digits(n, 16)|
      ensures !WhiteSpace(Digits(n, 16)[k])
    {
      var d :| 0 <= d < 16 && Digits(n, 16)[k] == HEX_DIGITS[d];
      DigitOf(d);
    }
    forall k | 0 <= k < |Digits(n, 10)|
      ensures !WhiteSpace(Digits(n, 10)[k])
    {
      var d :| 0 <= d < 10 && Digits(n, 10)[k] == HEX_DIGITS[d];
      DigitOf(d);
    }
    forall k | 0 <= k < |Hex(n)|
      ensures !WhiteSpace(Hex(n)[k])
    {
      assert k >= 2 ==> Hex(n)[k] == Digits(n, 16)[k - 2];
    }
  }

  /** The value a printed field reads back as. */
  ghost predicate Holds(r: Record, key: string, value: Dword) { Num(r, key) == Some(value) }

  /** A printed number. */
  ghost predicate Prints(text: string, value: Dword) { text == Hex(value) || text == Dec(value) }

  lemma FieldHolds(r: Record, bs: seq<Binding>, i: nat, value: Dword)
    requires r.fields == FieldMap(BoundAll(bs)) && DistinctKeys(bs) && i < |bs| && Prints(bs[i].1, value)
    ensures Holds(r, bs[i].0, value)
  {
    hide Hex, Dec, ParseAnyBase, FieldMap, BoundAll;
    FieldsFound(bs);
    NumbersReadBack(value);
    SmallWord(value);
  }

  lemma SmallWord(value: Dword)
    ensures U32(value) == value
  {
  }

  lemma DmaKeys(d: DmaParam, desc: nat)
    ensures DistinctKeys(DmaBindings(d, desc))
  {
    hide Hex, Dec;
  }

  lemma MatmulKeys(d: MatmulParam, desc: nat)
    ensures DistinctKeys(Bindings(Matmul(d), desc))
  {
    hide Hex, Dec;
  }

  lemma EwiseKeys(k: EwiseKind, d: EwiseParam, desc: nat)
    ensures DistinctKeys(Bindings(Ewise(k, d), desc))
  {
    hide Hex, Dec;
  }

  lemma ActKeys(d: ActParam, desc: nat)
    ensures DistinctKeys(Bindings(Act(d), desc))
  {
    hide Hex, Dec;
  }

  lemma ReduceKeys(d: ReduceParam, desc: nat)
    ensures DistinctKeys(Bindings(Reduce(d), desc))
  {
    hide Hex, Dec;
  }

  lemma DmaFields(r: Record, d: DmaParam, desc: Dword)
    requires r.fields == FieldMap(BoundAll(DmaBindings(d, desc)))
    ensures Num(r, "desc") == Some(desc) && ReadDma(r) == Some(d)
  {
    hide Hex, Dec, Num, FieldMap, BoundAll, DistinctKeys;
    var bs := DmaBindings(d, desc);
    DmaKeys(d, desc);
    FieldHolds(r, bs, 0, desc);
    FieldHolds(r, bs, 1, d.sramAddr);
    FieldHolds(r, bs, 2, d.ddrAddr);
    FieldHolds(r, bs, 3, d.rows);
    FieldHolds(r, bs, 4, d.cols);
    FieldHolds(r, bs, 5, d.srcStride);
    FieldHolds(r, bs, 6, d.dstStride);
  }

  lemma MatmulFields(r: Record, d: MatmulParam, desc: Dword)
    requires r.fields == FieldMap(BoundAll(Bindings(Matmul(d), desc)))
    ensures Num(r, "desc") == Some(desc) && ReadMatmul(r) == Some(d)
  {
    hide Hex, Dec, Num, FieldMap, BoundAll, DistinctKeys;
    var bs := Bindings(Matmul(d), desc);
    MatmulKeys(d, desc);
    FieldHolds(r, bs, 0, desc);
    FieldHolds(r, bs, 1, d.dstAddr);
    FieldHolds(r, bs, 2, d.lhsAddr);
    FieldHolds(r, bs, 3, d.rhsAddr);
    FieldHolds(r, bs, 4, d.M);
    FieldHolds(r, bs, 5, d.N);
    FieldHolds(r, bs, 6, d.K);
    FieldHolds(r, bs, 7, d.accumulate);
    FieldHolds(r, bs, 8, Flag(d.transA));
    FieldHolds(r, bs, 9, Flag(d.transB));
  }

  lemma EwiseFields(r: Record, k: EwiseKind, d: EwiseParam, desc: Dword)
    requires r.fields == FieldMap(BoundAll(Bindings(Ewise(k, d), desc)))
    ensures Num(r, "desc") == Some(desc) && ReadEwise(r) == Some(d)
  {
    hide Hex, Dec, Num, FieldMap, BoundAll, DistinctKeys;
    var bs := Bindings(Ewise(k, d), desc);
    EwiseKeys(k, d, desc);
    FieldHolds(r, bs, 0, desc);
    FieldHolds(r, bs, 1, d.dstAddr);
    FieldHolds(r, bs, 2, d.lhsAddr);
    FieldHolds(r, bs, 3, d.rhsAddr);
    FieldHolds(r, bs, 4, d.rows);
    FieldHolds(r, bs, 5, d.cols);
    FieldHolds(r, bs, 6, d.rhsBlk);
    FieldHolds(r, bs, 7, d.rhsStride);
  }

  lemma ActFields(r: Record, d: ActParam, desc: Dword)
    requires r.fields == FieldMap(BoundAll(Bindings(Act(d), desc)))
    ensures Num(r, "desc") == Some(desc) && ReadAct(r) == Some(d)
  {
    hide Hex, Dec, Num, FieldMap, BoundAll, DistinctKeys;
    var bs := Bindings(Act(d), desc);
    ActKeys(d, desc);
    FieldHolds(r, bs, 0, desc);
    FieldHolds(r, bs, 1, d.dstAddr);
    FieldHolds(r, bs, 2, d.srcAddr);
    FieldHolds(r, bs, 3, d.n);
    FieldHolds(r, bs, 4, d.kind);
  }

  lemma ReduceFields(r: Record, d: ReduceParam, desc: Dword)
    requires r.fields == FieldMap(BoundAll(Bindings(Reduce(d), desc))) && Printable(Reduce(d))
    ensures Num(r, "desc") == Some(desc) && ReadReduce(r) == Some(d)
  {
    hide Hex, Dec, Num, FieldMap, BoundAll, DistinctKeys;
    var bs := Bindings(Reduce(d), desc);
    ReduceKeys(d, desc);
    FieldHolds(r, bs, 0, desc);
    FieldHolds(r, bs, 1, d.dstAddr);
    var shift := if d.idxAddr != 0 then 1 else 0;
    if d.idxAddr != 0 { FieldHolds(r, bs, 2, d.idxAddr); }
    FieldHolds(r, bs, 2 + shift, d.srcAddr);
    FieldHolds(r, bs, 3 + shift, d.rows);
    FieldHolds(r, bs, 4 + shift, d.cols);
    FieldHolds(r, bs, 5 + shift, d.kind);
  }

  /** The record of an emitted line loads back as the instruction with its descriptor address. */
  lemma RecordLoads(i: Instr, desc: Dword)
    requires Printable(i)
    ensures Load(Record(Mnemonic(i), FieldMap(BoundAll(Bindings(i, desc))))) == Some(Placed(i, if i == Sync then 0 else desc))
  {
    hide Hex, Dec, Num, FieldMap, BoundAll, ReadDma, ReadMatmul, ReadEwise, ReadAct, ReadReduce;
    var r := Record(Mnemonic(i), FieldMap(BoundAll(Bindings(i, desc))));
    match i
    case DmaLoad(d) => DmaFields(r, d, desc);
    case DmaStore(d) => DmaFields(r, d, desc);
    case Matmul(d) => MatmulFields(r, d, desc);
    case Ewise(k, d) => EwiseFields(r, k, d, desc);
    case Act(d) => ActFields(r, d, desc);
    case Reduce(d) => ReduceFields(r, d, desc);
    case Sync =>
  }

  /** The mnemonic of an instruction, as the instruction set names it. */
  ghost predicate Named(i: Instr, name: string) {
    || (name == "DMA_LOAD" && i.DmaLoad?) || (name == "DMA_STORE" && i.DmaStore?) || (name == "MATMUL" && i.Matmul?)
    || (name == "ELEMENTWISE_ADD" && i.Ewise? && i.op == Add) || (name == "ELEMENTWISE_SUB" && i.Ewise? && i.op == Sub)
    || (name == "ELEMENTWISE_MUL" && i.Ewise? && i.op == Mul) || (name == "ELEMENTWISE_DIV" && i.Ewise? && i.op == Div)
    || (name == "ACT" && i.Act?) || (name == "REDUCE" && i.Reduce?) || (name == "SYNC" && i == Sync)
  }

  /** Both sides use the instruction set's names: a line is printed with the name of its instruction, and
      a record loads only as an instruction of its name. */
  lemma NamesAgree(i: Instr, r: Record)
    ensures Named(i, Mnemonic(i))
    ensures Load(r).Some? ==> Named(Load(r).value.instr, r.op)
  {
    hide Num, ReadDma, ReadMatmul, ReadEwise, ReadAct, ReadReduce;
  }

  /* ---- the line as text ---- */

  lemma BoundIsWord(b: Binding, value: nat)
    requires (b.1 == Hex(value) || b.1 == Dec(value)) && forall k | 0 <= k < |b.0| :: !WhiteSpace(b.0[k])
    ensures IsWord(Bound(b))
  {
    hide Hex, Dec;
    NumberText(value);
    forall k | 0 <= k < |Bound(b)|
      ensures !WhiteSpace(Bound(b)[k])
    {
      assert k > |b.0| ==> Bound(b)[k] == b.1[k - |b.0| - 1];
    }
  }

  /** Every field of a line is a key without white space and a printed number. */
  ghost predicate Numbered(b: Binding) {
    (forall k | 0 <= k < |b.0| :: !WhiteSpace(b.0[k])) && exists v: nat :: (b.1 == Hex(v) || b.1 == Dec(v))
  }

  ghost predicate Numbers(bs: seq<Binding>) { forall k | 0 <= k < |bs| :: Numbered(bs[k]) }

  lemma NumberedMatmul(d: MatmulParam, desc: nat)
    ensures Numbers(Bindings(Matmul(d), desc))
  {
    hide Hex, Dec;
  }

  lemma NumberedEwise(op: EwiseKind, d: EwiseParam, desc: nat)
    ensures Numbers(Bindings(Ewise(op, d), desc))
  {
    hide Hex, Dec;
  }

  lemma NumberedDma(d: DmaParam, desc: nat)
    ensures Numbers(DmaBindings(d, desc))
  {
    hide Hex, Dec;
  }

  lemma NumberedReduce(d: ReduceParam, desc: nat)
    ensures Numbers(Bindings(Reduce(d), desc))
  {
    hide Hex, Dec;
  }

  lemma NumberedAct(d: ActParam, desc: nat)
    ensures Numbers(Bindings(Act(d), desc))
  {
    hide Hex, Dec;
  }

  lemma AllNumbered(i: Instr, desc: nat)
    ensures Numbers(Bindings(i, desc))
  {
    hide Hex, Dec, Numbered, DmaBindings;
    match i
    case DmaLoad(d) => NumberedDma(d, desc);
    case DmaStore(d) => NumberedDma(d, desc);
    case Matmul(d) => NumberedMatmul(d, desc);
    case Ewise(op, d) => NumberedEwise(op, d, desc);
    case Act(d) => NumberedAct(d, desc);
    case Reduce(d) => NumberedReduce(d, desc);
    case Sync =>
  }

  lemma LineWords(i: Instr, desc: nat)
    ensures IsWord(Mnemonic(i)) && AllWords(BoundAll(Bindings(i, desc)))
  {
    hide Hex, Dec, Bound, Bindings;
    AllNumbered(i, desc);
    forall k | 0 <= k < |Bindings(i, desc)|
      ensures IsWord(Bound(Bindings(i, desc)[k]))
    {
      var b := Bindings(i, desc)[k];
      assert Numbered(b);
      var v: nat :| b.1 == Hex(v) || b.1 == Dec(v);
      BoundIsWord(b, v);
    }
  }

  /** Both readers see the mnemonic and the fields. */
  lemma LineRecord(i: Instr, desc: nat, space: char -> bool)
    requires Separates(space)
    ensures RecordOf(Tokens(Line(i, desc), 0, space)) == Some(Record(Mnemonic(i), FieldMap(BoundAll(Bindings(i, desc)))))
  {
    hide Tokens, Bindings, FieldMap, Separates, BoundAll, Spread;
    LineWords(i, desc);
    var words := BoundAll(Bindings(i, desc));
    if i == Sync {
      SyncWords(desc);
      LineTokens("SYNC", 0, [], space);
      NoPad("SYNC");
    } else {
      LineTokens(Mnemonic(i), if i.Matmul? then 14 else 15, words, space);
    }
    assert ([Mnemonic(i)] + words)[1..] == words;
  }

  lemma SyncWords(desc: nat)
    ensures BoundAll(Bindings(Sync, desc)) == [] && AllWords([]) && Spread([]) == ""
  {
  }

  lemma NoPad(op: string)
    ensures Padded(op, 0) + "" == op
  {
  }
}
