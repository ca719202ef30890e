/** Whole .easm files: what the compiler writes, `eclipse-run` loads and `hazard_check.py` checks. */
module EasmFiles {
  import opened Arithmetic
  import opened Types
  import opened Machine
  import opened HazardChecker
  import opened Footprints
  import opened AsmText
  import opened Assembly
  import opened CommandQueue

  /* ---- lines ---- */

  /** s.erase(s.find_last_not_of(" \t\r\n") + 1). */
  function TrimRight(s: string): string
    decreases |s|
  {
    if s != [] && WhiteSpace(s[|s| - 1]) then TrimRight(s[..|s| - 1]) else s
  }

  /** The file's lines as the readers get them, newline included. */
  function Terminated(lines: seq<string>): seq<string> { seq(|lines|, k requires 0 <= k < |lines| => lines[k] + "\n") }

  /** One line of parseEasm: None for a blank one. */
  function ReadLine(text: string): Option<Record> {
    var s := TrimRight(text);
    if s == [] then None else RecordOf(Tokens(s, 0, Blank))
  }

  function ReadLines(lines: seq<string>): seq<Record>
    decreases lines
  {
    if lines == [] then []
    else
      var front, r := ReadLines(lines[..|lines| - 1]), ReadLine(lines[|lines| - 1]);
      if r.Some? then front + [r.value] else front
  }

  /** The tokens of a trimmed line that is not blank. */
  lemma SomeToken(s: string)
    requires s != [] && !WhiteSpace(s[|s| - 1])
    ensures Tokens(s, 0, Blank) != []
  {
    assert !Blank(s[|s| - 1]);
  }

  lemma {:induction false} TrimmedEnd(s: string)
    ensures TrimRight(s) != [] ==> !WhiteSpace(TrimRight(s)[|TrimRight(s)| - 1])
    decreases |s|
  {
    if s != [] && WhiteSpace(s[|s| - 1]) {
      TrimmedEnd(s[..|s| - 1]);
    }
  }

  method Trim(text: string) returns (s: string)
    ensures s == TrimRight(text)
  {
    s := text;
    while s != [] && WhiteSpace(s[|s| - 1])
      invariant TrimRight(s) == TrimRight(text)
      decreases |s|
    {
      s := s[..|s| - 1];
    }
  }

  method ReadFields(tokens: seq<string>) returns (fields: map<string, string>)
    ensures fields == FieldMap(tokens)
  {
    fields := map[];
    for k := 0 to |tokens|
      invariant fields == FieldMap(tokens[..k])
    {
      assert tokens[..k + 1][..k] == tokens[..k];
      var tok := tokens[k];
      var eq := FindEq(tok, 0);
      if eq < |tok| {
        fields := fields[tok[..eq] := tok[eq + 1..]];
      }
    }
    assert tokens[..|tokens|] == tokens;
  }

  method ParseEasm(lines: seq<string>) returns (insns: seq<Record>)
    ensures insns == ReadLines(lines)
  {
    insns := [];
    for k := 0 to |lines|
      invariant insns == ReadLines(lines[..k])
    {
      assert lines[..k + 1][..k] == lines[..k];
      var s := Trim(lines[k]);
      if s != [] {
        TrimmedEnd(lines[k]);
        SomeToken(s);
        var tokens := Tokenize(s);
        var fields := ReadFields(tokens[1..]);
        insns := insns + [Record(tokens[0], fields)];
      }
    }
    assert lines[..|lines|] == lines;
  }

  /* ---- loading ---- */

  /** The instructions with their descriptor addresses; None is a failed run of the loop. */
  function LoadRecords(rs: seq<Record>): Option<seq<Placed>>
    decreases rs
  {
    if rs == [] then Some([])
    else
      var front, last := LoadRecords(rs[..|rs| - 1]), Load(rs[|rs| - 1]);
      if front.Some? && last.Some? then Some(front.value + [last.value]) else None
  }

  function Instrs(ps: seq<Placed>): seq<Instr> { seq(|ps|, k requires 0 <= k < |ps| => ps[k].instr) }

  function Descs(ps: seq<Placed>): seq<int> { seq(|ps|, k requires 0 <= k < |ps| => ps[k].desc) }

  lemma {:induction false} LoadAllSnoc(m: Mem, p: seq<Instr>, slots: seq<int>)
    requires |p| == |slots| > 0
    ensures LoadAll(m, p, slots)
      == WriteFields(LoadAll(m, p[..|p| - 1], slots[..|p| - 1]), slots[|p| - 1], Fields(p[|p| - 1]))
    decreases p
  {
    hide Fields, WriteFields;
    if |p| > 1 {
      LoadAllSnoc(WriteFields(m, slots[0], Fields(p[0])), p[1..], slots[1..]);
      assert p[..|p| - 1][1..] == p[1..][..|p| - 2] && slots[..|p| - 1][1..] == slots[1..][..|p| - 2];
    }
  }

  lemma Appended(m: Mem, ps: seq<Placed>, x: Placed)
    ensures LoadAll(m, Instrs(ps + [x]), Descs(ps + [x]))
      == WriteFields(LoadAll(m, Instrs(ps), Descs(ps)), x.desc, Fields(x.instr))
    ensures QueueOf(Instrs(ps + [x]), Descs(ps + [x])) == QueueOf(Instrs(ps), Descs(ps)) + [Insn(OpOf(x.instr), x.desc)]
  {
    hide WriteFields, Fields, LoadAll, OpOf;
    var qs := ps + [x];
    LoadAllSnoc(m, Instrs(qs), Descs(qs));
    assert Instrs(qs)[..|ps|] == Instrs(ps) && Descs(qs)[..|ps|] == Descs(ps);
    assert QueueOf(Instrs(qs), Descs(qs))[|ps|] == Insn(OpOf(x.instr), x.desc);
  }

  lemma {:induction false} FailsOn(rs: seq<Record>, k: nat)
    requires k < |rs| && Load(rs[k]).None?
    ensures LoadRecords(rs).None?
    decreases |rs|
  {
    hide Load;
    if k < |rs| - 1 {
      FailsOn(rs[..|rs| - 1], k);
    }
  }

  /* ---- round trip of a file ---- */

  lemma {:induction false} SpreadEnd(words: seq<string>)
    requires AllWords(words) && words != []
    ensures Spread(words) != [] && !WhiteSpace(Spread(words)[|Spread(words)| - 1])
    decreases words
  {
    assert IsWord(words[0]);
    if |words| > 1 {
      SpreadEnd(words[1..]);
      assert Spread(words)[|Spread(words)| - 1] == Spread(words[1..])[|Spread(words[1..])| - 1];
    } else {
      assert Spread(words[1..]) == "";
    }
  }

  lemma LineEnd(i: Instr, desc: nat)
    ensures Line(i, desc) != [] && !WhiteSpace(Line(i, desc)[|Line(i, desc)| - 1])
  {
    hide Bindings, Spread, Padded, Mnemonic;
    if i != Sync {
      LineWords(i, desc);
      SomeBindings(i, desc);
      SpreadEnd(BoundAll(Bindings(i, desc)));
    }
  }

  lemma SomeBindings(i: Instr, desc: nat)
    requires i != Sync
    ensures Bindings(i, desc) != []
  {
  }

  /** Trimming takes the newline off again. */
  lemma TrimNewline(s: string)
    requires s != [] && !WhiteSpace(s[|s| - 1])
    ensures TrimRight(s + "\n") == s
  {
    assert (s + "\n")[..|s|] == s;
  }

  /** A file with carriage returns reads the same. */
  lemma CarriageReturns(i: Instr, desc: nat)
    ensures ReadLine(Line(i, desc) + "\r\n") == ReadLine(Line(i, desc) + "\n")
  {
    hide Line, Tokens, RecordOf;
    var s := Line(i, desc);
    LineEnd(i, desc);
    TrimNewline(s);
    assert (s + "\r\n")[..|s| + 1] == s + "\r" && (s + "\r")[..|s|] == s;
    assert TrimRight(s + "\r\n") == TrimRight(s + "\r") == TrimRight(s) == s;
  }

  lemma BlankSeparates()
    ensures Separates(Blank) && Separates(WhiteSpace)
  {
  }

  lemma LineReads(i: Instr, desc: nat)
    ensures ReadLine(Line(i, desc) + "\n") == Some(Record(Mnemonic(i), FieldMap(BoundAll(Bindings(i, desc)))))
  {
    hide Line, Tokens, RecordOf, Bindings, BoundAll, FieldMap, Mnemonic, TrimRight;
    LineEnd(i, desc);
    TrimNewline(Line(i, desc));
    BlankSeparates();
    LineRecord(i, desc, Blank);
  }

  lemma {:induction false} AllRead(lines: seq<string>, rs: seq<Record>)
    requires |lines| == |rs| && forall k | 0 <= k < |lines| :: ReadLine(lines[k]) == Some(rs[k])
    ensures ReadLines(lines) == rs
    decreases lines
  {
    hide ReadLine;
    if lines != [] {
      AllRead(lines[..|lines| - 1], rs[..|rs| - 1]);
    }
  }

  lemma {:induction false} AllLoad(rs: seq<Record>, ps: seq<Placed>)
    requires |rs| == |ps| && forall k | 0 <= k < |rs| :: Load(rs[k]) == Some(ps[k])
    ensures LoadRecords(rs) == Some(ps)
    decreases rs
  {
    hide Load;
    if rs != [] {
      AllLoad(rs[..|rs| - 1], ps[..|ps| - 1]);
      assert ps == ps[..|ps| - 1] + [ps[|ps| - 1]];
    }
  }

  /** The descriptor address when instruction `k` is emitted. */
  function DescAt(p: seq<Instr>, d: nat, k: nat): nat
    requires k <= |p|
  {
    if k == 0 then d else NextDesc(p[k - 1], DescAt(p, d, k - 1))
  }

  lemma {:induction false} DescFrom(p: seq<Instr>, d: nat, k: nat)
    requires p != [] && 1 <= k <= |p|
    ensures DescAt(p, d, k) == DescAt(p[1..], NextDesc(p[0], d), k - 1)
    decreases k
  {
    if k > 1 {
      DescFrom(p, d, k - 1);
    }
  }

  lemma {:induction false} ListingAt(p: seq<Instr>, d: nat, k: nat)
    requires k < |p|
    ensures |Listing(p, d)| == |p| && Listing(p, d)[k] == Line(p[k], DescAt(p, d, k))
    decreases p
  {
    hide Line;
    if |p| > 1 {
      if k > 0 {
        DescFrom(p, d, k);
        ListingAt(p[1..], NextDesc(p[0], d), k - 1);
      } else {
        ListingAt(p[1..], NextDesc(p[0], d), 0);
      }
    }
  }

  lemma {:induction false} DescGrows(p: seq<Instr>, d: nat, j: nat, k: nat)
    requires j <= k <= |p|
    ensures DescAt(p, d, j) <= DescAt(p, d, k)
    ensures j < k && p[j] != Sync ==> DescAt(p, d, j) + DESC_LEN <= DescAt(p, d, k)
    decreases k
  {
    if j < k {
      DescGrows(p, d, j, k - 1);
    }
  }

  /** The descriptor pointer eclipse-run pushes with instruction `k`. */
  function SlotOf(p: seq<Instr>, k: nat): nat
    requires k < |p|
  {
    if p[k] == Sync then 0 else DescAt(p, DESC_START, k)
  }

  function DescSlots(p: seq<Instr>): seq<int> { seq(|p|, k requires 0 <= k < |p| => SlotOf(p, k)) }

  /** Reading a written file gives every instruction back, with the address its descriptor was
      assigned. */
  lemma FileRoundTrip(p: seq<Instr>)
    requires (forall i | i in p :: Printable(i)) && DescAt(p, DESC_START, |p|) < TWO_32
    ensures var ps := LoadRecords(ReadLines(Terminated(Listing(p, DESC_START))));
      ps.Some? && Instrs(ps.value) == p && Descs(ps.value) == DescSlots(p)
  {
    hide Load, Line, Listing, ReadLine, Emitted, LoadRecords, ReadLines, DescAt, Printable;
    var lines := Terminated(Listing(p, DESC_START));
    ListingLength(p, DESC_START);
    var rs := seq(|p|, k requires 0 <= k < |p| => Emitted(p, k));
    var ps := seq(|p|, k requires 0 <= k < |p| => (DescFits(p, k); Placed(p[k], SlotOf(p, k))));
    forall k | 0 <= k < |p|
      ensures ReadLine(lines[k]) == Some(rs[k]) && Load(rs[k]) == Some(ps[k])
    {
      DescFits(p, k);
      LineRoundTrip(p, k);
    }
    AllRead(lines, rs);
    AllLoad(rs, ps);
    PlacedParts(p, ps);
  }

  lemma PlacedParts(p: seq<Instr>, ps: seq<Placed>)
    requires |ps| == |p| && forall k | 0 <= k < |p| :: ps[k].instr == p[k] && ps[k].desc == SlotOf(p, k)
    ensures Instrs(ps) == p && Descs(ps) == DescSlots(p)
  {
    hide SlotOf;
  }

  lemma LineRoundTrip(p: seq<Instr>, k: nat)
    requires k < |p| && Printable(p[k]) && DescAt(p, DESC_START, k) < TWO_32
    ensures |Listing(p, DESC_START)| == |p| && ReadLine(Listing(p, DESC_START)[k] + "\n") == Some(Emitted(p, k))
    ensures SlotOf(p, k) < TWO_32 && Load(Emitted(p, k)) == Some(Placed(p[k], SlotOf(p, k)))
  {
    hide Load, Line, Listing, ReadLine, Bindings, FieldMap, BoundAll, Mnemonic, DescAt, Printable;
    ListingAt(p, DESC_START, k);
    LineReads(p[k], DescAt(p, DESC_START, k));
    RecordLoads(p[k], DescAt(p, DESC_START, k));
  }

  function Emitted(p: seq<Instr>, k: nat): Record
    requires k < |p|
  {
    Record(Mnemonic(p[k]), FieldMap(BoundAll(Bindings(p[k], DescAt(p, DESC_START, k)))))
  }

  lemma DescFits(p: seq<Instr>, k: nat)
    requires k < |p| && DescAt(p, DESC_START, |p|) < TWO_32
    ensures DescAt(p, DESC_START, k) < TWO_32 && SlotOf(p, k) < TWO_32
  {
    hide DescAt;
    DescGrows(p, DESC_START, k, |p|);
  }

  lemma ListingLength(p: seq<Instr>, d: nat)
    ensures |Listing(p, d)| == |p|
  {
    if p != [] { ListingAt(p, d, 0); }
  }

  /* ---- descriptor slots ---- */

  /** Instructions that have a descriptor. */
  function Described(p: seq<Instr>, k: nat): nat
    requires k <= |p|
  {
    if k == 0 then 0 else Described(p, k - 1) + (if p[k - 1] == Sync then 0 else 1)
  }

  lemma {:induction false} DescCount(p: seq<Instr>, d: nat, k: nat)
    requires k <= |p|
    ensures DescAt(p, d, k) == d + DESC_LEN * Described(p, k)
    decreases k
  {
    if k > 0 {
      DescCount(p, d, k - 1);
    }
  }

  const MAX_DESCRIPTORS := 1020

  /** With at most 1020 descriptors the slots are apart and end where the first tensor begins. */
  lemma SlotsFit(p: seq<Instr>)
    requires Described(p, |p|) <= MAX_DESCRIPTORS
    ensures DescAt(p, DESC_START, |p|) < TWO_32
    ensures SlotsApart(p, DescSlots(p))
    ensures forall k | 0 <= k < |p| ::
      DescSlots(p)[k] == 0 || (DESC_START <= DescSlots(p)[k] && DescSlots(p)[k] + DESC_LEN <= DDR_ADDR + 0x1_0000)
  {
    hide DescAt, Described;
    DescCount(p, DESC_START, |p|);
    assert DescAt(p, DESC_START, 0) == DESC_START by { FirstDesc(p); }
    forall j, k | 0 <= j < k < |p| && p[j] != Sync && p[k] != Sync
      ensures DescSlots(p)[j] + DESC_LEN <= DescSlots(p)[k]
    {
      DescGrows(p, DESC_START, j, k);
    }
    forall k | 0 <= k < |p|
      ensures DescSlots(p)[k] == 0 || (DESC_START <= DescSlots(p)[k] && DescSlots(p)[k] + DESC_LEN <= DDR_ADDR + 0x1_0000)
    {
      DescGrows(p, DESC_START, 0, k);
      DescGrows(p, DESC_START, k, |p|);
    }
  }

  /** The first slot too many lands on the first tensor. */
  lemma FirstTooMany(p: seq<Instr>) returns (k: nat)
    requires Described(p, |p|) > MAX_DESCRIPTORS
    ensures k < |p| && p[k] != Sync && DescSlots(p)[k] == DDR_ADDR + 0x1_0000
  {
    hide DescAt, Described;
    k := NthDescribed(p, MAX_DESCRIPTORS, |p|);
    DescCount(p, DESC_START, k);
  }

  lemma {:induction false} NthDescribed(p: seq<Instr>, n: nat, hi: nat) returns (k: nat)
    requires hi <= |p| && n < Described(p, hi)
    ensures k < hi && p[k] != Sync && Described(p, k) == n
    decreases hi
  {
    if n < Described(p, hi - 1) {
      k := NthDescribed(p, n, hi - 1);
    } else {
      k := hi - 1;
    }
  }

  /** All descriptors end at or before the first tensor if and only if there are at most 1020. */
  lemma SlotsFitExactly(p: seq<Instr>)
    ensures (forall k | 0 <= k < |p| && p[k] != Sync :: DescSlots(p)[k] + DESC_LEN <= DDR_ADDR + 0x1_0000)
      <==> Described(p, |p|) <= MAX_DESCRIPTORS
  {
    hide DescAt, Described;
    if Described(p, |p|) <= MAX_DESCRIPTORS {
      SlotsFit(p);
      forall k | 0 <= k < |p| && p[k] != Sync
        ensures DescSlots(p)[k] + DESC_LEN <= DDR_ADDR + 0x1_0000
      {
        FirstDesc(p);
        DescGrows(p, DESC_START, 0, k);
      }
    } else {
      var k := FirstTooMany(p);
    }
  }

  lemma FirstDesc(p: seq<Instr>)
    ensures DescAt(p, DESC_START, 0) == DESC_START
  {
  }

  /* ---- the checker's reader ---- */

  /** str.strip(). */
  function Strip(s: string): string
    decreases |s|
  {
    if s != [] && WhiteSpace(s[0]) then Strip(s[1..]) else TrimRight(s)
  }

  /** parse_easm on one line: blank lines and comments have no record. */
  function CheckerLine(text: string): Option<Record> {
    var s := Strip(text);
    if s == [] || s[0] == '#' || (|s| >= 2 && s[0] == '/' && s[1] == '/') then None
    else RecordOf(Tokens(s, 0, WhiteSpace))
  }

  lemma {:induction false} TrimKeeps(s: string, n: nat)
    requires 0 < n <= |s| && !WhiteSpace(s[n - 1])
    ensures |TrimRight(s)| >= n && TrimRight(s)[..n] == s[..n]
    decreases |s|
  {
    if WhiteSpace(s[|s| - 1]) {
      TrimKeeps(s[..|s| - 1], n);
      assert s[..|s| - 1][..n] == s[..n];
    }
  }

  /** The checker skips comments in both styles. */
  lemma CommentsSkipped(text: string)
    ensures CheckerLine("#" + text).None? && CheckerLine("//" + text).None?
  {
    var a, b := "#" + text, "//" + text;
    TrimKeeps(a, 1);
    TrimKeeps(b, 2);
    assert Strip(a) == TrimRight(a) && Strip(b) == TrimRight(b);
    assert TrimRight(a)[0] == TrimRight(a)[..1][0] == '#';
    assert TrimRight(b)[0] == TrimRight(b)[..2][0] == '/' && TrimRight(b)[1] == TrimRight(b)[..2][1] == '/';
  }

  /** Python's int(text), and int(text, 0) for addresses, on the digits the emitters print. */
  function PyInt(text: string): nat {
    if |text| >= 2 && text[0] == '0' && (text[1] == 'x' || text[1] == 'X') then DigitsValue(text[2..], 16, 0)
    else DigitsValue(text, 10, 0)
  }

  function PyNum(r: Record, key: string): Option<nat> {
    if key in r.fields then Some(PyInt(r.fields[key])) else None
  }

  datatype Accesses = Accesses(reads_: seq<Access>, writes_: seq<Access>)

  function DmaAccesses(load: bool, sram: nat, ddr: nat, rows: nat, cols: nat, src: nat, dst: nat): Accesses {
    if load then Accesses([Access("DDR", TileRanges(ddr, rows, cols, src))], [Access("SRAM", TileRanges(sram, rows, cols, dst))])
    else Accesses([Access("SRAM", TileRanges(sram, rows, cols, src))], [Access("DDR", TileRanges(ddr, rows, cols, dst))])
  }

  function MatmulAccesses(dst: nat, lhs: nat, rhs: nat, m: nat, n: nat, k: nat, acc: nat): Accesses {
    Accesses([Access("lhs", Block(lhs, m * k)), Access("rhs", Block(rhs, k * n))]
               + (if acc != 0 then [Access("dst", Block(dst, m * n))] else []),
             [Access("dst", Block(dst, m * n))])
  }

  function EwiseAccesses(dst: nat, lhs: nat, rhs: nat, rows: nat, cols: nat, blk: nat, stride: nat): Accesses {
    Accesses([Access("lhs", Block(lhs, rows * cols)), Access("rhs", Block(rhs, blk * (if stride != 0 then rows else 1)))],
             [Access("dst", Block(dst, rows * cols))])
  }

  /** parse_instruction, from the text of the fields; None is die() or a missing key. */
  function ParseInstruction(r: Record): Option<Accesses> {
    if r.op == "SYNC" then Some(Accesses([], []))
    else if r.op == "DMA_LOAD" || r.op == "DMA_STORE" then
      var a, b, c, d := PyNum(r, "sram"), PyNum(r, "ddr"), PyNum(r, "rows"), PyNum(r, "cols");
      var e, f := PyNum(r, "srcStride"), PyNum(r, "dstStride");
      if a.Some? && b.Some? && c.Some? && d.Some? && e.Some? && f.Some?
      then Some(DmaAccesses(r.op == "DMA_LOAD", a.value, b.value, c.value, d.value, e.value, f.value)) else None
    else if r.op == "MATMUL" then
      var a, b, c := PyNum(r, "dst"), PyNum(r, "lhs"), PyNum(r, "rhs");
      var m, n, k, acc := PyNum(r, "M"), PyNum(r, "N"), PyNum(r, "K"), PyNum(r, "acc");
      if a.Some? && b.Some? && c.Some? && m.Some? && n.Some? && k.Some? && acc.Some?
      then Some(MatmulAccesses(a.value, b.value, c.value, m.value, n.value, k.value, acc.value)) else None
    else if r.op == "ELEMENTWISE_ADD" || r.op == "ELEMENTWISE_SUB" || r.op == "ELEMENTWISE_MUL" || r.op == "ELEMENTWISE_DIV" then
      var a, b, c := PyNum(r, "dst"), PyNum(r, "lhs"), PyNum(r, "rhs");
      var rows, cols, blk, stride := PyNum(r, "rows"), PyNum(r, "cols"), PyNum(r, "blk"), PyNum(r, "stride");
      if a.Some? && b.Some? && c.Some? && rows.Some? && cols.Some? && blk.Some? && stride.Some?
      then Some(EwiseAccesses(a.value, b.value, c.value, rows.value, cols.value, blk.value, stride.value)) else None
    else if r.op == "ACT" then
      var a, b, n := PyNum(r, "dst"), PyNum(r, "src"), PyNum(r, "n");
      if a.Some? && b.Some? && n.Some?
      then Some(Accesses([Access("src", Block(b.value, n.value))], [Access("dst", Block(a.value, n.value))])) else None
    else if r.op == "REDUCE" then
      var a, b, rows, cols, k := PyNum(r, "dst"), PyNum(r, "src"), PyNum(r, "rows"), PyNum(r, "cols"), PyNum(r, "kind");
      if a.Some? && b.Some? && rows.Some? && cols.Some? && k.Some? then
        var src, dst := Access("src", Block(b.value, rows.value * cols.value)), Access("dst", Block(a.value, rows.value));
        if k.value == 3 then
          var idx := PyNum(r, "idx");
          if idx.Some? then Some(Accesses([src], [dst, Access("idx", Block(idx.value, 2 * rows.value))])) else None
        else Some(Accesses([src], [dst]))
      else None
    else None
  }

  lemma PyNumbers(n: nat)
    ensures PyInt(Hex(n)) == n && PyInt(Dec(n)) == n
  {
    hide Digits, DigitsValue;
    DigitsRead(n, 16);
    assert Hex(n)[2..] == Digits(n, 16);
    DigitsRead(n, 10);
    NotHexText(n);
  }

  lemma NotHexText(n: nat)
    ensures var t := Dec(n); !(|t| >= 2 && t[0] == '0' && (t[1] == 'x' || t[1] == 'X'))
  {
    hide Digits;
    LeadingDigit(n, 10);
    if |Dec(n)| >= 2 {
      var d :| 0 <= d < 10 && Digits(n, 10)[1] == HEX_DIGITS[d];
      DigitOf(d);
    }
  }

  lemma PyField(r: Record, bs: seq<Binding>, i: nat, value: nat)
    requires r.fields == FieldMap(BoundAll(bs)) && DistinctKeys(bs) && i < |bs|
    requires bs[i].1 == Hex(value) || bs[i].1 == Dec(value)
    ensures PyNum(r, bs[i].0) == Some(value)
  {
    hide Hex, Dec, PyInt, FieldMap, BoundAll;
    FieldsFound(bs);
    PyNumbers(value);
  }

  lemma CheckerMatmul(r: Record, d: MatmulParam, desc: nat)
    requires r == Record("MATMUL", FieldMap(BoundAll(Bindings(Matmul(d), desc))))
    ensures ParseInstruction(r) == Some(Accesses(Reads(Matmul(d)), Writes(Matmul(d))))
  {
    hide Hex, Dec, PyNum, FieldMap, BoundAll, DistinctKeys, Block;
    var bs := Bindings(Matmul(d), desc);
    MatmulKeys(d, desc);
    PyField(r, bs, 1, d.dstAddr);
    PyField(r, bs, 2, d.lhsAddr);
    PyField(r, bs, 3, d.rhsAddr);
    PyField(r, bs, 4, d.M);
    PyField(r, bs, 5, d.N);
    PyField(r, bs, 6, d.K);
    PyField(r, bs, 7, d.accumulate);
  }

  lemma CheckerEwise(r: Record, k: EwiseKind, d: EwiseParam, desc: nat)
    requires r == Record(Mnemonic(Ewise(k, d)), FieldMap(BoundAll(Bindings(Ewise(k, d), desc))))
    ensures ParseInstruction(r) == Some(Accesses(Reads(Ewise(k, d)), Writes(Ewise(k, d))))
  {
    hide Hex, Dec, PyNum, FieldMap, BoundAll, DistinctKeys, Block;
    var bs := Bindings(Ewise(k, d), desc);
    EwiseKeys(k, d, desc);
    PyField(r, bs, 1, d.dstAddr);
    PyField(r, bs, 2, d.lhsAddr);
    PyField(r, bs, 3, d.rhsAddr);
    PyField(r, bs, 4, d.rows);
    PyField(r, bs, 5, d.cols);
    PyField(r, bs, 6, d.rhsBlk);
    PyField(r, bs, 7, d.rhsStride);
  }

  lemma CheckerReduce(r: Record, d: ReduceParam, desc: nat)
    requires Printable(Reduce(d)) && r == Record("REDUCE", FieldMap(BoundAll(Bindings(Reduce(d), desc))))
    ensures ParseInstruction(r) == Some(Accesses(Reads(Reduce(d)), Writes(Reduce(d))))
  {
    hide Hex, Dec, PyNum, FieldMap, BoundAll, DistinctKeys, Block;
    var bs := Bindings(Reduce(d), desc);
    ReduceKeys(d, desc);
    PyField(r, bs, 1, d.dstAddr);
    var shift := if d.idxAddr != 0 then 1 else 0;
    if d.idxAddr != 0 { PyField(r, bs, 2, d.idxAddr); }
    PyField(r, bs, 2 + shift, d.srcAddr);
    PyField(r, bs, 3 + shift, d.rows);
    PyField(r, bs, 4 + shift, d.cols);
    PyField(r, bs, 5 + shift, d.kind);
    var dst := Access("dst", Block(d.dstAddr, d.rows));
    assert Writes(Reduce(d)) == if d.kind == 3 then [dst, Access("idx", Block(d.idxAddr, 2 * d.rows))] else [dst];
  }

  lemma CheckerAct(r: Record, d: ActParam, desc: nat)
    requires r == Record("ACT", FieldMap(BoundAll(Bindings(Act(d), desc))))
    ensures ParseInstruction(r) == Some(Accesses(Reads(Act(d)), Writes(Act(d))))
  {
    hide Hex, Dec, PyNum, FieldMap, BoundAll, DistinctKeys, Block;
    var bs := Bindings(Act(d), desc);
    ActKeys(d, desc);
    PyField(r, bs, 1, d.dstAddr);
    PyField(r, bs, 2, d.srcAddr);
    PyField(r, bs, 3, d.n);
  }

  lemma CheckerMove(r: Record, i: Instr, desc: nat)
    requires (i.DmaLoad? || i.DmaStore?) && r == Record(Mnemonic(i), FieldMap(BoundAll(Bindings(i, desc))))
    ensures ParseInstruction(r) == Some(Accesses(Reads(i), Writes(i)))
  {
    hide Hex, Dec, PyNum, FieldMap, BoundAll, DmaBindings, TileRanges;
    CheckerDma(r, i.dma, desc);
  }

  /** Both readers agree with the emitter: the checker sees exactly the footprint of the instruction. */
  lemma CheckerSees(i: Instr, desc: nat)
    requires Printable(i)
    ensures ParseInstruction(Record(Mnemonic(i), FieldMap(BoundAll(Bindings(i, desc))))) == Some(Accesses(Reads(i), Writes(i)))
  {
    hide FieldMap, BoundAll, Bindings, ParseInstruction, Reads, Writes;
    var r := Record(Mnemonic(i), FieldMap(BoundAll(Bindings(i, desc))));
    match i
    case DmaLoad(d) => CheckerMove(r, i, desc);
    case DmaStore(d) => CheckerMove(r, i, desc);
    case Matmul(d) => CheckerMatmul(r, d, desc);
    case Ewise(k, d) => CheckerEwise(r, k, d, desc);
    case Act(d) => CheckerAct(r, d, desc);
    case Reduce(d) => CheckerReduce(r, d, desc);
    case Sync => CheckerSync(r);
  }

  lemma CheckerSync(r: Record)
    requires r.op == "SYNC"
    ensures ParseInstruction(r) == Some(Accesses(Reads(Sync), Writes(Sync)))
  {
  }

  lemma CheckerDma(r: Record, d: DmaParam, desc: nat)
    requires r.fields == FieldMap(BoundAll(DmaBindings(d, desc)))
    ensures PyNum(r, "sram") == Some(d.sramAddr as nat) && PyNum(r, "ddr") == Some(d.ddrAddr as nat)
    ensures PyNum(r, "rows") == Some(d.rows as nat) && PyNum(r, "cols") == Some(d.cols as nat)
    ensures PyNum(r, "srcStride") == Some(d.srcStride as nat) && PyNum(r, "dstStride") == Some(d.dstStride as nat)
  {
    hide Hex, Dec, PyNum, FieldMap, BoundAll, DistinctKeys;
    var bs := DmaBindings(d, desc);
    DmaKeys(d, desc);
    PyField(r, bs, 1, d.sramAddr);
    PyField(r, bs, 2, d.ddrAddr);
    PyField(r, bs, 3, d.rows);
    PyField(r, bs, 4, d.cols);
    PyField(r, bs, 5, d.srcStride);
    PyField(r, bs, 6, d.dstStride);
  }

  /** From the line's text. */
  lemma CheckerRoundTrip(i: Instr, desc: nat)
    requires Printable(i)
    ensures var r := CheckerLine(Line(i, desc) + "\n");
      r.Some? && r.value.op == Mnemonic(i) && ParseInstruction(r.value) == Some(Accesses(Reads(i), Writes(i)))
  {
    hide Line, Tokens, RecordOf, Bindings, BoundAll, FieldMap, Mnemonic, TrimRight, ParseInstruction, Reads, Writes;
    LineEnd(i, desc);
    LineHead(i, desc);
    TrimNewline(Line(i, desc));
    BlankSeparates();
    LineRecord(i, desc, WhiteSpace);
    CheckerSees(i, desc);
  }

  lemma LineHead(i: Instr, desc: nat)
    ensures Line(i, desc) != [] && !WhiteSpace(Line(i, desc)[0]) && Line(i, desc)[0] != '#' && Line(i, desc)[0] != '/'
  {
    hide Bindings, Spread, BoundAll;
    var m := Mnemonic(i);
    assert m != [] && m[0] in "DMEARS";
    if i != Sync {
      assert Padded(m, if i.Matmul? then 14 else 15)[0] == m[0];
    }
  }
}
