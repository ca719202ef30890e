/** Text of an .easm stream: numbers, tokens and fields, as the emitters print them and the two
    readers (`tools/eclipse-run.cpp`, `tools/hazard_check.py`) take them apart. */
module AsmText {
  import opened Arithmetic
  import opened Types
  import opened Machine

  /* ---- numbers ---- */

  const HEX_DIGITS := "0123456789abcdef"

  function Digits(n: nat, base: nat): (s: string)
    requires 2 <= base <= 16
    ensures s != []
  {
    if n < base then [HEX_DIGITS[n]]
    else
      DigitShrinks(n, base);
      Digits(n / base, base) + [HEX_DIGITS[n % base]]
  }

  lemma DigitShrinks(n: nat, base: nat)
    requires 2 <= base <= n
    ensures 0 < n / base < n
  {
    var q := n / base;
    DivNonNegative(n, base);
    assert n == base * q + n % base;
    if q > 0 {
      MulMonotone(q, 2, base);
    }
  }

  /** formatv's {x} and {d} styles. */
  function Hex(n: nat): string { "0x" + Digits(n, 16) }

  function Dec(n: nat): string { Digits(n, 10) }

  function DigitValue(c: char): nat {
    if '0' <= c <= '9' then c as int - '0' as int
    else if 'a' <= c <= 'f' then c as int - 'a' as int + 10
    else if 'A' <= c <= 'F' then c as int - 'A' as int + 10
    else 99
  }

  /** The value of the longest run of digits at the front. */
  function DigitsValue(s: string, base: nat, acc: nat): nat {
    if s == [] || DigitValue(s[0]) >= base then acc else DigitsValue(s[1..], base, acc * base + DigitValue(s[0]))
  }

  /** strtoul and strtol with base 0, on text without a sign: 0x is hexadecimal, another leading 0 octal. */
  function ParseAnyBase(s: string): nat {
    if |s| >= 2 && s[0] == '0' && (s[1] == 'x' || s[1] == 'X') then DigitsValue(s[2..], 16, 0)
    else if |s| >= 1 && s[0] == '0' then DigitsValue(s, 8, 0)
    else DigitsValue(s, 10, 0)
  }

  lemma DigitOf(d: nat)
    requires d < 16
    ensures DigitValue(HEX_DIGITS[d]) == d && (HEX_DIGITS[d] == '0' <==> d == 0)
    ensures HEX_DIGITS[d] != ' ' && HEX_DIGITS[d] != '\t' && HEX_DIGITS[d] != '=' && HEX_DIGITS[d] != 'x' && HEX_DIGITS[d] != 'X'
    ensures HEX_DIGITS[d] != '\n' && HEX_DIGITS[d] != '\r'
  {
  }

  lemma LastDigit(n: nat, base: nat)
    requires base > 0
    ensures n / base * base + n % base == n && n % base < base && 0 <= n / base
  {
    DivNonNegative(n, base);
  }

  /** Reading printed digits from the front of a text. */
  lemma {:induction false} ValueAppend(n: nat, base: nat, rest: string)
    requires 2 <= base <= 16
    ensures DigitsValue(Digits(n, base) + rest, base, 0) == DigitsValue(rest, base, n)
    decreases n
  {
    hide DigitValue;
    if n < base {
      DigitOf(n);
      assert ([HEX_DIGITS[n]] + rest)[1..] == rest;
    } else {
      DigitShrinks(n, base);
      LastDigit(n, base);
      var front, last := Digits(n / base, base), [HEX_DIGITS[n % base]];
      DigitOf(n % base);
      ValueAppend(n / base, base, last + rest);
      assert Digits(n, base) + rest == front + (last + rest);
      assert (last + rest)[1..] == rest;
      assert DigitsValue(last + rest, base, n / base) == DigitsValue(rest, base, n / base * base + n % base);
    }
  }

  /** A printed number reads back. */
  lemma DigitsRead(n: nat, base: nat)
    requires 2 <= base <= 16
    ensures DigitsValue(Digits(n, base), base, 0) == n
  {
    ValueAppend(n, base, []);
    assert Digits(n, base) + [] == Digits(n, base);
  }

  lemma {:induction false} LeadingDigit(n: nat, base: nat)
    requires 2 <= base <= 16
    ensures Digits(n, base)[0] == '0' <==> n == 0
    ensures forall k | 0 <= k < |Digits(n, base)| :: exists d :: 0 <= d < base && Digits(n, base)[k] == HEX_DIGITS[d]
    decreases n
  {
    if n < base {
      DigitOf(n);
      assert Digits(n, base)[0] == HEX_DIGITS[n];
    } else {
      DigitShrinks(n, base);
      LastDigit(n, base);
      LeadingDigit(n / base, base);
      assert Digits(n, base)[|Digits(n / base, base)|] == HEX_DIGITS[n % base];
    }
  }

  /** Both styles read back through strtoul with base 0. */
  lemma NumbersReadBack(n: nat)
    ensures ParseAnyBase(Hex(n)) == n && ParseAnyBase(Dec(n)) == n
  {
    hide Digits, DigitsValue;
    DigitsRead(n, 16);
    assert Hex(n)[2..] == Digits(n, 16);
    DigitsRead(n, 10);
    LeadingDigit(n, 10);
    if n == 0 {
      ZeroText();
    }
  }

  /** Text with a leading zero is octal. */
  lemma OctalReadsBack(n: nat)
    ensures ParseAnyBase("0" + Digits(n, 8)) == n
  {
    hide Digits, DigitsValue;
    var s := "0" + Digits(n, 8);
    DigitsRead(n, 8);
    LeadingDigit(n, 8);
    var d :| 0 <= d < 8 && Digits(n, 8)[0] == HEX_DIGITS[d];
    DigitOf(d);
    assert s[1] == Digits(n, 8)[0] && s[1..] == Digits(n, 8);
    SkipZero(Digits(n, 8));
  }

  /** Hexadecimal digits and the x may be capitals. */
  lemma CapitalsRead()
    ensures ParseAnyBase("0XAF") == 0xAF && ParseAnyBase("0xaf") == 0xAF
  {
    var upper, lower := "AF", "af";
    assert "0XAF"[2..] == upper && "0xaf"[2..] == lower;
    assert upper[1..] == "F" && lower[1..] == "f" && "F"[1..] == "" && "f"[1..] == "";
    assert DigitsValue(upper, 16, 0) == DigitsValue("F", 16, 10) == DigitsValue("", 16, 175);
    assert DigitsValue(lower, 16, 0) == DigitsValue("f", 16, 10) == DigitsValue("", 16, 175);
  }

  lemma SkipZero(s: string)
    ensures DigitsValue("0" + s, 8, 0) == DigitsValue(s, 8, 0)
  {
    assert ("0" + s)[0] == '0' && ("0" + s)[1..] == s;
  }

  lemma ZeroText()
    ensures Digits(0, 10) == "0" && DigitsValue("0", 8, 0) == 0
  {
    assert "0"[1..] == "";
  }

  /* ---- tokens ---- */

  /** eclipse-run separates on blanks and tabs, Python's split on all white space. */
  predicate Blank(c: char) { c == ' ' || c == '\t' }

  predicate WhiteSpace(c: char) { c == ' ' || c == '\t' || c == '\n' || c == '\r' }

  /** What a reader takes for one word. */
  predicate IsWord(s: string) { s != [] && forall k | 0 <= k < |s| :: !WhiteSpace(s[k]) }

  /** The end of the word, and the start of the next one, at or after `from`. */
  function WordEnd(s: string, from: nat, space: char -> bool): (e: nat)
    requires from <= |s|
    ensures from <= e <= |s| && (e < |s| ==> space(s[e])) && forall k | from <= k < e :: !space(s[k])
    decreases |s| - from
  {
    if from < |s| && !space(s[from]) then WordEnd(s, from + 1, space) else from
  }

  function WordStart(s: string, from: nat, space: char -> bool): (e: nat)
    requires from <= |s|
    ensures from <= e <= |s| && (e < |s| ==> !space(s[e])) && forall k | from <= k < e :: space(s[k])
    decreases |s| - from
  {
    if from < |s| && space(s[from]) then WordStart(s, from + 1, space) else from
  }

  /** The words of a line from `pos` on. */
  function Tokens(s: string, pos: nat, space: char -> bool): seq<string>
    requires pos <= |s|
    decreases |s| - pos
  {
    var start := WordStart(s, pos, space);
    if start == |s| then []
    else [s[start..WordEnd(s, start, space)]] + Tokens(s, WordEnd(s, start, space), space)
  }

  /** parseEasm's scan of one line, with its pos and end. */
  method Tokenize(s: string) returns (tokens: seq<string>)
    ensures tokens == Tokens(s, 0, Blank)
  {
    hide Tokens;
    tokens := [];
    var pos := 0;
    while pos < |s|
      invariant pos <= |s| && Tokens(s, 0, Blank) == tokens + Tokens(s, pos, Blank)
    {
      ghost var from := pos;
      while pos < |s| && Blank(s[pos])
        invariant from <= pos <= |s| && WordStart(s, pos, Blank) == WordStart(s, from, Blank)
      {
        pos := pos + 1;
      }
      var end := pos;
      while end < |s| && !Blank(s[end])
        invariant pos <= end <= |s| && WordEnd(s, end, Blank) == WordEnd(s, pos, Blank)
      {
        end := end + 1;
      }
      var tok := s[pos..end];
      NextToken(s, from, pos, end, Blank);
      pos := end;
      if tok == [] {
        continue;
      }
      tokens := tokens + [tok];
    }
    NextToken(s, |s|, |s|, |s|, Blank);
  }

  /** One word and what follows it. */
  lemma NextToken(s: string, from: nat, start: nat, end: nat, space: char -> bool)
    requires from <= |s| && start == WordStart(s, from, space) && end == WordEnd(s, start, space)
    ensures (start == |s| ==> end == |s|) && (start < |s| ==> start < end)
    ensures Tokens(s, from, space) == (if start == |s| then [] else [s[start..end]] + Tokens(s, end, space))
    ensures Tokens(s, |s|, space) == []
  {
    assert start < |s| ==> WordEnd(s, start, space) == WordEnd(s, start + 1, space);
  }

  /** Words separated by blanks; the first one may be padded. */
  function Spread(words: seq<string>): string {
    if words == [] then "" else " " + words[0] + Spread(words[1..])
  }

  /** A tab separates as well as a blank does, for both readers. */
  lemma TabsSeparate(a: string, b: string)
    requires IsWord(a) && IsWord(b)
    ensures Tokens(a + "\t" + b, 0, Blank) == [a, b] && Tokens(a + "\t" + b, 0, WhiteSpace) == [a, b]
  {
    TwoTokens(a, b, Blank);
    TwoTokens(a, b, WhiteSpace);
  }

  lemma TwoTokens(a: string, b: string, space: char -> bool)
    requires a != [] && b != [] && space('\t')
    requires (forall k | 0 <= k < |a| :: !space(a[k])) && forall k | 0 <= k < |b| :: !space(b[k])
    ensures Tokens(a + "\t" + b, 0, space) == [a, b]
  {
    var s, n := a + "\t" + b, |a|;
    assert s[0] == a[0] && s[n] == '\t' && s[n + 1] == b[0];
    assert WordStart(s, 0, space) == 0;
    WordEndIs(s, 0, n, space);
    assert WordStart(s, n, space) == WordStart(s, n + 1, space) == n + 1;
    WordEndIs(s, n + 1, |s|, space);
    assert s[0..n] == a && s[n + 1..|s|] == b;
    assert WordStart(s, |s|, space) == |s|;
    assert Tokens(s, |s|, space) == [];
    assert Tokens(s, n, space) == [b];
  }

  lemma WordEndIs(s: string, from: nat, e: nat, space: char -> bool)
    requires from <= e <= |s| && (e < |s| ==> space(s[e])) && forall k | from <= k < e :: !space(s[k])
    ensures WordEnd(s, from, space) == e
  {
  }

  lemma WordStartIs(s: string, from: nat, e: nat, space: char -> bool)
    requires from <= e <= |s| && (e < |s| ==> !space(s[e])) && forall k | from <= k < e :: space(s[k])
    ensures WordStart(s, from, space) == e
  {
  }

  /** A word, after some blanks and before more words. */
  lemma OneToken(front: string, word: string, rest: string, pos: nat, space: char -> bool)
    requires word != [] && pos <= |front| && (forall k | pos <= k < |front| :: space(front[k]))
    requires (forall k | 0 <= k < |word| :: !space(word[k])) && (rest != [] ==> space(rest[0]))
    ensures var s := front + word + rest; Tokens(s, pos, space) == [word] + Tokens(s, |front + word|, space)
  {
    var s, e := front + word + rest, |front + word|;
    WordStartIs(s, pos, |front|, space);
    WordEndIs(s, |front|, e, space);
    assert s[|front|..e] == word;
  }

  /** A space: what both readers separate on. */
  ghost predicate Separates(space: char -> bool) { space(' ') && forall c | space(c) :: WhiteSpace(c) }

  predicate AllWords(words: seq<string>) { forall i | 0 <= i < |words| :: IsWord(words[i]) }

  /** Both readers find the words again. */
  lemma {:induction false} SpreadTokens(front: string, words: seq<string>, space: char -> bool)
    requires AllWords(words) && Separates(space)
    ensures Tokens(front + Spread(words), |front|, space) == words
    decreases words
  {
    hide Tokens;
    var s := front + Spread(words);
    if words == [] {
      NoTokens(s, |front|, space);
    } else {
      var rest := Spread(words[1..]);
      assert s == (front + " ") + words[0] + rest;
      forall k | 0 <= k < |words[0]|
        ensures !space(words[0][k])
      {
        assert IsWord(words[0]);
      }
      OneToken(front + " ", words[0], rest, |front|, space);
      SpreadTokens(front + " " + words[0], words[1..], space);
      assert s == (front + " " + words[0]) + rest;
    }
  }

  lemma NoTokens(s: string, pos: nat, space: char -> bool)
    requires pos == |s|
    ensures Tokens(s, pos, space) == []
  {
  }

  /** A padded mnemonic, then the fields. */
  lemma LineTokens(op: string, pad: nat, words: seq<string>, space: char -> bool)
    requires IsWord(op) && AllWords(words) && Separates(space)
    ensures Tokens(Padded(op, pad) + Spread(words), 0, space) == [op] + words
  {
    hide Tokens, Spread;
    var blanks := Padded(op, pad)[|op|..];
    var s := Padded(op, pad) + Spread(words);
    SpreadHead(words);
    assert s == "" + op + (blanks + Spread(words));
    OneToken("", op, blanks + Spread(words), 0, space);
    assert s == (op + blanks) + Spread(words);
    SkipBlanks(op, blanks, Spread(words), space);
    SpreadTokens(op + blanks, words, space);
    assert |"" + op| == |op|;
  }

  lemma SpreadHead(words: seq<string>)
    ensures words != [] ==> Spread(words) != [] && Spread(words)[0] == ' '
    ensures words == [] ==> Spread(words) == []
  {
  }

  /** Left-justified in `width` columns. */
  function Padded(op: string, width: nat): (s: string)
    ensures |op| <= |s| && s[..|op|] == op && forall k | |op| <= k < |s| :: s[k] == ' '
  {
    op + seq(if width > |op| then width - |op| else 0, i => ' ')
  }

  lemma SkipBlanks(front: string, blanks: string, rest: string, space: char -> bool)
    requires (forall k | 0 <= k < |blanks| :: space(blanks[k])) && (rest != [] ==> space(rest[0]))
    ensures Tokens(front + blanks + rest, |front|, space) == Tokens(front + blanks + rest, |front + blanks|, space)
  {
    var s, m := front + blanks + rest, |front + blanks|;
    var e := WordStart(s, m, space);
    forall k | |front| <= k < e
      ensures space(s[k])
    {
      assert k < m ==> s[k] == blanks[k - |front|];
    }
    WordStartIs(s, |front|, e, space);
  }

  /* ---- fields ---- */

  type Binding = (string, string)

  function Bound(b: Binding): string { b.0 + "=" + b.1 }

  function BoundAll(bs: seq<Binding>): seq<string> { seq(|bs|, k requires 0 <= k < |bs| => Bound(bs[k])) }

  /** The position of the first '=', or the length. */
  function FindEq(s: string, from: nat): (e: nat)
    requires from <= |s|
    ensures from <= e <= |s| && (e < |s| ==> s[e] == '=') && forall k | from <= k < e :: s[k] != '='
    decreases |s| - from
  {
    if from < |s| && s[from] != '=' then FindEq(s, from + 1) else from
  }

  /** fields[key] = value for every word with an '='; later ones win. */
  function FieldMap(words: seq<string>): map<string, string> {
    if words == [] then map[]
    else
      var m, w := FieldMap(words[..|words| - 1]), words[|words| - 1];
      var eq := FindEq(w, 0);
      if eq < |w| then m[w[..eq] := w[eq + 1..]] else m
  }

  predicate GoodKey(k: string) { forall i | 0 <= i < |k| :: k[i] != '=' }

  lemma BoundSplits(b: Binding)
    requires GoodKey(b.0)
    ensures FindEq(Bound(b), 0) == |b.0| < |Bound(b)| && Bound(b)[..|b.0|] == b.0 && Bound(b)[|b.0| + 1..] == b.1
  {
    EqIs(Bound(b), 0, |b.0|);
  }

  lemma EqIs(s: string, from: nat, e: nat)
    requires from <= e < |s| && s[e] == '=' && forall k | from <= k < e :: s[k] != '='
    ensures FindEq(s, from) == e
  {
  }

  ghost predicate DistinctKeys(bs: seq<Binding>) {
    && (forall i | 0 <= i < |bs| :: GoodKey(bs[i].0))
    && forall i, j | 0 <= i < j < |bs| :: bs[i].0 != bs[j].0
  }

  /** Fields with different keys are all found. */
  lemma {:induction false} FieldsFound(bs: seq<Binding>)
    requires DistinctKeys(bs)
    ensures forall i | 0 <= i < |bs| :: bs[i].0 in FieldMap(BoundAll(bs)) && FieldMap(BoundAll(bs))[bs[i].0] == bs[i].1
    decreases bs
  {
    hide FindEq, Bound, GoodKey;
    if bs != [] {
      var n := |bs| - 1;
      FieldsFound(bs[..n]);
      assert BoundAll(bs)[..n] == BoundAll(bs[..n]);
      BoundSplits(bs[n]);
    }
  }

  /* ---- records ---- */

  datatype Record = Record(op: string, fields: map<string, string>)

  /** A line's record; blank lines have none. */
  function RecordOf(tokens: seq<string>): Option<Record> {
    if tokens == [] then None else Some(Record(tokens[0], FieldMap(tokens[1..])))
  }
}
