/** Token by token, what the tokenizer makes of printed text. */
module PrintedTokens {
  import opened Words
  import opened Mnemonics
  import opened Tokens
  import opened Tokenizing
  import opened Printing

  predicate AllIn(s: string, k: CharClass) {
    forall i :: 0 <= i < |s| ==> In(s[i], k)
  }

  predicate AllBlank(gap: string) {
    forall i :: 0 <= i < |gap| ==> IsBlank(gap[i])
  }

  predicate IsWord(s: string) {
    s != "" && (IsAlpha(s[0]) || s[0] == '_') && AllIn(s, WordChar)
  }

  /** The rest starts with a gap. */
  predicate Gapped(rest: string) {
    rest != "" && IsBlank(rest[0])
  }

  // ---------- mnemonics are words ----------

  lemma MnemonicIsWord(op: Opcode)
    ensures IsWord(MnemonicOf(op))
  {
    hide IsWord, FirstMnemonic, SecondMnemonic, ThirdMnemonic, LastMnemonic;
    if op < 15 { FirstAreWords(op); }
    else if op < 30 { SecondAreWords(op); }
    else if op < 45 { ThirdAreWords(op); }
    else { LastAreWords(op); }
  }

  lemma FirstAreWords(op: Byte)
    requires op < 15
    ensures IsWord(FirstMnemonic(op))
  {
  }

  lemma SecondAreWords(op: Byte)
    requires 15 <= op < 30
    ensures IsWord(SecondMnemonic(op))
  {
  }

  lemma ThirdAreWords(op: Byte)
    requires 30 <= op < 45
    ensures IsWord(ThirdMnemonic(op))
  {
  }

  lemma LastAreWords(op: Byte)
    requires 45 <= op && IsInstruction(op)
    ensures IsWord(LastMnemonic(op))
  {
  }

  // ---------- tokens in front of a rest ----------

  lemma {:induction false} SkipGap(gap: string, b: string)
    requires AllBlank(gap)
    ensures Next(Start(gap + b)) == Next(Start(b))
  {
    if gap == "" {
      assert gap + b == b;
    } else {
      assert (gap + b)[1..] == gap[1..] + b;
      SkipGap(gap[1..], b);
    }
  }

  lemma Direct(b: string, t: Token, n: nat)
    requires !IsBlank(At(b, 0)) && At(b, 0) != '{' && !(At(b, 0) == '-' && At(b, 1) == '-') && Lex(b) == Lexed(t, n)
    ensures Next(Start(b)) == Got(t, Start(b[n..]))
  {
    hide Lex;
  }

  lemma SpanOf(front: string, middle: string, rest: string, k: CharClass)
    requires AllIn(middle, k) && !In(At(rest, 0), k)
    ensures Span(front + middle + rest, |front|, k) == |front + middle|
  {
    var b := front + middle + rest;
    forall x | |front| <= x < |front + middle| ensures In(At(b, x), k) {
      assert At(b, x) == middle[x - |front|];
    }
    assert At(b, |front + middle|) == At(rest, 0);
    SpanIs(b, |front|, |front + middle|, k);
  }

  lemma NextWord(name: string, rest: string)
    requires IsWord(name) && !In(At(rest, 0), WordChar)
    ensures Next(Start(name + rest)) == Got(WordToken(name), Start(rest))
  {
    hide WordToken;
    var b := name + rest;
    assert name[..1] + name[1..] + rest == b;
    SpanOf(name[..1], name[1..], rest, WordChar);
    assert b[..|name|] == name && b[|name|..] == rest;
    assert At(b, 0) == name[0];
    Direct(b, WordToken(name), |name|);
  }

  lemma NextHex(digits: string, rest: string)
    requires AllIn(digits, HexChar) && (|digits| == 2 || |digits| == 4) && Gapped(rest)
    ensures Next(Start("0x" + digits + rest)) ==
            Got(if |digits| == 4 then Hex2Num(Wrap(ValueOf(digits, 16))) else HexNum(Wrap(ValueOf(digits, 16))), Start(rest))
  {
    hide Wrap, ValueOf;
    var b := "0x" + digits + rest;
    SpanOf("0x", digits, rest, HexChar);
    assert b[2..2 + |digits|] == digits && b[2 + |digits|..] == rest;
    assert At(b, 0) == '0' && At(b, 1) == 'x' && At(b, 2 + |digits|) == rest[0];
    var num := Wrap(ValueOf(digits, 16));
    Direct(b, if |digits| == 4 then Hex2Num(num) else HexNum(num), 2 + |digits|);
  }

  lemma NextInt(digits: string, rest: string)
    requires digits != "" && AllIn(digits, DigitChar) && ValueOf(digits, 10) < 0xFFFF && Gapped(rest)
    ensures Next(Start(digits + rest)) == Got(IntNum(ValueOf(digits, 10)), Start(rest))
  {
    hide ValueOf;
    var b := digits + rest;
    assert digits[..1] + digits[1..] + rest == b;
    SpanOf(digits[..1], digits[1..], rest, DigitChar);
    assert b[..|digits|] == digits && b[|digits|..] == rest;
    assert In(digits[0], DigitChar) && At(b, 0) == digits[0];
    assert |digits| > 1 ==> In(digits[1], DigitChar);
    assert At(b, 1) == if |digits| > 1 then digits[1] else rest[0];
    Direct(b, IntNum(ValueOf(digits, 10)), |digits|);
  }

  lemma NextString(chars: string, rest: string)
    requires AllIn(chars, StringChar) && Gapped(rest)
    ensures Next(Start("\"" + chars + "\"" + rest)) == Got(Str(chars), Start(rest))
  {
    var b := "\"" + chars + "\"" + rest;
    assert b == "\"" + chars + ("\"" + rest);
    SpanOf("\"", chars, "\"" + rest, StringChar);
    assert b[1..1 + |chars|] == chars && b[2 + |chars|..] == rest;
    assert At(b, 0) == '"' && At(b, 2 + |chars|) == rest[0];
    Direct(b, Str(chars), 2 + |chars|);
  }

  lemma NextColon(rest: string)
    ensures Next(Start(":" + rest)) == Got(Colon, Start(rest))
  {
    assert (":" + rest)[1..] == rest;
    Direct(":" + rest, Colon, 1);
  }

  lemma NextRel(rest: string)
    ensures Next(Start("$" + rest)) == Got(Rel, Start(rest))
  {
    assert ("$" + rest)[1..] == rest;
    Direct("$" + rest, Rel, 1);
  }

  // ---------- numbers ----------

  lemma {:induction false} HexValue(n: nat, width: nat)
    ensures ValueOf(HexText(n, width), 16) == n
    decreases n + width
  {
    if n > 0 || width > 0 {
      HexValue(n / 16, if width > 0 then width - 1 else 0);
      var s := HexText(n, width);
      assert s[..|s| - 1] == HexText(n / 16, if width > 0 then width - 1 else 0);
    }
  }

  lemma {:induction false} DecimalValue(n: nat)
    ensures ValueOf(DecimalText(n), 10) == n
  {
    var s := DecimalText(n);
    if n < 10 {
      assert s[..0] == "" && ValueOf(s[..0], 10) == 0;
    } else {
      DecimalValue(n / 10);
      assert s[..|s| - 1] == DecimalText(n / 10);
    }
  }

  lemma HexStep(n: nat, width: nat)
    ensures |HexText(n, width)| ==
            if n == 0 && width == 0 then 0 else |HexText(n / 16, if width > 0 then width - 1 else 0)| + 1
  {
  }

  lemma HexLength(n: Word)
    ensures |HexText(n, 4)| == 4
    ensures n < 0x100 ==> |HexText(n, 2)| == 2
    ensures n >= 0x1000 ==> |HexText(n, 2)| == 4
  {
    hide HexText;
    var a, b, c := n / 16, n / 256, n / 4096;
    assert a / 16 == b && b / 16 == c && c / 16 == 0;
    HexStep(n, 4);
    HexStep(a, 3);
    HexStep(b, 2);
    HexStep(c, 1);
    HexStep(n, 2);
    HexStep(a, 1);
    HexStep(b, 0);
    HexStep(c, 0);
    HexStep(0, 0);
  }
}
