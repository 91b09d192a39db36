/** What the tokenizer makes of comments, literals, quoted characters and macros, told by the characters of the text. */
module Lexical {
  import opened Words
  import opened Instructions
  import opened Mnemonics
  import opened Tokens
  import opened Tokenizing
  import opened Parsing
  import opened PrintedTokens
  import opened Assembly
  import Decimal
  import Printing

  // ---------- between tokens ----------

  /** Reading the text itself, not a macro. */
  predicate Plainly(st: State, buffer: string) {
    st.current == -1 && st.buffer == buffer
  }

  /** A comment, from two dashes to the end of its line, is as if it were not there. */
  lemma CommentSkipped(st: State, comment: string, rest: string)
    requires Plainly(st, "--" + comment + "\n" + rest)
    requires forall i :: 0 <= i < |comment| ==> comment[i] != '\n' && comment[i] != '\0'
    ensures Next(st) == Next(st.(buffer := rest))
  {
    hide Next;
    var b, line := st.buffer, "\n" + rest;
    forall x | 1 <= x < 2 + |comment| ensures In(At(b, x), CommentChar) {
      assert At(b, x) == if x == 1 then '-' else comment[x - 2];
    }
    assert At(b, 2 + |comment|) == '\n';
    SpanIs(b, 1, 2 + |comment|, CommentChar);
    assert b[2 + |comment|..] == line && line[1..] == rest;
    CommentNext(st);
    BlankSkipped(st.(buffer := line), '\n', rest);
  }

  lemma CommentNext(st: State)
    requires st.current == -1 && At(st.buffer, 0) == '-' && At(st.buffer, 1) == '-'
    ensures Next(st) == Next(st.(buffer := st.buffer[Span(st.buffer, 1, CommentChar)..]))
  {
    hide Lex, Define, Span;
  }

  /** So are spaces, tabs and line ends. */
  lemma BlankSkipped(st: State, c: char, rest: string)
    requires Plainly(st, [c] + rest) && c in {' ', '\t', '\r', '\n'}
    ensures Next(st) == Next(st.(buffer := rest))
  {
    assert ([c] + rest)[1..] == rest;
  }

  /** Words begin with a letter or an underscore and go on with letters, digits and underscores, all of them ASCII. */
  lemma WordCharacters(c: char)
    ensures IsAlpha(c) <==> 65 <= c as int <= 90 || 97 <= c as int <= 122
    ensures IsDigit(c) <==> 48 <= c as int <= 57
    ensures In(c, WordChar) <==> IsAlpha(c) || IsDigit(c) || c as int == 95
    ensures IsBlank(c) <==> c as int in {9, 10, 13, 32}
    ensures IsSpace(c) <==> c as int == 32 || 9 <= c as int <= 13
  {
  }

  // ---------- literals ----------

  const LOWER := "0123456789abcdef"
  const UPPER := "0123456789ABCDEF"

  /** A hexadecimal digit in either case. */
  predicate HexDigitIs(c: char, d: nat) {
    d < 16 && (c == LOWER[d] || c == UPPER[d])
  }

  lemma DigitIs(c: char, d: nat)
    requires HexDigitIs(c, d)
    ensures In(c, HexChar) && DigitValue(c) == d
  {
  }

  lemma TwoDigits(c: char, d: char, base: nat)
    ensures ValueOf([c, d], base) == DigitValue(c) * base + DigitValue(d)
  {
    assert [c, d][..1] == [c] && [c][..0] == "";
    assert ValueOf([c], base) == DigitValue(c);
  }

  lemma FourDigits(c: char, d: char, e: char, f: char)
    ensures ValueOf([c, d, e, f], 16) == 0x1000 * DigitValue(c) + 0x100 * DigitValue(d) + 0x10 * DigitValue(e) + DigitValue(f)
  {
    TwoDigits(c, d, 16);
    assert [c, d, e, f][..3] == [c, d, e] && [c, d, e][..2] == [c, d];
    assert ValueOf([c, d, e], 16) == 16 * ValueOf([c, d], 16) + DigitValue(e);
  }

  /** Two hexadecimal digits are a byte, the first the more significant, in either case. */
  lemma ByteLiteral(hi: char, lo: char, h: nat, l: nat, rest: string)
    requires HexDigitIs(hi, h) && HexDigitIs(lo, l) && Gapped(rest)
    ensures Next(Start("0x" + [hi, lo] + rest)) == Got(HexNum(16 * h + l), Start(rest))
  {
    hide ValueOf, Next, DigitValue, HexDigitIs;
    DigitIs(hi, h);
    DigitIs(lo, l);
    TwoDigits(hi, lo, 16);
    DigitBound(hi, h);
    DigitBound(lo, l);
    NextHex([hi, lo], rest);
  }

  lemma DigitBound(c: char, d: nat)
    requires HexDigitIs(c, d)
    ensures d < 16
  {
  }

  /** Four of them are a word. */
  lemma WordLiteral(digits: string, a: nat, b: nat, c: nat, d: nat, rest: string)
    requires |digits| == 4 && HexDigitIs(digits[0], a) && HexDigitIs(digits[1], b) && HexDigitIs(digits[2], c) && HexDigitIs(digits[3], d)
    requires Gapped(rest)
    ensures Next(Start("0x" + digits + rest)) == Got(Hex2Num((0x1000 * a + 0x100 * b + 0x10 * c + d) % 0x1_0000), Start(rest))
  {
    hide ValueOf, Next, DigitValue, HexDigitIs;
    DigitIs(digits[0], a);
    DigitIs(digits[1], b);
    DigitIs(digits[2], c);
    DigitIs(digits[3], d);
    FourDigits(digits[0], digits[1], digits[2], digits[3]);
    assert digits == [digits[0], digits[1], digits[2], digits[3]];
    NextHex(digits, rest);
  }

  /** The number of binary digits, the last the least significant. */
  function Bits(digits: string): nat {
    if digits == "" then 0 else 2 * Bits(digits[..|digits| - 1]) + (if digits[|digits| - 1] == '1' then 1 else 0)
  }

  lemma {:induction false} BitsAreValue(digits: string)
    requires forall i :: 0 <= i < |digits| ==> digits[i] == '0' || digits[i] == '1'
    ensures ValueOf(digits, 2) == Bits(digits)
  {
    if digits != "" { BitsAreValue(digits[..|digits| - 1]); }
  }

  /** Printed digits are upper case, and 0xFFFF is too large for a decimal number. */
  lemma PrintedDigit(d: nat)
    requires d < 16
    ensures Printing.HexDigit(d) == UPPER[d]
  {
  }

  /** Bytes are printed with two such digits, words as their high and their low byte. */
  lemma PrintedByte(n: Byte)
    ensures Printing.HexText(n, 2) == [UPPER[n / 0x10], UPPER[n % 0x10]]
  {
    hide Printing.HexText;
    PrintedPair(n, 2);
    PrintedStep(0, 0);
  }

  lemma PrintedWord(n: Word)
    ensures Printing.HexText(n, 4) == Printing.HexText(n / 0x100, 2) + Printing.HexText(n % 0x100, 2)
  {
    hide Printing.HexText;
    PrintedPair(n, 4);
    LowDigits(n);
    PrintedByte(n % 0x100);
  }

  lemma LowDigits(n: Word)
    ensures n % 0x100 / 0x10 == n / 0x10 % 0x10 && n % 0x100 % 0x10 == n % 0x10
  {
  }

  lemma PrintedPair(n: nat, width: nat)
    requires width >= 2
    ensures Printing.HexText(n, width) == Printing.HexText(n / 0x100, width - 2) + [UPPER[n / 0x10 % 0x10], UPPER[n % 0x10]]
  {
    hide Printing.HexText;
    assert n / 0x10 / 0x10 == n / 0x100;
    PrintedStep(n, width);
    PrintedStep(n / 0x10, width - 1);
  }

  lemma PrintedStep(n: nat, width: nat)
    ensures Printing.HexText(n, width) == if n == 0 && width == 0 then ""
                                          else Printing.HexText(n / 0x10, if width > 0 then width - 1 else 0) + [UPPER[n % 0x10]]
  {
    PrintedDigit(n % 0x10);
  }

  lemma DecimalLimit(b: string)
    requires |b| >= 1 && ValueOf(b[..Span(b, 1, DigitChar)], 10) >= 0xFFFF
    ensures LexInt(b) == Bad(IntTooLarge)
  {
  }

  /** Eight binary digits are a byte. */
  lemma BinaryLiteral(digits: string, rest: string)
    requires |digits| == 8 && (forall i :: 0 <= i < 8 ==> digits[i] == '0' || digits[i] == '1') && Gapped(rest)
    ensures Next(Start("0b" + digits + rest)) == Got(BinNum(Bits(digits) % 0x1_0000), Start(rest))
  {
    hide ValueOf, Bits, LexHex, LexInt, LexWord, LexString;
    BitsAreValue(digits);
    var b := "0b" + digits + rest;
    SpanOf("0b", digits, rest, BinChar);
    assert b[2..10] == digits && b[10..] == rest;
    assert At(b, 0) == '0' && At(b, 1) == 'b';
    assert Lex(b) == LexBin(b);
    Direct(b, BinNum(Wrap(ValueOf(digits, 2))), 10);
  }

  /** The digits a program prints have the value the assembler gives the same characters. */
  lemma {:induction false} SameDecimal(text: seq<Byte>, chars: string)
    requires |text| == |chars| && forall i :: 0 <= i < |text| ==> text[i] == chars[i] as int && '0' <= chars[i] <= '9'
    ensures Decimal.IsDigits(text) && Decimal.ValueOf(text) == ValueOf(chars, 10)
  {
    if text != [] { SameDecimal(text[..|text| - 1], chars[..|text| - 1]); }
  }

  // ---------- operands ----------

  /** A quoted character as an 8-bit operand is assembled to its code; below 128 that is the operand itself. */
  lemma QuotedCharacter(op: Opcode, c: char, st: State, next: State, opsAllowed: bool)
    requires Valid(st) && ArgKindOf(op).Bits8? && !NeedsEven(op) && c as int < 0x100 && Next(st) == Got(Str([c]), next)
    ensures var p := ParseInstruction(op, st, opsAllowed);
            && p.Taken? && p.st == next && p.bc.InstHex? && p.bc.op == op && p.bc.num % 0x100 == c as int
            && p.bc.num == if c as int < 0x80 then c as int else 0xFF00 + c as int
  {
    hide Next, ArgKindOf, NeedsEven;
  }

  /** Two quoted characters are a word with the first as low byte; the second is the high byte unless the first is negative. */
  lemma QuotedPair(op: Opcode, low: char, high: char, st: State, next: State, opsAllowed: bool)
    requires Valid(st) && ArgKindOf(op).Bits16? && low as int < 0x100 && high as int < 0x100
    requires Next(st) == Got(Str([low, high]), next) && !NeedsEven(op)
    ensures var p := ParseInstruction(op, st, opsAllowed);
            && p.Taken? && p.st == next && p.bc.InstHex2? && p.bc.op == op && p.bc.num % 0x100 == low as int
            && p.bc.num / 0x100 == if low as int < 0x80 then high as int else 0xFF
  {
    hide Next, ArgKindOf, NeedsEven;
  }

  /** Binary numbers are bytes of data and 8-bit operands; a mnemonic is an 8-bit operand where that is switched on. */
  lemma OtherBytes(op: Opcode, st: State, next: State, t: Token, opsAllowed: bool)
    requires Valid(st) && ArgKindOf(op).Bits8? && !NeedsEven(op) && Next(st) == Got(t, next)
    ensures t.BinNum? ==> ParseInstruction(op, st, opsAllowed) == Taken(InstHex(op, t.num), next)
    ensures t.BinNum? || t.HexNum? ==> ParseBytecode(st, opsAllowed) == Taken(Hex(t.num), next)
    ensures t.Op? ==> ParseInstruction(op, st, opsAllowed) ==
                        if opsAllowed then Taken(InstHex(op, t.op), next) else Rejected(Unexpected(t))
  {
    hide Next, ArgKindOf, NeedsEven;
  }

  /** Offsets into the stack are even: an odd one is refused, with either instruction that takes one. */
  lemma OddOffset(op: Opcode, st: State, next: State, num: Word, opsAllowed: bool)
    requires Valid(st) && op in {PEEKAR, PUSHAR} && Next(st) == Got(HexNum(num), next)
    ensures ParseInstruction(op, st, opsAllowed) == if num % 2 == 0 then Taken(InstHex(op, num), next) else Rejected(OddNumber)
  {
    hide Next;
  }

  // ---------- macros ----------

  /** The text spells these tokens, none of them the end of a definition, with blanks between them. */
  predicate Spells(b: string, ts: seq<Token>, rest: string)
    decreases |b|
  {
    if b != "" && IsBlank(b[0]) then Spells(b[1..], ts, rest)
    else if ts == [] then b == rest
    else
      && b != "" && b[0] != '{' && !(b[0] == '-' && At(b, 1) == '-')
      && Lex(b).Lexed? && Lex(b).len > 0 && Lex(b).token == ts[0] && !ts[0].CloseMacro?
      && Spells(b[Lex(b).len..], ts[1..], rest)
  }

  /** None of the tokens names a macro. */
  predicate NoCalls(ts: seq<Token>, macros: seq<Macro>) {
    forall i :: 0 <= i < |ts| && ts[i].Sym? ==> FindMacro(macros, ts[i].image) == |macros|
  }

  /** Names alone decide what is a macro call. */
  lemma {:induction false} SameNames(macros: seq<Macro>, macros': seq<Macro>, name: string)
    requires |macros| == |macros'| && forall i :: 0 <= i < |macros| ==> macros[i].name == macros'[i].name
    ensures FindMacro(macros, name) == FindMacro(macros', name)
  {
    if macros != [] { SameNames(macros[1..], macros'[1..], name); }
  }

  lemma CloseNext(st: State, rest: string)
    requires Plainly(st, "}" + rest)
    ensures Next(st) == Got(CloseMacro, st.(buffer := rest))
  {
    hide LexHex, LexBin, LexInt, LexWord, LexString, Define;
    assert ("}" + rest)[1..] == rest && At(st.buffer, 0) == '}';
    assert Lex(st.buffer) == Lexed(CloseMacro, 1);
  }

  lemma SpelledNext(st: State, t: Token)
    requires st.current == -1 && st.buffer != "" && !IsBlank(st.buffer[0]) && st.buffer[0] != '{'
    requires !(st.buffer[0] == '-' && At(st.buffer, 1) == '-') && Lex(st.buffer).Lexed? && Lex(st.buffer).token == t
    requires t.Sym? ==> FindMacro(st.macros, t.image) == |st.macros|
    ensures Next(st) == Got(t, st.(buffer := st.buffer[Lex(st.buffer).len..]))
  {
    hide Lex, Define, FindMacro;
  }

  /** Macro m with more tokens. */
  function Extended(macros: seq<Macro>, m: nat, ts: seq<Token>): (r: seq<Macro>)
    requires m < |macros|
  {
    macros[m := Macro(macros[m].name, macros[m].tokens + ts)]
  }

  lemma ExtendedNone(macros: seq<Macro>, m: nat)
    requires m < |macros|
    ensures Extended(macros, m, []) == macros
  {
    assert macros[m].tokens + [] == macros[m].tokens;
  }

  lemma ExtendedMore(macros: seq<Macro>, m: nat, ts: seq<Token>)
    requires m < |macros| && ts != []
    ensures |Extended(macros, m, [ts[0]])| == |macros|
    ensures Extended(macros, m, [ts[0]])[m].tokens == macros[m].tokens + [ts[0]]
    ensures Extended(Extended(macros, m, [ts[0]]), m, ts[1..]) == Extended(macros, m, ts)
    ensures NoCalls(ts, macros) ==> NoCalls(ts[1..], Extended(macros, m, [ts[0]]))
  {
    assert macros[m].tokens + [ts[0]] + ts[1..] == macros[m].tokens + ts;
    if NoCalls(ts, macros) {
      forall i | 0 <= i < |ts[1..]| && ts[1..][i].Sym?
        ensures FindMacro(Extended(macros, m, [ts[0]]), ts[1..][i].image) == |macros|
      {
        assert ts[i + 1].Sym?;
        SameNames(macros, Extended(macros, m, [ts[0]]), ts[i + 1].image);
      }
    }
  }

  /** What is collected are the tokens spelled, and reading goes on behind the closing brace. */
  lemma {:induction false} Collected(st: State, m: nat, ts: seq<Token>, rest: string)
    requires st.current == -1 && m < |st.macros| && |st.macros[m].tokens| + |ts| < 32
    requires Spells(st.buffer, ts, "}" + rest) && NoCalls(ts, st.macros)
    ensures Collect(st, m) == Next(st.(buffer := rest, macros := Extended(st.macros, m, ts)))
    decreases |st.buffer|
  {
    hide Lex, FindMacro, Define, Extended, NoCalls;
    var b := st.buffer;
    if b != "" && IsBlank(b[0]) {
      hide Spells;
      BlankCollected(st, m);
      SpellsBehindBlank(b, ts, "}" + rest);
      Collected(st.(buffer := b[1..]), m, ts, rest);
    } else if ts == [] {
      CloseNext(st, rest);
      ExtendedNone(st.macros, m);
    } else {
      NotCalled(ts, st.macros);
      SpelledNext(st, ts[0]);
      ExtendedMore(st.macros, m, ts);
      OneCollected(st, m, ts[0], b[Lex(b).len..]);
      Collected(st.(buffer := b[Lex(b).len..], macros := Extended(st.macros, m, [ts[0]])), m, ts[1..], rest);
    }
  }

  lemma NotCalled(ts: seq<Token>, macros: seq<Macro>)
    requires ts != [] && NoCalls(ts, macros)
    ensures ts[0].Sym? ==> FindMacro(macros, ts[0].image) == |macros|
  {
  }

  lemma SpellsBehindBlank(b: string, ts: seq<Token>, rest: string)
    requires Spells(b, ts, rest) && b != "" && IsBlank(b[0])
    ensures Spells(b[1..], ts, rest)
  {
  }

  lemma BlankCollected(st: State, m: nat)
    requires st.current == -1 && m < |st.macros| && |st.macros[m].tokens| < 32
    requires st.buffer != "" && IsBlank(st.buffer[0])
    ensures Collect(st, m) == Collect(st.(buffer := st.buffer[1..]), m)
  {
    hide Lex, Define, FindMacro;
    assert Next(st) == Next(st.(buffer := st.buffer[1..]));
  }

  lemma OneCollected(st: State, m: nat, t: Token, rest: string)
    requires st.current == -1 && m < |st.macros| && |st.macros[m].tokens| + 1 < 32
    requires Next(st) == Got(t, st.(buffer := rest)) && !t.CloseMacro?
    ensures Collect(st, m) == Collect(st.(buffer := rest, macros := Extended(st.macros, m, [t])), m)
  {
    hide Next;
  }

  /** A definition adds the macro with the tokens spelled in it and yields nothing itself. */
  lemma MacroDefined(st: State, name: string, body: string, ts: seq<Token>, rest: string)
    requires Plainly(st, "{" + name + body) && |st.macros| < 31 && |ts| < 32
    requires IsWord(name) && WordToken(name) == Sym(name) && FindMacro(st.macros, name) == |st.macros| && !In(At(body, 0), WordChar)
    requires Spells(body, ts, "}" + rest) && NoCalls(ts, st.macros + [Macro(name, [])])
    ensures Next(st) == Next(st.(buffer := rest, macros := st.macros + [Macro(name, ts)]))
  {
    hide Lex, FindMacro, Spells, NoCalls, Collect, WordToken, IsWord, Extended, Next, Define, In;
    var inner := st.(buffer := name + body);
    var begun := st.macros + [Macro(name, [])];
    assert ("{" + name + body)[1..] == name + body && At(st.buffer, 0) == '{';
    BraceNext(st);
    NameNext(inner, name, body);
    Begun(inner, name, body);
    Collected(st.(buffer := body, macros := begun), |st.macros|, ts, rest);
    ExtendedLast(st.macros, name, ts);
  }

  /** There is room for 31 macros of 31 tokens. */
  lemma MacroLimits(st: State, m: nat)
    requires Valid(st) && Next(st).Got? && m < |st.macros|
    ensures Next(st).token.Sym? && |Next(st).st.macros| >= 31 ==> Define(st) == Fail(TooManyMacros)
    ensures FullMacro(st, m) && FullMacro(Next(st).st, m) && !Next(st).token.CloseMacro? ==> Collect(st, m) == Fail(MacroTooLong)
  {
    hide Next;
  }

  predicate FullMacro(st: State, m: nat) {
    m < |st.macros| && |st.macros[m].tokens| == 31
  }

  lemma ExtendedLast(macros: seq<Macro>, name: string, ts: seq<Token>)
    ensures Extended(macros + [Macro(name, [])], |macros|, ts) == macros + [Macro(name, ts)]
  {
    assert [] + ts == ts;
  }

  lemma BraceNext(st: State)
    requires st.current == -1 && At(st.buffer, 0) == '{'
    ensures Next(st) == Define(st.(buffer := st.buffer[1..]))
  {
    hide Lex, Define, FindMacro;
  }

  lemma Begun(st: State, name: string, rest: string)
    requires Valid(st) && Next(st) == Got(Sym(name), st.(buffer := rest)) && |st.macros| < 31
    ensures Define(st) == Collect(st.(buffer := rest, macros := st.macros + [Macro(name, [])]), |st.macros|)
  {
    hide Next, Collect;
  }

  lemma NameNext(st: State, name: string, rest: string)
    requires Plainly(st, name + rest) && IsWord(name) && !In(At(rest, 0), WordChar)
    requires WordToken(name) == Sym(name) && FindMacro(st.macros, name) == |st.macros|
    ensures Next(st) == Got(Sym(name), st.(buffer := rest))
  {
    hide Lex, WordToken, FindMacro, Define;
    WordLexed(name, rest);
    assert (name + rest)[|name|..] == rest;
    SpelledNext(st, Sym(name));
  }

  lemma WordLexed(name: string, rest: string)
    requires IsWord(name) && !In(At(rest, 0), WordChar)
    ensures Lex(name + rest) == Lexed(WordToken(name), |name|)
  {
    hide WordToken;
    var b := name + rest;
    assert name[..1] + name[1..] + rest == b;
    SpanOf(name[..1], name[1..], rest, WordChar);
    assert b[..|name|] == name && b[|name|..] == rest;
    assert At(b, 0) == name[0];
  }

  // ---------- macro calls ----------

  /** The next tokens are these, and then the state is `end`. */
  predicate Yields(st: State, ts: seq<Token>, end: State)
    requires Valid(st)
    decreases |ts|
  {
    if ts == [] then st == end
    else Next(st).Got? && Next(st).token == ts[0] && Yields(Next(st).st, ts[1..], end)
  }

  lemma {:induction false} Replayed(st: State, m: nat, i: nat)
    requires m < |st.macros| && st.current == m && st.index == i <= |st.macros[m].tokens|
    ensures Yields(st, st.macros[m].tokens[i..], st.(index := |st.macros[m].tokens|))
    decreases |st.macros[m].tokens| - i
  {
    if i < |st.macros[m].tokens| {
      hide Lex, Define, FindMacro;
      assert Next(st) == Got(st.macros[m].tokens[i], st.(index := i + 1));
      Replayed(st.(index := i + 1), m, i + 1);
    }
  }

  /** The name of a macro yields the macro's tokens in order, and then reading goes on behind the name. */
  lemma MacroCalled(st: State, name: string, m: nat, rest: string)
    requires Plainly(st, name + rest) && IsWord(name) && !In(At(rest, 0), WordChar) && WordToken(name) == Sym(name)
    requires FindMacro(st.macros, name) == m < |st.macros|
    ensures var called, n := st.(buffer := rest, current := m, index := 0), |st.macros[m].tokens|;
            && Next(st) == Next(called) && Yields(called, st.macros[m].tokens, called.(index := n))
            && Next(called.(index := n)) == Next(st.(buffer := rest, index := n))
  {
    hide Lex, WordToken, FindMacro, Define;
    WordLexed(name, rest);
    assert (name + rest)[|name|..] == rest && st.macros[m].tokens[0..] == st.macros[m].tokens;
    CallNext(st, name, m, rest);
    Replayed(st.(buffer := rest, current := m, index := 0), m, 0);
  }

  lemma CallNext(st: State, name: string, m: nat, rest: string)
    requires Plainly(st, name + rest) && IsWord(name) && Lex(st.buffer) == Lexed(Sym(name), |name|)
    requires FindMacro(st.macros, name) == m < |st.macros| && (name + rest)[|name|..] == rest
    ensures Next(st) == Next(st.(buffer := rest, current := m, index := 0))
  {
    hide Lex, FindMacro, Define;
    assert At(st.buffer, 0) == name[0];
  }
}
