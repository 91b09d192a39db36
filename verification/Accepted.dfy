/** What the parser can return, from any text: macros, comments, numbers in any notation. */
module Accepted {
  import opened Words
  import opened Instructions
  import opened Mnemonics
  import opened Tokens
  import opened Tokenizing
  import opened Assembly
  import opened Parsing
  import opened Printing
  import opened PrintedTokens
  import opened RoundTrip
  import Division

  /** Characters are bytes. */
  predicate ByteText(s: string) {
    forall i :: 0 <= i < |s| ==> s[i] as int < 0x100
  }

  /** What the tokenizer guarantees of a token. */
  predicate Sound(t: Token) {
    match t
    case Sym(image) => IsName(image)
    case HexNum(num) => num <= 0xFF
    case BinNum(num) => num <= 0xFF
    case IntNum(num) => num < 0xFFFF
    case Str(chars) => AllIn(chars, StringChar) && ByteText(chars)
    case _ => true
  }

  predicate SoundMacros(macros: seq<Macro>) {
    forall i, j :: 0 <= i < |macros| && 0 <= j < |macros[i].tokens| ==> Sound(macros[i].tokens[j])
  }

  predicate SoundState(st: State) {
    ByteText(st.buffer) && SoundMacros(st.macros)
  }

  // ---------- tokens ----------

  lemma ValueBound(s: string, base: nat)
    requires base == 16 || base == 2
    requires AllIn(s, if base == 16 then HexChar else BinChar)
    ensures |s| == 2 && base == 16 ==> ValueOf(s, base) < 0x100
    ensures |s| == 8 && base == 2 ==> ValueOf(s, base) < 0x100
  {
    if |s| == 2 && base == 16 {
      assert ValueOf(s[..1], 16) == DigitValue(s[..1][0]) by { assert s[..1][..0] == ""; assert ValueOf("", 16) == 0; }
    } else if |s| == 8 && base == 2 {
      BinBound(s);
      assert Division.Pow2(8) == 0x100;
    }
  }

  lemma {:induction false} BinBound(s: string)
    requires AllIn(s, BinChar)
    ensures ValueOf(s, 2) < Division.Pow2(|s|)
  {
    if s != "" { BinBound(s[..|s| - 1]); }
  }

  lemma LexSound(b: string)
    requires ByteText(b)
    ensures Lex(b).Lexed? ==> Sound(Lex(b).token)
  {
    hide ValueOf, WordToken, IsName;
    var c, d := At(b, 0), At(b, 1);
    if c == '"' {
      var end := Span(b, 1, StringChar);
      if end + 1 <= |b| { SpanClass(b, 1, StringChar); }
    } else if (c == '-' || c == '0') && (d == 'x' || d == 'X') {
      SpanClass(b, 2, HexChar);
      ValueBound(b[2..Span(b, 2, HexChar)], 16);
    } else if (c == '-' || c == '0') && (d == 'b' || d == 'B') {
      SpanClass(b, 2, BinChar);
      ValueBound(b[2..Span(b, 2, BinChar)], 2);
    } else if IsAlpha(c) || c == '_' {
      SpanClass(b, 1, WordChar);
      var image := b[..Span(b, 1, WordChar)];
      assert IsWord(image);
      WordKind(image);
    }
  }

  lemma SpanClass(b: string, i: nat, k: CharClass)
    requires i <= |b|
    ensures Span(b, i, k) <= |b| && AllIn(b[i..Span(b, i, k)], k)
  {
    forall x | i <= x < Span(b, i, k) ensures In(b[x], k) {
      assert At(b, x) == b[x];
    }
  }

  lemma WordKind(image: string)
    requires IsWord(image)
    ensures Sound(WordToken(image))
  {
    hide IsWord, OpcodeOf;
  }

  lemma {:induction false} NextSound(st: State)
    requires Valid(st) && SoundState(st)
    ensures Next(st).Got? ==> Sound(Next(st).token) && SoundState(Next(st).st)
    decreases |st.buffer|, if st.current >= 0 then 1 else 0
  {
    hide Lex, Sound;
    var b := st.buffer;
    if st.current >= 0 {
      if st.index >= |st.macros[st.current].tokens| { NextSound(st.(current := -1)); }
    } else if IsBlank(At(b, 0)) {
      NextSound(st.(buffer := b[1..]));
    } else if At(b, 0) == '-' && At(b, 1) == '-' {
      NextSound(st.(buffer := b[Span(b, 1, CommentChar)..]));
    } else if At(b, 0) == '{' {
      DefineSound(st.(buffer := b[1..]));
    } else if Lex(b).Lexed? {
      LexSound(b);
      var t, after := Lex(b).token, st.(buffer := b[Lex(b).len..]);
      if t.Sym? && FindMacro(st.macros, t.image) < |st.macros| {
        NextSound(after.(current := FindMacro(st.macros, t.image), index := 0));
      }
    }
  }

  lemma {:induction false} DefineSound(st: State)
    requires Valid(st) && SoundState(st)
    ensures Define(st).Got? ==> Sound(Define(st).token) && SoundState(Define(st).st)
    decreases |st.buffer|, 2 + MACRO_TOKENS_MAX
  {
    hide Next, Collect, Sound;
    NextSound(st);
    var o := Next(st);
    if o.Got? && o.token.Sym? && |o.st.macros| + 1 < MACROS_MAX {
      CollectSound(o.st.(macros := o.st.macros + [Macro(o.token.image, [])]), |o.st.macros|);
    }
  }

  lemma {:induction false} CollectSound(st: State, m: nat)
    requires Valid(st) && m < |st.macros| && |st.macros[m].tokens| < MACRO_TOKENS_MAX && SoundState(st)
    ensures Collect(st, m).Got? ==> Sound(Collect(st, m).token) && SoundState(Collect(st, m).st)
    decreases |st.buffer|, 1 + MACRO_TOKENS_MAX - |st.macros[m].tokens|
  {
    hide Next, Sound;
    NextSound(st);
    var o := Next(st);
    if o.Got? {
      if o.token.CloseMacro? {
        NextSound(o.st);
      } else if |o.st.macros[m].tokens| + 1 < MACRO_TOKENS_MAX {
        CollectSound(o.st.(macros := o.st.macros[m := Macro(o.st.macros[m].name, o.st.macros[m].tokens + [o.token])]), m);
      }
    }
  }

  // ---------- bytecodes ----------

  lemma OperandSound(op: Opcode, t: Token, opsAllowed: bool)
    requires Sound(t)
    ensures match OperandOf(ArgKindOf(op), t, opsAllowed)
            case Num(num) => ArgKindOf(op).Bits8? ==> num <= 0xFF || num >= 0xFF80
            case Label(name) => IsName(name) && !ArgKindOf(op).Bits8? && !ArgKindOf(op).NoArgs?
            case NoOperand => true
  {
    hide IsName, ArgKindOf;
  }

  lemma ParseOperandSound(op: Opcode, st: State, opsAllowed: bool)
    requires Valid(st) && SoundState(st) && !ArgKindOf(op).NoArgs?
    ensures var p := ParseOperand(op, st, opsAllowed); p.Taken? ==> WellFormed(p.bc) && SoundState(p.st)
  {
    hide Next, Sound, SoundState, IsName, ArgKindOf;
    NextSound(st);
    if Next(st).Got? { OperandSound(op, Next(st).token, opsAllowed); }
  }

  lemma QuotableBytes(chars: string)
    requires AllIn(chars, StringChar) && ByteText(chars)
    ensures IsQuotable(BytesIn(chars))
  {
    forall i | 0 <= i < |chars| ensures BytesIn(chars)[i] != 0 && BytesIn(chars)[i] != 0x22 {
      assert In(chars[i], StringChar);
    }
  }

  lemma ParseBytecodeSound(st: State, opsAllowed: bool)
    requires Valid(st) && SoundState(st)
    ensures var p := ParseBytecode(st, opsAllowed); p.Taken? ==> WellFormed(p.bc) && SoundState(p.st)
  {
    hide Next, SoundState, IsName, ParseOperand, ArgKindOf, BytesIn, IsQuotable, AllIn, ByteText;
    NextSound(st);
    if Next(st).Got? {
      var t, st' := Next(st).token, Next(st).st;
      NextSound(st');
      if t.Op? {
        if ArgKindOf(t.op).RelLabelArg? {
          if Next(st').Got? { ParseOperandSound(t.op, Next(st').st, opsAllowed); }
        } else if !ArgKindOf(t.op).NoArgs? {
          ParseOperandSound(t.op, st', opsAllowed);
        }
      } else if t.Str? {
        QuotableBytes(t.chars);
      }
    }
  }

  lemma {:induction false} ParseSound(st: State, opsAllowed: bool)
    requires Valid(st) && SoundState(st)
    ensures ParseFrom(st, opsAllowed).Read? ==> AllWellFormed(ParseFrom(st, opsAllowed).prog)
    decreases |st.buffer|, Replaying(st)
  {
    hide ParseBytecode, WellFormed;
    ParseBytecodeSound(st, opsAllowed);
    var p := ParseBytecode(st, opsAllowed);
    if p.Taken? { ParseSound(p.st, opsAllowed); }
  }

  // ---------- the round trip ----------

  /**
   * Whatever was written in a source text, printing what the parser made of it and parsing again gives the same
   * program, for any gaps between the bytecodes, exactly when every 8-bit argument fits two digits.
   */
  lemma ReprintedReadsBack(text: string, lead: string, gaps: seq<string>, opsAllowed: bool, opsAllowed': bool)
    requires ByteText(text) && Parse(text, opsAllowed).Read? && AllBlank(lead) && AllGaps(gaps)
    requires |gaps| == |Parse(text, opsAllowed).prog|
    ensures Printable(Parse(text, opsAllowed).prog)
    ensures var prog := Parse(text, opsAllowed).prog;
            Parse(lead + Listing(prog, gaps), opsAllowed') == Read(prog) <==> AllFit(prog)
  {
    hide ParseFrom, Fits, IsGap, Listing;
    ParseSound(Start(text), opsAllowed);
    var prog := Parse(text, opsAllowed).prog;
    ListingRead(prog, gaps, opsAllowed');
    GapRead(lead, Listing(prog, gaps), opsAllowed');
  }

  /** Names are made of bytes. */
  predicate ByteNames(prog: Program) {
    forall i :: 0 <= i < |prog| && Named(prog[i]) ==> ByteText(prog[i].name)
  }

  lemma PrintedBytes(bc: Bytecode)
    requires HasOpcode(bc) && (Named(bc) ==> ByteText(bc.name))
    ensures ByteText(Printed(bc))
  {
    hide HexText, DecimalText, MnemonicOf;
    if bc.Inst? || bc.InstHex? || bc.InstHex2? || bc.InstLabel? || bc.InstRelLabel? { MnemonicIsWord(bc.op); }
  }

  lemma {:induction false} ListingBytes(prog: Program, gaps: seq<string>)
    requires Printable(prog) && ByteNames(prog) && AllGaps(gaps) && |gaps| == |prog|
    ensures ByteText(Listing(prog, gaps))
  {
    hide Printed;
    if prog != [] {
      PrintedBytes(prog[0]);
      ListingBytes(prog[1..], gaps[1..]);
    }
  }

  /** Printing and parsing give back a program exactly when it is well-formed and its 8-bit arguments fit. */
  lemma ReadBackIff(prog: Program, lead: string, gaps: seq<string>, opsAllowed: bool)
    requires Printable(prog) && ByteNames(prog) && AllBlank(lead) && AllGaps(gaps) && |gaps| == |prog|
    ensures Parse(lead + Listing(prog, gaps), opsAllowed) == Read(prog) <==> AllWellFormed(prog) && AllFit(prog)
  {
    hide ParseFrom, Fits, IsGap, Listing, WellFormed;
    var text := Listing(prog, gaps);
    GapRead(lead, text, opsAllowed);
    ListingBytes(prog, gaps);
    ParseSound(Start(text), opsAllowed);
    if AllWellFormed(prog) { ListingRead(prog, gaps, opsAllowed); }
  }

  /** A character of 128 or more is a negative argument, which is printed as a word and then refused. */
  lemma NegativeCharacterIsLost()
    ensures Parse("RAM_AL \"\U{E9}\" ", false) == Read([InstHex(RAM_AL, 0xFFE9)])
    ensures Parse(Listing([InstHex(RAM_AL, 0xFFE9)], [" "]), false).Refused?
  {
    hide ParseFrom, Listing;
    NegativeCharacter();
    var prog := [InstHex(RAM_AL, 0xFFE9)];
    assert !Fits(prog[0]) && IsGap([" "][0]);
    ListingRead(prog, [" "], false);
  }

  lemma NegativeCharacter()
    ensures Parse("RAM_AL \"\U{E9}\" ", false) == Read([InstHex(RAM_AL, 0xFFE9)])
  {
    hide Next, MnemonicOf;
    var operand := "\"" + "\U{E9}" + "\"" + " ";
    assert MnemonicOf(RAM_AL) == "RAM_AL" by { RamAlName(); }
    assert "RAM_AL \"\U{E9}\" " == "RAM_AL" + (" " + operand);
    NextOp(RAM_AL, " " + operand);
    Blank(operand);
    NextString("\U{E9}", " ");
    assert ParseBytecode(Start("RAM_AL \"\U{E9}\" "), false) == Taken(InstHex(RAM_AL, 0xFFE9), Start(" "));
    assert " " + "" == " ";
    GapRead(" ", "", false);
    NothingRead(false);
  }

  lemma RamAlName()
    ensures MnemonicOf(RAM_AL) == "RAM_AL"
  {
  }
}
