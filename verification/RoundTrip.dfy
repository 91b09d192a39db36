/** Printer and parser undo each other, on exactly what the parser can return. */
module RoundTrip {
  import opened Words
  import opened Instructions
  import opened Mnemonics
  import opened Tokens
  import opened Tokenizing
  import opened Assembly
  import opened Parsing
  import opened Printing
  import opened PrintedTokens

  /** A label: a word that is neither mnemonic nor keyword. */
  predicate IsName(s: string) {
    IsWord(s) && WordToken(s) == Sym(s)
  }

  predicate TakesLabel(op: Opcode) {
    ArgKindOf(op).Bits16? || ArgKindOf(op).LabelArg?
  }

  predicate IsQuotable(bytes: seq<Byte>) {
    forall i :: 0 <= i < |bytes| ==> bytes[i] != 0 && bytes[i] != 0x22
  }

  /** The arguments go with the instruction. An 8-bit argument may have come from a negative character. */
  predicate WellFormed(bc: Bytecode) {
    HasOpcode(bc) &&
    match bc
    case Inst(op) => ArgKindOf(op).NoArgs?
    case InstHex(op, num) =>
      ArgKindOf(op).Bits8? && (num <= 0xFF || num >= 0xFF80) && (NeedsEven(op) ==> num % 2 == 0)
    case InstHex2(op, num) => ArgKindOf(op).Bits16?
    case InstLabel(op, name) => TakesLabel(op) && IsName(name)
    case InstRelLabel(op, name) => ArgKindOf(op).RelLabelArg? && IsName(name)
    case Hex(num) => num <= 0xFF
    case Hex2(num) => true
    case Text(bytes) => IsQuotable(bytes)
    case SetLabel(name) => IsName(name)
    case Global(name) => IsName(name)
    case Extern(name) => IsName(name)
    case Align => true
    case Space(num) => num < 0xFFFF
  }

  /** Its argument is written with as many digits as are read. */
  predicate Fits(bc: Bytecode) {
    bc.InstHex? ==> bc.num <= 0xFF
  }

  predicate IsGap(gap: string) {
    gap != "" && AllBlank(gap)
  }

  // ---------- one bytecode ----------

  lemma Gap(rest: string)
    requires Gapped(rest)
    ensures !In(At(rest, 0), WordChar)
    ensures Next(Start(rest)) == Next(Start(rest[1..]))
  {
    SkipGap(rest[..1], rest[1..]);
    assert rest[..1] + rest[1..] == rest;
  }

  lemma NextOp(op: Opcode, rest: string)
    requires !In(At(rest, 0), WordChar)
    ensures Next(Start(MnemonicOf(op) + rest)) == Got(Op(op), Start(rest))
  {
    hide Next, MnemonicOf, OpcodeOf, IsWord;
    MnemonicIsWord(op);
    OpcodeOfMnemonic(op);
    NextWord(MnemonicOf(op), rest);
  }

  lemma NextName(name: string, rest: string)
    requires IsName(name) && !In(At(rest, 0), WordChar)
    ensures Next(Start(name + rest)) == Got(Sym(name), Start(rest))
  {
    hide Next, IsWord, WordToken;
    NextWord(name, rest);
  }

  /** The token of an operand behind a blank. */
  lemma NextHexText(num: Word, width: nat, rest: string)
    requires Gapped(rest) && |HexText(num, width)| in {2, 4}
    ensures Next(Start("0x" + HexText(num, width) + rest)) ==
            Got(if |HexText(num, width)| == 4 then Hex2Num(num) else HexNum(num), Start(rest))
  {
    hide Next, HexText, ValueOf;
    HexValue(num, width);
    NextHex(HexText(num, width), rest);
  }

  lemma Blank(b: string)
    ensures Next(Start(" " + b)) == Next(Start(b))
  {
    hide Next;
    SkipGap(" ", b);
  }

  lemma HexOperandRead(op: Opcode, num: Word, rest: string, opsAllowed: bool)
    requires WellFormed(InstHex(op, num)) && Gapped(rest)
    ensures ParseBytecode(Start(Printed(InstHex(op, num)) + rest), opsAllowed) ==
            if num <= 0xFF then Taken(InstHex(op, num), Start(rest)) else Rejected(Unexpected(Hex2Num(num)))
  {
    hide Next, MnemonicOf, HexText, ArgKindOf;
    var operand := "0x" + HexText(num, 2) + rest;
    assert Printed(InstHex(op, num)) + rest == MnemonicOf(op) + (" " + operand);
    NextOp(op, " " + operand);
    Blank(operand);
    HexLength(num);
    NextHexText(num, 2, rest);
  }

  lemma Hex2OperandRead(op: Opcode, num: Word, rest: string, opsAllowed: bool)
    requires WellFormed(InstHex2(op, num)) && Gapped(rest)
    ensures ParseBytecode(Start(Printed(InstHex2(op, num)) + rest), opsAllowed) == Taken(InstHex2(op, num), Start(rest))
  {
    hide Next, MnemonicOf, HexText;
    var operand := "0x" + HexText(num, 4) + rest;
    assert Printed(InstHex2(op, num)) + rest == MnemonicOf(op) + (" " + operand);
    NextOp(op, " " + operand);
    Blank(operand);
    HexLength(num);
    NextHexText(num, 4, rest);
  }

  lemma LabelOperandRead(op: Opcode, name: string, rest: string, opsAllowed: bool)
    requires WellFormed(InstLabel(op, name)) && Gapped(rest)
    ensures ParseBytecode(Start(Printed(InstLabel(op, name)) + rest), opsAllowed) == Taken(InstLabel(op, name), Start(rest))
  {
    hide Next, MnemonicOf, IsName, ArgKindOf;
    assert Printed(InstLabel(op, name)) + rest == MnemonicOf(op) + (" " + (name + rest));
    NextOp(op, " " + (name + rest));
    Blank(name + rest);
    Gap(rest);
    NextName(name, rest);
  }

  lemma RelLabelOperandRead(op: Opcode, name: string, rest: string, opsAllowed: bool)
    requires WellFormed(InstRelLabel(op, name)) && Gapped(rest)
    ensures ParseBytecode(Start(Printed(InstRelLabel(op, name)) + rest), opsAllowed) == Taken(InstRelLabel(op, name), Start(rest))
  {
    hide Next, MnemonicOf, IsName, ArgKindOf;
    assert Printed(InstRelLabel(op, name)) + rest == MnemonicOf(op) + (" " + ("$" + (name + rest)));
    NextOp(op, " " + ("$" + (name + rest)));
    Blank("$" + (name + rest));
    NextRel(name + rest);
    Gap(rest);
    NextName(name, rest);
  }

  lemma KeywordsAreWords()
    ensures IsWord("GLOBAL") && IsWord("EXTERN") && IsWord("ALIGN") && IsWord("db")
    ensures WordToken("GLOBAL") == GlobalWord && WordToken("EXTERN") == ExternWord
    ensures WordToken("ALIGN") == AlignWord && WordToken("db") == DbWord
  {
    hide OpcodeOf;
    GlobalIsNoMnemonic();
    ExternIsNoMnemonic();
    AlignIsNoMnemonic();
    DbIsNoMnemonic();
  }

  lemma GlobalIsNoMnemonic()
    ensures OpcodeOf("GLOBAL") == None
  {
    hide MnemonicOf;
  }

  lemma ExternIsNoMnemonic()
    ensures OpcodeOf("EXTERN") == None
  {
    hide MnemonicOf;
  }

  lemma AlignIsNoMnemonic()
    ensures OpcodeOf("ALIGN") == None
  {
    hide MnemonicOf;
  }

  lemma DbIsNoMnemonic()
    ensures OpcodeOf("db") == None
  {
    hide MnemonicOf;
  }

  lemma DeclarationRead(bc: Bytecode, rest: string, opsAllowed: bool)
    requires WellFormed(bc) && Gapped(rest) && (bc.Global? || bc.Extern?)
    ensures ParseBytecode(Start(Printed(bc) + rest), opsAllowed) == Taken(bc, Start(rest))
  {
    hide Next, IsName, IsWord, WordToken;
    KeywordsAreWords();
    var word := if bc.Global? then "GLOBAL" else "EXTERN";
    assert Printed(bc) + rest == word + (" " + (bc.name + rest));
    NextWord(word, " " + (bc.name + rest));
    Blank(bc.name + rest);
    Gap(rest);
    NextName(bc.name, rest);
  }

  lemma LabelRead(name: string, rest: string, opsAllowed: bool)
    requires IsName(name)
    ensures ParseBytecode(Start(Printed(SetLabel(name)) + rest), opsAllowed) == Taken(SetLabel(name), Start(rest))
  {
    hide Next, IsName;
    assert Printed(SetLabel(name)) + rest == name + (":" + rest);
    NextName(name, ":" + rest);
    NextColon(rest);
  }

  lemma SpaceRead(num: Word, rest: string, opsAllowed: bool)
    requires num < 0xFFFF && Gapped(rest)
    ensures ParseBytecode(Start(Printed(Space(num)) + rest), opsAllowed) == Taken(Space(num), Start(rest))
  {
    hide Next, IsWord, WordToken, DecimalText, ValueOf;
    KeywordsAreWords();
    assert Printed(Space(num)) + rest == "db" + (" " + (DecimalText(num) + rest));
    NextWord("db", " " + (DecimalText(num) + rest));
    Blank(DecimalText(num) + rest);
    DecimalValue(num);
    NextInt(DecimalText(num), rest);
  }

  lemma BytesOfChars(bytes: seq<Byte>)
    ensures BytesIn(CharsOf(bytes)) == bytes
  {
  }

  lemma TextRead(bytes: seq<Byte>, rest: string, opsAllowed: bool)
    requires IsQuotable(bytes) && Gapped(rest)
    ensures ParseBytecode(Start(Printed(Text(bytes)) + rest), opsAllowed) == Taken(Text(bytes), Start(rest))
  {
    hide Next, BytesIn;
    NextString(CharsOf(bytes), rest);
    BytesOfChars(bytes);
  }

  lemma PlainRead(bc: Bytecode, rest: string, opsAllowed: bool)
    requires WellFormed(bc) && Gapped(rest) && (bc.Inst? || bc.Align? || bc.Hex? || bc.Hex2?)
    ensures ParseBytecode(Start(Printed(bc) + rest), opsAllowed) == Taken(bc, Start(rest))
  {
    hide Next, MnemonicOf, HexText, IsWord, WordToken, ArgKindOf;
    Gap(rest);
    match bc {
      case Inst(op) => NextOp(op, rest);
      case Align =>
        KeywordsAreWords();
        NextWord("ALIGN", rest);
      case Hex(num) =>
        HexLength(num);
        NextHexText(num, 2, rest);
      case Hex2(num) =>
        HexLength(num);
        NextHexText(num, 4, rest);
    }
  }

  /** A printed bytecode is read back, unless its argument does not fit. */
  lemma BytecodeRead(bc: Bytecode, rest: string, opsAllowed: bool)
    requires WellFormed(bc) && Gapped(rest)
    ensures ParseBytecode(Start(Printed(bc) + rest), opsAllowed) ==
            if Fits(bc) then Taken(bc, Start(rest)) else Rejected(Unexpected(Hex2Num(bc.num)))
  {
    hide ParseBytecode, Printed, IsQuotable, IsName, ArgKindOf;
    match bc {
      case InstHex(op, num) => HexOperandRead(op, num, rest, opsAllowed);
      case InstHex2(op, num) => Hex2OperandRead(op, num, rest, opsAllowed);
      case InstLabel(op, name) => LabelOperandRead(op, name, rest, opsAllowed);
      case InstRelLabel(op, name) => RelLabelOperandRead(op, name, rest, opsAllowed);
      case Text(bytes) => TextRead(bytes, rest, opsAllowed);
      case SetLabel(name) => LabelRead(name, rest, opsAllowed);
      case Global(_) => DeclarationRead(bc, rest, opsAllowed);
      case Extern(_) => DeclarationRead(bc, rest, opsAllowed);
      case Space(num) => SpaceRead(num, rest, opsAllowed);
      case _ => PlainRead(bc, rest, opsAllowed);
    }
  }

  /** Text that a bytecode is parsed back from, whatever follows behind a gap. */
  ghost predicate StandsFor(text: string, bc: Bytecode) {
    forall rest, opsAllowed | Gapped(rest) :: ParseBytecode(Start(text + rest), opsAllowed) == Taken(bc, Start(rest))
  }

  lemma PrintedStandsFor(bc: Bytecode)
    requires HasOpcode(bc) && WellFormed(bc) && Fits(bc)
    ensures StandsFor(Printed(bc), bc)
  {
    hide ParseBytecode, Printed, WellFormed, Gapped;
    forall rest, opsAllowed | Gapped(rest)
      ensures ParseBytecode(Start(Printed(bc) + rest), opsAllowed) == Taken(bc, Start(rest))
    {
      BytecodeRead(bc, rest, opsAllowed);
    }
  }

  /** A text stream. */
  class Stream {
    var text: string

    /** Appends a bytecode: the text added is parsed back to it, if any text is. */
    method BytecodeToAsm(bc: Bytecode)
      requires HasOpcode(bc)
      modifies this
      ensures text == old(text) + Printed(bc)
      ensures WellFormed(bc) && Fits(bc) ==> StandsFor(text[|old(text)|..], bc)
    {
      hide Printed, StandsFor, WellFormed, Fits;
      Append(bc);
      assert text[|old(text)|..] == Printed(bc);
      if WellFormed(bc) && Fits(bc) { PrintedStandsFor(bc); }
    }

    method Append(bc: Bytecode)
      requires HasOpcode(bc)
      modifies this
      ensures text == old(text) + Printed(bc)
    {
      hide HexText, DecimalText, MnemonicOf, CharsOf;
      match bc {
        case Inst(op) => text := text + MnemonicOf(op);
        case InstHex(op, num) => text := text + MnemonicOf(op) + " 0x" + HexText(num, 2);
        case InstHex2(op, num) => text := text + MnemonicOf(op) + " 0x" + HexText(num, 4);
        case InstLabel(op, name) => text := text + MnemonicOf(op) + " " + name;
        case InstRelLabel(op, name) => text := text + MnemonicOf(op) + " $" + name;
        case Hex(num) => text := text + "0x" + HexText(num, 2);
        case Hex2(num) => text := text + "0x" + HexText(num, 4);
        case Text(bytes) => text := text + "\"" + CharsOf(bytes) + "\"";
        case SetLabel(name) => text := text + name + ":";
        case Global(name) => text := text + "GLOBAL " + name;
        case Extern(name) => text := text + "EXTERN " + name;
        case Align => text := text + "ALIGN";
        case Space(num) => text := text + "db " + DecimalText(num);
      }
    }
  }

  // ---------- a listing ----------

  lemma GapRead(gap: string, b: string, opsAllowed: bool)
    requires AllBlank(gap)
    ensures ParseFrom(Start(gap + b), opsAllowed) == ParseFrom(Start(b), opsAllowed)
  {
    hide Next;
    SkipGap(gap, b);
  }

  predicate AllWellFormed(prog: Program) {
    forall i :: 0 <= i < |prog| ==> WellFormed(prog[i])
  }

  predicate AllFit(prog: Program) {
    forall i :: 0 <= i < |prog| ==> Fits(prog[i])
  }

  predicate AllGaps(gaps: seq<string>) {
    forall i :: 0 <= i < |gaps| ==> IsGap(gaps[i])
  }

  /** Reading a listing gives its program exactly when every argument fits. */
  lemma {:induction false} ListingRead(prog: Program, gaps: seq<string>, opsAllowed: bool)
    requires Printable(prog) && AllWellFormed(prog) && AllGaps(gaps) && |gaps| == |prog|
    ensures Parse(Listing(prog, gaps), opsAllowed) == Read(prog) <==> AllFit(prog)
    ensures AllFit(prog) || Parse(Listing(prog, gaps), opsAllowed).Refused?
  {
    hide ParseBytecode, Printed, WellFormed, Fits, AllFit;
    if prog == [] {
      NothingRead(opsAllowed);
    } else {
      var after := Listing(prog[1..], gaps[1..]);
      FitParts(prog);
      assert Listing(prog, gaps) == Printed(prog[0]) + (gaps[0] + after);
      BytecodeRead(prog[0], gaps[0] + after, opsAllowed);
      GapRead(gaps[0], after, opsAllowed);
      ListingRead(prog[1..], gaps[1..], opsAllowed);
    }
  }

  lemma NothingRead(opsAllowed: bool)
    ensures Parse("", opsAllowed) == Read([]) && AllFit([])
  {
  }

  lemma FitParts(prog: Program)
    requires prog != []
    ensures AllFit(prog) <==> Fits(prog[0]) && AllFit(prog[1..])
  {
    hide Fits;
    if Fits(prog[0]) && AllFit(prog[1..]) {
      forall i | 0 <= i < |prog| ensures Fits(prog[i]) {
        if i > 0 { assert Fits(prog[1..][i - 1]); }
      }
    } else if AllFit(prog) {
      forall i | 0 <= i < |prog| - 1 ensures Fits(prog[1..][i]) {
        assert prog[1..][i] == prog[i + 1];
      }
    }
  }
}
