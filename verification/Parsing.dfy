/** Bytecodes read off the token stream. */
module Parsing {
  import opened Words
  import opened Instructions
  import opened Mnemonics
  import opened Tokens
  import opened Tokenizing
  import opened Assembly

  /** A bytecode, the end of the text, or an error. */
  datatype Parsed = Taken(bc: Bytecode, st: State) | Ended(st: State) | Rejected(error: Error)

  datatype Operand = Num(num: Word) | Label(name: string) | NoOperand

  /** A character as a number: characters are signed bytes. */
  function CharNum(c: char): Word {
    var x := c as int % 0x100;
    if x < 0x80 then x else 0xFF00 + x
  }

  /** Two characters as a little-endian word: a negative low one fills the high byte. */
  function PairNum(low: char, high: char): Word {
    if CharNum(low) >= 0x80 then CharNum(low) else CharNum(low) + 0x100 * (high as int % 0x100)
  }

  function BytesIn(chars: string): (bytes: seq<Byte>)
    ensures |bytes| == |chars|
  {
    seq(|chars|, i requires 0 <= i < |chars| => chars[i] as int % 0x100)
  }

  /** The operand of an instruction, as its kind allows; mnemonics stand for their opcode where that is switched on. */
  function OperandOf(kind: ArgKind, t: Token, opsAllowed: bool): Operand {
    match kind
    case NoArgs => NoOperand
    case Bits8 =>
      if t.HexNum? || t.BinNum? then Num(t.num)
      else if t.Str? && |t.chars| == 1 then Num(CharNum(t.chars[0]))
      else if t.Op? && opsAllowed then Num(t.op)
      else NoOperand
    case Bits16 =>
      if t.Hex2Num? then Num(t.num)
      else if t.Sym? then Label(t.image)
      else if t.Str? && |t.chars| == 2 then Num(PairNum(t.chars[0], t.chars[1]))
      else NoOperand
    case LabelArg => if t.Sym? then Label(t.image) else NoOperand
    case RelLabelArg => if t.Sym? then Label(t.image) else NoOperand
  }

  /** PEEKAR and PUSHAR go by whole words. */
  predicate NeedsEven(op: Byte) {
    op == PEEKAR || op == PUSHAR
  }

  predicate Later(st: State, next: State)
    requires Valid(st) && Valid(next)
  {
    |next.buffer| < |st.buffer| || (next.buffer == st.buffer && Replaying(next) < Replaying(st))
  }

  function ParseInstruction(op: Opcode, st: State, opsAllowed: bool): (p: Parsed)
    requires Valid(st)
    ensures p.Taken? ==> Valid(p.st) && (p.st == st || Later(st, p.st))
    ensures !p.Ended?
  {
    var kind := ArgKindOf(op);
    if kind.NoArgs? then Taken(Inst(op), st)
    else if kind.RelLabelArg? then
      match Next(st)
      case Fail(e) => Rejected(e)
      case Got(Rel, st') => ParseOperand(op, st', opsAllowed)
      case Got(t, _) => Rejected(Unexpected(t))
    else ParseOperand(op, st, opsAllowed)
  }

  function ParseOperand(op: Opcode, st: State, opsAllowed: bool): (p: Parsed)
    requires Valid(st) && !ArgKindOf(op).NoArgs?
    ensures p.Taken? ==> Valid(p.st) && Later(st, p.st)
    ensures !p.Ended?
  {
    match Next(st)
    case Fail(e) => Rejected(e)
    case Got(t, st') =>
      match OperandOf(ArgKindOf(op), t, opsAllowed)
      case NoOperand => Rejected(Unexpected(t))
      case Label(name) =>
        Taken(if ArgKindOf(op).RelLabelArg? then InstRelLabel(op, name) else InstLabel(op, name), st')
      case Num(num) =>
        if NeedsEven(op) && num % 2 != 0 then Rejected(OddNumber)
        else Taken(if ArgKindOf(op).Bits8? then InstHex(op, num) else InstHex2(op, num), st')
  }

  function ParseBytecode(st: State, opsAllowed: bool): (p: Parsed)
    requires Valid(st)
    ensures p.Taken? ==> Valid(p.st) && Later(st, p.st)
  {
    match Next(st)
    case Fail(e) => Rejected(e)
    case Got(t, st') =>
      match t
      case End => Ended(st')
      case Op(op) => ParseInstruction(op, st', opsAllowed)
      case Sym(name) =>
        (match Next(st')
         case Fail(e) => Rejected(e)
         case Got(t', next) => if t'.Colon? then Taken(SetLabel(name), next) else Rejected(Unexpected(t')))
      case GlobalWord => ParseName(st', true)
      case ExternWord => ParseName(st', false)
      case AlignWord => Taken(Align, st')
      case DbWord =>
        (match Next(st')
         case Fail(e) => Rejected(e)
         case Got(t', next) => if t'.IntNum? then Taken(Space(t'.num), next) else Rejected(Unexpected(t')))
      case HexNum(num) => Taken(Hex(num), st')
      case BinNum(num) => Taken(Hex(num), st')
      case Hex2Num(num) => Taken(Hex2(num), st')
      case Str(chars) => Taken(Text(BytesIn(chars)), st')
      case _ => Rejected(Unexpected(t))
  }

  function ParseName(st: State, global: bool): (p: Parsed)
    requires Valid(st)
    ensures p.Taken? ==> Valid(p.st) && Later(st, p.st)
    ensures !p.Ended?
  {
    match Next(st)
    case Fail(e) => Rejected(e)
    case Got(t, next) =>
      if t.Sym? then Taken(if global then Global(t.image) else Extern(t.image), next) else Rejected(Unexpected(t))
  }

  /** A whole program, or its first error. */
  datatype Reading = Read(prog: Program) | Refused(error: Error)

  function ParseFrom(st: State, opsAllowed: bool): Reading
    requires Valid(st)
    decreases |st.buffer|, Replaying(st)
  {
    match ParseBytecode(st, opsAllowed)
    case Ended(_) => Read([])
    case Rejected(e) => Refused(e)
    case Taken(bc, st') =>
      match ParseFrom(st', opsAllowed)
      case Refused(e) => Refused(e)
      case Read(prog) => Read([bc] + prog)
  }

  function Parse(text: string, opsAllowed: bool): Reading {
    ParseFrom(Start(text), opsAllowed)
  }
}
