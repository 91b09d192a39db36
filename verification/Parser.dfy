/** The parser, drawing tokens as it needs them. */
module Parser {
  import opened Mnemonics
  import opened Tokens
  import opened Tokenizing
  import opened Tokenizer
  import opened Assembly
  import opened Parsing

  datatype Answer = Found(bc: Bytecode) | NoMore | Wrong(error: Error)

  /** The answer and the tokenizer's state are what parsing says. */
  predicate Answers(p: Parsed, a: Answer, st: State) {
    match p
    case Taken(bc, st') => a == Found(bc) && st == st'
    case Ended(st') => a == NoMore && st == st'
    case Rejected(e) => a == Wrong(e)
  }

  /** The name behind a keyword. */
  method NameOf(tok: Tokenizer, global: bool) returns (a: Answer)
    requires Valid(tok.Now())
    modifies tok
    ensures Answers(ParseName(old(tok.Now()), global), a, tok.Now())
  {
    hide Next;
    var r := tok.TokenNext();
    if r.Failed? {
      return Wrong(r.error);
    }
    if !r.token.Sym? {
      return Wrong(Unexpected(r.token));
    }
    return Found(if global then Global(r.token.image) else Extern(r.token.image));
  }

  method InstructionOf(tok: Tokenizer, op: Opcode, opsAllowed: bool) returns (a: Answer)
    requires Valid(tok.Now())
    modifies tok
    ensures Answers(ParseInstruction(op, old(tok.Now()), opsAllowed), a, tok.Now())
  {
    hide Next, ArgKindOf, OperandOf;
    var kind := ArgKindOf(op);
    if kind.NoArgs? {
      return Found(Inst(op));
    }
    var r := tok.TokenNext();
    if r.Failed? {
      return Wrong(r.error);
    }
    if kind.RelLabelArg? {
      if !r.token.Rel? {
        return Wrong(Unexpected(r.token));
      }
      r := tok.TokenNext();
      if r.Failed? {
        return Wrong(r.error);
      }
    }
    match OperandOf(kind, r.token, opsAllowed) {
      case NoOperand =>
        return Wrong(Unexpected(r.token));
      case Label(name) =>
        return Found(if kind.RelLabelArg? then InstRelLabel(op, name) else InstLabel(op, name));
      case Num(num) =>
        if NeedsEven(op) && num % 2 != 0 {
          return Wrong(OddNumber);
        }
        return Found(if kind.Bits8? then InstHex(op, num) else InstHex2(op, num));
    }
  }

  method BytecodeOf(tok: Tokenizer, opsAllowed: bool) returns (a: Answer)
    requires Valid(tok.Now())
    modifies tok
    ensures Answers(ParseBytecode(old(tok.Now()), opsAllowed), a, tok.Now())
  {
    hide Next, ParseInstruction, ParseName;
    var r := tok.TokenNext();
    if r.Failed? {
      return Wrong(r.error);
    }
    match r.token {
      case End => return NoMore;
      case Op(op) => a := InstructionOf(tok, op, opsAllowed);
      case Sym(name) =>
        r := tok.TokenNext();
        if r.Failed? {
          return Wrong(r.error);
        }
        return if r.token.Colon? then Found(SetLabel(name)) else Wrong(Unexpected(r.token));
      case GlobalWord => a := NameOf(tok, true);
      case ExternWord => a := NameOf(tok, false);
      case AlignWord => return Found(Align);
      case DbWord =>
        r := tok.TokenNext();
        if r.Failed? {
          return Wrong(r.error);
        }
        return if r.token.IntNum? then Found(Space(r.token.num)) else Wrong(Unexpected(r.token));
      case HexNum(num) => return Found(Hex(num));
      case BinNum(num) => return Found(Hex(num));
      case Hex2Num(num) => return Found(Hex2(num));
      case Str(chars) => return Found(Text(BytesIn(chars)));
      case _ => return Wrong(Unexpected(r.token));
    }
  }

  /** All bytecodes of a text. */
  method ReadProgram(text: string, opsAllowed: bool) returns (r: Reading)
    ensures r == Parse(text, opsAllowed)
  {
    hide ParseBytecode;
    var tok := new Tokenizer(text);
    var prog := [];
    while true
      invariant Valid(tok.Now())
      invariant Parse(text, opsAllowed) == Continued(prog, ParseFrom(tok.Now(), opsAllowed))
      decreases |tok.buffer|, Replaying(tok.Now())
    {
      ghost var st := tok.Now();
      var a := BytecodeOf(tok, opsAllowed);
      match a {
        case Wrong(e) => return Refused(e);
        case NoMore => return Read(prog);
        case Found(bc) =>
          ghost var rest := ParseFrom(tok.Now(), opsAllowed);
          assert rest.Read? ==> prog + ([bc] + rest.prog) == (prog + [bc]) + rest.prog;
          prog := prog + [bc];
      }
    }
  }

  function Continued(prog: Program, rest: Reading): Reading {
    if rest.Read? then Read(prog + rest.prog) else rest
  }
}
