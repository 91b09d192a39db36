/** Bytecodes written as assembly text. */
module Printing {
  import opened Words
  import opened Mnemonics
  import opened Tokens
  import opened Assembly

  function HexDigit(d: nat): (c: char)
    requires d < 16
    ensures In(c, HexChar) && DigitValue(c) == d
  {
    if d < 10 then '0' + d as char else 'A' + (d - 10) as char
  }

  /** Upper-case hexadecimal digits, filled up with zeros to a width. */
  function HexText(n: nat, width: nat): (s: string)
    ensures forall i :: 0 <= i < |s| ==> In(s[i], HexChar)
    decreases n + width
  {
    if n == 0 && width == 0 then ""
    else HexText(n / 16, if width > 0 then width - 1 else 0) + [HexDigit(n % 16)]
  }

  /** Decimal digits. */
  function DecimalText(n: nat): (s: string)
    ensures s != "" && forall i :: 0 <= i < |s| ==> IsDigit(s[i])
  {
    if n < 10 then [HexDigit(n)] else DecimalText(n / 10) + [HexDigit(n % 10)]
  }

  function CharsOf(bytes: seq<Byte>): (chars: string)
    ensures |chars| == |bytes|
  {
    seq(|bytes|, i requires 0 <= i < |bytes| => bytes[i] as char)
  }

  predicate HasOpcode(bc: Bytecode) {
    bc.Inst? || bc.InstHex? || bc.InstHex2? || bc.InstLabel? || bc.InstRelLabel? ==> IsInstruction(bc.op)
  }

  function Printed(bc: Bytecode): string
    requires HasOpcode(bc)
  {
    match bc
    case Inst(op) => MnemonicOf(op)
    case InstHex(op, num) => MnemonicOf(op) + " 0x" + HexText(num, 2)
    case InstHex2(op, num) => MnemonicOf(op) + " 0x" + HexText(num, 4)
    case InstLabel(op, name) => MnemonicOf(op) + " " + name
    case InstRelLabel(op, name) => MnemonicOf(op) + " $" + name
    case Hex(num) => "0x" + HexText(num, 2)
    case Hex2(num) => "0x" + HexText(num, 4)
    case Text(bytes) => "\"" + CharsOf(bytes) + "\""
    case SetLabel(name) => name + ":"
    case Global(name) => "GLOBAL " + name
    case Extern(name) => "EXTERN " + name
    case Align => "ALIGN"
    case Space(num) => "db " + DecimalText(num)
  }

  predicate Printable(prog: Program) {
    forall i :: 0 <= i < |prog| ==> HasOpcode(prog[i])
  }

  /** A program's bytecodes, each followed by its gap. */
  function Listing(prog: Program, gaps: seq<string>): string
    requires |gaps| == |prog| && Printable(prog)
  {
    if prog == [] then "" else Printed(prog[0]) + gaps[0] + Listing(prog[1..], gaps[1..])
  }
}
