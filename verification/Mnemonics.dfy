/** Mnemonics and argument kinds of instructions: two tables of names that undo each other. */
module Mnemonics {
  import opened Words
  import opened Instructions

  datatype Option<T> = None | Some(value: T)

  datatype ArgKind = NoArgs | Bits8 | Bits16 | LabelArg | RelLabelArg

  predicate IsInstruction(op: Byte) {
    op <= RAM_DRW || op == HLT
  }

  type Opcode = op: Byte | IsInstruction(op)

  /** How the argument of an instruction is written. */
  function ArgKindOf(op: Opcode): ArgKind
  {
    if op in {RAM_AL, RAM_BL, PEEKAR, PUSHAR, RAM_NDX, RAM_DRW} then Bits8
    else if op in {RAM_A, RAM_B} then Bits16
    else if op in {JMP, CALL} then LabelArg
    else if op in {JMPR, JMPRZ, JMPRN, JMPRC, JMPRNZ, JMPRNN, JMPRNC, CALLR} then RelLabelArg
    else NoArgs
  }

  /** The name of an opcode. */
  function MnemonicOf(op: Opcode): string
  {
    if op < 15 then FirstMnemonic(op)
    else if op < 30 then SecondMnemonic(op)
    else if op < 45 then ThirdMnemonic(op)
    else LastMnemonic(op)
  }

  function FirstMnemonic(op: Byte): string
    requires op < 15
  {
    match op
    case 0 => "NOP"
    case 1 => "INCA"
    case 2 => "DECA"
    case 3 => "INCB"
    case 4 => "RAM_AL"
    case 5 => "RAM_BL"
    case 6 => "RAM_A"
    case 7 => "RAM_B"
    case 8 => "INCSP"
    case 9 => "DECSP"
    case 10 => "PUSHA"
    case 11 => "POPA"
    case 12 => "PEEKA"
    case 13 => "PEEKAR"
    case _ => "PUSHAR"
  }

  function SecondMnemonic(op: Byte): string
    requires 15 <= op < 30
  {
    match op
    case 15 => "PUSHB"
    case 16 => "POPB"
    case 17 => "PEEKB"
    case 18 => "SUM"
    case 19 => "SUB"
    case 20 => "SHR"
    case 21 => "SHL"
    case 22 => "AND"
    case 23 => "CMPA"
    case 24 => "CMPB"
    case 25 => "JMP"
    case 26 => "JMPR"
    case 27 => "JMPRZ"
    case 28 => "JMPRN"
    case _ => "JMPRC"
  }

  function ThirdMnemonic(op: Byte): string
    requires 30 <= op < 45
  {
    match op
    case 30 => "JMPRNZ"
    case 31 => "JMPRNN"
    case 32 => "JMPRNC"
    case 33 => "JMPA"
    case 34 => "JMPAR"
    case 35 => "A_B"
    case 36 => "B_A"
    case 37 => "B_AH"
    case 38 => "AL_rB"
    case 39 => "A_rB"
    case 40 => "rB_AL"
    case 41 => "rB_A"
    case 42 => "A_SP"
    case 43 => "SP_A"
    case _ => "A_SEC"
  }

  function LastMnemonic(op: Byte): string
    requires 45 <= op && IsInstruction(op)
  {
    match op
    case 45 => "SEC_A"
    case 46 => "RAM_NDX"
    case 47 => "INCNDX"
    case 48 => "NDX_A"
    case 49 => "A_NDX"
    case 50 => "MEM_A"
    case 51 => "MEM_AH"
    case 52 => "A_MEM"
    case 53 => "CALL"
    case 54 => "CALLR"
    case 55 => "RET"
    case 56 => "KEY_A"
    case 57 => "DRW"
    case 58 => "RAM_DRW"
    case _ => "HLT"
  }

  /** The opcode of a name, which is compared with every mnemonic in turn. */
  function OpcodeOf(name: string): (r: Option<Opcode>)
    ensures r.Some? ==> MnemonicOf(r.value) == name
  {
    var first, second, third := FirstOpcodes(name), SecondOpcodes(name), ThirdOpcodes(name);
    if first.Some? then first else if second.Some? then second else if third.Some? then third else LastOpcodes(name)
  }

  function FirstOpcodes(name: string): (r: Option<Opcode>)
    ensures r.Some? ==> MnemonicOf(r.value) == name
  {
    if name == "NOP" then Some(NOP)
    else if name == "INCA" then Some(INCA)
    else if name == "DECA" then Some(DECA)
    else if name == "INCB" then Some(INCB)
    else if name == "RAM_AL" then Some(RAM_AL)
    else if name == "RAM_BL" then Some(RAM_BL)
    else if name == "RAM_A" then Some(RAM_A)
    else if name == "RAM_B" then Some(RAM_B)
    else if name == "INCSP" then Some(INCSP)
    else if name == "DECSP" then Some(DECSP)
    else if name == "PUSHA" then Some(PUSHA)
    else if name == "POPA" then Some(POPA)
    else if name == "PEEKA" then Some(PEEKA)
    else if name == "PEEKAR" then Some(PEEKAR)
    else if name == "PUSHAR" then Some(PUSHAR)
    else None
  }

  function SecondOpcodes(name: string): (r: Option<Opcode>)
    ensures r.Some? ==> MnemonicOf(r.value) == name
  {
    if name == "PUSHB" then Some(PUSHB)
    else if name == "POPB" then Some(POPB)
    else if name == "PEEKB" then Some(PEEKB)
    else if name == "SUM" then Some(SUM)
    else if name == "SUB" then Some(SUB)
    else if name == "SHR" then Some(SHR)
    else if name == "SHL" then Some(SHL)
    else if name == "AND" then Some(AND)
    else if name == "CMPA" then Some(CMPA)
    else if name == "CMPB" then Some(CMPB)
    else if name == "JMP" then Some(JMP)
    else if name == "JMPR" then Some(JMPR)
    else if name == "JMPRZ" then Some(JMPRZ)
    else if name == "JMPRN" then Some(JMPRN)
    else if name == "JMPRC" then Some(JMPRC)
    else None
  }

  function ThirdOpcodes(name: string): (r: Option<Opcode>)
    ensures r.Some? ==> MnemonicOf(r.value) == name
  {
    if name == "JMPRNZ" then Some(JMPRNZ)
    else if name == "JMPRNN" then Some(JMPRNN)
    else if name == "JMPRNC" then Some(JMPRNC)
    else if name == "JMPA" then Some(JMPA)
    else if name == "JMPAR" then Some(JMPAR)
    else if name == "A_B" then Some(A_B)
    else if name == "B_A" then Some(B_A)
    else if name == "B_AH" then Some(B_AH)
    else if name == "AL_rB" then Some(AL_rB)
    else if name == "A_rB" then Some(A_rB)
    else if name == "rB_AL" then Some(rB_AL)
    else if name == "rB_A" then Some(rB_A)
    else if name == "A_SP" then Some(A_SP)
    else if name == "SP_A" then Some(SP_A)
    else if name == "A_SEC" then Some(A_SEC)
    else None
  }

  function LastOpcodes(name: string): (r: Option<Opcode>)
    ensures r.Some? ==> MnemonicOf(r.value) == name
  {
    if name == "SEC_A" then Some(SEC_A)
    else if name == "RAM_NDX" then Some(RAM_NDX)
    else if name == "INCNDX" then Some(INCNDX)
    else if name == "NDX_A" then Some(NDX_A)
    else if name == "A_NDX" then Some(A_NDX)
    else if name == "MEM_A" then Some(MEM_A)
    else if name == "MEM_AH" then Some(MEM_AH)
    else if name == "A_MEM" then Some(A_MEM)
    else if name == "CALL" then Some(CALL)
    else if name == "CALLR" then Some(CALLR)
    else if name == "RET" then Some(RET)
    else if name == "KEY_A" then Some(KEY_A)
    else if name == "DRW" then Some(DRW)
    else if name == "RAM_DRW" then Some(RAM_DRW)
    else if name == "HLT" then Some(HLT)
    else None
  }

  /** Every mnemonic is found again: the two tables are inverse to each other. */
  lemma OpcodeOfMnemonic(op: Opcode)
    ensures OpcodeOf(MnemonicOf(op)) == Some(op)
  {
    hide FirstOpcodes, SecondOpcodes, ThirdOpcodes, LastOpcodes, FirstMnemonic, SecondMnemonic, ThirdMnemonic, LastMnemonic;
    if op < 15 {
      IsFirst(op);
    } else if op < 30 {
      SecondAfterFirst(op);
      IsSecond(op);
    } else if op < 45 {
      ThirdAfterFirst(op);
      ThirdAfterSecond(op);
      IsThird(op);
    } else {
      LastAfterFirst(op);
      LastAfterSecond(op);
      LastAfterThird(op);
      IsLast(op);
    }
  }

  lemma IsFirst(op: Byte)
    requires op < 15
    ensures FirstOpcodes(FirstMnemonic(op)) == Some(op)
  {
  }

  lemma IsSecond(op: Byte)
    requires 15 <= op < 30
    ensures SecondOpcodes(SecondMnemonic(op)) == Some(op)
  {
  }

  lemma IsThird(op: Byte)
    requires 30 <= op < 45
    ensures ThirdOpcodes(ThirdMnemonic(op)) == Some(op)
  {
  }

  lemma IsLast(op: Byte)
    requires 45 <= op && IsInstruction(op)
    ensures LastOpcodes(LastMnemonic(op)) == Some(op)
  {
  }

  lemma SecondAfterFirst(op: Byte)
    requires 15 <= op < 30
    ensures FirstOpcodes(SecondMnemonic(op)) == None
  {
    hide MnemonicOf;
  }

  lemma ThirdAfterFirst(op: Byte)
    requires 30 <= op < 45
    ensures FirstOpcodes(ThirdMnemonic(op)) == None
  {
    hide MnemonicOf;
  }

  lemma ThirdAfterSecond(op: Byte)
    requires 30 <= op < 45
    ensures SecondOpcodes(ThirdMnemonic(op)) == None
  {
    hide MnemonicOf;
  }

  lemma LastAfterFirst(op: Byte)
    requires 45 <= op && IsInstruction(op)
    ensures FirstOpcodes(LastMnemonic(op)) == None
  {
    hide MnemonicOf;
  }

  lemma LastAfterSecond(op: Byte)
    requires 45 <= op && IsInstruction(op)
    ensures SecondOpcodes(LastMnemonic(op)) == None
  {
    hide MnemonicOf;
  }

  lemma LastAfterThird(op: Byte)
    requires 45 <= op && IsInstruction(op)
    ensures ThirdOpcodes(LastMnemonic(op)) == None
  {
    hide MnemonicOf;
  }
}
