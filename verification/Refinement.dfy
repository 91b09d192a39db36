/** The microcode refines the instruction set. */
module Refinement {
  import opened Words
  import opened Instructions
  import opened Isa
  import opened ControlRom
  import opened Tick

  // ---------- one word ----------

  /** The counters after a tick that neither halts nor resets. */
  function Next(c: Cpu): Cpu {
    c.(sc := Advance(c.sc), ticks := c.ticks + 1)
  }

  lemma WrapTwice(x: Word)
    ensures Wrap(Wrap(x + 1) + 1) == Wrap(x + 2)
  {
  }

  lemma WrapBack(x: Word)
    ensures Wrap(Wrap(x + 2) - 2) == x
  {
  }

  lemma ByteIsLow(x: Byte)
    ensures LowByte(x) == x
  {
  }

  lemma NextIndex(ndx: Byte)
    ensures LowByte(Wrap(ndx + 1)) == LowByte(ndx + 1)
    ensures FlagsOf(Wrap(ndx + 1), ndx + 1 >= 0x1_0000) == FlagsOf(ndx + 1, false)
  {
  }

  lemma AluSum(x: Word, y: Word, mc: Micro)
    requires !Has(mc, ALU_AND) && !Has(mc, ALU_SHR) && !Has(mc, ALU_SUB) && !Has(mc, Ci)
    ensures Alu(x, y, mc) == AluResult(Wrap(x + y), FlagsOf(Wrap(x + y), x + y >= 0x1_0000))
  {
  }

  lemma AluIdentity(x: Word, mc: Micro)
    requires !Has(mc, ALU_AND) && !Has(mc, ALU_SHR) && !Has(mc, ALU_SUB) && !Has(mc, Ci)
    ensures Alu(x, 0, mc) == AluResult(x, FlagsOf(x, false))
  {
  }

  lemma AluIncrement(y: Word, mc: Micro)
    requires !Has(mc, ALU_AND) && !Has(mc, ALU_SHR) && !Has(mc, ALU_SUB) && Has(mc, Ci)
    ensures Alu(0, y, mc) == AluResult(Wrap(y + 1), FlagsOf(Wrap(y + 1), y + 1 >= 0x1_0000))
  {
  }

  lemma AluDecrement(y: Word, mc: Micro)
    requires !Has(mc, ALU_AND) && !Has(mc, ALU_SHR) && Has(mc, ALU_SUB) && !Has(mc, Ci)
    ensures Alu(0, y, mc) == AluResult(Wrap(y - 1), FlagsOf(Wrap(y - 1), y >= 1))
  {
  }

  lemma AluDifference(x: Word, y: Word, mc: Micro)
    requires !Has(mc, ALU_AND) && !Has(mc, ALU_SHR) && Has(mc, ALU_SUB) && Has(mc, Ci)
    ensures Alu(x, y, mc) == AluResult(Wrap(y - x), FlagsOf(Wrap(y - x), 0 < x <= y))
  {
  }

  lemma AluShift(x: Word, y: Word, mc: Micro)
    requires !Has(mc, ALU_AND) && Has(mc, ALU_SHR)
    ensures Alu(x, y, mc) == AluResult(x / 2, FlagsOf(x / 2, x % 2 == 1))
  {
  }

  lemma AluConjunction(x: Word, y: Word, mc: Micro)
    requires Has(mc, ALU_AND)
    ensures Alu(x, y, mc) == AluResult(BitAnd(x, y, 16), FlagsOf(BitAnd(x, y, 16), false))
  {
  }

  lemma Addressing(c: Cpu)
    ensures Apply(c, IPo | MARi) == Next(c).(mar := c.ip)
    ensures Apply(c, SPo | MARi) == Next(c).(mar := c.sp)
    ensures Apply(c, IPo | MARi | Yi) == Next(c).(mar := c.ip, y := c.ip)
    ensures Apply(c, Bo | MARi) == Next(c).(mar := c.b)
  {
    hide Advance, Wrap, LowByte, HighByte, FromBytes, FlagsOf, Alu, Write16, Read16, MemIndex;
  }

  lemma FetchingOperands(c: Cpu)
    ensures Apply(c, RAM | RAMo | Ai | IPp) == Next(c).(ip := Wrap(c.ip + 1), a := c.ram[c.mar])
    ensures Apply(c, RAM | RAMo | Bi | IPp) == Next(c).(ip := Wrap(c.ip + 1), b := c.ram[c.mar])
    ensures Apply(c, RAM | RAMo | RAM16 | Ai | IPp) == Next(c).(ip := Wrap(c.ip + 1), a := Read16(c.ram, c.mar))
    ensures Apply(c, IPp) == Next(c).(ip := Wrap(c.ip + 1))
    ensures Apply(c, RAM | RAMo | RAM16 | Bi | IPp) == Next(c).(ip := Wrap(c.ip + 1), b := Read16(c.ram, c.mar))
    ensures Apply(c, RAM | RAM16 | RAMo | Ai) == Next(c).(a := Read16(c.ram, c.mar))
    ensures Apply(c, RAM | RAMo | Yi | IPp) == Next(c).(ip := Wrap(c.ip + 1), y := c.ram[c.mar])
    ensures Apply(c, RAM | RAM16 | RAMo | Bi) == Next(c).(b := Read16(c.ram, c.mar))
    ensures Apply(c, RAM | RAMo | RAM16 | IPi) == Next(c).(ip := Read16(c.ram, c.mar))
    ensures Apply(c, RAM | RAMo | RAM16 | Xi) == Next(c).(x := Read16(c.ram, c.mar))
    ensures Apply(c, RAM | RAMo | Ai) == Next(c).(a := c.ram[c.mar])
  {
    hide Advance, Wrap, LowByte, HighByte, FromBytes, FlagsOf, Alu, Write16, Read16, MemIndex;
  }

  lemma StackMemory(c: Cpu)
    ensures Apply(c, SPu) == Next(c).(sp := Wrap(c.sp + 2))
    ensures Apply(c, SPu | SPm) == Next(c).(sp := Wrap(c.sp - 2))
    ensures Apply(c, Ao | RAM | RAM16 | SPu | SPm) == Next(c).(ram := Write16(c.ram, c.mar, c.a), sp := Wrap(c.sp - 2))
    ensures Apply(c, RAM | RAMo | RAM16 | Ai | SPu | SPm) == Next(c).(a := Read16(c.ram, c.mar), sp := Wrap(c.sp - 2))
    ensures Apply(c, Ao | RAM | RAM16) == Next(c).(ram := Write16(c.ram, c.mar, c.a))
    ensures Apply(c, Bo | RAM | RAM16 | SPu | SPm) == Next(c).(ram := Write16(c.ram, c.mar, c.b), sp := Wrap(c.sp - 2))
    ensures Apply(c, RAM | RAMo | RAM16 | Bi | SPu | SPm) == Next(c).(b := Read16(c.ram, c.mar), sp := Wrap(c.sp - 2))
    ensures Apply(c, Ao | RAM) == Next(c).(ram := c.ram[c.mar := LowByte(c.a)])
    ensures Apply(c, IPo | RAM | RAM16 | SPu | SPm) == Next(c).(ram := Write16(c.ram, c.mar, c.ip), sp := Wrap(c.sp - 2))
  {
    hide Advance, Wrap, LowByte, HighByte, FromBytes, FlagsOf, Alu, Write16, Read16, MemIndex;
  }

  lemma AluOperands(c: Cpu)
    ensures Apply(c, Ao | Yi) == Next(c).(y := c.a)
    ensures Apply(c, Xi) == Next(c).(x := 0)
    ensures Apply(c, Bo | Yi) == Next(c).(y := c.b)
    ensures Apply(c, SPo | Xi) == Next(c).(x := c.sp)
    ensures Apply(c, Ao | Xi) == Next(c).(x := c.a)
    ensures Apply(c, Yi) == Next(c).(y := 0)
    ensures Apply(c, Bo | Xi) == Next(c).(x := c.b)
  {
    hide Advance, Wrap, LowByte, HighByte, FromBytes, FlagsOf, Alu, Write16, Read16, MemIndex;
  }

  lemma AluResults(c: Cpu)
    ensures Apply(c, Ci | ALUo | Ai) == Next(c).(fr := Alu(c.x, c.y, Ci | ALUo | Ai).fr, a := Alu(c.x, c.y, Ci | ALUo | Ai).out)
    ensures Apply(c, ALU_SUB | ALUo | Ai) == Next(c).(fr := Alu(c.x, c.y, ALU_SUB | ALUo | Ai).fr, a := Alu(c.x, c.y, ALU_SUB | ALUo | Ai).out)
    ensures Apply(c, Ci | ALUo | Bi) == Next(c).(fr := Alu(c.x, c.y, Ci | ALUo | Bi).fr, b := Alu(c.x, c.y, Ci | ALUo | Bi).out)
    ensures Apply(c, ALUo | MARi) == Next(c).(fr := Alu(c.x, c.y, ALUo | MARi).fr, mar := Alu(c.x, c.y, ALUo | MARi).out)
    ensures Apply(c, ALUo | Ai) == Next(c).(fr := Alu(c.x, c.y, ALUo | Ai).fr, a := Alu(c.x, c.y, ALUo | Ai).out)
    ensures Apply(c, ALUo | Ci | ALU_SUB | Ai) == Next(c).(fr := Alu(c.x, c.y, ALUo | Ci | ALU_SUB | Ai).fr, a := Alu(c.x, c.y, ALUo | Ci | ALU_SUB | Ai).out)
    ensures Apply(c, ALUo | ALU_SHR | Ai) == Next(c).(fr := Alu(c.x, c.y, ALUo | ALU_SHR | Ai).fr, a := Alu(c.x, c.y, ALUo | ALU_SHR | Ai).out)
    ensures Apply(c, ALUo | ALU_AND | Ai) == Next(c).(fr := Alu(c.x, c.y, ALUo | ALU_AND | Ai).fr, a := Alu(c.x, c.y, ALUo | ALU_AND | Ai).out)
    ensures Apply(c, ALUo) == Next(c).(fr := Alu(c.x, c.y, ALUo).fr)
    ensures Apply(c, ALUo | IPi) == Next(c).(fr := Alu(c.x, c.y, ALUo | IPi).fr, ip := Alu(c.x, c.y, ALUo | IPi).out)
  {
    hide Advance, Wrap, LowByte, HighByte, FromBytes, FlagsOf, Alu, Write16, Read16, MemIndex;
  }

  lemma RegisterMoves(c: Cpu)
    ensures Apply(c, Ao | IPi) == Next(c).(ip := c.a)
    ensures Apply(c, Ao | Bi) == Next(c).(b := c.a)
    ensures Apply(c, Bo | Ai) == Next(c).(a := c.b)
    ensures Apply(c, Bo | AHi) == Next(c).(a := FromBytes(LowByte(c.a), LowByte(c.b)))
    ensures Apply(c, Ao | SPi) == Next(c).(sp := c.a)
    ensures Apply(c, SPo | Ai) == Next(c).(a := c.sp)
  {
    hide Advance, Wrap, LowByte, HighByte, FromBytes, FlagsOf, Alu, Write16, Read16, MemIndex;
  }

  lemma Storage(c: Cpu)
    ensures Apply(c, Ao | SECi) == Next(c).(sec := c.a % 0x1000)
    ensures Apply(c, SECo | Ai) == Next(c).(a := c.sec)
    ensures Apply(c, RAM | RAMo | NDXi | IPp) == Next(c).(ip := Wrap(c.ip + 1), ndx := LowByte(c.ram[c.mar]))
    ensures Apply(c, NDXo | Yi) == Next(c).(y := c.ndx)
    ensures Apply(c, Ci | ALUo | NDXi) == Next(c).(fr := Alu(c.x, c.y, Ci | ALUo | NDXi).fr, ndx := LowByte(Alu(c.x, c.y, Ci | ALUo | NDXi).out))
    ensures Apply(c, NDXo | Ai) == Next(c).(a := c.ndx)
    ensures Apply(c, Ao | NDXi) == Next(c).(ndx := LowByte(c.a))
    ensures Apply(c, MEMo | Ai) == Next(c).(a := c.mem[MemIndex(c.sec, c.ndx)])
    ensures Apply(c, MEMo | AHi) == Next(c).(a := FromBytes(LowByte(c.a), LowByte(c.mem[MemIndex(c.sec, c.ndx)])))
    ensures Apply(c, Ao | MEMi) == Next(c).(mem := c.mem[MemIndex(c.sec, c.ndx) := LowByte(c.a)])
    ensures Apply(c, Bo | GPUAi) == Next(c).(gpua := c.b)
  {
    hide Advance, Wrap, LowByte, HighByte, FromBytes, FlagsOf, Alu, Write16, Read16, MemIndex;
  }

  // ---------- the words of one instruction ----------

  /** Applying the words of an instruction from position i on, one per tick. */
  function ApplyFrom(c: Cpu, words: seq<Micro>, i: nat): Cpu
    requires i <= |words|
    decreases |words| - i
  {
    if i == |words| then c else ApplyFrom(Apply(c, words[i]), words, i + 1)
  }

  predicate Reached(c: Cpu, words: seq<Micro>, end: Cpu) {
    end == ApplyFrom(c, words, 0)
  }

  /** A reset of the step counter shows nothing to the programmer. */
  lemma LastWord(c: Cpu, words: seq<Micro>)
    requires |words| > 0 && words[|words| - 1] == SCr
    ensures ApplyFrom(c, words, |words| - 1) == c.(sc := 0)
    ensures Visible(ApplyFrom(c, words, |words| - 1)) == Visible(c)
  {
    assert ApplyFrom(c, words, |words| - 1) == Apply(c, SCr);
  }

  lemma Unroll(c: Cpu, words: seq<Micro>)
    requires 2 <= |words| <= 6 && words[|words| - 1] == SCr
    ensures Reached(c, words, ApplyFrom(c, words, 0))
    ensures var c1 := Apply(c, words[0]);
            var r := Visible(ApplyFrom(c, words, 0));
            if |words| == 2 then r == Visible(c1) else
            var c2 := Apply(c1, words[1]);
            if |words| == 3 then r == Visible(c2) else
            var c3 := Apply(c2, words[2]);
            if |words| == 4 then r == Visible(c3) else
            var c4 := Apply(c3, words[3]);
            if |words| == 5 then r == Visible(c4) else
            r == Visible(Apply(c4, words[4]))
  {
    hide Apply, Visible;
    var c1 := Apply(c, words[0]);
    assert ApplyFrom(c, words, 0) == ApplyFrom(c1, words, 1);
    if |words| == 2 { LastWord(c1, words); return; }
    var c2 := Apply(c1, words[1]);
    assert ApplyFrom(c1, words, 1) == ApplyFrom(c2, words, 2);
    if |words| == 3 { LastWord(c2, words); return; }
    var c3 := Apply(c2, words[2]);
    assert ApplyFrom(c2, words, 2) == ApplyFrom(c3, words, 3);
    if |words| == 4 { LastWord(c3, words); return; }
    var c4 := Apply(c3, words[3]);
    assert ApplyFrom(c3, words, 3) == ApplyFrom(c4, words, 4);
    if |words| == 5 { LastWord(c4, words); return; }
    var c5 := Apply(c4, words[4]);
    assert ApplyFrom(c4, words, 4) == ApplyFrom(c5, words, 5);
    LastWord(c5, words);
  }

  /** Running the words of `op` has the architectural effect of `op`. */
  ghost predicate Refines(c: Cpu, op: Opcode) {
    exists end :: Reached(c, Straight(op), end) && Visible(end) == Execute(op, Visible(c))
  }

  lemma EffectOfIncrements(c: Cpu)
    ensures Refines(c, INCA)
    ensures Refines(c, DECA)
  {
    hide Apply, Advance, Wrap, LowByte, HighByte, FromBytes, FlagsOf, Alu, Write16, Read16, BitAnd, MemIndex;
    Unroll(c, Straight(INCA));
    Unroll(c, Straight(DECA));
    AluOperands(c);
    var c1 := Apply(c, Ao | Yi);
    AluOperands(c1);
    var c2 := Apply(c1, Xi);
    AluResults(c2);
    AluIncrement(c2.y, Ci | ALUo | Ai);
    AluDecrement(c2.y, ALU_SUB | ALUo | Ai);
  }

  lemma EffectOfIncrementB(c: Cpu)
    ensures Refines(c, INCB)
  {
    hide Apply, Advance, Wrap, LowByte, HighByte, FromBytes, FlagsOf, Alu, Write16, Read16, BitAnd, MemIndex;
    Unroll(c, Straight(INCB));
    AluOperands(c);
    var c1 := Apply(c, Bo | Yi);
    AluOperands(c1);
    var c2 := Apply(c1, Xi);
    AluResults(c2);
    AluIncrement(c2.y, Ci | ALUo | Bi);
  }

  lemma EffectOfByteLoads(c: Cpu)
    ensures Refines(c, RAM_AL)
    ensures Refines(c, RAM_BL)
  {
    hide Apply, Advance, Wrap, LowByte, HighByte, FromBytes, FlagsOf, Alu, Write16, Read16, BitAnd, MemIndex;
    Unroll(c, Straight(RAM_AL));
    Unroll(c, Straight(RAM_BL));
    Addressing(c);
    var c1 := Apply(c, IPo | MARi);
    FetchingOperands(c1);
  }

  lemma EffectOfLoadA(c: Cpu)
    ensures Refines(c, RAM_A)
  {
    hide Apply, Advance, Wrap, LowByte, HighByte, FromBytes, FlagsOf, Alu, Write16, Read16, BitAnd, MemIndex;
    Unroll(c, Straight(RAM_A));
    Addressing(c);
    var c1 := Apply(c, IPo | MARi);
    FetchingOperands(c1);
    var c2 := Apply(c1, RAM | RAMo | RAM16 | Ai | IPp);
    FetchingOperands(c2);
    WrapTwice(c.ip);
  }

  lemma EffectOfLoadB(c: Cpu)
    ensures Refines(c, RAM_B)
  {
    hide Apply, Advance, Wrap, LowByte, HighByte, FromBytes, FlagsOf, Alu, Write16, Read16, BitAnd, MemIndex;
    Unroll(c, Straight(RAM_B));
    Addressing(c);
    var c1 := Apply(c, IPo | MARi);
    FetchingOperands(c1);
    var c2 := Apply(c1, RAM | RAMo | RAM16 | Bi | IPp);
    FetchingOperands(c2);
    WrapTwice(c.ip);
  }

  lemma EffectOfTransfers(c: Cpu)
    ensures Refines(c, A_B)
    ensures Refines(c, B_A)
    ensures Refines(c, JMPA)
  {
    hide Apply, Advance, Wrap, LowByte, HighByte, FromBytes, FlagsOf, Alu, Write16, Read16, BitAnd, MemIndex;
    Unroll(c, Straight(A_B));
    Unroll(c, Straight(B_A));
    Unroll(c, Straight(JMPA));
    RegisterMoves(c);
  }

  lemma EffectOfHighTransfer(c: Cpu)
    ensures Refines(c, B_AH)
  {
    hide Apply, Advance, Wrap, LowByte, HighByte, FromBytes, FlagsOf, Alu, Write16, Read16, BitAnd, MemIndex;
    Unroll(c, Straight(B_AH));
    RegisterMoves(c);
  }

  lemma EffectOfStackPointerMoves(c: Cpu)
    ensures Refines(c, A_SP)
    ensures Refines(c, SP_A)
    ensures Refines(c, INCSP)
    ensures Refines(c, DECSP)
  {
    hide Apply, Advance, Wrap, LowByte, HighByte, FromBytes, FlagsOf, Alu, Write16, Read16, BitAnd, MemIndex;
    Unroll(c, Straight(A_SP));
    Unroll(c, Straight(SP_A));
    Unroll(c, Straight(INCSP));
    Unroll(c, Straight(DECSP));
    RegisterMoves(c);
    StackMemory(c);
  }

  lemma EffectOfPushes(c: Cpu)
    ensures Refines(c, PUSHA)
    ensures Refines(c, PUSHB)
  {
    hide Apply, Advance, Wrap, LowByte, HighByte, FromBytes, FlagsOf, Alu, Write16, Read16, BitAnd, MemIndex;
    Unroll(c, Straight(PUSHA));
    Unroll(c, Straight(PUSHB));
    Addressing(c);
    var c1 := Apply(c, SPo | MARi);
    StackMemory(c1);
  }

  lemma EffectOfPops(c: Cpu)
    ensures Refines(c, POPA)
    ensures Refines(c, POPB)
  {
    hide Apply, Advance, Wrap, LowByte, HighByte, FromBytes, FlagsOf, Alu, Write16, Read16, BitAnd, MemIndex;
    Unroll(c, Straight(POPA));
    Unroll(c, Straight(POPB));
    StackMemory(c);
    var c1 := Apply(c, SPu);
    Addressing(c1);
    var c2 := Apply(c1, SPo | MARi);
    FetchingOperands(c2);
  }

  lemma EffectOfPeeks(c: Cpu)
    ensures Refines(c, PEEKA)
    ensures Refines(c, PEEKB)
  {
    hide Apply, Advance, Wrap, LowByte, HighByte, FromBytes, FlagsOf, Alu, Write16, Read16, BitAnd, MemIndex;
    Unroll(c, Straight(PEEKA));
    Unroll(c, Straight(PEEKB));
    StackMemory(c);
    var c1 := Apply(c, SPu);
    Addressing(c1);
    var c2 := Apply(c1, SPo | MARi);
    StackMemory(c2);
    WrapBack(c.sp);
  }

  lemma EffectOfStackRelative(c: Cpu)
    ensures Refines(c, PEEKAR)
    ensures Refines(c, PUSHAR)
  {
    hide Apply, Advance, Wrap, LowByte, HighByte, FromBytes, FlagsOf, Alu, Write16, Read16, BitAnd, MemIndex;
    Unroll(c, Straight(PEEKAR));
    Unroll(c, Straight(PUSHAR));
    Addressing(c);
    var c1 := Apply(c, IPo | MARi);
    FetchingOperands(c1);
    var c2 := Apply(c1, RAM | RAMo | Yi | IPp);
    AluOperands(c2);
    var c3 := Apply(c2, SPo | Xi);
    AluResults(c3);
    AluSum(c3.x, c3.y, ALUo | MARi);
    var c4 := Apply(c3, ALUo | MARi);
    FetchingOperands(c4);
    StackMemory(c4);
  }

  lemma EffectOfArithmetic(c: Cpu)
    ensures Refines(c, SUM)
    ensures Refines(c, SUB)
    ensures Refines(c, AND)
  {
    hide Apply, Advance, Wrap, LowByte, HighByte, FromBytes, FlagsOf, Alu, Write16, Read16, BitAnd, MemIndex;
    Unroll(c, Straight(SUM));
    Unroll(c, Straight(SUB));
    Unroll(c, Straight(AND));
    AluOperands(c);
    var c1 := Apply(c, Ao | Xi);
    AluOperands(c1);
    var c2 := Apply(c1, Bo | Yi);
    AluResults(c2);
    AluSum(c2.x, c2.y, ALUo | Ai);
    AluDifference(c2.x, c2.y, ALUo | Ci | ALU_SUB | Ai);
    AluConjunction(c2.x, c2.y, ALUo | ALU_AND | Ai);
  }

  lemma EffectOfShiftLeft(c: Cpu)
    ensures Refines(c, SHL)
  {
    hide Apply, Advance, Wrap, LowByte, HighByte, FromBytes, FlagsOf, Alu, Write16, Read16, BitAnd, MemIndex;
    Unroll(c, Straight(SHL));
    AluOperands(c);
    var c1 := Apply(c, Ao | Xi);
    AluOperands(c1);
    var c2 := Apply(c1, Ao | Yi);
    AluResults(c2);
    AluSum(c2.x, c2.y, ALUo | Ai);
  }

  lemma EffectOfShiftRight(c: Cpu)
    ensures Refines(c, SHR)
  {
    hide Apply, Advance, Wrap, LowByte, HighByte, FromBytes, FlagsOf, Alu, Write16, Read16, BitAnd, MemIndex;
    Unroll(c, Straight(SHR));
    AluOperands(c);
    var c1 := Apply(c, Ao | Xi);
    AluResults(c1);
    AluShift(c1.x, c1.y, ALUo | ALU_SHR | Ai);
  }

  lemma EffectOfCompareA(c: Cpu)
    ensures Refines(c, CMPA)
  {
    hide Apply, Advance, Wrap, LowByte, HighByte, FromBytes, FlagsOf, Alu, Write16, Read16, BitAnd, MemIndex;
    Unroll(c, Straight(CMPA));
    AluOperands(c);
    var c1 := Apply(c, Ao | Xi);
    AluOperands(c1);
    var c2 := Apply(c1, Yi);
    AluResults(c2);
    AluIdentity(c2.x, ALUo);
  }

  lemma EffectOfCompareB(c: Cpu)
    ensures Refines(c, CMPB)
  {
    hide Apply, Advance, Wrap, LowByte, HighByte, FromBytes, FlagsOf, Alu, Write16, Read16, BitAnd, MemIndex;
    Unroll(c, Straight(CMPB));
    AluOperands(c);
    var c1 := Apply(c, Bo | Xi);
    AluOperands(c1);
    var c2 := Apply(c1, Yi);
    AluResults(c2);
    AluIdentity(c2.x, ALUo);
  }

  lemma EffectOfJump(c: Cpu)
    ensures Refines(c, JMP)
  {
    hide Apply, Advance, Wrap, LowByte, HighByte, FromBytes, FlagsOf, Alu, Write16, Read16, BitAnd, MemIndex;
    Unroll(c, Straight(JMP));
    Addressing(c);
    var c1 := Apply(c, IPo | MARi);
    FetchingOperands(c1);
  }

  lemma EffectOfRelativeJump(c: Cpu)
    ensures Refines(c, JMPR)
  {
    hide Apply, Advance, Wrap, LowByte, HighByte, FromBytes, FlagsOf, Alu, Write16, Read16, BitAnd, MemIndex;
    Unroll(c, Straight(JMPR));
    Addressing(c);
    var c1 := Apply(c, IPo | MARi | Yi);
    FetchingOperands(c1);
    var c2 := Apply(c1, RAM | RAMo | RAM16 | Xi);
    AluResults(c2);
    AluSum(c2.x, c2.y, ALUo | IPi);
  }

  lemma EffectOfRelativeJumpByA(c: Cpu)
    ensures Refines(c, JMPAR)
  {
    hide Apply, Advance, Wrap, LowByte, HighByte, FromBytes, FlagsOf, Alu, Write16, Read16, BitAnd, MemIndex;
    Unroll(c, Straight(JMPAR));
    Addressing(c);
    var c1 := Apply(c, IPo | MARi | Yi);
    AluOperands(c1);
    var c2 := Apply(c1, Ao | Xi);
    AluResults(c2);
    AluSum(c2.x, c2.y, ALUo | IPi);
  }

  lemma EffectOfIndirect(c: Cpu)
    ensures Refines(c, AL_rB)
    ensures Refines(c, A_rB)
    ensures Refines(c, rB_AL)
    ensures Refines(c, rB_A)
  {
    hide Apply, Advance, Wrap, LowByte, HighByte, FromBytes, FlagsOf, Alu, Write16, Read16, BitAnd, MemIndex;
    Unroll(c, Straight(AL_rB));
    Unroll(c, Straight(A_rB));
    Unroll(c, Straight(rB_AL));
    Unroll(c, Straight(rB_A));
    Addressing(c);
    var c1 := Apply(c, Bo | MARi);
    StackMemory(c1);
    FetchingOperands(c1);
  }

  lemma EffectOfStorageTransfers(c: Cpu)
    ensures Refines(c, A_SEC)
    ensures Refines(c, SEC_A)
    ensures Refines(c, NDX_A)
    ensures Refines(c, A_NDX)
    ensures Refines(c, MEM_A)
    ensures Refines(c, MEM_AH)
    ensures Refines(c, A_MEM)
  {
    hide Apply, Advance, Wrap, LowByte, HighByte, FromBytes, FlagsOf, Alu, Write16, Read16, BitAnd, MemIndex;
    Unroll(c, Straight(A_SEC));
    Unroll(c, Straight(SEC_A));
    Unroll(c, Straight(NDX_A));
    Unroll(c, Straight(A_NDX));
    Unroll(c, Straight(MEM_A));
    Unroll(c, Straight(MEM_AH));
    Unroll(c, Straight(A_MEM));
    Storage(c);
    ByteIsLow(c.mem[MemIndex(c.sec, c.ndx)]);
  }

  lemma EffectOfIndexLoad(c: Cpu)
    ensures Refines(c, RAM_NDX)
  {
    hide Apply, Advance, Wrap, LowByte, HighByte, FromBytes, FlagsOf, Alu, Write16, Read16, BitAnd, MemIndex;
    Unroll(c, Straight(RAM_NDX));
    Addressing(c);
    var c1 := Apply(c, IPo | MARi);
    Storage(c1);
    ByteIsLow(c.ram[c.ip]);
  }

  lemma EffectOfIndexIncrement(c: Cpu)
    ensures Refines(c, INCNDX)
  {
    hide Apply, Advance, Wrap, LowByte, HighByte, FromBytes, FlagsOf, Alu, Write16, Read16, BitAnd, MemIndex;
    Unroll(c, Straight(INCNDX));
    Storage(c);
    var c1 := Apply(c, NDXo | Yi);
    AluOperands(c1);
    var c2 := Apply(c1, Xi);
    Storage(c2);
    AluIncrement(c2.y, Ci | ALUo | NDXi);
    NextIndex(c.ndx);
  }

  lemma EffectOfCall(c: Cpu)
    ensures Refines(c, CALL)
  {
    hide Apply, Advance, Wrap, LowByte, HighByte, FromBytes, FlagsOf, Alu, Write16, Read16, BitAnd, MemIndex;
    Unroll(c, Straight(CALL));
    Addressing(c);
    var c1 := Apply(c, SPo | MARi);
    StackMemory(c1);
    var c2 := Apply(c1, IPo | RAM | RAM16 | SPu | SPm);
    Addressing(c2);
    var c3 := Apply(c2, IPo | MARi);
    FetchingOperands(c3);
  }

  lemma EffectOfRelativeCall(c: Cpu)
    ensures Refines(c, CALLR)
  {
    hide Apply, Advance, Wrap, LowByte, HighByte, FromBytes, FlagsOf, Alu, Write16, Read16, BitAnd, MemIndex;
    Unroll(c, Straight(CALLR));
    Addressing(c);
    var c1 := Apply(c, SPo | MARi);
    StackMemory(c1);
    var c2 := Apply(c1, IPo | RAM | RAM16 | SPu | SPm);
    Addressing(c2);
    var c3 := Apply(c2, IPo | MARi | Yi);
    FetchingOperands(c3);
    var c4 := Apply(c3, RAM | RAMo | RAM16 | Xi);
    AluResults(c4);
    AluSum(c4.x, c4.y, ALUo | IPi);
  }

  lemma EffectOfReturn(c: Cpu)
    ensures Refines(c, RET)
  {
    hide Apply, Advance, Wrap, LowByte, HighByte, FromBytes, FlagsOf, Alu, Write16, Read16, BitAnd, MemIndex;
    Unroll(c, Straight(RET));
    StackMemory(c);
    var c1 := Apply(c, SPu);
    Addressing(c1);
    var c2 := Apply(c1, SPo | MARi);
    FetchingOperands(c2);
    var c3 := Apply(c2, RAM | RAMo | RAM16 | IPi);
    FetchingOperands(c3);
    var c4 := Apply(c3, IPp);
    FetchingOperands(c4);
    WrapTwice(Top(Visible(c)));
  }

  lemma EffectOfKey(c: Cpu)
    requires c.keys != []
    ensures Refines(c, KEY_A)
  {
    Unroll(c, Straight(KEY_A));
    ByteIsLow(c.keys[0]);
  }

  lemma EffectOfDraw(c: Cpu)
    ensures Refines(c, DRW)
  {
    hide FlagsOf, Alu, Advance;
    Unroll(c, Straight(DRW));
    assert Apply(c, Bo | GPUAi) == Next(c).(gpua := c.b);
  }

  lemma EffectOfDrawImmediate(c: Cpu)
    ensures Refines(c, RAM_DRW)
  {
    hide FlagsOf, Alu, Advance;
    Unroll(c, Straight(RAM_DRW));
    var c1 := Apply(c, Bo | GPUAi);
    assert c1 == Next(c).(gpua := c.b);
    var c2 := Apply(c1, IPo | MARi);
    assert c2 == Next(c1).(mar := c.ip);
  }

  lemma EffectOfNop(c: Cpu)
    ensures Refines(c, NOP)
  {
    LastWord(c, [SCr]);
  }

  /** Every instruction with words of its own, apart from the conditional jumps and the halt. */
  lemma EveryInstructionRefines(c: Cpu, op: Opcode)
    requires Straight(op) != [] && op != HLT
    requires op == KEY_A ==> c.keys != []
    ensures Refines(c, op)
  {
    hide Refines;
    if op <= PEEKB {
      if op == NOP { EffectOfNop(c); }
      EffectOfIncrements(c); EffectOfIncrementB(c); EffectOfByteLoads(c); EffectOfLoadA(c); EffectOfLoadB(c);
      EffectOfStackPointerMoves(c); EffectOfPushes(c); EffectOfPops(c); EffectOfPeeks(c); EffectOfStackRelative(c);
    } else if op <= CMPB {
      EffectOfArithmetic(c); EffectOfShiftLeft(c); EffectOfShiftRight(c); EffectOfCompareA(c); EffectOfCompareB(c);
    } else if op <= JMPAR {
      EffectOfJump(c); EffectOfRelativeJump(c); EffectOfRelativeJumpByA(c); EffectOfTransfers(c);
    } else if op <= SP_A {
      EffectOfTransfers(c); EffectOfHighTransfer(c); EffectOfIndirect(c); EffectOfStackPointerMoves(c);
    } else if op <= A_MEM {
      EffectOfStorageTransfers(c); EffectOfIndexLoad(c); EffectOfIndexIncrement(c);
    } else {
      EffectOfCall(c); EffectOfRelativeCall(c); EffectOfReturn(c);
      EffectOfDraw(c); EffectOfDrawImmediate(c);
      if op == KEY_A { EffectOfKey(c); }
    }
  }
}
