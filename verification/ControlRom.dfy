/** The control ROM of the simulator: the microprogram and the loops that burn it. */
module ControlRom {
  import opened Words
  import opened Instructions
  import opened Isa

  /** One microcode word: a mask of the control lines it raises. */
  type Micro = bv64

  const HALT: Micro := 0x1
  const IPi: Micro := 0x2
  const IPo: Micro := 0x4
  const IPp: Micro := 0x8
  const Ai: Micro := 0x10
  const AHi: Micro := 0x20
  const Ao: Micro := 0x40
  const MARi: Micro := 0x80
  const Bi: Micro := 0x100
  const Bo: Micro := 0x200
  const RAM: Micro := 0x400
  const RAMo: Micro := 0x800
  const RAM16: Micro := 0x1000
  const Xi: Micro := 0x2000
  const Yi: Micro := 0x4000
  const ALUo: Micro := 0x8000
  const ALU_SUB: Micro := 0x10000
  const ALU_SHR: Micro := 0x20000
  const ALU_AND: Micro := 0x40000
  const Ci: Micro := 0x80000
  const SPi: Micro := 0x100000
  const SPo: Micro := 0x200000
  const SPu: Micro := 0x400000
  const SPm: Micro := 0x800000
  const IRi: Micro := 0x1000000
  const SCr: Micro := 0x2000000
  const SECi: Micro := 0x4000000
  const SECo: Micro := 0x8000000
  const NDXi: Micro := 0x10000000
  const NDXo: Micro := 0x20000000
  const MEMi: Micro := 0x40000000
  const MEMo: Micro := 0x80000000
  const KEYo: Micro := 0x100000000
  const GPUAi: Micro := 0x200000000
  const GPUi: Micro := 0x400000000

  /** Whether control line `flag` is raised. */
  predicate Has(mc: Micro, flag: Micro) {
    mc & flag != 0
  }

  const ROM_SIZE := 0x2000

  type Opcode = x: int | 0 <= x < 64
  type StepCount = x: int | 0 <= x < 16

  /** Position of a word: six opcode bits, four step bits, three flag bits. */
  function Index(op: Opcode, step: StepCount, fr: Flags): (i: nat)
    ensures i < ROM_SIZE
    ensures i % 0x40 == op && i / 0x40 % 0x10 == step && i / 0x400 == fr
  {
    op + 0x40 * step + 0x400 * fr
  }

  // ---------- the microprogram ----------

  function LoadWords(op: Opcode): (words: seq<Micro>)
    ensures |words| <= 6
  {
    if op == NOP then [SCr]
    else if op == INCA then [Ao | Yi, Xi, Ci | ALUo | Ai, SCr]
    else if op == DECA then [Ao | Yi, Xi, ALU_SUB | ALUo | Ai, SCr]
    else if op == INCB then [Bo | Yi, Xi, Ci | ALUo | Bi, SCr]
    else if op == RAM_AL then [IPo | MARi, RAM | RAMo | Ai | IPp, SCr]
    else if op == RAM_BL then [IPo | MARi, RAM | RAMo | Bi | IPp, SCr]
    else if op == RAM_A then [IPo | MARi, RAM | RAMo | RAM16 | Ai | IPp, IPp, SCr]
    else if op == RAM_B then [IPo | MARi, RAM | RAMo | RAM16 | Bi | IPp, IPp, SCr]
    else []
  }

  function StackWords(op: Opcode): (words: seq<Micro>)
    ensures |words| <= 6
  {
    if op == INCSP then [SPu, SCr]
    else if op == DECSP then [SPu | SPm, SCr]
    else if op == PUSHA then [SPo | MARi, Ao | RAM | RAM16 | SPu | SPm, SCr]
    else if op == POPA then [SPu, SPo | MARi, RAM | RAM16 | RAMo | Ai, SCr]
    else if op == PEEKA then [SPu, SPo | MARi, RAM | RAMo | RAM16 | Ai | SPu | SPm, SCr]
    else if op == PEEKAR then [IPo | MARi, RAM | RAMo | Yi | IPp, SPo | Xi, ALUo | MARi, RAM | RAMo | RAM16 | Ai, SCr]
    else if op == PUSHAR then [IPo | MARi, RAM | RAMo | Yi | IPp, SPo | Xi, ALUo | MARi, Ao | RAM | RAM16, SCr]
    else if op == PUSHB then [SPo | MARi, Bo | RAM | RAM16 | SPu | SPm, SCr]
    else if op == POPB then [SPu, SPo | MARi, RAM | RAM16 | RAMo | Bi, SCr]
    else if op == PEEKB then [SPu, SPo | MARi, RAM | RAMo | RAM16 | Bi | SPu | SPm, SCr]
    else []
  }

  function AluWords(op: Opcode): (words: seq<Micro>)
    ensures |words| <= 6
  {
    if op == SUM then [Ao | Xi, Bo | Yi, ALUo | Ai, SCr]
    else if op == SUB then [Ao | Xi, Bo | Yi, ALUo | Ci | ALU_SUB | Ai, SCr]
    else if op == SHR then [Ao | Xi, ALUo | ALU_SHR | Ai, SCr]
    else if op == SHL then [Ao | Xi, Ao | Yi, ALUo | Ai, SCr]
    else if op == AND then [Ao | Xi, Bo | Yi, ALUo | ALU_AND | Ai, SCr]
    else if op == CMPA then [Ao | Xi, Yi, ALUo, SCr]
    else if op == CMPB then [Bo | Xi, Yi, ALUo, SCr]
    else []
  }

  function JumpWords(op: Opcode): (words: seq<Micro>)
    ensures |words| <= 6
  {
    if op == JMP then [IPo | MARi, RAM | RAMo | RAM16 | IPi, SCr]
    else if op == JMPR then [IPo | MARi | Yi, RAM | RAMo | RAM16 | Xi, ALUo | IPi, SCr]
    else if op == JMPA then [Ao | IPi, SCr]
    else if op == JMPAR then [IPo | MARi | Yi, Ao | Xi, ALUo | IPi, SCr]
    else []
  }

  function MoveWords(op: Opcode): (words: seq<Micro>)
    ensures |words| <= 6
  {
    if op == A_B then [Ao | Bi, SCr]
    else if op == B_A then [Bo | Ai, SCr]
    else if op == B_AH then [Bo | AHi, SCr]
    else if op == AL_rB then [Bo | MARi, Ao | RAM, SCr]
    else if op == A_rB then [Bo | MARi, Ao | RAM | RAM16, SCr]
    else if op == rB_AL then [Bo | MARi, RAM | RAMo | Ai, SCr]
    else if op == rB_A then [Bo | MARi, RAM | RAMo | RAM16 | Ai, SCr]
    else if op == A_SP then [Ao | SPi, SCr]
    else if op == SP_A then [SPo | Ai, SCr]
    else []
  }

  function StorageWords(op: Opcode): (words: seq<Micro>)
    ensures |words| <= 6
  {
    if op == A_SEC then [Ao | SECi, SCr]
    else if op == SEC_A then [SECo | Ai, SCr]
    else if op == RAM_NDX then [IPo | MARi, RAM | RAMo | NDXi | IPp, SCr]
    else if op == INCNDX then [NDXo | Yi, Xi, Ci | ALUo | NDXi, SCr]
    else if op == NDX_A then [NDXo | Ai, SCr]
    else if op == A_NDX then [Ao | NDXi, SCr]
    else if op == MEM_A then [MEMo | Ai, SCr]
    else if op == MEM_AH then [MEMo | AHi, SCr]
    else if op == A_MEM then [Ao | MEMi, SCr]
    else []
  }

  function ControlWords(op: Opcode): (words: seq<Micro>)
    ensures |words| <= 6
  {
    if op == CALL then [SPo | MARi, IPo | RAM | RAM16 | SPu | SPm, IPo | MARi, RAM | RAMo | RAM16 | IPi, SCr]
    else if op == CALLR then [SPo | MARi, IPo | RAM | RAM16 | SPu | SPm, IPo | MARi | Yi, RAM | RAMo | RAM16 | Xi, ALUo | IPi, SCr]
    else if op == RET then [SPu, SPo | MARi, RAM | RAMo | RAM16 | IPi, IPp, IPp, SCr]
    else if op == KEY_A then [KEYo | Ai, SCr]
    else if op == DRW then [Bo | GPUAi, Ao | GPUi, SCr]
    else if op == RAM_DRW then [Bo | GPUAi, IPo | MARi, RAM | RAMo | GPUi | IPp, SCr]
    else if op == HLT then [HALT]
    else []
  }

  /** The words of an instruction after its fetch, for the instructions that ignore the flags. */
  function Straight(op: Opcode): (words: seq<Micro>)
    ensures |words| <= 6
  {
    if op <= RAM_B then LoadWords(op)
    else if op <= PEEKB then StackWords(op)
    else if op <= CMPB then AluWords(op)
    else if op <= JMPAR then JumpWords(op)
    else if op <= SP_A then MoveWords(op)
    else if op <= A_MEM then StorageWords(op)
    else ControlWords(op)
  }

  predicate IsConditional(op: Opcode) {
    JMPRZ <= op <= JMPRNC
  }

  /** The flag bit a conditional jump tests, and whether it jumps when the bit is clear. */
  function TestedFlag(op: Opcode): Flags
    requires IsConditional(op)
  {
    if op == JMPRZ || op == JMPRNZ then 1 else if op == JMPRN || op == JMPRNN then 2 else 4
  }

  predicate Inverted(op: Opcode) {
    op >= JMPRNZ
  }

  predicate Selected(mask: Flags, invert: bool, fr: Flags) {
    if invert then BitAnd(mask, fr, 3) == 0 else BitAnd(mask, fr, 3) != 0
  }

  const TAKEN: seq<Micro> := [IPo | MARi | Yi, RAM | RAMo | RAM16 | Xi, ALUo | IPi, SCr]
  const SKIPPED: seq<Micro> := [IPp, IPp, SCr]
  const FETCH: seq<Micro> := [IPo | MARi, RAM | RAMo | IRi | IPp]

  /** What follows the fetch of `op` when it is looked up under the flags `fr`. */
  function Sequence(op: Opcode, fr: Flags): (words: seq<Micro>)
    ensures |words| <= 7
  {
    if !IsConditional(op) then Straight(op)
    else if Selected(TestedFlag(op), Inverted(op), fr) then TAKEN else SKIPPED
  }

  /** The finished ROM: the fetch, then the instruction's own words, then nothing. */
  function MicroWord(op: Opcode, step: StepCount, fr: Flags): Micro {
    if step < 2 then FETCH[step]
    else if step - 2 < |Sequence(op, fr)| then Sequence(op, fr)[step - 2]
    else 0
  }

  // ---------- burning the ROM ----------

  method SetInstructionFlags(rom: array<Micro>, inst: Opcode, step: StepCount, mask: Flags, invert: bool, code: Micro)
    requires rom.Length == ROM_SIZE
    modifies rom
    ensures forall op: Opcode, s: StepCount, fr: Flags ::
              rom[Index(op, s, fr)] ==
              if op == inst && s == step && Selected(mask, invert, fr) then code else old(rom[Index(op, s, fr)])
  {
    hide Index;
    for i := 0 to 8
      invariant forall op: Opcode, s: StepCount, fr: Flags ::
                  rom[Index(op, s, fr)] ==
                  if op == inst && s == step && fr < i && Selected(mask, invert, fr) then code
                  else old(rom[Index(op, s, fr)])
    {
      if Selected(mask, invert, i) {
        rom[Index(inst, step, i)] := code;
      }
    }
  }

  method SetInstructionAllFlag(rom: array<Micro>, inst: Opcode, step: StepCount, code: Micro)
    requires rom.Length == ROM_SIZE
    modifies rom
    ensures forall op: Opcode, s: StepCount, fr: Flags ::
              rom[Index(op, s, fr)] == if op == inst && s == step then code else old(rom[Index(op, s, fr)])
  {
    hide Index;
    for i := 0 to 8
      invariant forall op: Opcode, s: StepCount, fr: Flags ::
                  rom[Index(op, s, fr)] ==
                  if op == inst && s == step && fr < i then code else old(rom[Index(op, s, fr)])
    {
      rom[Index(inst, step, i)] := code;
    }
  }

  /** The consecutive all-flag words of one instruction, from step 2 on. */
  method SetStraight(rom: array<Micro>, inst: Opcode, words: seq<Micro>)
    requires rom.Length == ROM_SIZE && |words| <= 14
    modifies rom
    ensures forall op: Opcode, s: StepCount, fr: Flags ::
              rom[Index(op, s, fr)] ==
              if op == inst && 2 <= s < 2 + |words| then words[s - 2] else old(rom[Index(op, s, fr)])
  {
    hide Index;
    for i := 0 to |words|
      invariant forall op: Opcode, s: StepCount, fr: Flags ::
                  rom[Index(op, s, fr)] ==
                  if op == inst && 2 <= s < 2 + i then words[s - 2] else old(rom[Index(op, s, fr)])
    {
      SetInstructionAllFlag(rom, inst, 2 + i, words[i]);
    }
  }

  /** A conditional jump: the skip for every flag pattern, then the jump over the selected ones. */
  method SetConditional(rom: array<Micro>, inst: Opcode)
    requires rom.Length == ROM_SIZE && IsConditional(inst)
    requires forall s: StepCount, fr: Flags :: rom[Index(inst, s, fr)] == if s < 2 then FETCH[s] else 0
    modifies rom
    ensures forall op: Opcode, s: StepCount, fr: Flags ::
              rom[Index(op, s, fr)] == if op == inst then MicroWord(op, s, fr) else old(rom[Index(op, s, fr)])
  {
    hide Index;
    SetStraight(rom, inst, SKIPPED);
    var mask, invert := TestedFlag(inst), Inverted(inst);
    SetInstructionFlags(rom, inst, 2, mask, invert, IPo | MARi | Yi);
    SetInstructionFlags(rom, inst, 3, mask, invert, RAM | RAMo | RAM16 | Xi);
    SetInstructionFlags(rom, inst, 4, mask, invert, ALUo | IPi);
    SetInstructionFlags(rom, inst, 5, mask, invert, SCr);
  }

  /** Burns the whole ROM over an erased one; every word of the microprogram ends up at its index. */
  method SetControlRom(rom: array<Micro>)
    requires rom.Length == ROM_SIZE
    requires forall i :: 0 <= i < ROM_SIZE ==> rom[i] == 0
    modifies rom
    ensures forall op: Opcode, s: StepCount, fr: Flags :: rom[Index(op, s, fr)] == MicroWord(op, s, fr)
  {
    hide Index, Straight;
    for i := 0 to 64
      invariant forall op: Opcode, s: StepCount, fr: Flags ::
                  rom[Index(op, s, fr)] == if op < i && s < 2 then FETCH[s] else 0
    {
      SetInstructionAllFlag(rom, i, 0, IPo | MARi);
      SetInstructionAllFlag(rom, i, 1, RAM | RAMo | IRi | IPp);
    }
    for i := 0 to 64
      invariant forall op: Opcode, s: StepCount, fr: Flags ::
                  rom[Index(op, s, fr)] ==
                  if op < i then MicroWord(op, s, fr) else if s < 2 then FETCH[s] else 0
    {
      if IsConditional(i) {
        SetConditional(rom, i);
      } else {
        SetStraight(rom, i, Straight(i));
      }
    }
  }
}
