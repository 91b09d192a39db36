/** The architectural instruction set: what one instruction does to the programmer-visible state. */
module Isa {
  import opened Words
  import opened Instructions

  type Ram = s: seq<Byte> | |s| == 0x1_0000 witness seq(0x1_0000, _ => 0)
  type Mem = s: seq<Byte> | |s| == 0x10_0000 witness seq(0x10_0000, _ => 0)
  type VideoRam = s: seq<Byte> | |s| == 0x8000 witness seq(0x8000, _ => 0)
  type Flags = x: int | 0 <= x < 8
  type Sector = x: int | 0 <= x < 0x1000

  /** Programmer-visible state. FR holds Z (1), N (2) and C (4). */
  datatype Arch = Arch(
    a: Word, b: Word, sp: Word, ip: Word, sec: Sector, ndx: Byte, fr: Flags,
    ram: Ram, mem: Mem, keys: seq<Byte>, attributes: VideoRam, patterns: VideoRam, running: bool)

  predicate FlagZ(fr: Flags) { fr % 2 == 1 }
  predicate FlagN(fr: Flags) { fr / 2 % 2 == 1 }
  predicate FlagC(fr: Flags) { fr / 4 == 1 }

  function FlagsOf(result: Word, carry: bool): Flags {
    (if result == 0 then 1 else 0) + (if result >= 0x8000 then 2 else 0) + (if carry then 4 else 0)
  }

  /** A 16-bit access ignores the lowest address bit. */
  function Read16(ram: Ram, at: Word): Word {
    FromBytes(ram[at / 2 * 2], ram[at / 2 * 2 + 1])
  }

  function Write16(ram: Ram, at: Word, w: Word): Ram {
    ram[at / 2 * 2 := LowByte(w)][at / 2 * 2 + 1 := HighByte(w)]
  }

  /** The bytes of the word at `at`. */
  predicate WordIs(ram: Ram, at: Word, w: Word) {
    ram[at / 2 * 2] == LowByte(w) && ram[at / 2 * 2 + 1] == HighByte(w)
  }

  lemma WordIsRead(ram: Ram, at: Word, w: Word)
    ensures WordIs(ram, at, w) <==> Read16(ram, at) == w
  {
    BytesRoundTrip(w);
  }

  predicate SameWord(ram: Ram, other: Ram, at: Word) {
    ram[at / 2 * 2] == other[at / 2 * 2] && ram[at / 2 * 2 + 1] == other[at / 2 * 2 + 1]
  }

  /** x + y with the flags of the sum. */
  function AddA(s: Arch, x: Word, y: Word): Arch {
    s.(a := Wrap(x + y), fr := FlagsOf(Wrap(x + y), x + y >= 0x1_0000))
  }

  /** y - x; the carry is set exactly when no borrow happens and x is not zero. */
  function SubA(s: Arch, x: Word, y: Word): Arch {
    s.(a := Wrap(y - x), fr := FlagsOf(Wrap(y - x), 0 < x <= y))
  }

  function Compare(s: Arch, x: Word): Arch {
    s.(fr := FlagsOf(x, false))
  }

  /** Relative jump taken: the displacement counts from the operand, and the addition sets the flags. */
  function JumpRelative(s: Arch, at: Word, displacement: Word): Arch {
    s.(ip := Wrap(at + displacement), fr := FlagsOf(Wrap(at + displacement), at + displacement >= 0x1_0000))
  }

  function JumpIf(taken: bool, s: Arch): Arch {
    if taken then JumpRelative(s, s.ip, Read16(s.ram, s.ip)) else s.(ip := Wrap(s.ip + 2))
  }

  function Push(s: Arch, w: Word): Arch {
    s.(ram := Write16(s.ram, s.sp, w), sp := Wrap(s.sp - 2))
  }

  function Top(s: Arch): Word {
    Read16(s.ram, Wrap(s.sp + 2))
  }

  function Draw(s: Arch, at: Word, w: Word): Arch {
    if at >= 0x8000 then s.(patterns := s.patterns[at - 0x8000 := LowByte(w)])
    else s.(attributes := s.attributes[at := LowByte(w)])
  }

  function MemIndex(sec: Sector, ndx: Byte): (i: nat)
    ensures i < 0x10_0000
  {
    ndx + 0x100 * sec
  }

  /** The instruction at IP; the two top bits of its byte are not decoded. */
  function OpcodeAt(s: Arch): (op: int)
    ensures 0 <= op < 64
  {
    s.ram[s.ip] % 64
  }

  function ExecuteStack(op: int, s: Arch): Arch {
    if op == INCA then AddA(s, s.a, 1)
    else if op == DECA then s.(a := Wrap(s.a - 1), fr := FlagsOf(Wrap(s.a - 1), s.a >= 1))
    else if op == INCB then s.(b := Wrap(s.b + 1), fr := FlagsOf(Wrap(s.b + 1), s.b + 1 >= 0x1_0000))
    else if op == RAM_AL then s.(a := s.ram[s.ip], ip := Wrap(s.ip + 1))
    else if op == RAM_BL then s.(b := s.ram[s.ip], ip := Wrap(s.ip + 1))
    else if op == RAM_A then s.(a := Read16(s.ram, s.ip), ip := Wrap(s.ip + 2))
    else if op == RAM_B then s.(b := Read16(s.ram, s.ip), ip := Wrap(s.ip + 2))
    else if op == INCSP then s.(sp := Wrap(s.sp + 2))
    else if op == DECSP then s.(sp := Wrap(s.sp - 2))
    else if op == PUSHA then Push(s, s.a)
    else if op == POPA then s.(a := Top(s), sp := Wrap(s.sp + 2))
    else if op == PEEKA then s.(a := Top(s))
    else if op == PEEKAR then
      var at := s.sp + s.ram[s.ip];
      s.(a := Read16(s.ram, Wrap(at)), ip := Wrap(s.ip + 1), fr := FlagsOf(Wrap(at), at >= 0x1_0000))
    else if op == PUSHAR then
      var at := s.sp + s.ram[s.ip];
      s.(ram := Write16(s.ram, Wrap(at), s.a), ip := Wrap(s.ip + 1), fr := FlagsOf(Wrap(at), at >= 0x1_0000))
    else if op == PUSHB then Push(s, s.b)
    else if op == POPB then s.(b := Top(s), sp := Wrap(s.sp + 2))
    else if op == PEEKB then s.(b := Top(s))
    else s
  }

  function ExecuteAlu(op: int, s: Arch): Arch {
    if op == SUM then AddA(s, s.a, s.b)
    else if op == SUB then SubA(s, s.a, s.b)
    else if op == SHL then AddA(s, s.a, s.a)
    else if op == SHR then s.(a := s.a / 2, fr := FlagsOf(s.a / 2, s.a % 2 == 1))
    else if op == AND then s.(a := BitAnd(s.a, s.b, 16), fr := FlagsOf(BitAnd(s.a, s.b, 16), false))
    else if op == CMPA then Compare(s, s.a)
    else Compare(s, s.b)
  }

  function ExecuteJump(op: int, s: Arch): Arch {
    if op == JMP then s.(ip := Read16(s.ram, s.ip))
    else if op == JMPR then JumpIf(true, s)
    else if op == JMPRZ then JumpIf(FlagZ(s.fr), s)
    else if op == JMPRN then JumpIf(FlagN(s.fr), s)
    else if op == JMPRC then JumpIf(FlagC(s.fr), s)
    else if op == JMPRNZ then JumpIf(!FlagZ(s.fr), s)
    else if op == JMPRNN then JumpIf(!FlagN(s.fr), s)
    else if op == JMPRNC then JumpIf(!FlagC(s.fr), s)
    else if op == JMPA then s.(ip := s.a)
    else JumpRelative(s, s.ip, s.a)
  }

  function ExecuteMove(op: int, s: Arch): Arch {
    if op == A_B then s.(b := s.a)
    else if op == B_A then s.(a := s.b)
    else if op == B_AH then s.(a := FromBytes(LowByte(s.a), LowByte(s.b)))
    else if op == AL_rB then s.(ram := s.ram[s.b := LowByte(s.a)])
    else if op == A_rB then s.(ram := Write16(s.ram, s.b, s.a))
    else if op == rB_AL then s.(a := s.ram[s.b])
    else if op == rB_A then s.(a := Read16(s.ram, s.b))
    else if op == A_SP then s.(sp := s.a)
    else s.(a := s.sp)
  }

  function ExecuteStorage(op: int, s: Arch): Arch {
    if op == A_SEC then s.(sec := s.a % 0x1000)
    else if op == SEC_A then s.(a := s.sec)
    else if op == RAM_NDX then s.(ndx := s.ram[s.ip], ip := Wrap(s.ip + 1))
    else if op == INCNDX then s.(ndx := LowByte(s.ndx + 1), fr := FlagsOf(s.ndx + 1, false))
    else if op == NDX_A then s.(a := s.ndx)
    else if op == A_NDX then s.(ndx := LowByte(s.a))
    else if op == MEM_A then s.(a := s.mem[MemIndex(s.sec, s.ndx)])
    else if op == MEM_AH then s.(a := FromBytes(LowByte(s.a), s.mem[MemIndex(s.sec, s.ndx)]))
    else s.(mem := s.mem[MemIndex(s.sec, s.ndx) := LowByte(s.a)])
  }

  function ExecuteControl(op: int, s: Arch): Arch {
    if op == CALL then
      var pushed := Push(s, s.ip);
      pushed.(ip := Read16(pushed.ram, s.ip))
    else if op == CALLR then
      var pushed := Push(s, s.ip);
      JumpRelative(pushed, s.ip, Read16(pushed.ram, s.ip))
    else if op == RET then s.(ip := Wrap(Top(s) + 2), sp := Wrap(s.sp + 2))
    else if op == KEY_A && s.keys != [] then s.(a := s.keys[0], keys := s.keys[1..])
    else if op == DRW then Draw(s, s.b, s.a)
    else if op == RAM_DRW then Draw(s, s.b, s.ram[s.ip]).(ip := Wrap(s.ip + 1))
    else if op == HLT then s.(running := false)
    else s
  }

  /** The effect of instruction `op` on a state whose IP is already past the opcode byte. */
  function Execute(op: int, s: Arch): Arch {
    if op <= PEEKB then ExecuteStack(op, s)
    else if op <= CMPB then ExecuteAlu(op, s)
    else if op <= JMPAR then ExecuteJump(op, s)
    else if op <= SP_A then ExecuteMove(op, s)
    else if op <= A_MEM then ExecuteStorage(op, s)
    else ExecuteControl(op, s)
  }

  function Step(s: Arch): Arch {
    Execute(OpcodeAt(s), s.(ip := Wrap(s.ip + 1)))
  }

  function Run(s: Arch, n: nat): Arch
    decreases n
  {
    if n == 0 then s else Run(Step(s), n - 1)
  }

  lemma RunAdd(s: Arch, m: nat, n: nat)
    ensures Run(s, m + n) == Run(Run(s, m), n)
    decreases m
  {
    if m > 0 { RunAdd(Step(s), m - 1, n); }
  }
}
