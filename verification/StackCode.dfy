/** Stack-based routines of the library: their effect on registers and a list of stack words, and on the machine. */
module StackCode {
  import opened Words
  import opened Instructions
  import opened Isa

  /** Registers, the offset in the routine, and the words on the stack, top first. */
  datatype Calc = Calc(a: Word, b: Word, fr: Flags, ip: nat, stack: seq<Word>)

  /** Most words a routine may have on the stack. */
  const DEPTH := 16

  /** The j-th word the routine may use, counting down from the bottom of its stack. */
  function Slot(bottom: Word, j: nat): Word {
    Wrap(bottom - 2 * j)
  }

  function PushWord(t: Calc, w: Word): Calc {
    t.(stack := [w] + t.stack)
  }

  /** The stack word a PEEKAR or PUSHAR reaches. */
  function SlotOf(operand: int): int {
    operand / 2 - 1
  }

  function JumpTarget(code: seq<Byte>, ip: nat): int
    requires ip + 2 <= |code|
  {
    var d := FromBytes(code[ip], code[ip + 1]);
    if d >= 0x8000 then ip + d - 0x1_0000 else ip + d
  }

  predicate JumpTaken(op: int, fr: Flags) {
    op == JMPR || (op == JMPRZ && FlagZ(fr)) || (op == JMPRN && FlagN(fr)) || (op == JMPRC && FlagC(fr))
    || (op == JMPRNZ && !FlagZ(fr)) || (op == JMPRNN && !FlagN(fr)) || (op == JMPRNC && !FlagC(fr))
  }

  predicate IsJump(op: int) {
    JMPR <= op <= JMPRNC
  }

  /** The instruction at the offset is one of those below, with its operands and stack words in place. */
  predicate Can(code: seq<Byte>, t: Calc) {
    && t.ip < |code|
    && var op := code[t.ip];
       if op == NOP || op == INCA || op == DECA || op == A_B || op == B_A || op == CMPA || op == CMPB
          || op == SHL || op == SHR || op == SUM || op == SUB then t.ip + 1 < |code|
       else if op == PUSHA || op == PUSHB then t.ip + 1 < |code| && |t.stack| < DEPTH
       else if op == POPA || op == POPB || op == INCSP then t.ip + 1 < |code| && t.stack != []
       else if op == RAM_AL || op == RAM_BL then t.ip + 2 < |code|
       else if op == PEEKAR || op == PUSHAR then
         t.ip + 2 < |code| && code[t.ip + 1] % 2 == 0 && 0 <= SlotOf(code[t.ip + 1]) < |t.stack|
       else IsJump(op) && t.ip % 2 == 1 && t.ip + 3 < |code| && 0 <= JumpTarget(code, t.ip + 1) < |code|
  }

  /** The effect of that instruction. */
  function CalcStep(base: Word, code: seq<Byte>, bottom: Word, t: Calc): Calc
    requires Can(code, t)
  {
    var op, next := code[t.ip], t.(ip := t.ip + 1);
    if op == INCA then next.(a := Wrap(t.a + 1), fr := FlagsOf(Wrap(t.a + 1), t.a + 1 >= 0x1_0000))
    else if op == DECA then next.(a := Wrap(t.a - 1), fr := FlagsOf(Wrap(t.a - 1), t.a >= 1))
    else if op == A_B then next.(b := t.a)
    else if op == B_A then next.(a := t.b)
    else if op == CMPA then next.(fr := FlagsOf(t.a, false))
    else if op == CMPB then next.(fr := FlagsOf(t.b, false))
    else if op == SHL then next.(a := Wrap(t.a + t.a), fr := FlagsOf(Wrap(t.a + t.a), t.a + t.a >= 0x1_0000))
    else if op == SHR then next.(a := t.a / 2, fr := FlagsOf(t.a / 2, t.a % 2 == 1))
    else if op == SUM then next.(a := Wrap(t.a + t.b), fr := FlagsOf(Wrap(t.a + t.b), t.a + t.b >= 0x1_0000))
    else if op == SUB then next.(a := Wrap(t.b - t.a), fr := FlagsOf(Wrap(t.b - t.a), 0 < t.a <= t.b))
    else if op == PUSHA then PushWord(next, t.a)
    else if op == PUSHB then PushWord(next, t.b)
    else if op == POPA then next.(a := t.stack[0], stack := t.stack[1..])
    else if op == POPB then next.(b := t.stack[0], stack := t.stack[1..])
    else if op == INCSP then next.(stack := t.stack[1..])
    else if op == RAM_AL then t.(a := code[t.ip + 1], ip := t.ip + 2)
    else if op == RAM_BL then t.(b := code[t.ip + 1], ip := t.ip + 2)
    else if op == PEEKAR then
      var at := Slot(bottom, |t.stack|) + code[t.ip + 1];
      t.(a := t.stack[SlotOf(code[t.ip + 1])], ip := t.ip + 2, fr := FlagsOf(Wrap(at), at >= 0x1_0000))
    else if op == PUSHAR then
      var at := Slot(bottom, |t.stack|) + code[t.ip + 1];
      t.(stack := t.stack[SlotOf(code[t.ip + 1]) := t.a], ip := t.ip + 2, fr := FlagsOf(Wrap(at), at >= 0x1_0000))
    else if IsJump(op) then
      if JumpTaken(op, t.fr) then
        var to := base + t.ip + 1 + FromBytes(code[t.ip + 1], code[t.ip + 2]);
        t.(ip := JumpTarget(code, t.ip + 1), fr := FlagsOf(Wrap(to), to >= 0x1_0000))
      else t.(ip := t.ip + 3)
    else next
  }

  // ---------- on the machine ----------

  predicate WordOutside(at: Word, base: Word, size: nat) {
    at / 2 * 2 + 2 <= base || base + size <= at / 2 * 2
  }

  /** The routine's code is at an even place, away from its stack words. */
  predicate Placed(base: Word, code: seq<Byte>, bottom: Word) {
    && base % 2 == 0 && base + |code| <= 0x1_0000
    && forall j :: 0 <= j < DEPTH ==> WordOutside(Slot(bottom, j), base, |code|)
  }

  predicate CodeIn(ram: Ram, base: Word, code: seq<Byte>)
    requires base + |code| <= 0x1_0000
  {
    forall j :: 0 <= j < |code| ==> ram[base + j] == code[j]
  }

  predicate StackIn(ram: Ram, bottom: Word, stack: seq<Word>) {
    |stack| <= DEPTH && forall j :: 0 <= j < |stack| ==> WordIs(ram, Slot(bottom, j), stack[|stack| - 1 - j])
  }

  /** Memory differs from the start in the routine's stack words only. */
  predicate Frame(ram: Ram, start: Ram, bottom: Word) {
    forall x: Word :: (forall j :: 0 <= j < DEPTH ==> Slot(bottom, j) / 2 != x / 2) ==> ram[x] == start[x]
  }

  /** The machine m, started as s, is in state t of the routine. */
  predicate Sim(s: Arch, m: Arch, t: Calc, base: Word, code: seq<Byte>, bottom: Word)
    requires base + |code| <= 0x1_0000
  {
    && t.ip < |code|
    && m == s.(a := t.a, b := t.b, fr := t.fr, sp := Slot(bottom, |t.stack|), ip := base + t.ip, ram := m.ram)
    && CodeIn(m.ram, base, code) && StackIn(m.ram, bottom, t.stack) && Frame(m.ram, s.ram, bottom)
  }

  lemma SlotsDiffer(bottom: Word, i: nat, j: nat)
    requires i < 0x4000 && j < 0x4000 && i != j
    ensures Slot(bottom, i) / 2 != Slot(bottom, j) / 2
  {
  }

  lemma SlotSteps(bottom: Word, n: nat)
    ensures Wrap(Slot(bottom, n) - 2) == Slot(bottom, n + 1)
    ensures n > 0 ==> Wrap(Slot(bottom, n) + 2) == Slot(bottom, n - 1)
  {
    hide Wrap;
    WrapInner(-2, bottom - 2 * n);
    WrapInner(2, bottom - 2 * n);
  }

  /** PEEKAR and PUSHAR with an even operand reach a stack word. */
  lemma SlotReach(bottom: Word, n: nat, operand: int)
    requires operand % 2 == 0 && 0 <= SlotOf(operand) < n
    ensures Wrap(Slot(bottom, n) + operand) == Slot(bottom, n - 1 - SlotOf(operand))
  {
    hide Wrap;
    WrapInner(operand, bottom - 2 * n);
    assert bottom - 2 * n + operand == bottom - 2 * (n - 1 - SlotOf(operand));
  }

  lemma WriteElsewhere(ram: Ram, at: Word, w: Word, x: Word)
    ensures at / 2 != x / 2 ==> Write16(ram, at, w)[x] == ram[x] && SameWord(Write16(ram, at, w), ram, x)
    ensures WordIs(Write16(ram, at, w), at, w)
  {
  }

  /** Storing into the routine's j-th word keeps code and frame and changes that stack word only. */
  lemma StoreSlot(start: Ram, ram: Ram, base: Word, code: seq<Byte>, bottom: Word, j: nat, w: Word)
    requires Placed(base, code, bottom) && j < DEPTH && CodeIn(ram, base, code) && Frame(ram, start, bottom)
    ensures CodeIn(Write16(ram, Slot(bottom, j), w), base, code) && Frame(Write16(ram, Slot(bottom, j), w), start, bottom)
    ensures WordIs(Write16(ram, Slot(bottom, j), w), Slot(bottom, j), w)
    ensures forall i :: 0 <= i < DEPTH && i != j ==> SameWord(Write16(ram, Slot(bottom, j), w), ram, Slot(bottom, i))
  {
    hide Slot, WordIs, SameWord, Write16;
    var at := Slot(bottom, j);
    WriteElsewhere(ram, at, w, at);
    forall k | 0 <= k < |code| ensures Write16(ram, at, w)[base + k] == code[k] {
      WriteElsewhere(ram, at, w, base + k);
    }
    forall x: Word | forall i :: 0 <= i < DEPTH ==> Slot(bottom, i) / 2 != x / 2 ensures Write16(ram, at, w)[x] == start[x] {
      WriteElsewhere(ram, at, w, x);
    }
    forall i | 0 <= i < DEPTH && i != j ensures SameWord(Write16(ram, at, w), ram, Slot(bottom, i)) {
      SlotsDiffer(bottom, i, j);
      WriteElsewhere(ram, at, w, Slot(bottom, i));
    }
  }

  lemma PushSimulated(s: Arch, m: Arch, t: Calc, base: Word, code: seq<Byte>, bottom: Word, w: Word)
    requires Placed(base, code, bottom) && Sim(s, m, t, base, code, bottom) && |t.stack| < DEPTH && t.ip + 1 < |code|
    ensures Sim(s, Push(m.(ip := m.ip + 1), w), PushWord(t.(ip := t.ip + 1), w), base, code, bottom)
  {
    hide Slot, Read16, Write16, Frame, CodeIn, Placed;
    StoreSlot(s.ram, m.ram, base, code, bottom, |t.stack|, w);
    SlotSteps(bottom, |t.stack|);
  }

  lemma PopSimulated(s: Arch, m: Arch, t: Calc, base: Word, code: seq<Byte>, bottom: Word)
    requires base + |code| <= 0x1_0000 && Sim(s, m, t, base, code, bottom) && t.stack != []
    ensures Top(m) == t.stack[0] && Wrap(m.sp + 2) == Slot(bottom, |t.stack| - 1)
    ensures StackIn(m.ram, bottom, t.stack[1..])
  {
    hide Slot, Read16, Frame, CodeIn;
    SlotSteps(bottom, |t.stack|);
    WordIsRead(m.ram, Slot(bottom, |t.stack| - 1), t.stack[0]);
  }

  lemma PokeSimulated(s: Arch, m: Arch, t: Calc, base: Word, code: seq<Byte>, bottom: Word, operand: int, w: Word)
    requires Placed(base, code, bottom) && Sim(s, m, t, base, code, bottom)
    requires operand % 2 == 0 && 0 <= SlotOf(operand) < |t.stack|
    ensures var at, i := Wrap(Slot(bottom, |t.stack|) + operand), SlotOf(operand);
            && Read16(m.ram, at) == t.stack[i]
            && CodeIn(Write16(m.ram, at, w), base, code) && Frame(Write16(m.ram, at, w), s.ram, bottom)
            && StackIn(Write16(m.ram, at, w), bottom, t.stack[i := w])
  {
    hide Slot, Read16, Write16, Frame, CodeIn, Placed;
    SlotReach(bottom, |t.stack|, operand);
    WordIsRead(m.ram, Slot(bottom, |t.stack| - 1 - SlotOf(operand)), t.stack[SlotOf(operand)]);
    StoreSlot(s.ram, m.ram, base, code, bottom, |t.stack| - 1 - SlotOf(operand), w);
  }

  lemma OperandWord(m: Arch, base: Word, code: seq<Byte>, at: nat)
    requires base + |code| <= 0x1_0000 && CodeIn(m.ram, base, code) && at + 2 <= |code| && (base + at) % 2 == 0
    ensures Read16(m.ram, base + at) == FromBytes(code[at], code[at + 1])
  {
    assert m.ram[base + at] == code[at] && m.ram[base + (at + 1)] == code[at + 1];
    assert (base + at) / 2 * 2 == base + at;
  }

  /** The opcode byte decodes to itself. */
  lemma OpcodeIs(m: Arch, base: Word, code: seq<Byte>, ip: nat)
    requires base + |code| <= 0x1_0000 && CodeIn(m.ram, base, code) && ip < |code| && code[ip] < 64 && m.ip == base + ip
    ensures OpcodeAt(m) == code[ip]
    ensures ip + 1 < |code| ==> Step(m) == Execute(code[ip], m.(ip := base + ip + 1))
  {
    hide Execute;
  }

  lemma PushStep(s: Arch, m: Arch, t: Calc, base: Word, code: seq<Byte>, bottom: Word)
    requires Placed(base, code, bottom) && Sim(s, m, t, base, code, bottom) && Can(code, t)
    requires code[t.ip] == PUSHA || code[t.ip] == PUSHB
    ensures Sim(s, Step(m), CalcStep(base, code, bottom, t), base, code, bottom)
  {
    hide Read16, Write16, Frame, FlagsOf, Slot, WordOutside, Push, PushWord, ExecuteAlu, ExecuteJump, ExecuteMove;
    OpcodeIs(m, base, code, t.ip);
    PushSimulated(s, m, t, base, code, bottom, if code[t.ip] == PUSHA then t.a else t.b);
  }

  lemma PopStep(s: Arch, m: Arch, t: Calc, base: Word, code: seq<Byte>, bottom: Word)
    requires Placed(base, code, bottom) && Sim(s, m, t, base, code, bottom) && Can(code, t)
    requires code[t.ip] == POPA || code[t.ip] == POPB || code[t.ip] == INCSP
    ensures Sim(s, Step(m), CalcStep(base, code, bottom, t), base, code, bottom)
  {
    hide Read16, Write16, Frame, FlagsOf, Slot, WordOutside, StackIn, ExecuteAlu, ExecuteJump, ExecuteMove, Wrap;
    OpcodeIs(m, base, code, t.ip);
    PopSimulated(s, m, t, base, code, bottom);
  }

  lemma SlotStep(s: Arch, m: Arch, t: Calc, base: Word, code: seq<Byte>, bottom: Word)
    requires Placed(base, code, bottom) && Sim(s, m, t, base, code, bottom) && Can(code, t)
    requires code[t.ip] == PEEKAR || code[t.ip] == PUSHAR
    ensures Sim(s, Step(m), CalcStep(base, code, bottom, t), base, code, bottom)
  {
    hide Read16, Write16, Frame, FlagsOf, Slot, WordOutside, StackIn, ExecuteAlu, ExecuteJump, ExecuteMove;
    OpcodeIs(m, base, code, t.ip);
    assert m.ram[base + (t.ip + 1)] == code[t.ip + 1];
    PokeSimulated(s, m, t, base, code, bottom, code[t.ip + 1], t.a);
  }

  /** One instruction of the machine does what the routine's step says. */
  lemma StepSimulated(s: Arch, m: Arch, t: Calc, base: Word, code: seq<Byte>, bottom: Word)
    requires Placed(base, code, bottom) && Sim(s, m, t, base, code, bottom) && Can(code, t)
    ensures Sim(s, Step(m), CalcStep(base, code, bottom, t), base, code, bottom)
  {
    hide Sim, Step, CalcStep, Slot;
    var op := code[t.ip];
    if op == PUSHA || op == PUSHB {
      PushStep(s, m, t, base, code, bottom);
    } else if op == POPA || op == POPB || op == INCSP {
      PopStep(s, m, t, base, code, bottom);
    } else if op == PEEKAR || op == PUSHAR {
      SlotStep(s, m, t, base, code, bottom);
    } else if IsJump(op) {
      JumpSimulated(s, m, t, base, code, bottom);
    } else {
      PlainSimulated(s, m, t, base, code, bottom);
    }
  }

  lemma PlainSimulated(s: Arch, m: Arch, t: Calc, base: Word, code: seq<Byte>, bottom: Word)
    requires base % 2 == 0 && base + |code| <= 0x1_0000 && Sim(s, m, t, base, code, bottom) && Can(code, t)
    requires var op := code[t.ip];
             && op != PUSHA && op != PUSHB && op != POPA && op != POPB && op != INCSP && op != PEEKAR && op != PUSHAR
             && !IsJump(op)
    ensures Sim(s, Step(m), CalcStep(base, code, bottom, t), base, code, bottom)
  {
    hide Read16, Write16, Frame, FlagsOf, Slot, StackIn, BitAnd, ExecuteJump, ExecuteStorage, ExecuteControl, FlagZ, FlagN, FlagC,
      JumpTaken, JumpTarget, Push;
    OpcodeIs(m, base, code, t.ip);
    if t.ip + 1 < |code| { assert m.ram[base + (t.ip + 1)] == code[t.ip + 1]; }
  }

  /** The jump target as an offset and as an address. */
  lemma TargetPlace(base: Word, code: seq<Byte>, at: nat)
    requires at + 2 <= |code| && base + |code| <= 0x1_0000 && 0 <= JumpTarget(code, at) < |code|
    ensures Wrap(base + at + FromBytes(code[at], code[at + 1])) == base + JumpTarget(code, at)
  {
    var d := FromBytes(code[at], code[at + 1]);
    if d >= 0x8000 { WrapShift(base + at + d - 0x1_0000, 1); }
  }

  /** The machine's relative jump, taken or not. */
  lemma JumpStep(m: Arch, op: int)
    requires IsJump(op)
    ensures Execute(op, m) == JumpIf(JumpTaken(op, m.fr), m)
  {
    hide JumpIf, FlagZ, FlagN, FlagC;
  }

  lemma JumpSimulated(s: Arch, m: Arch, t: Calc, base: Word, code: seq<Byte>, bottom: Word)
    requires base % 2 == 0 && base + |code| <= 0x1_0000 && Sim(s, m, t, base, code, bottom) && Can(code, t)
    requires IsJump(code[t.ip])
    ensures Sim(s, Step(m), CalcStep(base, code, bottom, t), base, code, bottom)
  {
    hide Read16, Write16, Frame, FlagsOf, Slot, StackIn, FlagZ, FlagN, FlagC, Execute, JumpTaken, JumpTarget, Step, Wrap;
    OpcodeIs(m, base, code, t.ip);
    OperandWord(m, base, code, t.ip + 1);
    TargetPlace(base, code, t.ip + 1);
    JumpStep(m.(ip := base + t.ip + 1), code[t.ip]);
    assert Wrap(base + t.ip + 3) == base + t.ip + 3 by { InRangeWrap(base + t.ip + 3); }
  }

  lemma InRangeWrap(x: int)
    requires 0 <= x < 0x1_0000
    ensures Wrap(x) == x
  {
  }

  /** RET continues after the operand of the call, with the routine's stack gone. */
  lemma ReturnSimulated(s: Arch, m: Arch, t: Calc, base: Word, code: seq<Byte>, bottom: Word)
    requires base + |code| <= 0x1_0000 && Sim(s, m, t, base, code, bottom) && code[t.ip] == RET && |t.stack| == 1
    ensures var end := Step(m);
            && end == s.(a := t.a, b := t.b, fr := t.fr, sp := bottom, ip := Wrap(t.stack[0] as int + 2), ram := end.ram)
            && Frame(end.ram, s.ram, bottom)
  {
    hide Read16, Write16, Frame, FlagsOf, Slot;
    PopSimulated(s, m, t, base, code, bottom);
    assert Slot(bottom, 0) == bottom by { BottomSlot(bottom); }
    assert OpcodeAt(m) == RET by { assert m.ram[base + t.ip] == code[t.ip]; }
  }

  lemma BottomSlot(bottom: Word)
    ensures Slot(bottom, 0) == bottom
  {
  }

  // ---------- runs ----------

  /** n steps of the routine are possible and lead from t to u. */
  predicate Reaches(base: Word, code: seq<Byte>, bottom: Word, t: Calc, n: nat, u: Calc)
    decreases n
  {
    if n == 0 then t == u else Can(code, t) && Reaches(base, code, bottom, CalcStep(base, code, bottom, t), n - 1, u)
  }

  lemma {:induction false} ReachesMore(base: Word, code: seq<Byte>, bottom: Word, t: Calc, m: nat, u: Calc, n: nat, v: Calc)
    requires Reaches(base, code, bottom, t, m, u) && Reaches(base, code, bottom, u, n, v)
    ensures Reaches(base, code, bottom, t, m + n, v)
    decreases m
  {
    hide Can, CalcStep;
    if m > 0 { ReachesMore(base, code, bottom, CalcStep(base, code, bottom, t), m - 1, u, n, v); }
  }

  /** The machine follows a run of the routine. */
  lemma {:induction false} RunSimulated(s: Arch, m: Arch, t: Calc, base: Word, code: seq<Byte>, bottom: Word, n: nat, u: Calc)
    requires Placed(base, code, bottom) && Sim(s, m, t, base, code, bottom) && Reaches(base, code, bottom, t, n, u)
    ensures Sim(s, Run(m, n), u, base, code, bottom)
    decreases n
  {
    hide Placed, Sim, Can, CalcStep, Step;
    if n > 0 {
      StepSimulated(s, m, t, base, code, bottom);
      RunSimulated(s, Step(m), CalcStep(base, code, bottom, t), base, code, bottom, n - 1, u);
    }
  }
}
