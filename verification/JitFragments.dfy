/** Each emitted fragment does to the machine what its token does to the tape. */
module JitFragments {
  import opened Words
  import opened Instructions
  import opened Isa
  import opened Brainfuck
  import opened JitCode
  import opened JitHost

  /** The machine is at offset o of the code with data d. */
  predicate Ready(l: Layout, code: seq<Byte>, ret: Word, d: Data, h: Host, o: nat) {
    && h.m.ip == l.base + o && h.m.sp == CallSlot(l)
    && Holds(l, code, ret, d, h.m.ram)
    && h.read == d.read && h.out == d.out
  }

  lemma StackSlots(l: Layout)
    ensures Wrap(CallSlot(l) + 2) == PointerSlot(l) && Wrap(PointerSlot(l) - 2) == CallSlot(l)
    ensures Wrap(Wrap(CallSlot(l) - 2) + 2) == CallSlot(l)
    ensures CallSlot(l) != ReturnSlot(l) && PointerSlot(l) != ReturnSlot(l) && Wrap(CallSlot(l) - 2) != ReturnSlot(l)
    ensures Wrap(PointerSlot(l) + 2) == ReturnSlot(l)
  {
  }

  lemma ZeroFlag(x: Word, carry: bool)
    ensures FlagZ(FlagsOf(x, carry)) <==> x == 0
  {
  }

  /** One instruction at offset o, then the rest of the run. */
  lemma Advance(env: Env, l: Layout, code: seq<Byte>, ret: Word, d: Data, h: Host, o: nat, op: int, n: nat) returns (next: Host)
    requires Disjoint(l) && Holds(l, code, ret, d, h.m.ram) && h.m.sp != ReturnSlot(l)
    requires o < |code| && h.m.ip == l.base + o && code[o] == op && 0 <= op < 64
    ensures next == Host(Execute(op, h.m.(ip := l.base + o + 1)), h.read, h.out)
    ensures HostRun(env, l, ret, h, n + 1) == HostRun(env, l, ret, next, n)
  {
    hide Execute, HostStep, HostRun, Disjoint, Holds;
    Executes(env, l, code, ret, d, h, o, op);
    StepThen(env, l, ret, h, n);
    next := HostStep(env, l, h);
  }

  /** PEEKB rB_AL: B is the cell's address and A its value. */
  lemma LoadCell(env: Env, l: Layout, code: seq<Byte>, ret: Word, d: Data, h: Host, o: nat, n: nat) returns (next: Host)
    requires Disjoint(l) && Ready(l, code, ret, d, h, o) && InBounds(d)
    requires o + 2 <= |code| && code[o] == PEEKB && code[o + 1] == rB_AL
    ensures next == Host(h.m.(ip := l.base + o + 2, b := l.mem + d.ptr, a := Cell(d)), h.read, h.out)
    ensures HostRun(env, l, ret, h, n + 2) == HostRun(env, l, ret, next, n)
  {
    hide Disjoint, Holds, Wrap, Read16, HostRun;
    StackSlots(l);
    CurrentCell(l, code, ret, d, h.m.ram);
    HoldsPointer(l, code, ret, d, h.m.ram);
    var h1 := Advance(env, l, code, ret, d, h, o, PEEKB, n + 1);
    next := Advance(env, l, code, ret, d, h1, o + 1, rB_AL, n);
  }

  lemma HoldsPointer(l: Layout, code: seq<Byte>, ret: Word, d: Data, ram: Ram)
    requires Holds(l, code, ret, d, ram)
    ensures Read16(ram, PointerSlot(l)) == Wrap(l.mem + d.ptr) && Read16(ram, ReturnSlot(l)) == ret
  {
    hide Wrap, WordIs;
    WordIsRead(ram, PointerSlot(l), Wrap(l.mem + d.ptr));
    WordIsRead(ram, ReturnSlot(l), ret);
  }

  /** AL_rB with B at the current cell. */
  lemma StoreAL(env: Env, l: Layout, code: seq<Byte>, ret: Word, d: Data, h: Host, o: nat, n: nat) returns (next: Host)
    requires Disjoint(l) && Ready(l, code, ret, d, h, o) && InBounds(d)
    requires o + 1 <= |code| && code[o] == AL_rB && h.m.b == l.mem + d.ptr
    ensures Ready(l, code, ret, SetCell(d, LowByte(h.m.a)), next, o + 1)
    ensures HostRun(env, l, ret, h, n + 1) == HostRun(env, l, ret, next, n)
  {
    hide Disjoint, Holds, Wrap, Read16, HostRun;
    StackSlots(l);
    StoreCell(l, code, ret, d, h.m.ram, LowByte(h.m.a));
    next := Advance(env, l, code, ret, d, h, o, AL_rB, n);
  }

  /** PEEKB after the cell's value was changed in A. */
  lemma PointAgain(env: Env, l: Layout, code: seq<Byte>, ret: Word, d: Data, h: Host, o: nat, n: nat) returns (next: Host)
    requires Disjoint(l) && Ready(l, code, ret, d, h, o) && InBounds(d)
    requires o + 1 <= |code| && code[o] == PEEKB
    ensures next == Host(h.m.(ip := l.base + o + 1, b := l.mem + d.ptr), h.read, h.out)
    ensures HostRun(env, l, ret, h, n + 1) == HostRun(env, l, ret, next, n)
  {
    hide Disjoint, Holds, Wrap, Read16, HostRun;
    StackSlots(l);
    CurrentCell(l, code, ret, d, h.m.ram);
    HoldsPointer(l, code, ret, d, h.m.ram);
    next := Advance(env, l, code, ret, d, h, o, PEEKB, n);
  }

  // ---------- + and - ----------

  lemma LowOfWrap(x: int)
    ensures LowByte(Wrap(x)) == LowByte(x)
  {
    LowByteInner(0, x);
  }

  lemma IncrementOnce(env: Env, l: Layout, code: seq<Byte>, ret: Word, d: Data, h: Host, o: nat)
    requires Disjoint(l) && Ready(l, code, ret, d, h, o) && InBounds(d)
    requires o + 4 <= |code| && code[o..o + 4] == RepeatBytes(PLUS, 1)
    ensures Ready(l, code, ret, Act(PLUS, 1, d), HostRun(env, l, ret, h, 4), o + 4)
  {
    hide Disjoint, Holds, Wrap, Read16, HostRun, FlagsOf, LowByte;
    var bytes := code[o..o + 4];
    assert code[o] == bytes[0] && code[o + 1] == bytes[1] && code[o + 2] == bytes[2] && code[o + 3] == bytes[3];
    StackSlots(l);
    var h2 := LoadCell(env, l, code, ret, d, h, o, 2);
    var h3 := Advance(env, l, code, ret, d, h2, o + 2, INCA, 1);
    var h4 := StoreAL(env, l, code, ret, d, h3, o + 3, 0);
    LowOfWrap(Cell(d) + 1);
    RunNone(env, l, ret, h4);
  }

  lemma RunNone(env: Env, l: Layout, ret: Word, h: Host)
    ensures HostRun(env, l, ret, h, 0) == h
  {
  }

  lemma DecrementOnce(env: Env, l: Layout, code: seq<Byte>, ret: Word, d: Data, h: Host, o: nat)
    requires Disjoint(l) && Ready(l, code, ret, d, h, o) && InBounds(d)
    requires o + 4 <= |code| && code[o..o + 4] == RepeatBytes(MINUS, 1)
    ensures Ready(l, code, ret, Act(MINUS, 1, d), HostRun(env, l, ret, h, 4), o + 4)
  {
    hide Disjoint, Holds, Wrap, Read16, HostRun, FlagsOf, LowByte;
    var bytes := code[o..o + 4];
    assert code[o] == bytes[0] && code[o + 1] == bytes[1] && code[o + 2] == bytes[2] && code[o + 3] == bytes[3];
    StackSlots(l);
    var h2 := LoadCell(env, l, code, ret, d, h, o, 2);
    var h3 := Advance(env, l, code, ret, d, h2, o + 2, DECA, 1);
    var h4 := StoreAL(env, l, code, ret, d, h3, o + 3, 0);
    LowOfWrap(Cell(d) - 1);
    RunNone(env, l, ret, h4);
  }

  lemma AddMany(env: Env, l: Layout, code: seq<Byte>, ret: Word, d: Data, h: Host, o: nat, count: Word)
    requires Disjoint(l) && Ready(l, code, ret, d, h, o) && InBounds(d) && count != 1
    requires o + 8 <= |code| && code[o..o + 8] == RepeatBytes(PLUS, count)
    ensures Ready(l, code, ret, Act(PLUS, count, d), HostRun(env, l, ret, h, 7), o + 8)
  {
    hide Disjoint, Holds, Wrap, Read16, HostRun, FlagsOf, LowByte;
    var bytes := code[o..o + 8];
    assert code[o] == bytes[0] && code[o + 1] == bytes[1] && code[o + 2] == bytes[2] && code[o + 3] == bytes[3];
    assert code[o + 4] == bytes[4] && code[o + 5] == bytes[5] && code[o + 6] == bytes[6] && code[o + 7] == bytes[7];
    StackSlots(l);
    var h2 := LoadCell(env, l, code, ret, d, h, o, 5);
    var h3 := Advance(env, l, code, ret, d, h2, o + 2, RAM_BL, 4);
    OperandByte(l, code, ret, d, h3.m.ram, o + 3);
    var h4 := Advance(env, l, code, ret, d, h3, o + 4, SUM, 3);
    var h5 := PointAgain(env, l, code, ret, d, h4, o + 5, 2);
    var h6 := StoreAL(env, l, code, ret, d, h5, o + 6, 1);
    LowOfWrap(Cell(d) + LowByte(count));
    LowByteInner(Cell(d), count);
    var h7 := Advance(env, l, code, ret, Act(PLUS, count, d), h6, o + 7, NOP, 0);
    RunNone(env, l, ret, h7);
  }

  /** An immediate byte of the code; IP moves past it. */
  lemma OperandByte(l: Layout, code: seq<Byte>, ret: Word, d: Data, ram: Ram, o: nat)
    requires Disjoint(l) && Holds(l, code, ret, d, ram) && o < |code|
    ensures l.base + o + 1 < 0x1_0000 && Wrap(l.base + o + 1) == l.base + o + 1
    ensures ram[l.base + o] == code[o]
  {
    hide Read16;
    assert ram[l.base + o] == ram[l.base..l.base + |code|][o];
  }

  lemma SubtractMany(env: Env, l: Layout, code: seq<Byte>, ret: Word, d: Data, h: Host, o: nat, count: Word)
    requires Disjoint(l) && Ready(l, code, ret, d, h, o) && InBounds(d) && count != 1
    requires o + 8 <= |code| && code[o..o + 8] == RepeatBytes(MINUS, count)
    ensures Ready(l, code, ret, Act(MINUS, count, d), HostRun(env, l, ret, h, 7), o + 8)
  {
    hide Disjoint, Holds, Wrap, Read16, HostRun, FlagsOf, LowByte;
    var bytes := code[o..o + 8];
    assert code[o] == bytes[0] && code[o + 1] == bytes[1] && code[o + 2] == bytes[2] && code[o + 3] == bytes[3];
    assert code[o + 4] == bytes[4] && code[o + 5] == bytes[5] && code[o + 6] == bytes[6] && code[o + 7] == bytes[7];
    StackSlots(l);
    var h2 := LoadCell(env, l, code, ret, d, h, o, 5);
    var h3 := Advance(env, l, code, ret, d, h2, o + 2, A_B, 4);
    var h4 := Advance(env, l, code, ret, d, h3, o + 3, RAM_AL, 3);
    OperandByte(l, code, ret, d, h4.m.ram, o + 4);
    var h5 := Advance(env, l, code, ret, d, h4, o + 5, SUB, 2);
    var h6 := PointAgain(env, l, code, ret, d, h5, o + 6, 1);
    var h7 := StoreAL(env, l, code, ret, d, h6, o + 7, 0);
    LowOfWrap(Cell(d) - LowByte(count));
    LowByteDifference(Cell(d), count);
    RunNone(env, l, ret, h7);
  }

  lemma LowByteDifference(x: int, y: int)
    ensures LowByte(x - LowByte(y)) == LowByte(x - y)
  {
    var j := y / 0x100;
    assert LowByte(y) == y - 0x100 * j;
    LowByteShift(x - y, j);
  }

  // ---------- < and > ----------

  /** The emitted count of a pointer move is one byte. */
  function EmittedCount(count: Word): Word {
    if count == 1 then 1 else LowByte(count)
  }

  /** The pointer word plus or minus n is the word of the moved pointer. */
  lemma MovedPointer(l: Layout, ptr: Word, n: Word)
    ensures Wrap(Wrap(l.mem + ptr) + n) == Wrap(l.mem + Wrap(ptr + n))
    ensures Wrap(Wrap(l.mem + ptr) - n) == Wrap(l.mem + Wrap(ptr - n))
  {
    hide Wrap;
    var k: int := n;
    WrapInner(k, l.mem + ptr);
    WrapInner(-k, l.mem + ptr);
    WrapInner(l.mem, ptr + n);
    WrapInner(l.mem, ptr - n);
  }

  /** PUSHA NOP with the new pointer word in A and the stack pointer at the pointer's slot. */
  lemma PushPointer(env: Env, l: Layout, code: seq<Byte>, ret: Word, d: Data, ptr: Word, h: Host, o: nat)
    requires Disjoint(l) && Holds(l, code, ret, d, h.m.ram) && h.read == d.read && h.out == d.out
    requires h.m.ip == l.base + o && h.m.sp == PointerSlot(l) && h.m.a == Wrap(l.mem + ptr)
    requires o + 2 <= |code| && code[o] == PUSHA && code[o + 1] == NOP
    ensures Ready(l, code, ret, d.(ptr := ptr), HostRun(env, l, ret, h, 2), o + 2)
  {
    hide Disjoint, Holds, Wrap, Read16, Write16, HostRun;
    StackSlots(l);
    var h1 := Advance(env, l, code, ret, d, h, o, PUSHA, 1);
    StorePointer(l, code, ret, d, h.m.ram, ptr);
    var h2 := Advance(env, l, code, ret, d.(ptr := ptr), h1, o + 1, NOP, 0);
    RunNone(env, l, ret, h2);
  }

  lemma MoveOnce(env: Env, l: Layout, code: seq<Byte>, ret: Word, d: Data, h: Host, o: nat, op: Byte)
    requires Disjoint(l) && Ready(l, code, ret, d, h, o) && (op == LEFT || op == RIGHT)
    requires o + 4 <= |code| && code[o..o + 4] == RepeatBytes(op, 1)
    ensures Ready(l, code, ret, Act(op, 1, d), HostRun(env, l, ret, h, 4), o + 4)
  {
    hide Disjoint, Holds, Wrap, Read16, HostRun, FlagsOf;
    var bytes := code[o..o + 4];
    assert code[o] == bytes[0] && code[o + 1] == bytes[1] && code[o + 2] == bytes[2] && code[o + 3] == bytes[3];
    StackSlots(l);
    HoldsPointer(l, code, ret, d, h.m.ram);
    MovedPointer(l, d.ptr, 1);
    var h1 := Advance(env, l, code, ret, d, h, o, POPA, 3);
    var h2 := Advance(env, l, code, ret, d, h1, o + 1, if op == LEFT then DECA else INCA, 2);
    PushPointer(env, l, code, ret, d, Act(op, 1, d).ptr, h2, o + 2);
  }

  /** A longer move goes exactly LowByte(count) cells. */
  lemma MoveMany(env: Env, l: Layout, code: seq<Byte>, ret: Word, d: Data, h: Host, o: nat, op: Byte, count: Word)
    requires Disjoint(l) && Ready(l, code, ret, d, h, o) && (op == LEFT || op == RIGHT) && count != 1
    requires o + 6 <= |code| && code[o..o + 6] == RepeatBytes(op, count)
    ensures Ready(l, code, ret, Act(op, LowByte(count), d), HostRun(env, l, ret, h, 5), o + 6)
  {
    hide Disjoint, Holds, Wrap, Read16, HostRun, FlagsOf, LowByte;
    var bytes := code[o..o + 6];
    assert code[o] == bytes[0] && code[o + 1] == bytes[1] && code[o + 2] == bytes[2];
    assert code[o + 3] == bytes[3] && code[o + 4] == bytes[4] && code[o + 5] == bytes[5];
    StackSlots(l);
    HoldsPointer(l, code, ret, d, h.m.ram);
    MovedPointer(l, d.ptr, LowByte(count));
    var h1 := Advance(env, l, code, ret, d, h, o, POPB, 4);
    var h2 := Advance(env, l, code, ret, d, h1, o + 1, RAM_AL, 3);
    OperandByte(l, code, ret, d, h2.m.ram, o + 2);
    var h3 := Advance(env, l, code, ret, d, h2, o + 3, if op == LEFT then SUB else SUM, 2);
    PushPointer(env, l, code, ret, d, Act(op, LowByte(count), d).ptr, h3, o + 4);
  }

  /**
   * The emitted fragment of a run means the run itself for every count of + and -, and for a move exactly
   * when its count modulo 2^16 is a byte. A net move to the other side is never one.
   */
  lemma FragmentIsExactIff(op: Byte, count: Word, d: Data)
    requires IsAction(op) && InBounds(d)
    ensures Act(op, EmittedCount(count), d) == Act(op, count, d)
            <==> (op == PLUS || op == MINUS || count < 0x100)
  {
    if op == PLUS {
      LowByteInner(Cell(d), count);
    } else if op == MINUS {
      LowByteDifference(Cell(d), count);
    } else {
      WrapInjective(d.ptr, EmittedCount(count), count);
    }
  }

  lemma WrapInjective(x: Word, m: Word, n: Word)
    ensures Wrap(x + m) == Wrap(x + n) <==> m == n
    ensures Wrap(x - m) == Wrap(x - n) <==> m == n
  {
  }

  // ---------- loops ----------

  /** PEEKB rB_AL CMPA: A is the cell and Z tells whether it is zero. */
  lemma TestCell(env: Env, l: Layout, code: seq<Byte>, ret: Word, d: Data, h: Host, o: nat, n: nat) returns (next: Host)
    requires Disjoint(l) && Ready(l, code, ret, d, h, o) && InBounds(d)
    requires o + 3 <= |code| && code[o] == PEEKB && code[o + 1] == rB_AL && code[o + 2] == CMPA
    ensures Ready(l, code, ret, d, next, o + 3) && next.m.a == Cell(d) && (FlagZ(next.m.fr) <==> Cell(d) == 0)
    ensures HostRun(env, l, ret, h, n + 3) == HostRun(env, l, ret, next, n)
  {
    hide Disjoint, Holds, Wrap, Read16, HostRun, FlagsOf, FlagZ;
    StackSlots(l);
    var h2 := LoadCell(env, l, code, ret, d, h, o, n + 1);
    next := Advance(env, l, code, ret, d, h2, o + 2, CMPA, n);
    ZeroFlag(Cell(d), false);
  }

  /** A conditional jump at odd offset o that is not taken skips its operand. */
  lemma JumpFalls(env: Env, l: Layout, code: seq<Byte>, ret: Word, d: Data, h: Host, o: nat, op: int)
    requires Disjoint(l) && Ready(l, code, ret, d, h, o) && o + 3 <= |code| && code[o] == op
    requires (op == JMPRZ && !FlagZ(h.m.fr)) || (op == JMPRNZ && FlagZ(h.m.fr))
    ensures Ready(l, code, ret, d, HostRun(env, l, ret, h, 1), o + 3)
  {
    hide Disjoint, Holds, Wrap, Read16, HostRun, FlagsOf, FlagZ;
    StackSlots(l);
    var h1 := Advance(env, l, code, ret, d, h, o, op, 0);
    InCode(l, code, ret, d, h.m.ram, o + 3);
    RunNone(env, l, ret, h1);
  }

  lemma InCode(l: Layout, code: seq<Byte>, ret: Word, d: Data, ram: Ram, o: nat)
    requires Disjoint(l) && Holds(l, code, ret, d, ram) && o <= |code|
    ensures Wrap(l.base + o) == l.base + o
  {
  }

  /** A taken jump at odd offset o lands at the target its operand was computed for. */
  lemma JumpLands(env: Env, l: Layout, code: seq<Byte>, ret: Word, d: Data, h: Host, o: nat, op: int, target: nat, n: nat)
    returns (next: Host)
    requires Disjoint(l) && Ready(l, code, ret, d, h, o) && o % 2 == 1 && o + 3 <= |code| && code[o] == op
    requires (op == JMPRZ && FlagZ(h.m.fr)) || (op == JMPRNZ && !FlagZ(h.m.fr))
    requires target <= |code| && code[o + 1..o + 3] == Word2(Wrap(target - (o + 1)))
    ensures Ready(l, code, ret, d, next, target) && next.m.a == h.m.a
    ensures HostRun(env, l, ret, h, n + 1) == HostRun(env, l, ret, next, n)
  {
    hide Disjoint, Holds, Wrap, Read16, HostRun, FlagsOf, FlagZ, Word2;
    StackSlots(l);
    next := Advance(env, l, code, ret, d, h, o, op, n);
    Operand(l, code, ret, d, h.m.ram, o + 1, Wrap(target - (o + 1)));
    WrapInner(l.base + o + 1, target - (o + 1));
    InCode(l, code, ret, d, h.m.ram, target);
  }

  lemma LoopEntered(env: Env, l: Layout, code: seq<Byte>, ret: Word, d: Data, h: Host, o: nat)
    requires Disjoint(l) && Ready(l, code, ret, d, h, o) && InBounds(d) && Cell(d) != 0
    requires o + 6 <= |code| && code[o..o + 4] == [PEEKB, rB_AL, CMPA, JMPRZ]
    ensures Ready(l, code, ret, d, HostRun(env, l, ret, h, 4), o + 6)
  {
    hide Disjoint, Holds, Wrap, Read16, HostRun, FlagsOf, FlagZ, Ready;
    var bytes := code[o..o + 4];
    assert code[o] == bytes[0] && code[o + 1] == bytes[1] && code[o + 2] == bytes[2] && code[o + 3] == bytes[3];
    var h3 := TestCell(env, l, code, ret, d, h, o, 1);
    JumpFalls(env, l, code, ret, d, h3, o + 3, JMPRZ);
  }

  /**
   * A skipped loop: the jump lands on the comparison inside the closing fragment. A still holds the zero
   * just tested, so the second comparison falls through to the code after the loop.
   */
  lemma LoopSkipped(env: Env, l: Layout, code: seq<Byte>, ret: Word, d: Data, h: Host, o: nat, end: nat)
    requires Disjoint(l) && Ready(l, code, ret, d, h, o) && InBounds(d) && Cell(d) == 0 && o % 2 == 0
    requires o + 6 <= end && end + 6 <= |code|
    requires code[o..o + 4] == [PEEKB, rB_AL, CMPA, JMPRZ]
    requires code[o + 4..o + 6] == Word2(Wrap(end + 4 - (o + 6)))
    requires code[end..end + 4] == [PEEKB, rB_AL, CMPA, JMPRNZ]
    ensures Ready(l, code, ret, d, HostRun(env, l, ret, h, 6), end + 6)
  {
    hide Disjoint, Holds, Wrap, Read16, HostRun, FlagsOf, FlagZ, Word2;
    var bytes := code[o..o + 4];
    assert code[o] == bytes[0] && code[o + 1] == bytes[1] && code[o + 2] == bytes[2] && code[o + 3] == bytes[3];
    var ends := code[end..end + 4];
    assert code[end + 2] == ends[2] && code[end + 3] == ends[3];
    StackSlots(l);
    var h3 := TestCell(env, l, code, ret, d, h, o, 3);
    var h4 := JumpLands(env, l, code, ret, d, h3, o + 3, JMPRZ, end + 2, 2);
    var h5 := Advance(env, l, code, ret, d, h4, end + 2, CMPA, 1);
    ZeroFlag(0, false);
    JumpFalls(env, l, code, ret, d, h5, end + 3, JMPRNZ);
  }

  lemma LoopLeft(env: Env, l: Layout, code: seq<Byte>, ret: Word, d: Data, h: Host, o: nat)
    requires Disjoint(l) && Ready(l, code, ret, d, h, o) && InBounds(d) && Cell(d) == 0
    requires o + 6 <= |code| && code[o..o + 4] == [PEEKB, rB_AL, CMPA, JMPRNZ]
    ensures Ready(l, code, ret, d, HostRun(env, l, ret, h, 4), o + 6)
  {
    hide Disjoint, Holds, Wrap, Read16, HostRun, FlagsOf, FlagZ, Ready;
    var bytes := code[o..o + 4];
    assert code[o] == bytes[0] && code[o + 1] == bytes[1] && code[o + 2] == bytes[2] && code[o + 3] == bytes[3];
    var h3 := TestCell(env, l, code, ret, d, h, o, 1);
    JumpFalls(env, l, code, ret, d, h3, o + 3, JMPRNZ);
  }

  /** A repeated loop continues behind the operand of its opening fragment. */
  lemma LoopRepeated(env: Env, l: Layout, code: seq<Byte>, ret: Word, d: Data, h: Host, o: nat, start: nat)
    requires Disjoint(l) && Ready(l, code, ret, d, h, o) && InBounds(d) && Cell(d) != 0 && o % 2 == 0
    requires o + 6 <= |code| && start + 6 <= o
    requires code[o..o + 4] == [PEEKB, rB_AL, CMPA, JMPRNZ]
    requires code[o + 4..o + 6] == Word2(Wrap(start + 6 - (o + 4)))
    ensures Ready(l, code, ret, d, HostRun(env, l, ret, h, 4), start + 6)
  {
    hide Disjoint, Holds, Wrap, Read16, HostRun, FlagsOf, FlagZ, Word2, Ready;
    var bytes := code[o..o + 4];
    assert code[o] == bytes[0] && code[o + 1] == bytes[1] && code[o + 2] == bytes[2] && code[o + 3] == bytes[3];
    var h3 := TestCell(env, l, code, ret, d, h, o, 1);
    var h4 := JumpLands(env, l, code, ret, d, h3, o + 3, JMPRNZ, start + 6, 0);
    RunNone(env, l, ret, h4);
  }

  // ---------- input and output ----------

  /** CALL at odd offset o: the operand position is pushed below the pointer and IP goes to the routine. */
  lemma CallRoutine(env: Env, l: Layout, code: seq<Byte>, ret: Word, d: Data, h: Host, o: nat, target: Word, n: nat)
    returns (next: Host)
    requires Disjoint(l) && Ready(l, code, ret, d, h, o) && o % 2 == 1
    requires o + 3 <= |code| && code[o] == CALL && code[o + 1..o + 3] == Word2(target)
    ensures next == Host(h.m.(ip := target, sp := Wrap(CallSlot(l) - 2),
                              ram := Write16(h.m.ram, CallSlot(l), l.base + o + 1)), h.read, h.out)
    ensures Holds(l, code, ret, d, next.m.ram) && Top(next.m) == l.base + o + 1
    ensures HostRun(env, l, ret, h, n + 1) == HostRun(env, l, ret, next, n)
  {
    hide Disjoint, Holds, Wrap, Read16, Write16, HostRun, Word2;
    StackSlots(l);
    InCode(l, code, ret, d, h.m.ram, o + 1);
    StoreCallSlot(l, code, ret, d, h.m.ram, l.base + o + 1);
    Operand(l, code, ret, d, Write16(h.m.ram, CallSlot(l), l.base + o + 1), o + 1, target);
    next := Advance(env, l, code, ret, d, h, o, CALL, n);
  }

  /** The whole routine at once: back behind the operand of its call, with everything the code needs intact. */
  lemma RoutineReturns(env: Env, l: Layout, code: seq<Byte>, ret: Word, d: Data, h: Host, o: nat, n: nat)
    returns (next: Host)
    requires Disjoint(l) && PoliteEnv(env, l) && Holds(l, code, ret, d, h.m.ram)
    requires h.m.sp == Wrap(CallSlot(l) - 2) && Top(h.m) == l.base + o && o + 2 <= |code|
    requires h.m.ip == l.getChar || h.m.ip == l.putChar
    ensures next == HostStep(env, l, h)
    ensures next.m.ip == l.base + o + 2 && next.m.sp == CallSlot(l) && Holds(l, code, ret, d, next.m.ram)
    ensures HostRun(env, l, ret, h, n + 1) == HostRun(env, l, ret, next, n)
  {
    hide Disjoint, Holds, Wrap, Read16, HostRun, Step, Polite;
    StackSlots(l);
    StepThen(env, l, ret, h, n);
    next := HostStep(env, l, h);
    InCode(l, code, ret, d, h.m.ram, o + 2);
    DistinctRoutines(l);
    PoliteKeeps(l, code, ret, d, h.m.ram, env.after(h.m).ram);
  }

  lemma DistinctRoutines(l: Layout)
    requires Disjoint(l)
    ensures l.getChar != l.putChar
  {
  }

  lemma InputFragment(env: Env, l: Layout, code: seq<Byte>, ret: Word, d: Data, h: Host, o: nat)
    requires Disjoint(l) && PoliteEnv(env, l) && Ready(l, code, ret, d, h, o) && InBounds(d) && o % 2 == 0
    requires o + 6 <= |code| && code[o..o + 6] == [NOP, CALL] + Word2(l.getChar) + [PEEKB, AL_rB]
    ensures Ready(l, code, ret, Get(d, env.input), HostRun(env, l, ret, h, 5), o + 6)
  {
    hide Disjoint, Holds, Wrap, Read16, Write16, HostRun, Word2, PoliteEnv, LowByte;
    var bytes := code[o..o + 6];
    assert code[o] == bytes[0] && code[o + 1] == bytes[1] && code[o + 4] == bytes[4] && code[o + 5] == bytes[5];
    SubSlice(code, o, o + 6, 2, 4);
    MiddleSlice([NOP, CALL], Word2(l.getChar), [PEEKB, AL_rB]);
    StackSlots(l);
    DistinctRoutines(l);
    var h1 := Advance(env, l, code, ret, d, h, o, NOP, 4);
    var h2 := CallRoutine(env, l, code, ret, d, h1, o + 1, l.getChar, 3);
    var h3 := RoutineReturns(env, l, code, ret, d, h2, o + 2, 2);
    assert h3.read == d.read + 1;
    assert h3.m.a == env.input(h2.read);
    var d3 := d.(read := d.read + 1);
    HoldsAnyCount(l, code, ret, d, h3.m.ram);
    var h4 := PointAgain(env, l, code, ret, d3, h3, o + 4, 1);
    var h5 := StoreAL(env, l, code, ret, d3, h4, o + 5, 0);
    ByteItself(env.input(d.read));
    RunNone(env, l, ret, h5);
  }

  lemma SubSlice(s: seq<Byte>, lo: nat, hi: nat, i: nat, j: nat)
    requires i <= j && lo + j <= hi <= |s|
    ensures s[lo..hi][i..j] == s[lo + i..lo + j]
  {
    var whole := s[lo..hi];
    assert forall k :: 0 <= k < j - i ==> whole[i..j][k] == whole[i + k] == s[lo + i + k] == s[lo + i..lo + j][k];
  }

  lemma MiddleSlice(a: seq<Byte>, b: seq<Byte>, c: seq<Byte>)
    ensures (a + b + c)[|a|..|a| + |b|] == b
  {
  }

  lemma ByteItself(x: Byte)
    ensures LowByte(x) == x
  {
  }

  lemma HoldsAnyCount(l: Layout, code: seq<Byte>, ret: Word, d: Data, ram: Ram)
    requires Holds(l, code, ret, d, ram)
    ensures forall read, out :: Holds(l, code, ret, d.(read := read, out := out), ram)
  {
  }

  lemma OutputFragment(env: Env, l: Layout, code: seq<Byte>, ret: Word, d: Data, h: Host, o: nat)
    requires Disjoint(l) && PoliteEnv(env, l) && Ready(l, code, ret, d, h, o) && InBounds(d) && o % 2 == 0
    requires o + 6 <= |code| && code[o..o + 6] == [PEEKB, rB_AL, NOP, CALL] + Word2(l.putChar)
    ensures Ready(l, code, ret, Put(d), HostRun(env, l, ret, h, 5), o + 6)
  {
    hide Disjoint, Holds, Wrap, Read16, Write16, HostRun, Word2, PoliteEnv, LowByte;
    var bytes := code[o..o + 6];
    assert code[o] == bytes[0] && code[o + 1] == bytes[1] && code[o + 2] == bytes[2] && code[o + 3] == bytes[3];
    assert code[o + 4..o + 6] == bytes[4..6] == Word2(l.putChar);
    StackSlots(l);
    DistinctRoutines(l);
    var h2 := LoadCell(env, l, code, ret, d, h, o, 3);
    var h3 := Advance(env, l, code, ret, d, h2, o + 2, NOP, 2);
    var h4 := CallRoutine(env, l, code, ret, d, h3, o + 3, l.putChar, 1);
    var h5 := RoutineReturns(env, l, code, ret, d, h4, o + 4, 0);
    ByteItself(Cell(d));
    HoldsAnyCount(l, code, ret, d, h5.m.ram);
    RunNone(env, l, ret, h5);
  }
}
