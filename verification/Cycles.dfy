/** Whole instructions and whole runs of the microcoded machine. */
module Cycles {
  import opened Words
  import opened Instructions
  import opened Isa
  import opened ControlRom
  import opened Tick
  import opened Refinement

  lemma TicksAdd(c: Cpu, m: nat, n: nat)
    ensures Ticks(c, m + n) == Ticks(Ticks(c, m), n)
    decreases m
  {
    hide TickOnce;
    if m > 0 { TicksAdd(TickOnce(c), m - 1, n); }
  }

  /** The machine after the two fetch ticks. */
  function Fetched(c: Cpu): Cpu {
    c.(mar := c.ip, ir := c.ram[c.ip], ip := Wrap(c.ip + 1), sc := 2, ticks := c.ticks + 2)
  }

  lemma FetchTicks(c: Cpu)
    requires c.sc == 0
    ensures Ticks(c, 1).sc == 1 && Ticks(c, 2) == Fetched(c)
  {
    hide Apply, Wrap, Alu;
    var c1 := TickOnce(c);
    assert c1 == Apply(c, IPo | MARi);
    Addressing(c);
    assert TickOnce(c1) == Apply(c1, RAM | RAMo | IRi | IPp);
    InstructionFetch(c1);
    assert Ticks(c, 1) == c1 && Ticks(c, 2) == Ticks(c1, 1) == TickOnce(c1);
  }

  lemma InstructionFetch(c: Cpu)
    ensures Apply(c, RAM | RAMo | IRi | IPp) == Next(c).(ip := Wrap(c.ip + 1), ir := c.ram[c.mar])
  {
    hide Wrap, Advance, Alu, Read16;
  }

  // ---------- straight-line instructions ----------

  /** Words that only move to the next step. */
  predicate Plain(mc: Micro) {
    !Has(mc, SCr) && !Has(mc, HALT) && !Has(mc, IRi)
  }

  /** Plain words closed by a step-counter reset. */
  predicate Linear(words: seq<Micro>) {
    && words != [] && words[|words| - 1] == SCr
    && forall i :: 0 <= i < |words| - 1 ==> Plain(words[i])
  }

  lemma LoadWordsAreLinear(op: Opcode)
    requires LoadWords(op) != []
    ensures Linear(LoadWords(op))
  {
  }

  lemma StackWordsAreLinear(op: Opcode)
    requires StackWords(op) != []
    ensures Linear(StackWords(op))
  {
  }

  lemma AluWordsAreLinear(op: Opcode)
    requires AluWords(op) != []
    ensures Linear(AluWords(op))
  {
  }

  lemma JumpWordsAreLinear(op: Opcode)
    requires JumpWords(op) != []
    ensures Linear(JumpWords(op))
  {
  }

  lemma MoveWordsAreLinear(op: Opcode)
    requires MoveWords(op) != []
    ensures Linear(MoveWords(op))
  {
  }

  lemma StorageWordsAreLinear(op: Opcode)
    requires StorageWords(op) != []
    ensures Linear(StorageWords(op))
  {
  }

  lemma ControlWordsAreLinear(op: Opcode)
    requires ControlWords(op) != [] && op != HLT
    ensures Linear(ControlWords(op))
  {
    if op <= RET { CallWordsAreLinear(op); } else { DeviceWordsAreLinear(op); }
  }

  lemma CallWordsAreLinear(op: Opcode)
    requires CALL <= op <= RET
    ensures Linear(ControlWords(op))
  {
  }

  lemma DeviceWordsAreLinear(op: Opcode)
    requires RET < op < HLT && ControlWords(op) != []
    ensures Linear(ControlWords(op))
  {
  }

  lemma StraightIsLinear(op: Opcode)
    requires Straight(op) != [] && op != HLT
    ensures Linear(Straight(op))
  {
    hide LoadWords, StackWords, AluWords, JumpWords, MoveWords, StorageWords, ControlWords, Linear;
    if op <= RAM_B { LoadWordsAreLinear(op); }
    else if op <= PEEKB { StackWordsAreLinear(op); }
    else if op <= CMPB { AluWordsAreLinear(op); }
    else if op <= JMPAR { JumpWordsAreLinear(op); }
    else if op <= SP_A { MoveWordsAreLinear(op); }
    else if op <= A_MEM { StorageWordsAreLinear(op); }
    else { ControlWordsAreLinear(op); }
  }

  lemma PlainTick(c: Cpu, mc: Micro)
    requires Plain(mc)
    ensures Apply(c, mc).sc == Advance(c.sc) && Apply(c, mc).ir == c.ir
  {
    hide Bus, Alu, NextIp, NextA, NextRam, StepSp, NextMem, NextPatterns, NextAttributes;
  }

  /** From step 2 + i on, the ticks apply the remaining words and end at step 0, not before. */
  lemma {:induction false} StraightTicks(c: Cpu, words: seq<Micro>, i: nat)
    requires words == Straight(c.ir % 64) && Linear(words) && !IsConditional(c.ir % 64)
    requires i < |words| && c.sc == 2 + i
    ensures Ticks(c, |words| - i) == ApplyFrom(c, words, i)
    ensures Ticks(c, |words| - i).sc == 0
    ensures forall k :: 0 <= k < |words| - i ==> Ticks(c, k).sc != 0
    decreases |words| - i
  {
    hide Apply, Straight;
    assert CurrentWord(c) == words[i];
    var c1 := Apply(c, words[i]);
    assert TickOnce(c) == c1;
    if i == |words| - 1 {
      LastWord(c, words);
      assert Ticks(c, 1) == c1;
    } else {
      PlainTick(c, words[i]);
      StraightTicks(c1, words, i + 1);
      forall k | 0 <= k < |words| - i ensures Ticks(c, k).sc != 0 {
        if k > 0 { assert Ticks(c, k) == Ticks(c1, k - 1); }
      }
    }
  }

  // ---------- idle steps ----------

  lemma IdleTick(c: Cpu)
    ensures Apply(c, 0) == Next(c)
  {
    hide Advance, Wrap, Alu;
  }

  /** With nothing in the ROM for the remaining steps, the step counter runs up to its wrap. */
  lemma {:induction false} IdleTicks(c: Cpu)
    requires c.sc >= 2
    requires forall s: StepCount :: s >= c.sc ==> MicroWord(c.ir % 64, s, c.fr) == 0
    ensures Ticks(c, 16 - c.sc) == c.(sc := 0, ticks := c.ticks + 16 - c.sc)
    ensures forall k :: 0 <= k < 16 - c.sc ==> Ticks(c, k).sc != 0
    decreases 16 - c.sc
  {
    hide Apply, MicroWord;
    IdleTick(c);
    var c1 := TickOnce(c);
    assert c1 == Next(c);
    if c.sc == 15 {
      assert Ticks(c, 1) == c1;
    } else {
      IdleTicks(c1);
      forall k | 0 <= k < 16 - c.sc ensures Ticks(c, k).sc != 0 {
        if k > 0 { assert Ticks(c, k) == Ticks(c1, k - 1); }
      }
    }
  }

  // ---------- conditional jumps ----------

  lemma SkippedTicks(c: Cpu)
    requires c.sc == 2 && IsConditional(c.ir % 64)
    requires !Selected(TestedFlag(c.ir % 64), Inverted(c.ir % 64), c.fr)
    ensures Ticks(c, 3) == c.(ip := Wrap(c.ip + 2), sc := 0, ticks := c.ticks + 2)
    ensures Ticks(c, 1).sc == 3 && Ticks(c, 2).sc == 4
  {
    hide Apply, Wrap, Selected;
    var c1 := TickOnce(c);
    FetchingOperands(c);
    assert c1 == Apply(c, IPp) == c.(ip := Wrap(c.ip + 1), sc := 3, ticks := c.ticks + 1);
    var c2 := TickOnce(c1);
    FetchingOperands(c1);
    assert c2 == Apply(c1, IPp);
    WrapTwice(c.ip);
    assert c2 == c.(ip := Wrap(c.ip + 2), sc := 4, ticks := c.ticks + 2);
    var c3 := TickOnce(c2);
    assert c3 == Apply(c2, SCr);
    Reset(c2);
    assert Ticks(c, 1) == c1 && Ticks(c, 2) == Ticks(c1, 1) == c2;
    assert Ticks(c, 3) == Ticks(c1, 2) == Ticks(c2, 1) == c3;
  }

  lemma Reset(c: Cpu)
    ensures Apply(c, SCr) == c.(sc := 0)
  {
  }

  /** The three ticks of a taken jump; the last one replaces the flags by those of its own addition. */
  lemma TakenTicks(c: Cpu)
    requires c.sc == 2 && IsConditional(c.ir % 64)
    requires Selected(TestedFlag(c.ir % 64), Inverted(c.ir % 64), c.fr)
    ensures var landed := Ticks(c, 3);
            && Visible(landed) == JumpRelative(Visible(c), c.ip, Read16(c.ram, c.ip))
            && landed.sc == 5 && landed.ir == c.ir
    ensures Ticks(c, 1).sc == 3 && Ticks(c, 2).sc == 4
  {
    hide Apply, Wrap, Selected, FlagsOf, Read16, Alu;
    var c1 := TickOnce(c);
    Addressing(c);
    assert c1 == Apply(c, IPo | MARi | Yi) == c.(mar := c.ip, y := c.ip, sc := 3, ticks := c.ticks + 1);
    var c2 := TickOnce(c1);
    FetchingOperands(c1);
    assert c2 == Apply(c1, RAM | RAMo | RAM16 | Xi) == c1.(x := Read16(c.ram, c.ip), sc := 4, ticks := c.ticks + 2);
    var c3 := TickOnce(c2);
    AluResults(c2);
    AluSum(c2.x, c2.y, ALUo | IPi);
    assert c3 == Apply(c2, ALUo | IPi);
    assert Ticks(c, 1) == c1 && Ticks(c, 2) == Ticks(c1, 1) == c2;
    assert Ticks(c, 3) == Ticks(c1, 2) == Ticks(c2, 1) == c3;
  }

  /**
   * After a taken jump the step-5 word is looked up under the new flags: a reset when the jump condition
   * still holds, nothing otherwise, and then the machine idles until the step counter wraps.
   */
  lemma LandedTicks(c: Cpu)
    requires c.sc == 5 && IsConditional(c.ir % 64)
    ensures var again := Selected(TestedFlag(c.ir % 64), Inverted(c.ir % 64), c.fr);
            var n := if again then 1 else 11;
            && Visible(Ticks(c, n)) == Visible(c) && Ticks(c, n).sc == 0
            && forall k :: 0 <= k < n ==> Ticks(c, k).sc != 0
  {
    hide Apply, Selected;
    if Selected(TestedFlag(c.ir % 64), Inverted(c.ir % 64), c.fr) {
      assert TickOnce(c) == Apply(c, SCr);
      Reset(c);
      assert Ticks(c, 1) == TickOnce(c);
    } else {
      IdleTicks(c);
    }
  }

  // ---------- one instruction ----------

  /** The exact number of ticks of the instruction at IP. */
  function CycleCount(s: Arch): (n: nat)
    ensures 3 <= n <= 16
  {
    var op := OpcodeAt(s);
    if op == HLT then 3
    else if IsConditional(op) then
      if !Selected(TestedFlag(op), Inverted(op), s.fr) then 5
      else if Selected(TestedFlag(op), Inverted(op), Step(s).fr) then 6
      else 16
    else if Straight(op) == [] then 16
    else 2 + |Straight(op)|
  }

  /** The condition a jump is named after. */
  predicate Holds(op: Opcode, fr: Flags) {
    if op == JMPRZ then FlagZ(fr) else if op == JMPRN then FlagN(fr) else if op == JMPRC then FlagC(fr)
    else if op == JMPRNZ then !FlagZ(fr) else if op == JMPRNN then !FlagN(fr) else !FlagC(fr)
  }

  /** The flag pattern test of the ROM is that condition. */
  lemma SelectedIsCondition(op: Opcode, fr: Flags)
    requires IsConditional(op)
    ensures Selected(TestedFlag(op), Inverted(op), fr) <==> Holds(op, fr)
  {
    var m := TestedFlag(op);
    assert BitAnd(m, fr, 3) == 2 * BitAnd(m / 2, fr / 2, 2) + if m % 2 == 1 && fr % 2 == 1 then 1 else 0;
    assert BitAnd(m / 2, fr / 2, 2) ==
           2 * BitAnd(m / 4, fr / 4, 1) + if m / 2 % 2 == 1 && fr / 2 % 2 == 1 then 1 else 0;
    assert BitAnd(m / 4, fr / 4, 1) == if m / 4 % 2 == 1 && fr / 4 % 2 == 1 then 1 else 0;
  }

  lemma ConditionalStep(op: Opcode, s: Arch)
    requires IsConditional(op)
    ensures ExecuteJump(op, s) == JumpIf(Holds(op, s.fr), s)
  {
    hide JumpIf, FlagZ, FlagN, FlagC;
  }

  /** Ticks after the fetch count on from the fetch. */
  lemma AfterFetch(c: Cpu, n: nat)
    requires c.sc == 0
    requires forall k :: 0 <= k < n ==> Ticks(Fetched(c), k).sc != 0
    ensures Ticks(c, n + 2) == Ticks(Fetched(c), n)
    ensures forall k :: 0 < k < n + 2 ==> Ticks(c, k).sc != 0
  {
    hide TickOnce;
    FetchTicks(c);
    TicksAdd(c, 2, n);
    forall k | 0 < k < n + 2 ensures Ticks(c, k).sc != 0 {
      if k >= 2 { TicksAdd(c, 2, k - 2); }
    }
  }

  /** The machine sits between two instructions, with a scan code waiting if the next one reads the keyboard. */
  predicate Boundary(c: Cpu) {
    c.sc == 0 && (OpcodeAt(Visible(c)) == KEY_A ==> c.keys != [])
  }

  /** What the microcode does with one instruction: `n` ticks, the architectural step, and no boundary before. */
  predicate OneStep(c: Cpu, n: nat) {
    && Visible(Ticks(c, n)) == Step(Visible(c))
    && Ticks(c, n).sc == (if OpcodeAt(Visible(c)) == HLT then 1 else 0)
    && forall k :: 0 < k < n ==> Ticks(c, k).sc != 0
  }

  lemma StraightInstruction(c: Cpu)
    requires Boundary(c)
    requires var op := OpcodeAt(Visible(c)); op != HLT && !IsConditional(op) && Straight(op) != []
    ensures OneStep(c, CycleCount(Visible(c)))
  {
    hide Straight, Apply, TickOnce, IsConditional;
    var op := OpcodeAt(Visible(c));
    var words, f := Straight(op), Fetched(c);
    StraightIsLinear(op);
    StraightTicks(f, words, 0);
    AfterFetch(c, |words|);
    assert Ticks(c, |words| + 2) == ApplyFrom(f, words, 0);
    EveryInstructionRefines(f, op);
  }

  lemma ConditionalInstruction(c: Cpu)
    requires Boundary(c) && IsConditional(OpcodeAt(Visible(c)))
    ensures OneStep(c, CycleCount(Visible(c)))
  {
    hide Selected, TestedFlag, Inverted, TickOnce, Wrap, Holds;
    var op := OpcodeAt(Visible(c));
    var f := Fetched(c);
    SelectedIsCondition(op, c.fr);
    ConditionalStep(op, Visible(c).(ip := Wrap(c.ip + 1)));
    assert Step(Visible(c)) == ExecuteJump(op, Visible(c).(ip := Wrap(c.ip + 1)));
    if !Selected(TestedFlag(op), Inverted(op), c.fr) {
      SkippedTicks(f);
      AfterFetch(c, 3);
    } else {
      TakenTicks(f);
      var landed := Ticks(f, 3);
      LandedTicks(landed);
      var n := if Selected(TestedFlag(op), Inverted(op), landed.fr) then 1 else 11;
      TicksAdd(f, 3, n);
      forall k | 0 <= k < 3 + n ensures Ticks(f, k).sc != 0 {
        if k >= 3 { TicksAdd(f, 3, k - 3); }
      }
      AfterFetch(c, 3 + n);
    }
  }

  lemma HaltInstruction(c: Cpu)
    requires Boundary(c) && OpcodeAt(Visible(c)) == HLT
    ensures OneStep(c, 3)
  {
    hide Wrap, Alu, FlagsOf, Ticks;
    var f := Fetched(c);
    var h := TickOnce(f);
    assert h == Apply(f, HALT);
    assert h == f.(running := false, sc := 1, ticks := f.ticks + 1);
    OneTick(f);
    hide Apply, TickOnce;
    AfterFetch(c, 1);
  }

  lemma OneTick(c: Cpu)
    ensures Ticks(c, 0) == c && Ticks(c, 1) == TickOnce(c)
  {
    hide TickOnce;
    assert Ticks(TickOnce(c), 0) == TickOnce(c);
  }

  /** Opcodes 59 to 62 have no words: sixteen ticks that only move IP past the opcode. */
  lemma UnusedInstruction(c: Cpu)
    requires Boundary(c)
    requires var op := OpcodeAt(Visible(c)); !IsConditional(op) && Straight(op) == []
    ensures OneStep(c, 16)
  {
    hide Apply, TickOnce, Wrap;
    var f := Fetched(c);
    IdleTicks(f);
    AfterFetch(c, 14);
  }

  /**
   * The microcode refines the instruction set: from any instruction boundary the machine reaches the next one
   * after exactly CycleCount ticks, at most sixteen, having performed exactly one architectural step.
   */
  lemma MicrocodeRefinesIsa(c: Cpu)
    requires Boundary(c)
    ensures OneStep(c, CycleCount(Visible(c)))
  {
    hide Straight, OneStep, Selected;
    var op := OpcodeAt(Visible(c));
    if op == HLT { HaltInstruction(c); }
    else if IsConditional(op) { ConditionalInstruction(c); }
    else if Straight(op) == [] { UnusedInstruction(c); }
    else { StraightInstruction(c); }
  }

  // ---------- whole runs ----------

  /** The next instructions neither halt nor read an empty keyboard. */
  predicate Proceeds(s: Arch, n: nat)
    decreases n
  {
    n == 0 || (OpcodeAt(s) != HLT && (OpcodeAt(s) == KEY_A ==> s.keys != []) && Proceeds(Step(s), n - 1))
  }

  /** Ticks of a run of n instructions. */
  function TotalCycles(s: Arch, n: nat): (t: nat)
    ensures 3 * n <= t <= 16 * n
    decreases n
  {
    if n == 0 then 0 else CycleCount(s) + TotalCycles(Step(s), n - 1)
  }

  /** n instructions take TotalCycles ticks, at most 16 n, and end in the architectural state. */
  lemma {:induction false} RunsRefine(c: Cpu, n: nat)
    requires c.sc == 0 && Proceeds(Visible(c), n)
    ensures var c' := Ticks(c, TotalCycles(Visible(c), n));
            c'.sc == 0 && Visible(c') == Run(Visible(c), n)
    decreases n
  {
    hide Step, CycleCount, TickOnce, OpcodeAt;
    if n > 0 {
      var s := Visible(c);
      MicrocodeRefinesIsa(c);
      var next := Ticks(c, CycleCount(s));
      RunsRefine(next, n - 1);
      TicksAdd(c, CycleCount(s), TotalCycles(Step(s), n - 1));
    }
  }

  /** Conversely, every tick count at which the step counter is back at zero is the end of a run of instructions. */
  lemma {:induction false} BoundariesAreRuns(c: Cpu, t: nat) returns (n: nat)
    requires c.sc == 0 && Proceeds(Visible(c), t) && Ticks(c, t).sc == 0
    ensures n <= t && t == TotalCycles(Visible(c), n) && Visible(Ticks(c, t)) == Run(Visible(c), n)
    decreases t
  {
    hide Step, CycleCount, TickOnce, OpcodeAt;
    if t == 0 { return 0; }
    var s := Visible(c);
    MicrocodeRefinesIsa(c);
    var first := CycleCount(s);
    assert t >= first;
    TicksAdd(c, first, t - first);
    ProceedsLess(Step(s), t - 1, t - first);
    var rest := BoundariesAreRuns(Ticks(c, first), t - first);
    n := rest + 1;
  }

  lemma ProceedsLess(s: Arch, n: nat, m: nat)
    requires m <= n && Proceeds(s, n)
    ensures Proceeds(s, m)
    decreases n
  {
    hide Step, OpcodeAt;
    if m > 0 { ProceedsLess(Step(s), n - 1, m - 1); }
  }
}
