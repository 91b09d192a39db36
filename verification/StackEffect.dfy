/** The stack-depth analysis and the machine: what a node does to the depth is what its instruction does to SP. */
module StackEffect {
  import opened Words
  import opened Instructions
  import opened Mnemonics
  import opened Isa
  import opened Assembly
  import opened Placement
  import opened StackDepth
  import Jumps
  import RoundTrip

  /**
   * But for calls and returns, SP moves down by the change of depth recorded for the node; not so for A_SP, whose
   * change is taken for zero: that is right exactly when A is SP.
   */
  lemma ChangeIsMachines(c: Context, i: nat, s: Arch)
    requires Loaded(c) && i < |c.nodes| && IsInst(c.nodes[i]) && c.nodes[i].op == OpcodeAt(s)
    requires c.nodes[i].op !in {CALL, CALLR, RET}
    ensures Step(s).sp == Wrap(s.sp - FlowOf(c, i).change) <==> (c.nodes[i].op == A_SP ==> s.a == s.sp)
  {
    hide JumpNode, SearchLabel, Read16, Write16, FlagsOf;
    var op := c.nodes[i].op;
    ChangeOf(c, i);
    if op <= PEEKB {
      hide ExecuteAlu, ExecuteJump, ExecuteMove, ExecuteStorage, ExecuteControl;
      assert Step(s) == ExecuteStack(op, s.(ip := Wrap(s.ip + 1)));
    } else {
      hide ExecuteStack;
      OthersKeepSp(s);
    }
  }

  lemma OthersKeepSp(s: Arch)
    requires OpcodeAt(s) > PEEKB && OpcodeAt(s) !in {CALL, CALLR, RET}
    ensures Step(s).sp == if OpcodeAt(s) == A_SP then s.a else s.sp
  {
    hide ExecuteStack, Read16, Write16, FlagsOf, BitAnd;
  }

  lemma ChangeOf(c: Context, i: nat)
    requires Loaded(c) && i < |c.nodes| && IsInst(c.nodes[i])
    ensures FlowOf(c, i).change ==
            if c.nodes[i].op in {PUSHA, PUSHB, DECSP} then 2 else if c.nodes[i].op in {POPA, POPB, INCSP} then -2 else 0
  {
    hide JumpNode, SearchLabel;
  }

  /** The calls are the instructions that push where they come from; no jump moves SP. */
  lemma CallsPush(c: Context, i: nat, s: Arch)
    requires Loaded(c) && i < |c.nodes| && IsInst(c.nodes[i]) && c.nodes[i].op == OpcodeAt(s)
    requires IsJumpOrCall(c.nodes[i].op) && FlowOf(c, i).next != -1
    ensures Step(s).sp == Wrap(s.sp - if FlowOf(c, i).call then 2 else 0)
    ensures FlowOf(c, i).call ==> WordIs(Step(s).ram, s.sp, Wrap(s.ip + 1)) && AlongBranch(c, Visit(i, 0)).depth == 0
  {
    hide JumpNode, SearchLabel, Read16, FlagsOf, ExecuteStack, ExecuteAlu, ExecuteMove, ExecuteStorage;
  }

  // ---------- the next node ----------

  /** The machine steps of a node: with a word operand there may be a NOP before. */
  function StepsOf(bc: Bytecode, at: nat): nat {
    if bc.Inst? || bc.InstHex? then 1 else Steps(at)
  }

  /** Nothing but the next node follows: no jump or call, or a conditional jump that is not taken. */
  predicate FallsThrough(bc: Bytecode, fr: Flags)
    requires IsInst(bc)
  {
    !IsJumpOrCall(bc.op) || (StackDepth.IsConditional(bc.op) && !Jumps.Taken(bc.op, fr))
  }

  /**
   * In a running program the next node of an instruction that is not left by a jump is where the machine goes on, and SP
   * has moved by the change recorded, A_SP apart.
   */
  lemma NextIsMachines(c: Context, i: nat, base: nat, s: Arch)
    requires Loaded(c) && i < |c.nodes| && IsInst(c.nodes[i]) && RoundTrip.WellFormed(c.nodes[i])
    requires Placed(c.nodes, base, s.ram) && s.ip == AddressAt(c.nodes, base, i)
    requires FlowOf(c, i).next != -1 && FallsThrough(c.nodes[i], s.fr)
    ensures FlowOf(c, i).next == i + 1
    ensures var t := Run(s, StepsOf(c.nodes[i], s.ip));
            && t.ip == AddressAt(c.nodes, base, i + 1) % 0x1_0000
            && (c.nodes[i].op != A_SP ==> t.sp == Wrap(s.sp - FlowOf(c, i).change))
  {
    hide Placed, AddressAt, Step, FlowOf, Jumps.Taken, Steps, RoundTrip.IsName, RoundTrip.IsQuotable;
    var bc, first, next := c.nodes[i], AddressAt(c.nodes, base, i), AddressAt(c.nodes, base, i + 1);
    NextOf(c, i, s.fr);
    assert Run(s, 1) == Step(s);
    if bc.Inst? {
      PlainInstruction(c.nodes, base, s, i);
      OpcodeByte(c.nodes, base, s, i);
      Passed(c, i, s, next);
    } else if bc.InstHex? {
      OpcodeByte(c.nodes, base, s, i);
      Passed(c, i, s, next);
    } else {
      WordPlaced(c.nodes, base, s.ram, i);
      AfterNop(s);
      Passed(c, i, if s.ip % 2 == 0 then s.(ip := s.ip + 1) else s, next);
    }
  }

  lemma NextOf(c: Context, i: nat, fr: Flags)
    requires Loaded(c) && i < |c.nodes| && IsInst(c.nodes[i])
    requires FlowOf(c, i).next != -1 && FallsThrough(c.nodes[i], fr)
    ensures FlowOf(c, i).next == i + 1 && c.nodes[i].op !in {RET, HLT, JMPA, JMPAR, CALL, CALLR, JMP, JMPR}
  {
    hide JumpNode, SearchLabel, Jumps.Taken;
  }

  /** The opcode stands at the address of a bytecode without word operand, which its size is behind. */
  lemma OpcodeByte(prog: Program, base: nat, s: Arch, i: nat)
    requires Placed(prog, base, s.ram) && i < |prog| && (prog[i].Inst? || prog[i].InstHex?) && s.ip == AddressAt(prog, base, i)
    ensures s.ram[s.ip] == prog[i].op && AddressAt(prog, base, i + 1) == s.ip + (if prog[i].Inst? then 1 else 2)
  {
    hide Placed, Raw;
    RawAt(prog, i);
    ByteThere(prog, base, s.ram, i, 0);
  }

  /** One step at the opcode passes its operand and moves SP by the change. */
  lemma Passed(c: Context, i: nat, s: Arch, next: nat)
    requires Loaded(c) && i < |c.nodes| && IsInst(c.nodes[i]) && RoundTrip.WellFormed(c.nodes[i])
    requires s.ram[s.ip] == c.nodes[i].op && FallsThrough(c.nodes[i], s.fr)
    requires c.nodes[i].op !in {RET, JMPA, JMPAR, CALL, CALLR, JMP, JMPR}
    requires next == s.ip + (if c.nodes[i].Inst? then 1 else if c.nodes[i].InstHex? then 2 else 3)
    ensures Step(s).ip == next % 0x1_0000
    ensures c.nodes[i].op != A_SP ==> Step(s).sp == Wrap(s.sp - FlowOf(c, i).change)
  {
    hide Step, FlowOf, Jumps.Taken, Read16, RoundTrip.IsName, RoundTrip.IsQuotable;
    OperandsAreRead(s);
    ChangeIsMachines(c, i, s);
  }

  // ---------- peeks ----------

  /** How far above SP the word is that a peek reads or a poke writes. */
  function PeekOffset(bc: Bytecode): nat
    requires IsInst(bc)
  {
    if bc.InstHex? then bc.num else 2
  }

  /** A peek is reported exactly when the word it reads is not one of the routine's own `depth` bytes. */
  lemma PeekReads(bc: Bytecode, depth: nat, s: Arch)
    requires IsInst(bc) && OpcodeAt(s) == bc.op && bc.op in {PEEKA, PEEKB, PEEKAR}
    requires bc.InstHex? <==> bc.op == PEEKAR
    requires bc.op == PEEKAR ==> 2 <= bc.num < 0x100 && s.ip + 1 < 0x1_0000 && s.ram[s.ip + 1] == bc.num
    ensures WordIs(s.ram, Wrap(s.sp + PeekOffset(bc)), if bc.op == PEEKB then Step(s).b else Step(s).a)
    ensures PeeksTooDeep(bc, depth) <==> !(2 <= PeekOffset(bc) <= depth)
  {
    hide ExecuteAlu, ExecuteJump, ExecuteMove, ExecuteStorage, ExecuteControl, Read16, WordIs, FlagsOf;
    var at := Wrap(s.sp + PeekOffset(bc));
    WordIsRead(s.ram, at, Read16(s.ram, at));
  }

  // ---------- numeric jumps ----------

  /**
   * The node of a numeric relative jump is the one at the code position the machine jumps to, when the code with those
   * positions begins at `base`.
   */
  lemma NumericJumpLands(c: Context, i: nat, base: nat, s: Arch)
    requires Loaded(c) && i < |c.nodes| && c.nodes[i].InstHex2? && IsJumpOrCall(c.nodes[i].op)
    requires Jumps.Taken(c.nodes[i].op, s.fr) && (c.nodes[i].op == CALLR ==> Jumps.StackAway(s))
    requires PositionOf(c.ipNodes, i) >= 0 && s.ip == base + PositionOf(c.ipNodes, i) && s.ip + 1 < 0x1_0000
    requires s.ram[s.ip] == c.nodes[i].op && WordIs(s.ram, s.ip + 1, c.nodes[i].num)
    ensures Displaced(c, i) < MAX_CODE_SIZE && Displaced(c, i) >= 0 ==>
              JumpNode(c, i) == c.ipNodes[Displaced(c, i)] && Step(s).ip == Wrap(base + Displaced(c, i))
  {
    hide Step, Read16, WordIs, Jumps.StackAway;
    WordIsRead(s.ram, s.ip + 1, c.nodes[i].num);
    Jumps.RelativeStep(s, c.nodes[i].op);
  }

  /** The code position its signed operand, counted from the operand itself, leads to. */
  function Displaced(c: Context, i: nat): int
    requires i < |c.nodes| && c.nodes[i].InstHex2?
  {
    var num := c.nodes[i].num;
    PositionOf(c.ipNodes, i) + 1 + (if num < 0x8000 then num else num - 0x1_0000)
  }
}
