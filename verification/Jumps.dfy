/** Assembled jumps land: from bytecodes through linking and loading to the instruction set. */
module Jumps {
  import opened Words
  import opened ObjectFiles
  import opened Linking
  import opened LinkingCorrect
  import opened Assembly
  import opened Toolchain
  import opened Loading
  import opened Isa
  import Instructions

  /** The bytes stand in memory from `start` on. */
  predicate Holds(ram: Ram, start: Word, code: seq<Byte>) {
    start + |code| <= 0x1_0000 && forall a :: 0 <= a < |code| ==> ram[start + a] == code[a]
  }

  /** A program built from sources, linked, and loaded at an even address. */
  ghost predicate Running(progs: seq<Program>, objs: seq<Obj>, libs: seq<Library>, shared: seq<Reloc>, start: Word, library: Word, s: Arch) {
    && Built(progs, objs) && Executable(objs, libs, shared)
    && start % 2 == 0 && Holds(s.ram, start, LoadedProgram(objs, libs, shared, start, library))
  }

  lemma {:induction false} OffsetEven(objs: seq<Obj>, k: nat)
    requires k <= |objs|
    ensures OffsetOf(objs, k) % 2 == 0
  {
    if k > 0 { OffsetEven(objs, k - 1); }
  }

  /** The machine's word fetch, blind to the lowest address bit, reads an even site exactly. */
  lemma FetchWord(ram: Ram, start: Word, code: seq<Byte>, at: nat)
    requires Holds(ram, start, code) && at + 2 <= |code| && (start + at) % 2 == 0
    ensures Read16(ram, start + at) == WordAt(code, at)
  {
    assert ram[start + at] == code[at] && ram[start + (at + 1)] == code[at + 1];
    assert (start + at) / 2 * 2 == start + at;
  }

  /** The opcode of a label instruction is loaded as written, just below an even site. */
  lemma OpcodeLoaded(progs: seq<Program>, objs: seq<Obj>, libs: seq<Library>, shared: seq<Reloc>, start: Word, library: Word,
                     k: nat, i: nat)
    requires Built(progs, objs) && Executable(objs, libs, shared) && k < |progs| && i < |progs[k]| && HasSite(progs[k][i])
    ensures var site, code := OffsetOf(objs, k) + SiteAt(progs[k], i), LoadedProgram(objs, libs, shared, start, library);
            1 <= site && site + 2 <= |code| && site % 2 == 0 && code[site - 1] == progs[k][i].op
  {
    hide Linkable, DefinedOnce, Events, Dynamics, Stands, OffsetOf, LinkedCode, SiteAt, Raw, Loaded, LoadedProgram, Located,
      SiteOf, Built, AllIndicesGood, Assemblable, Sizable, Distinct, LabelPos, Executable;
    TheyLink(progs, objs);
    ProgramOf(progs, objs, k);
    OperandAssembled(progs[k], objs[k], i);
    SiteInside(progs, objs, k, i);
    OpcodeLinked(progs, objs, k, i);
    OffsetEven(objs, k);
    OpcodeAlone(progs, objs, k, i);
    OtherLoaded(objs, libs, shared, start, library, OffsetOf(objs, k) + SiteAt(progs[k], i) - 1);
  }

  /** A relative operand is loaded as linked. */
  lemma DistanceLoaded(progs: seq<Program>, objs: seq<Obj>, libs: seq<Library>, shared: seq<Reloc>, start: Word, library: Word,
                       k: nat, i: nat)
    requires Built(progs, objs) && Executable(objs, libs, shared) && k < |progs| && i < |progs[k]| && progs[k][i].InstRelLabel?
    ensures var site, code := OffsetOf(objs, k) + SiteAt(progs[k], i), LoadedProgram(objs, libs, shared, start, library);
            && 0 <= site && site + 2 <= |code|
            && WordAt(code, site) == Wrap(LabelPos(progs[k], progs[k][i].name) - SiteAt(progs[k], i))
  {
    hide Linkable, DefinedOnce, Events, Dynamics, Stands, OffsetOf, LinkedCode, SiteAt, Raw, LabelPos, Wrap, Loaded,
      LoadedProgram, Located, SiteOf, Built, AllIndicesGood;
    TheyLink(progs, objs);
    var site := OffsetOf(objs, k) + SiteAt(progs[k], i);
    RelativeOperandLinked(progs, objs, k, i);
    RelativeAlone(progs, objs, k, i);
    OtherLoaded(objs, libs, shared, start, library, site);
    OtherLoaded(objs, libs, shared, start, library, site + 1);
  }

  lemma SiteInside(progs: seq<Program>, objs: seq<Obj>, k: nat, i: nat)
    requires Built(progs, objs) && k < |progs| && i < |progs[k]| && HasSite(progs[k][i])
    ensures OffsetOf(objs, k) + SiteAt(progs[k], i) + 2 <= |LinkedCode(objs)|
  {
    hide Linkable, DefinedOnce, Events, Stands, OffsetOf, SiteAt, Raw, Image;
    ProgramOf(progs, objs, k);
    TheyLink(progs, objs);
    OperandAssembled(progs[k], objs[k], i);
    Within(objs, k, |objs[k].code|);
    LinkedSize(objs);
  }

  lemma OpcodeAlone(progs: seq<Program>, objs: seq<Obj>, k: nat, i: nat)
    requires Built(progs, objs) && k < |progs| && i < |progs[k]| && HasSite(progs[k][i])
    ensures forall o :: Located(objs, o) ==>
              !(SiteOf(objs, o) <= OffsetOf(objs, k) + SiteAt(progs[k], i) - 1 < SiteOf(objs, o) + 2)
  {
    hide Linkable, DefinedOnce, Events, Stands, OffsetOf, SiteAt, Raw, SiteOf, Located;
    ProgramOf(progs, objs, k);
    OperandAssembled(progs[k], objs[k], i);
    forall x | 0 <= x < |progs[k]| && progs[k][x].InstLabel?
      ensures !(SiteAt(progs[k], x) <= SiteAt(progs[k], i) - 1 < SiteAt(progs[k], x) + 2)
    {
      OpcodeOutside(progs[k], i, x);
    }
    forall o | Located(objs, o)
      ensures !(SiteOf(objs, o) <= OffsetOf(objs, k) + SiteAt(progs[k], i) - 1 < SiteOf(objs, o) + 2)
    {
      NotAnOperand(progs, objs, k, SiteAt(progs[k], i) - 1, o);
    }
  }

  lemma RelativeAlone(progs: seq<Program>, objs: seq<Obj>, k: nat, i: nat)
    requires Built(progs, objs) && k < |progs| && i < |progs[k]| && progs[k][i].InstRelLabel?
    ensures forall o :: Located(objs, o) ==> Apart(SiteOf(objs, o), OffsetOf(objs, k) + SiteAt(progs[k], i))
  {
    hide Linkable, DefinedOnce, Events, Stands, OffsetOf, SiteAt, Raw, SiteOf, Located;
    var site := SiteAt(progs[k], i);
    ProgramOf(progs, objs, k);
    OperandAssembled(progs[k], objs[k], i);
    forall x | 0 <= x < |progs[k]| && progs[k][x].InstLabel? ensures Apart(SiteAt(progs[k], x), site) {
      DifferentSites(progs[k], x, i);
    }
    forall o | Located(objs, o) ensures Apart(SiteOf(objs, o), OffsetOf(objs, k) + site) {
      NotAnOperand(progs, objs, k, site, o);
      NotAnOperand(progs, objs, k, site + 1, o);
    }
  }

  /** An absolute operand in memory is the address of its label. */
  lemma AbsoluteOperandLoaded(progs: seq<Program>, objs: seq<Obj>, libs: seq<Library>, shared: seq<Reloc>, start: Word, library: Word,
                              s: Arch, k: nat, i: nat, k': nat)
    requires Running(progs, objs, libs, shared, start, library, s)
    requires k < |progs| && i < |progs[k]| && progs[k][i].InstLabel? && Binds(progs, k, progs[k][i].name, k')
    ensures var at := start + OffsetOf(objs, k) + SiteAt(progs[k], i);
            && 1 <= at && at + 2 <= 0x1_0000 && s.ram[at - 1] == progs[k][i].op
            && Read16(s.ram, at) == Wrap(AddressOf(progs, objs, k', progs[k][i].name) + start)
  {
    hide Linkable, DefinedOnce, Events, Dynamics, Stands, OffsetOf, LinkedCode, SiteAt, Raw, LabelPos, Wrap, Loaded, LoadedProgram,
      Located, SiteOf, WordOf, Settled, AddressOf, Read16, WordAt, Binds, Built;
    TheyLink(progs, objs);
    OpcodeLoaded(progs, objs, libs, shared, start, library, k, i);
    var site := OffsetOf(objs, k) + SiteAt(progs[k], i);
    var o := OperandOrigin(progs, objs, k, i, k');
    SettledLoaded(objs, libs, shared, start, library, o);
    FetchWord(s.ram, start, LoadedProgram(objs, libs, shared, start, library), site);
    assert s.ram[start + (site - 1)] == LoadedProgram(objs, libs, shared, start, library)[site - 1];
  }

  /** A relative operand in memory is the distance to its label. */
  lemma RelativeOperandLoaded(progs: seq<Program>, objs: seq<Obj>, libs: seq<Library>, shared: seq<Reloc>, start: Word, library: Word,
                              s: Arch, k: nat, i: nat)
    requires Running(progs, objs, libs, shared, start, library, s)
    requires k < |progs| && i < |progs[k]| && progs[k][i].InstRelLabel?
    ensures var at := start + OffsetOf(objs, k) + SiteAt(progs[k], i);
            && 1 <= at && at + 2 <= 0x1_0000 && s.ram[at - 1] == progs[k][i].op
            && Wrap(at + Read16(s.ram, at)) == Wrap(AddressOf(progs, objs, k, progs[k][i].name) + start)
  {
    hide Linkable, DefinedOnce, Events, Dynamics, Stands, OffsetOf, LinkedCode, SiteAt, Raw, LabelPos, Wrap, Loaded, LoadedProgram,
      Located, SiteOf, WordOf, Settled, Read16, WordAt, Built;
    TheyLink(progs, objs);
    OpcodeLoaded(progs, objs, libs, shared, start, library, k, i);
    DistanceLoaded(progs, objs, libs, shared, start, library, k, i);
    var site := OffsetOf(objs, k) + SiteAt(progs[k], i);
    FetchWord(s.ram, start, LoadedProgram(objs, libs, shared, start, library), site);
    assert s.ram[start + (site - 1)] == LoadedProgram(objs, libs, shared, start, library)[site - 1];
    WrapInner(start + site, LabelPos(progs[k], progs[k][i].name) - SiteAt(progs[k], i));
  }

  /** The machine is about to execute bytecode i of program k. */
  ghost predicate AtInstruction(progs: seq<Program>, objs: seq<Obj>, start: Word, s: Arch, k: nat, i: nat)
    requires k < |progs| == |objs| && i < |progs[k]| && HasSite(progs[k][i])
  {
    s.ip == start + OffsetOf(objs, k) + SiteAt(progs[k], i) - 1
  }

  /** The stack pointer is not on the operand the instruction is about to read. */
  predicate StackAway(s: Arch) {
    s.sp / 2 != Wrap(s.ip + 1) / 2
  }

  lemma PushAway(s: Arch, at: Word, w: Word)
    requires s.sp / 2 != at / 2
    ensures Read16(Push(s, w).ram, at) == Read16(s.ram, at)
  {
  }

  /**
   * A JMP or CALL to a label, of its own program or declared extern and defined by another, continues at the loaded
   * address of that label; the CALL leaves the address of its operand on the stack.
   */
  lemma AbsoluteJumpsLand(progs: seq<Program>, objs: seq<Obj>, libs: seq<Library>, shared: seq<Reloc>, start: Word, library: Word,
                          s: Arch, k: nat, i: nat, k': nat)
    requires Running(progs, objs, libs, shared, start, library, s)
    requires k < |progs| && i < |progs[k]| && progs[k][i].InstLabel? && Binds(progs, k, progs[k][i].name, k')
    requires progs[k][i].op == Instructions.JMP || (progs[k][i].op == Instructions.CALL && StackAway(s))
    requires AtInstruction(progs, objs, start, s, k, i)
    ensures Step(s).ip == Wrap(AddressOf(progs, objs, k', progs[k][i].name) + start)
    ensures progs[k][i].op == Instructions.CALL ==> Step(s).ram == Write16(s.ram, s.sp, Wrap(s.ip + 1)) && Step(s).sp == Wrap(s.sp - 2)
  {
    hide Running, OffsetOf, SiteAt, AddressOf, Read16, Binds, Write16;
    AbsoluteOperandLoaded(progs, objs, libs, shared, start, library, s, k, i, k');
    var t := s.(ip := s.ip + 1);
    if progs[k][i].op == Instructions.CALL {
      PushAway(t, t.ip, t.ip);
    }
  }

  /** The condition of a relative jump; CALLR has none. */
  predicate Taken(op: int, fr: Flags) {
    || op == Instructions.JMPR || op == Instructions.CALLR
    || (op == Instructions.JMPRZ && FlagZ(fr)) || (op == Instructions.JMPRNZ && !FlagZ(fr))
    || (op == Instructions.JMPRN && FlagN(fr)) || (op == Instructions.JMPRNN && !FlagN(fr))
    || (op == Instructions.JMPRC && FlagC(fr)) || (op == Instructions.JMPRNC && !FlagC(fr))
  }

  /** A taken relative jump or CALLR to a label continues at the label's loaded address, wherever the program is loaded. */
  lemma RelativeJumpsLand(progs: seq<Program>, objs: seq<Obj>, libs: seq<Library>, shared: seq<Reloc>, start: Word, library: Word,
                          s: Arch, k: nat, i: nat)
    requires Running(progs, objs, libs, shared, start, library, s)
    requires k < |progs| && i < |progs[k]| && progs[k][i].InstRelLabel? && Taken(progs[k][i].op, s.fr)
    requires progs[k][i].op == Instructions.CALLR ==> StackAway(s)
    requires AtInstruction(progs, objs, start, s, k, i)
    ensures Step(s).ip == Wrap(AddressOf(progs, objs, k, progs[k][i].name) + start)
  {
    hide Running, OffsetOf, SiteAt, AddressOf, Read16, Write16, FlagZ, FlagN, FlagC, FlagsOf, Wrap;
    RelativeOperandLoaded(progs, objs, libs, shared, start, library, s, k, i);
    RelativeStep(s, progs[k][i].op);
  }

  /** One step of a taken relative jump at an address where its operand follows. */
  lemma RelativeStep(s: Arch, op: int)
    requires s.ram[s.ip] == op && Taken(op, s.fr) && s.ip + 1 < 0x1_0000
    requires op == Instructions.CALLR ==> StackAway(s)
    ensures Step(s).ip == Wrap(s.ip + 1 + Read16(s.ram, s.ip + 1))
  {
    hide Read16, Write16, FlagZ, FlagN, FlagC, FlagsOf, ExecuteStack, ExecuteAlu, ExecuteMove, ExecuteStorage;
    var t := s.(ip := s.ip + 1);
    assert Wrap(s.ip + 1) == s.ip + 1;
    assert Step(s) == Execute(op, t);
    if op == Instructions.CALLR {
      hide ExecuteJump;
      PushAway(t, t.ip, t.ip);
    } else {
      hide ExecuteControl;
      assert Step(s) == ExecuteJump(op, t);
    }
  }
}
