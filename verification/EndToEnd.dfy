/** From sources to a booted program: linked executables satisfy the machine's loader, and start where they should. */
module EndToEnd {
  import opened Words
  import opened ObjectFiles
  import opened Linking
  import opened LinkingCorrect
  import opened Assembly
  import opened Toolchain
  import opened Loading
  import opened PageLoader
  import opened Formats
  import opened Isa
  import opened Jumps
  import Instructions

  /** Every site the linker lists for an assembled program is even. */
  lemma OriginEven(progs: seq<Program>, objs: seq<Obj>, o: Origin)
    requires Built(progs, objs) && Located(objs, o)
    ensures SiteOf(objs, o) % 2 == 0
  {
    hide Linkable, DefinedOnce, Events, Stands, OffsetOf, Raw, SiteAt, Built, Assemblable, Sizable, Distinct, Externs, LabelPos;
    TheyLink(progs, objs);
    ProgramOf(progs, objs, o.k);
    OffsetEven(objs, o.k);
    var i;
    if o.Local? { i := LocalSite(progs[o.k], objs[o.k], o.i); } else { i := ExternSite(progs[o.k], objs[o.k], o.e, o.j); }
    SiteShape(progs[o.k], i);
  }

  /** What the linker makes of assembled programs is what the machine's loader needs. */
  lemma LinkedIsLoadable(progs: seq<Program>, objs: seq<Obj>, libs: seq<Library>, shared: seq<Reloc>, symbols: seq<Symbol>)
    requires Built(progs, objs) && Executable(objs, libs, shared)
    requires var exe := Exe(LinkedCode(objs), AllRelocs(objs), [Dynamic(STDLIB, shared)], symbols);
             GoodExe(exe) && exe.code != [] && shared != []
    ensures Loadable(Exe(LinkedCode(objs), AllRelocs(objs), [Dynamic(STDLIB, shared)], symbols))
  {
    hide Linkable, DefinedOnce, AllRelocs, LinkedCode, Events, Built, Dynamics, SiteOf, Located, WordOf, GoodExe, ExportPos, Coherent;
    TheyLink(progs, objs);
    SharedSites(objs, libs, shared);
    LinkedSize(objs);
    ImageEven(objs);
    forall x | 0 <= x < |AllRelocs(objs)| ensures AllRelocs(objs)[x].where % 2 == 0 {
      var o := OriginFrom(objs, AllRelocs(objs)[x]);
      OriginEven(progs, objs, o);
    }
    forall x | 0 <= x < |shared| ensures shared[x].where % 2 == 0 {
      var k, e, j, i, _ := SharedSiteOnly(objs, libs, 0, shared[x]);
      OriginEven(progs, objs, Outer(k, e, j));
    }
  }

  /** A page holding the loaded executable is the running program. */
  lemma LoadedPageRuns(progs: seq<Program>, objs: seq<Obj>, libs: seq<Library>, shared: seq<Reloc>, start: Word, library: Word,
                       before: seq<Byte>, s: Arch)
    requires Built(progs, objs) && Executable(objs, libs, shared) && start % 2 == 0
    requires InRange(AllRelocs(objs), |LinkedCode(objs)|) && InRange(shared, |LinkedCode(objs)|)
    requires PageHolds(before, s.ram, start, Loaded(LinkedCode(objs), AllRelocs(objs), shared, start, library))
    ensures Running(progs, objs, libs, shared, start, library, s)
  {
    hide Built, Executable, Loaded, AllRelocs, LinkedCode;
    var code := LoadedProgram(objs, libs, shared, start, library);
    forall a | 0 <= a < |code| ensures s.ram[start + a] == code[a] {
      assert s.ram[start..start + |code|][a] == code[a];
    }
  }

  /** The first byte of an executable is the NOP of its start-up object. */
  lemma FirstByteLoaded(progs: seq<Program>, objs: seq<Obj>, libs: seq<Library>, shared: seq<Reloc>, start: Word, library: Word)
    requires Built(progs, objs) && Executable(objs, libs, shared)
    requires |progs| > 0 && progs[0] == BOOTSTRAP && objs[0] == BOILERPLATE
    ensures |LoadedProgram(objs, libs, shared, start, library)| > 0
    ensures LoadedProgram(objs, libs, shared, start, library)[0] == Instructions.NOP
  {
    hide Linkable, DefinedOnce, Events, Dynamics, Stands, LinkedCode, SiteAt, Raw, Loaded, LoadedProgram, Located, SiteOf, Built,
      AllIndicesGood, Executable;
    TheyLink(progs, objs);
    BootstrapStands();
    assert !InAbsolute(BOOTSTRAP, 0);
    assert OffsetOf(objs, 0) == 0;
    ByteLinked(progs, objs, 0, 0);
    forall o | Located(objs, o) ensures !(SiteOf(objs, o) <= 0 < SiteOf(objs, o) + 2) {
      NotAnOperand(progs, objs, 0, 0, o);
    }
    OtherLoaded(objs, libs, shared, start, library, 0);
  }

  lemma NopStep(s: Arch)
    requires s.ip + 1 < 0x1_0000 && s.ram[s.ip] == Instructions.NOP
    ensures Step(s) == s.(ip := s.ip + 1)
  {
    hide ExecuteAlu, ExecuteMove, ExecuteStorage, ExecuteControl, ExecuteJump;
  }

  lemma JmpStep(s: Arch)
    requires s.ip + 1 < 0x1_0000 && s.ram[s.ip] == Instructions.JMP
    ensures Step(s) == s.(ip := Read16(s.ram, s.ip + 1))
  {
    hide Read16, ExecuteStack, ExecuteAlu, ExecuteMove, ExecuteStorage, ExecuteControl;
  }

  /** NOP and JMP: two steps to the address in the operand, nothing else changed. */
  lemma NopThenJmp(s: Arch)
    requires s.ip + 4 <= 0x1_0000 && s.ram[s.ip] == Instructions.NOP && s.ram[s.ip + 1] == Instructions.JMP
    ensures Run(s, 2) == s.(ip := Read16(s.ram, s.ip + 2))
  {
    hide Read16, Step;
    NopStep(s);
    JmpStep(s.(ip := s.ip + 1));
    assert Run(s, 2) == Run(Step(s), 1) == Run(Step(Step(s)), 0);
  }

  /** A loaded executable entered at its start is two instructions later at the `_start` of the program defining it. */
  lemma ExecutableBoots(progs: seq<Program>, objs: seq<Obj>, libs: seq<Library>, shared: seq<Reloc>, start: Word, library: Word,
                        s: Arch, k: nat)
    requires Running(progs, objs, libs, shared, start, library, s)
    requires |progs| > 0 && progs[0] == BOOTSTRAP && objs[0] == BOILERPLATE
    requires k < |progs| && "_start" in Globals(progs[k]) && s.ip == start
    ensures Run(s, 2) == s.(ip := Wrap(AddressOf(progs, objs, k, "_start") + start))
  {
    hide LoadedProgram, Built, Executable, SiteAt, LabelPos, Globals, Externs, Run, Read16, Raw, AbsoluteSites, RelativeSites, AddressOf;
    FirstByteLoaded(progs, objs, libs, shared, start, library);
    assert s.ram[start + 0] == Instructions.NOP;
    BootstrapStands();
    BootstrapLayout();
    assert BOOTSTRAP[1] == InstLabel(Instructions.JMP, "_start");
    AbsoluteOperandLoaded(progs, objs, libs, shared, start, library, s, 0, 1, k);
    assert OffsetOf(objs, 0) == 0;
    NopThenJmp(s);
  }
}
