/** Every other bytecode in a running program: where it stands in memory, and what the machine makes of it. */
module Placement {
  import opened Words
  import opened ObjectFiles
  import opened Linking
  import opened LinkingCorrect
  import opened Assembly
  import opened Toolchain
  import opened Loading
  import opened Isa
  import opened Jumps
  import opened Instructions
  import opened Mnemonics

  /** Where bytecode i of a program loaded at `base` stands. */
  function AddressAt(prog: Program, base: nat, i: nat): nat
    requires i <= |prog|
  {
    base + |Raw(prog[..i])|
  }

  /** The bytes of bytecode i, as it stands in its program. */
  function BytesAt(prog: Program, i: nat): seq<Byte>
    requires i < |prog|
  {
    BytesOf(prog[i], |Raw(prog[..i])|)
  }

  /** Byte a of bytecode i is not part of a label operand. */
  predicate Fixed(prog: Program, i: nat, a: nat) {
    i < |prog| && a < |BytesAt(prog, i)| && (HasSite(prog[i]) ==> a + 2 < |BytesAt(prog, i)|)
  }

  lemma RawAt(prog: Program, i: nat)
    requires i < |prog|
    ensures |Raw(prog[..i + 1])| == |Raw(prog[..i])| + |BytesAt(prog, i)| <= |Raw(prog)|
    ensures forall a :: 0 <= a < |BytesAt(prog, i)| ==> Raw(prog)[|Raw(prog[..i])| + a] == BytesAt(prog, i)[a]
  {
    hide Raw, BytesOf;
    assert prog[..i + 1] == prog[..i] + [prog[i]];
    RawSnoc(prog[..i], prog[i]);
    RawPrefix(prog, i + 1);
    forall a | 0 <= a < |BytesAt(prog, i)| ensures Raw(prog)[|Raw(prog[..i])| + a] == BytesAt(prog, i)[a] {
      assert Raw(prog)[|Raw(prog[..i])| + a] == Raw(prog[..i + 1])[|Raw(prog[..i])| + a];
    }
  }

  lemma OutsideSites(prog: Program, i: nat, a: nat)
    requires Fixed(prog, i, a)
    ensures !InSite(prog, |Raw(prog[..i])| + a) && !InAbsolute(prog, |Raw(prog[..i])| + a)
  {
    hide Raw, BytesOf;
    RawAt(prog, i);
    forall x | 0 <= x < |prog| && HasSite(prog[x]) ensures !(SiteAt(prog, x) <= |Raw(prog[..i])| + a < SiteAt(prog, x) + 2) {
      if x < i {
        RawPrefix(prog[..i], x + 1);
        assert prog[..i][..x + 1] == prog[..x + 1];
      } else if i < x {
        SiteShape(prog, x);
        RawPrefix(prog[..x], i + 1);
        assert prog[..x][..i + 1] == prog[..i + 1];
      }
    }
  }

  lemma ByteAssembled(prog: Program, obj: Obj, i: nat, a: nat)
    requires Stands(prog, obj) && Fixed(prog, i, a)
    ensures |Raw(prog[..i])| + a < |obj.code| && obj.code[|Raw(prog[..i])| + a] == BytesAt(prog, i)[a]
  {
    hide Raw, BytesOf, Declares, InSite;
    RawAt(prog, i);
    OutsideSites(prog, i, a);
  }

  predicate BytePlaced(prog: Program, base: nat, ram: Ram, i: nat, a: nat)
    requires i <= |prog|
  {
    Fixed(prog, i, a) ==> AddressAt(prog, base, i) + a < 0x1_0000 && ram[AddressAt(prog, base, i) + a] == BytesAt(prog, i)[a]
  }

  /** The program is in memory as emitted, but for its label operands. */
  ghost predicate Placed(prog: Program, base: nat, ram: Ram) {
    base % 2 == 0 && base + |Raw(prog)| <= 0x1_0000 && forall i, a :: 0 <= i <= |prog| && 0 <= a ==> BytePlaced(prog, base, ram, i, a)
  }

  lemma ByteLoaded(progs: seq<Program>, objs: seq<Obj>, libs: seq<Library>, shared: seq<Reloc>, start: Word, library: Word,
                   s: Arch, k: nat, i: nat, a: nat)
    requires Running(progs, objs, libs, shared, start, library, s) && k < |progs| == |objs| && i <= |progs[k]|
    ensures BytePlaced(progs[k], start + OffsetOf(objs, k), s.ram, i, a)
  {
    hide Linkable, DefinedOnce, Events, Dynamics, Stands, OffsetOf, LinkedCode, SiteAt, Raw, Loaded, LoadedProgram, Located,
      SiteOf, Built, AllIndicesGood, Assemblable, Sizable, Distinct, Executable, BytesOf, Fixed, InAbsolute, InSite, BytesAt;
    if i < |progs[k]| && Fixed(progs[k], i, a) {
      TheyLink(progs, objs);
      ProgramOf(progs, objs, k);
      var at := |Raw(progs[k][..i])| + a;
      OutsideSites(progs[k], i, a);
      ByteAssembled(progs[k], objs[k], i, a);
      ByteLinked(progs, objs, k, at);
      forall o | Located(objs, o) ensures !(SiteOf(objs, o) <= OffsetOf(objs, k) + at < SiteOf(objs, o) + 2) {
        NotAnOperand(progs, objs, k, at, o);
      }
      OtherLoaded(objs, libs, shared, start, library, OffsetOf(objs, k) + at);
      assert s.ram[start + (OffsetOf(objs, k) + at)] == LoadedProgram(objs, libs, shared, start, library)[OffsetOf(objs, k) + at];
    } else {
      NotFixed(progs[k], i, a);
    }
  }

  lemma NotFixed(prog: Program, i: nat, a: nat)
    ensures Fixed(prog, i, a) ==> i < |prog|
  {
  }

  /** In an assembled, linked and loaded program every program is placed at its object's offset. */
  lemma ProgramPlaced(progs: seq<Program>, objs: seq<Obj>, libs: seq<Library>, shared: seq<Reloc>, start: Word, library: Word,
                      s: Arch, k: nat)
    requires Running(progs, objs, libs, shared, start, library, s) && k < |progs| == |objs|
    ensures Placed(progs[k], start + OffsetOf(objs, k), s.ram)
  {
    hide Running, BytePlaced, OffsetOf, Raw;
    CodeInside(progs, objs, libs, shared, start, library, s, k);
    OffsetEven(objs, k);
    var prog, base := progs[k], start + OffsetOf(objs, k);
    forall i, a | 0 <= i <= |prog| && 0 <= a ensures BytePlaced(prog, base, s.ram, i, a) {
      ByteLoaded(progs, objs, libs, shared, start, library, s, k, i, a);
    }
  }

  lemma CodeInside(progs: seq<Program>, objs: seq<Obj>, libs: seq<Library>, shared: seq<Reloc>, start: Word, library: Word,
                   s: Arch, k: nat)
    requires Running(progs, objs, libs, shared, start, library, s) && k < |progs| == |objs|
    ensures start % 2 == 0 && start + OffsetOf(objs, k) + |Raw(progs[k])| <= 0x1_0000
  {
    hide Linkable, DefinedOnce, Events, Dynamics, OffsetOf, LinkedCode, Raw, Loaded, Built, AllIndicesGood, Assemblable, Sizable,
      Distinct, Executable, Declares, Image, Coherent, AllRelocs;
    TheyLink(progs, objs);
    ProgramOf(progs, objs, k);
    Within(objs, k, |objs[k].code|);
    LinkedSize(objs);
    LoadedSize(objs, libs, shared, start, library);
  }

  lemma LoadedSize(objs: seq<Obj>, libs: seq<Library>, shared: seq<Reloc>, start: Word, library: Word)
    requires Executable(objs, libs, shared)
    ensures |LoadedProgram(objs, libs, shared, start, library)| == |LinkedCode(objs)|
  {
    hide Linkable, DefinedOnce, Events, Dynamics, LinkedCode, AllIndicesGood, Coherent, AllRelocs, AllApart;
    SharedSites(objs, libs, shared);
    LoadedWords(LinkedCode(objs), AllRelocs(objs), shared, start, library);
  }

  lemma ByteThere(prog: Program, base: nat, ram: Ram, i: nat, a: nat)
    requires Placed(prog, base, ram) && i <= |prog|
    ensures BytePlaced(prog, base, ram, i, a) && base % 2 == 0 && base + |Raw(prog)| <= 0x1_0000
  {
    hide BytePlaced, Raw;
  }

  /** How many bytes of memory each bytecode takes; word operands come out even. */
  lemma Spans(prog: Program, base: nat, i: nat)
    requires base % 2 == 0 && i < |prog|
    ensures var at, next := AddressAt(prog, base, i), AddressAt(prog, base, i + 1);
            match prog[i]
            case Inst(_) => next == at + 1
            case InstHex(_, _) => next == at + 2
            case InstHex2(_, _) => next % 2 == 0 && 3 <= next - at <= 4
            case InstLabel(_, _) => next % 2 == 0 && 3 <= next - at <= 4
            case InstRelLabel(_, _) => next % 2 == 0 && 3 <= next - at <= 4
            case Hex(_) => next == at + 1
            case Hex2(_) => next == at + 2
            case Text(chars) => next == at + |chars|
            case Align => next % 2 == 0 && 0 <= next - at <= 1
            case Space(n) => next == at + n
            case _ => next == at
  {
    hide Raw;
    RawAt(prog, i);
  }

  // ---------- operands ----------

  /** A word operand is at an even address right behind its opcode, with a NOP before that at an even address. */
  lemma WordPlaced(prog: Program, base: nat, ram: Ram, i: nat)
    requires Placed(prog, base, ram) && i < |prog| && (prog[i].InstHex2? || prog[i].InstLabel? || prog[i].InstRelLabel?)
    ensures var first, next := AddressAt(prog, base, i), AddressAt(prog, base, i + 1);
            && next % 2 == 0 && first == (if first % 2 == 0 then next - 4 else next - 3) && next <= 0x1_0000
            && (first % 2 == 0 ==> ram[first] == NOP) && ram[next - 3] == prog[i].op
  {
    hide Raw, Placed;
    var n := |BytesAt(prog, i)|;
    RawAt(prog, i);
    ByteThere(prog, base, ram, i, 0);
    ByteThere(prog, base, ram, i, n - 3);
  }

  /** A number there is in memory low byte first. */
  lemma WordOperand(prog: Program, base: nat, s: Arch, i: nat)
    requires Placed(prog, base, s.ram) && i < |prog| && prog[i].InstHex2?
    ensures var next := AddressAt(prog, base, i + 1);
            && 3 <= next <= 0x1_0000
            && s.ram[next - 2] as int + 0x100 * (s.ram[next - 1] as int) == prog[i].num
  {
    hide Raw, Placed;
    var n := |BytesAt(prog, i)|;
    RawAt(prog, i);
    ByteThere(prog, base, s.ram, i, n - 2);
    ByteThere(prog, base, s.ram, i, n - 1);
  }

  /** How many instructions a padded one is: the NOP before it runs too. */
  function Steps(first: nat): nat {
    if first % 2 == 0 then 2 else 1
  }

  lemma NopStep(s: Arch)
    requires s.ram[s.ip] == NOP
    ensures Step(s) == s.(ip := Wrap(s.ip + 1))
  {
    hide ExecuteAlu, ExecuteJump, ExecuteMove, ExecuteStorage, ExecuteControl;
  }

  lemma AfterNop(s: Arch)
    requires s.ip % 2 == 0 ==> s.ram[s.ip] == NOP
    ensures Run(s, Steps(s.ip)) == Step(if s.ip % 2 == 0 then s.(ip := s.ip + 1) else s)
  {
    hide Step;
    assert Run(s, 1) == Step(s);
    if s.ip % 2 == 0 {
      NopStep(s);
      assert Run(s, 2) == Run(Step(s), 1) == Step(Step(s));
    }
  }

  /** The word goes into the register the opcode names, nothing else changes, and execution is at `next`. */
  predicate TakesWord(op: Byte, num: Word, next: nat, s: Arch, t: Arch) {
    t == if op == RAM_A then s.(a := num, ip := next % 0x1_0000) else s.(b := num, ip := next % 0x1_0000)
  }

  lemma WordFetched(s: Arch, num: Word)
    requires s.ip % 2 == 1 && s.ip + 2 < 0x1_0000 && s.ram[s.ip] in {RAM_A, RAM_B}
    requires s.ram[s.ip + 1] as int + 0x100 * (s.ram[s.ip + 2] as int) == num
    ensures TakesWord(s.ram[s.ip], num, s.ip + 3, s, Step(s))
  {
    hide ExecuteAlu, ExecuteJump, ExecuteMove, ExecuteStorage, ExecuteControl, Read16;
    WordsByBytes(s.ram, s.ip + 1);
  }

  lemma PaddedWordFetched(s: Arch, op: Byte, num: Word)
    requires op in {RAM_A, RAM_B} && s.ip + 3 < 0x1_0001 && (s.ip % 2 == 0 ==> s.ram[s.ip] == NOP && s.ip + 4 <= 0x1_0000)
    requires var at := if s.ip % 2 == 0 then s.ip + 1 else s.ip;
             at + 2 < 0x1_0000 && s.ram[at] == op && s.ram[at + 1] as int + 0x100 * (s.ram[at + 2] as int) == num
    ensures TakesWord(op, num, s.ip + 2 + Steps(s.ip), s, Run(s, Steps(s.ip)))
  {
    hide Step, Run;
    AfterNop(s);
    WordFetched(if s.ip % 2 == 0 then s.(ip := s.ip + 1) else s, num);
  }

  /** `RAM_A 0x1234` puts 0x1234 into A, `RAM_B` into B, nothing else changes, and the next bytecode is next. */
  lemma WordLoads(prog: Program, base: nat, s: Arch, i: nat)
    requires Placed(prog, base, s.ram) && i < |prog|
    requires prog[i].InstHex2? && prog[i].op in {RAM_A, RAM_B} && s.ip == AddressAt(prog, base, i)
    ensures TakesWord(prog[i].op, prog[i].num, AddressAt(prog, base, i + 1), s, Run(s, Steps(s.ip)))
  {
    hide Placed, AddressAt, Step, Run, TakesWord;
    WordPlaced(prog, base, s.ram, i);
    WordOperand(prog, base, s, i);
    PaddedWordFetched(s, prog[i].op, prog[i].num);
  }

  predicate HasByteOperand(bc: Bytecode) {
    bc.InstHex? && bc.op in {RAM_AL, RAM_BL, RAM_NDX, PEEKAR, PUSHAR, RAM_DRW}
  }

  /** What an instruction with byte operand n makes of it, execution going on at `next`. */
  predicate TakesByte(op: Byte, n: Byte, next: nat, s: Arch, t: Arch) {
    t.ip == next % 0x1_0000 &&
    if op == RAM_AL then t == s.(a := n, ip := t.ip)
    else if op == RAM_BL then t == s.(b := n, ip := t.ip)
    else if op == RAM_NDX then t == s.(ndx := n, ip := t.ip)
    else if op == PEEKAR then WordIs(s.ram, (s.sp + n) % 0x1_0000, t.a) && t.ram == s.ram
    else if op == PUSHAR then t.ram == Write16(s.ram, (s.sp + n) % 0x1_0000, s.a) && t.a == s.a
    else if s.b >= 0x8000 then t == s.(patterns := s.patterns[s.b - 0x8000 := n], ip := t.ip)
    else t == s.(attributes := s.attributes[s.b := n], ip := t.ip)
  }

  /** A byte operand is the low byte of its number; the register or memory it goes to, and the next bytecode. */
  lemma ByteOperands(prog: Program, base: nat, s: Arch, i: nat)
    requires Placed(prog, base, s.ram) && i < |prog|
    requires HasByteOperand(prog[i])
    requires s.ip == AddressAt(prog, base, i)
    ensures TakesByte(prog[i].op, prog[i].num % 0x100, AddressAt(prog, base, i + 1), s, Step(s))
  {
    hide Placed, Raw, Step, TakesByte;
    RawAt(prog, i);
    ByteThere(prog, base, s.ram, i, 0);
    ByteThere(prog, base, s.ram, i, 1);
    ByteFetched(s, prog[i].num % 0x100);
  }

  lemma ByteFetched(s: Arch, n: Byte)
    requires s.ip + 1 < 0x1_0000 && s.ram[s.ip] in {RAM_AL, RAM_BL, RAM_NDX, PEEKAR, PUSHAR, RAM_DRW} && s.ram[s.ip + 1] == n
    ensures TakesByte(s.ram[s.ip], n, s.ip + 2, s, Step(s))
  {
    hide Step, TakesByte;
    if s.ram[s.ip] == RAM_NDX {
      IndexFetched(s, n);
    } else if s.ram[s.ip] == RAM_DRW {
      DrawFetched(s, n);
    } else {
      StackByteFetched(s, n);
    }
  }

  lemma StackByteFetched(s: Arch, n: Byte)
    requires s.ip + 1 < 0x1_0000 && s.ram[s.ip] in {RAM_AL, RAM_BL, PEEKAR, PUSHAR} && s.ram[s.ip + 1] == n
    ensures TakesByte(s.ram[s.ip], n, s.ip + 2, s, Step(s))
  {
    hide ExecuteAlu, ExecuteJump, ExecuteMove, ExecuteStorage, ExecuteControl, Read16, Write16, FlagsOf, WordIs;
    WordIsRead(s.ram, (s.sp + n) % 0x1_0000, Read16(s.ram, (s.sp + n) % 0x1_0000));
  }

  lemma IndexFetched(s: Arch, n: Byte)
    requires s.ip + 1 < 0x1_0000 && s.ram[s.ip] == RAM_NDX && s.ram[s.ip + 1] == n
    ensures TakesByte(RAM_NDX, n, s.ip + 2, s, Step(s))
  {
    hide ExecuteAlu, ExecuteJump, ExecuteMove, ExecuteStack, ExecuteControl, Write16;
  }

  lemma DrawFetched(s: Arch, n: Byte)
    requires s.ip + 1 < 0x1_0000 && s.ram[s.ip] == RAM_DRW && s.ram[s.ip + 1] == n
    ensures TakesByte(RAM_DRW, n, s.ip + 2, s, Step(s))
  {
    hide ExecuteAlu, ExecuteJump, ExecuteMove, ExecuteStack, ExecuteStorage, Write16;
  }

  /** An instruction without operand is what the machine executes there. */
  lemma PlainInstruction(prog: Program, base: nat, s: Arch, i: nat)
    requires Placed(prog, base, s.ram) && i < |prog|
    requires prog[i].Inst? && s.ip == AddressAt(prog, base, i)
    ensures OpcodeAt(s) == prog[i].op % 64 && AddressAt(prog, base, i + 1) == s.ip + 1
  {
    hide Placed, Raw;
    RawAt(prog, i);
    ByteThere(prog, base, s.ram, i, 0);
  }

  // ---------- labels and data ----------

  /** A label's address is that of the bytecode behind it. */
  lemma LabelAddress(prog: Program, base: nat, j: nat)
    requires Assemblable(prog) && Sizable(prog) && j < |prog| && prog[j].SetLabel?
    ensures base + LabelPos(prog, prog[j].name) == AddressAt(prog, base, j) == AddressAt(prog, base, j + 1)
  {
    hide Raw, ExternsClean, AllSet;
    LabelStands(prog, j);
    RawAt(prog, j);
  }

  predicate ByteAt(ram: Ram, at: nat, bytes: seq<Byte>, x: nat) {
    x < |bytes| && at + x < 0x1_0000 && ram[at + x] == bytes[x]
  }

  predicate StandAt(ram: Ram, at: nat, bytes: seq<Byte>) {
    forall x :: 0 <= x < |bytes| ==> ByteAt(ram, at, bytes, x)
  }

  lemma BytesThere(prog: Program, base: nat, ram: Ram, i: nat)
    requires Placed(prog, base, ram) && i < |prog| && !HasSite(prog[i])
    ensures StandAt(ram, AddressAt(prog, base, i), BytesAt(prog, i))
  {
    hide Placed, Raw, AddressAt, BytesAt;
    var at, bytes := AddressAt(prog, base, i), BytesAt(prog, i);
    forall x | 0 <= x < |bytes| ensures ByteAt(ram, at, bytes, x) {
      ByteThere(prog, base, ram, i, x);
    }
  }

  function Zeros(n: nat): (bytes: seq<Byte>)
    ensures |bytes| == n && forall x :: 0 <= x < n ==> bytes[x] == 0
  {
    seq(n, _ => 0)
  }

  lemma SpaceIsZeros(num: Word, n: nat)
    ensures BytesOf(Space(num), n) == Zeros(num)
  {
    var bytes := BytesOf(Space(num), n);
    assert |bytes| == num && forall x :: 0 <= x < num ==> bytes[x] == 0;
  }

  /** A word at an even address is what a word access reads there. */
  predicate ReadsAs(ram: Ram, at: nat, num: Word) {
    at % 2 == 0 ==> at < 0x1_0000 && Read16(ram, at) == num
  }

  /** The data stand at the address byte by byte, words with their low byte first. */
  predicate DataStands(ram: Ram, at: nat, bc: Bytecode) {
    match bc
    case Hex(n) => StandAt(ram, at, [n % 0x100])
    case Hex2(n) => StandAt(ram, at, [n % 0x100, n / 0x100]) && ReadsAs(ram, at, n)
    case Text(chars) => StandAt(ram, at, chars)
    case Space(n) => StandAt(ram, at, Zeros(n))
    case _ => true
  }

  lemma DataLoaded(prog: Program, base: nat, s: Arch, i: nat)
    requires Placed(prog, base, s.ram) && i < |prog|
    ensures DataStands(s.ram, AddressAt(prog, base, i), prog[i])
  {
    hide Placed, Raw, AddressAt, ReadsAs, StandAt;
    var bc := prog[i];
    if bc.Hex? || bc.Hex2? || bc.Text? || bc.Space? {
      BytesThere(prog, base, s.ram, i);
      if bc.Space? { SpaceIsZeros(bc.num, |Raw(prog[..i])|); }
      if bc.Hex2? { WordStands(s.ram, AddressAt(prog, base, i), bc.num); }
    }
  }

  lemma WordStands(ram: Ram, at: nat, num: Word)
    requires StandAt(ram, at, [num % 0x100, num / 0x100])
    ensures ReadsAs(ram, at, num)
  {
    var bytes := [num % 0x100, num / 0x100];
    assert ByteAt(ram, at, bytes, 0) && ByteAt(ram, at, bytes, 1);
  }

  /** `RAM_A name` and `RAM_B name` load the address of the label, of their own program or another's. */
  lemma LabelLoads(progs: seq<Program>, objs: seq<Obj>, libs: seq<Library>, shared: seq<Reloc>, start: Word, library: Word,
                   s: Arch, k: nat, i: nat, k': nat)
    requires Running(progs, objs, libs, shared, start, library, s) && k < |progs| == |objs| && i < |progs[k]|
    requires progs[k][i].InstLabel? && progs[k][i].op in {RAM_A, RAM_B} && Binds(progs, k, progs[k][i].name, k')
    requires s.ip == AddressAt(progs[k], start + OffsetOf(objs, k), i)
    ensures TakesWord(progs[k][i].op, Wrap(AddressOf(progs, objs, k', progs[k][i].name) + start),
                      AddressAt(progs[k], start + OffsetOf(objs, k), i + 1), s, Run(s, Steps(s.ip)))
  {
    hide Running, AddressAt, Step, Run, AddressOf, Read16, Binds, Wrap, Placed, TakesWord, SiteAt, OffsetOf;
    AbsoluteOperandLoaded(progs, objs, libs, shared, start, library, s, k, i, k');
    ProgramPlaced(progs, objs, libs, shared, start, library, s, k);
    var base := start + OffsetOf(objs, k);
    WordPlaced(progs[k], base, s.ram, i);
    SitePlaced(progs[k], base, s.ram, i);
    WordsByBytes(s.ram, base + SiteAt(progs[k], i));
    PaddedWordFetched(s, progs[k][i].op, Read16(s.ram, base + SiteAt(progs[k], i)));
  }

  lemma WordsByBytes(ram: Ram, at: Word)
    requires at % 2 == 0
    ensures ram[at] as int + 0x100 * (ram[at + 1] as int) == Read16(ram, at)
  {
  }

  /** A label operand is at the end of its instruction. */
  lemma SitePlaced(prog: Program, base: nat, ram: Ram, i: nat)
    requires Placed(prog, base, ram) && i < |prog| && HasSite(prog[i])
    ensures base + SiteAt(prog, i) == AddressAt(prog, base, i + 1) - 2
  {
  }

  // ---------- in a running program ----------

  /** `RAM_A 0x1234` and `RAM_B 0x1234` in an assembled, linked and loaded program. */
  lemma NumberLoads(progs: seq<Program>, objs: seq<Obj>, libs: seq<Library>, shared: seq<Reloc>, start: Word, library: Word,
                    s: Arch, k: nat, i: nat)
    requires Running(progs, objs, libs, shared, start, library, s) && k < |progs| == |objs| && i < |progs[k]|
    requires progs[k][i].InstHex2? && progs[k][i].op in {RAM_A, RAM_B}
    requires s.ip == AddressAt(progs[k], start + OffsetOf(objs, k), i)
    ensures TakesWord(progs[k][i].op, progs[k][i].num, AddressAt(progs[k], start + OffsetOf(objs, k), i + 1), s, Run(s, Steps(s.ip)))
  {
    hide Running, AddressAt, Step, Run, Placed, TakesWord, OffsetOf, Steps;
    ProgramPlaced(progs, objs, libs, shared, start, library, s, k);
    WordLoads(progs[k], start + OffsetOf(objs, k), s, i);
  }

  /** The instructions with a byte operand there. */
  lemma SmallNumberLoads(progs: seq<Program>, objs: seq<Obj>, libs: seq<Library>, shared: seq<Reloc>, start: Word, library: Word,
                         s: Arch, k: nat, i: nat)
    requires Running(progs, objs, libs, shared, start, library, s) && k < |progs| == |objs| && i < |progs[k]|
    requires HasByteOperand(progs[k][i])
    requires s.ip == AddressAt(progs[k], start + OffsetOf(objs, k), i)
    ensures TakesByte(progs[k][i].op, progs[k][i].num % 0x100, AddressAt(progs[k], start + OffsetOf(objs, k), i + 1), s, Run(s, 1))
  {
    hide Running, AddressAt, Step, Placed, TakesByte, OffsetOf;
    ProgramPlaced(progs, objs, libs, shared, start, library, s, k);
    ByteOperands(progs[k], start + OffsetOf(objs, k), s, i);
    assert Run(s, 1) == Step(s);
  }

  /** The bytes of data behind a label of a running program, from the label's address on. */
  lemma DataAtLabel(progs: seq<Program>, objs: seq<Obj>, libs: seq<Library>, shared: seq<Reloc>, start: Word, library: Word,
                    s: Arch, k: nat, j: nat)
    requires Running(progs, objs, libs, shared, start, library, s) && k < |progs| == |objs| && j + 1 < |progs[k]|
    requires progs[k][j].SetLabel?
    ensures DataStands(s.ram, AddressOf(progs, objs, k, progs[k][j].name) + start, progs[k][j + 1])
  {
    hide Running, AddressAt, Placed, OffsetOf, DataStands, Raw, LabelPos, Assemblable, Sizable;
    ProgramPlaced(progs, objs, libs, shared, start, library, s, k);
    WellAssembled(progs, objs, libs, shared, start, library, s, k);
    LabelAddress(progs[k], start + OffsetOf(objs, k), j);
    DataLoaded(progs[k], start + OffsetOf(objs, k), s, j + 1);
  }

  /** A word of data behind a label is what rB_A reads at the label, if that is at an even address. */
  lemma WordRead(progs: seq<Program>, objs: seq<Obj>, libs: seq<Library>, shared: seq<Reloc>, start: Word, library: Word,
                 s: Arch, k: nat, j: nat)
    requires Running(progs, objs, libs, shared, start, library, s) && k < |progs| == |objs| && j + 1 < |progs[k]|
    requires progs[k][j].SetLabel? && progs[k][j + 1].Hex2? && OpcodeAt(s) == rB_A
    requires s.b == AddressOf(progs, objs, k, progs[k][j].name) + start && s.b % 2 == 0
    ensures Step(s).a == progs[k][j + 1].num
  {
    hide Running, AddressOf, Step, StandAt;
    DataAtLabel(progs, objs, libs, shared, start, library, s, k, j);
    WordStep(s, progs[k][j + 1].num);
  }

  lemma WordStep(s: Arch, num: Word)
    requires OpcodeAt(s) == rB_A && s.b % 2 == 0 && ReadsAs(s.ram, s.b, num)
    ensures Step(s).a == num
  {
    hide ExecuteStack, ExecuteAlu, ExecuteJump, ExecuteStorage, ExecuteControl, Read16;
  }

  lemma WellAssembled(progs: seq<Program>, objs: seq<Obj>, libs: seq<Library>, shared: seq<Reloc>, start: Word, library: Word,
                      s: Arch, k: nat)
    requires Running(progs, objs, libs, shared, start, library, s) && k < |progs|
    ensures Assemblable(progs[k]) && Sizable(progs[k])
  {
    hide Assemblable, Sizable, Stands, Linkable, Executable, Distinct, DefinedOnce, Events, Holds, LoadedProgram;
  }

  // ---------- operands and the machine ----------

  /** How far the machine moves IP is what the argument kind of the instruction says, or the jump its argument is for. */
  predicate OperandRead(kind: ArgKind, s: Arch, t: Arch) {
    var op, behind := s.ram[s.ip], Wrap(s.ip + 1);
    match kind
    case NoArgs => op in {JMPA, JMPAR, RET} || t.ip == behind
    case Bits8 => t.ip == Wrap(behind + 1)
    case Bits16 => t.ip == Wrap(behind + 2)
    case LabelArg => t.ip == Read16(s.ram, behind)
    case RelLabelArg => t.ip == Wrap(behind + if Taken(op, s.fr) then Read16(s.ram, behind) else 2)
  }

  lemma OperandsAreRead(s: Arch)
    requires IsInstruction(s.ram[s.ip]) && (s.ram[s.ip] in {CALL, CALLR} ==> StackAway(s))
    ensures OperandRead(ArgKindOf(s.ram[s.ip]), s, Step(s))
  {
    hide OperandRead, StackAway, ArgKindOf, Step;
    var op := s.ram[s.ip];
    if op <= PEEKB {
      StackOperand(s);
    } else if op <= CMPB || (JMPAR < op <= A_MEM) {
      MoveOperand(s);
    } else if op <= JMPAR {
      JumpOperand(s);
    } else {
      ControlOperand(s);
    }
  }

  lemma StackOperand(s: Arch)
    requires s.ram[s.ip] <= PEEKB
    ensures OperandRead(ArgKindOf(s.ram[s.ip]), s, Step(s))
  {
    hide Read16, Write16, FlagsOf, ExecuteAlu, ExecuteJump, ExecuteMove, ExecuteStorage, ExecuteControl, Taken;
  }

  lemma MoveOperand(s: Arch)
    requires PEEKB < s.ram[s.ip] <= CMPB || JMPAR < s.ram[s.ip] <= A_MEM
    ensures OperandRead(ArgKindOf(s.ram[s.ip]), s, Step(s))
  {
    hide Read16, Write16, FlagsOf, ExecuteStack, ExecuteJump, ExecuteControl, Taken, BitAnd;
  }

  lemma JumpOperand(s: Arch)
    requires JMP <= s.ram[s.ip] <= JMPAR
    ensures OperandRead(ArgKindOf(s.ram[s.ip]), s, Step(s))
  {
    hide Read16, Write16, FlagsOf, FlagZ, FlagN, FlagC, ExecuteStack, ExecuteAlu, ExecuteMove, ExecuteStorage, ExecuteControl;
  }

  lemma ControlOperand(s: Arch)
    requires CALL <= s.ram[s.ip] <= HLT && IsInstruction(s.ram[s.ip]) && (s.ram[s.ip] in {CALL, CALLR} ==> StackAway(s))
    ensures OperandRead(ArgKindOf(s.ram[s.ip]), s, Step(s))
  {
    hide Read16, Write16, FlagsOf, ExecuteStack, ExecuteAlu, ExecuteJump, ExecuteMove, ExecuteStorage;
    var t := s.(ip := Wrap(s.ip + 1));
    if s.ram[s.ip] in {CALL, CALLR} { PushAway(t, t.ip, t.ip); }
  }
}
