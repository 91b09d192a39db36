/** One clock tick of the microcoded machine, as a function of its state and as the in-place update it is. */
module Tick {
  import opened Words
  import opened Isa
  import opened ControlRom

  /** Everything `tick` reads or writes. The key queue holds the pending scan codes, oldest first. */
  datatype Cpu = Cpu(
    a: Word, b: Word, sp: Word, ip: Word, x: Word, y: Word, mar: Word, sec: Sector,
    ndx: Byte, fr: Flags, sc: StepCount, ir: Byte,
    ram: Ram, mem: Mem, keys: seq<Byte>,
    gpua: Word, attributes: VideoRam, patterns: VideoRam,
    running: bool, ticks: nat)

  /** The word the ROM holds for the current opcode, step and flags. */
  function CurrentWord(c: Cpu): Micro {
    MicroWord(c.ir % 64, c.sc, c.fr)
  }

  datatype AluResult = AluResult(out: Word, fr: Flags)

  function Alu(x: Word, y: Word, mc: Micro): AluResult {
    if Has(mc, ALU_AND) then
      var out := BitAnd(x, y, 16);
      AluResult(out, FlagsOf(out, false))
    else if Has(mc, ALU_SHR) then AluResult(x / 2, FlagsOf(x / 2, x % 2 == 1))
    else
      var inverted := if Has(mc, ALU_SUB) then 0xFFFF - x else x;
      var result := if Has(mc, Ci) then Wrap(inverted + 1) else inverted;
      AluResult(Wrap(result + y), FlagsOf(Wrap(result + y), result + y >= 0x1_0000))
  }

  /** The last line that drives the bus wins. */
  function Bus(c: Cpu, mc: Micro): Word {
    if Has(mc, KEYo) && c.keys != [] then c.keys[0]
    else if Has(mc, SECo) then c.sec
    else if Has(mc, MEMo) then c.mem[MemIndex(c.sec, c.ndx)]
    else if Has(mc, NDXo) then c.ndx
    else if Has(mc, SPo) then c.sp
    else if Has(mc, ALUo) then Alu(c.x, c.y, mc).out
    else if Has(mc, RAM) && Has(mc, RAMo) then if Has(mc, RAM16) then Read16(c.ram, c.mar) else c.ram[c.mar]
    else if Has(mc, Bo) then c.b
    else if Has(mc, Ao) then c.a
    else if Has(mc, IPo) then c.ip
    else 0
  }

  function NextIp(ip: Word, mc: Micro, bus: Word): Word {
    var loaded := if Has(mc, IPi) then bus else ip;
    if Has(mc, IPp) then Wrap(loaded + 1) else loaded
  }

  function NextA(a: Word, mc: Micro, bus: Word): Word {
    var loaded := if Has(mc, Ai) then bus else a;
    if Has(mc, AHi) then FromBytes(LowByte(loaded), LowByte(bus)) else loaded
  }

  /** SPu moves the stack pointer by one word before SPi may overwrite it. */
  function StepSp(sp: Word, mc: Micro): Word {
    if Has(mc, SPu) then Wrap(sp + if Has(mc, SPm) then -2 else 2) else sp
  }

  function NextRam(ram: Ram, mar: Word, mc: Micro, bus: Word): Ram {
    if Has(mc, RAM) && !Has(mc, RAMo)
    then if Has(mc, RAM16) then Write16(ram, mar, bus) else ram[mar := LowByte(bus)]
    else ram
  }

  /** The registers and the RAM written from the bus, before the step counter is looked at. */
  function Latch(c: Cpu, mc: Micro, bus: Word): Cpu {
    var mar := if Has(mc, MARi) then bus else c.mar;
    c.(fr := if Has(mc, ALUo) then Alu(c.x, c.y, mc).fr else c.fr,
       keys := if Has(mc, KEYo) && c.keys != [] then c.keys[1..] else c.keys,
       ip := NextIp(c.ip, mc, bus),
       a := NextA(c.a, mc, bus),
       mar := mar,
       b := if Has(mc, Bi) then bus else c.b,
       ram := NextRam(c.ram, mar, mc, bus),
       x := if Has(mc, Xi) then bus else c.x,
       y := if Has(mc, Yi) then bus else c.y,
       sp := if Has(mc, SPi) then bus else StepSp(c.sp, mc),
       ir := if Has(mc, IRi) then LowByte(bus) else c.ir)
  }

  function Advance(sc: StepCount): StepCount {
    (sc + 1) % 16
  }

  function NextMem(mem: Mem, sec: Sector, ndx: Byte, mc: Micro, bus: Word): Mem {
    if Has(mc, MEMi) then mem[MemIndex(sec, ndx) := LowByte(bus)] else mem
  }

  function NextPatterns(patterns: VideoRam, gpua: Word, mc: Micro, bus: Word): VideoRam {
    if Has(mc, GPUi) && gpua >= 0x8000 then patterns[gpua - 0x8000 := LowByte(bus)] else patterns
  }

  function NextAttributes(attributes: VideoRam, gpua: Word, mc: Micro, bus: Word): VideoRam {
    if Has(mc, GPUi) && gpua < 0x8000 then attributes[gpua := LowByte(bus)] else attributes
  }

  /** The updates skipped by a step-counter reset. */
  function LatchLate(c: Cpu, mc: Micro, bus: Word): Cpu {
    var sec := if Has(mc, SECi) then bus % 0x1000 else c.sec;
    var ndx := if Has(mc, NDXi) then LowByte(bus) else c.ndx;
    var gpua := if Has(mc, GPUAi) then bus else c.gpua;
    c.(sec := sec, ndx := ndx, mem := NextMem(c.mem, sec, ndx, mc, bus),
       gpua := gpua, patterns := NextPatterns(c.patterns, gpua, mc, bus),
       attributes := NextAttributes(c.attributes, gpua, mc, bus),
       sc := Advance(c.sc),
       ticks := c.ticks + 1)
  }

  function Apply(c: Cpu, mc: Micro): Cpu {
    var halted := if Has(mc, HALT) then c.(running := false, sc := 0) else c;
    var bus := Bus(halted, mc);
    var latched := Latch(halted, mc, bus);
    if Has(mc, SCr) then latched.(sc := 0) else LatchLate(latched, mc, bus)
  }

  function TickOnce(c: Cpu): Cpu {
    Apply(c, CurrentWord(c))
  }

  function Ticks(c: Cpu, n: nat): Cpu
    decreases n
  {
    if n == 0 then c else Ticks(TickOnce(c), n - 1)
  }

  /** The ROM buffer holds the microprogram. */
  ghost predicate Burnt(rom: array<Micro>)
    reads rom
  {
    && rom.Length == ROM_SIZE
    && forall op: Opcode, s: StepCount, fr: Flags :: rom[Index(op, s, fr)] == MicroWord(op, s, fr)
  }

  /** The programmer-visible part. */
  function Visible(c: Cpu): Arch {
    Arch(c.a, c.b, c.sp, c.ip, c.sec, c.ndx, c.fr, c.ram, c.mem, c.keys, c.attributes, c.patterns, c.running)
  }

  /** The simulator's machine: registers in fields, memories in buffers updated in place. */
  class Simulator {
    var a: Word
    var b: Word
    var sp: Word
    var ip: Word
    var x: Word
    var y: Word
    var mar: Word
    var sec: Sector
    var ndx: Byte
    var fr: Flags
    var sc: StepCount
    var ir: Byte
    const ram: array<Byte>
    const mem: array<Byte>
    var keys: seq<Byte>
    var gpua: Word
    const attributes: array<Byte>
    const patterns: array<Byte>
    var running: bool
    ghost var ticks: nat

    /** The buffers are distinct and have the simulator's sizes. */
    ghost predicate Valid() {
      && ram.Length == 0x1_0000 && mem.Length == 0x10_0000
      && attributes.Length == 0x8000 && patterns.Length == 0x8000
      && ram != mem && ram != attributes && ram != patterns
      && mem != attributes && mem != patterns && attributes != patterns
    }

    ghost function State(): Cpu
      requires Valid()
      reads this, ram, mem, attributes, patterns
    {
      Cpu(a, b, sp, ip, x, y, mar, sec, ndx, fr, sc, ir, ram[..], mem[..], keys,
          gpua, attributes[..], patterns[..], running, ticks)
    }

    /** The lines that put a value on the bus, in the simulator's order. */
    method DriveBus(mc: Micro) returns (bus: Word)
      requires Valid()
      modifies this`fr, this`sp, this`keys
      ensures bus == Bus(old(State()), mc)
      ensures fr == if Has(mc, ALUo) then Alu(x, y, mc).fr else old(fr)
      ensures sp == StepSp(old(sp), mc)
      ensures keys == if Has(mc, KEYo) && old(keys) != [] then old(keys)[1..] else old(keys)
    {
      hide Alu;
      ghost var c := State();
      bus := 0;
      if Has(mc, IPo) { bus := ip; }
      if Has(mc, Ao) { bus := a; }
      if Has(mc, Bo) { bus := b; }
      if Has(mc, RAM) && Has(mc, RAMo) {
        bus := if Has(mc, RAM16) then FromBytes(ram[mar / 2 * 2], ram[mar / 2 * 2 + 1]) else ram[mar];
        assert bus == if Has(mc, RAM16) then Read16(c.ram, c.mar) else c.ram[c.mar];
      }
      if Has(mc, ALUo) {
        bus, fr := RunAlu(mc);
      }
      if Has(mc, SPo) { bus := sp; }
      if Has(mc, SPu) { sp := Wrap(sp + if Has(mc, SPm) then -2 else 2); }
      if Has(mc, NDXo) { bus := ndx; }
      if Has(mc, MEMo) {
        bus := mem[MemIndex(sec, ndx)];
        assert bus == c.mem[MemIndex(c.sec, c.ndx)];
      }
      if Has(mc, SECo) { bus := sec; }
      if Has(mc, KEYo) && keys != [] {
        bus := keys[0];
        keys := keys[1..];
      }
    }

    method RunAlu(mc: Micro) returns (out: Word, flags: Flags)
      ensures AluResult(out, flags) == Alu(x, y, mc)
    {
      if Has(mc, ALU_AND) {
        out := BitAnd(x, y, 16);
        flags := FlagsOf(out, false);
      } else if Has(mc, ALU_SHR) {
        out := x / 2;
        flags := FlagsOf(out, x % 2 == 1);
      } else {
        var result := x;
        if Has(mc, ALU_SUB) { result := 0xFFFF - result; }
        if Has(mc, Ci) { result := Wrap(result + 1); }
        out := Wrap(result + y);
        flags := FlagsOf(out, result + y >= 0x1_0000);
      }
    }

    method LoadPointers(mc: Micro, bus: Word)
      modifies this`ip, this`a, this`mar, this`b
      ensures ip == NextIp(old(ip), mc, bus)
      ensures a == NextA(old(a), mc, bus)
      ensures mar == if Has(mc, MARi) then bus else old(mar)
      ensures b == if Has(mc, Bi) then bus else old(b)
    {
      if Has(mc, IPi) { ip := bus; }
      if Has(mc, IPp) { ip := Wrap(ip + 1); }
      if Has(mc, Ai) { a := bus; }
      if Has(mc, AHi) { a := FromBytes(LowByte(a), LowByte(bus)); }
      if Has(mc, MARi) { mar := bus; }
      if Has(mc, Bi) { b := bus; }
    }

    method StoreRam(mc: Micro, bus: Word)
      requires ram.Length == 0x1_0000
      modifies ram
      ensures ram[..] == NextRam(old(ram[..]), mar, mc, bus)
    {
      if Has(mc, RAM) && !Has(mc, RAMo) {
        if Has(mc, RAM16) {
          ram[mar / 2 * 2 + 1] := HighByte(bus);
          ram[mar / 2 * 2] := LowByte(bus);
        } else {
          ram[mar] := LowByte(bus);
        }
      }
    }

    method LoadOperands(mc: Micro, bus: Word)
      modifies this`x, this`y, this`sp, this`ir
      ensures x == if Has(mc, Xi) then bus else old(x)
      ensures y == if Has(mc, Yi) then bus else old(y)
      ensures sp == if Has(mc, SPi) then bus else old(sp)
      ensures ir == if Has(mc, IRi) then LowByte(bus) else old(ir)
    {
      if Has(mc, Xi) { x := bus; }
      if Has(mc, Yi) { y := bus; }
      if Has(mc, SPi) { sp := bus; }
      if Has(mc, IRi) { ir := LowByte(bus); }
    }

    /** The storage device, reached only without a step-counter reset. */
    method LoadStorage(mc: Micro, bus: Word)
      requires mem.Length == 0x10_0000
      modifies this`sec, this`ndx, mem
      ensures sec == if Has(mc, SECi) then bus % 0x1000 else old(sec)
      ensures ndx == if Has(mc, NDXi) then LowByte(bus) else old(ndx)
      ensures mem[..] == NextMem(old(mem[..]), sec, ndx, mc, bus)
    {
      if Has(mc, SECi) { sec := bus % 0x1000; }
      if Has(mc, NDXi) { ndx := LowByte(bus); }
      if Has(mc, MEMi) { mem[MemIndex(sec, ndx)] := LowByte(bus); }
    }

    /** The video memories, reached only without a step-counter reset. */
    method LoadVideo(mc: Micro, bus: Word)
      requires Valid()
      modifies this`gpua, patterns, attributes
      ensures gpua == if Has(mc, GPUAi) then bus else old(gpua)
      ensures patterns[..] == NextPatterns(old(patterns[..]), gpua, mc, bus)
      ensures attributes[..] == NextAttributes(old(attributes[..]), gpua, mc, bus)
    {
      if Has(mc, GPUAi) { gpua := bus; }
      if Has(mc, GPUi) {
        if gpua >= 0x8000 {
          patterns[gpua - 0x8000] := LowByte(bus);
        } else {
          attributes[gpua] := LowByte(bus);
        }
      }
    }

    method ApplyEarly(mc: Micro) returns (bus: Word)
      requires Valid()
      modifies this, ram
      ensures bus == Bus(old(State()), mc)
      ensures State() == Latch(old(State()), mc, bus)
    {
      hide Bus, Alu, NextIp, NextA, NextRam, StepSp;
      ghost var c := State();
      bus := DriveBus(mc);
      LoadPointers(mc, bus);
      StoreRam(mc, bus);
      LoadOperands(mc, bus);
      assert ram[..] == NextRam(c.ram, mar, mc, bus);
    }

    method ApplyLate(mc: Micro, bus: Word)
      requires Valid()
      modifies this, mem, patterns, attributes
      ensures State() == LatchLate(old(State()), mc, bus)
    {
      hide NextMem, NextPatterns, NextAttributes;
      LoadStorage(mc, bus);
      LoadVideo(mc, bus);
      sc := Advance(sc);
      ticks := ticks + 1;
    }

    method ApplyWord(mc: Micro)
      requires Valid()
      modifies this, ram, mem, attributes, patterns
      ensures State() == Apply(old(State()), mc)
    {
      hide Bus, Latch, LatchLate;
      if Has(mc, HALT) {
        running := false;
        sc := 0;
      }
      var bus := ApplyEarly(mc);
      if Has(mc, SCr) {
        sc := 0;
      } else {
        ApplyLate(mc, bus);
      }
    }

    /** One clock tick. */
    method Tick(rom: array<Micro>)
      requires Valid() && Burnt(rom)
      modifies this, ram, mem, attributes, patterns
      ensures State() == TickOnce(old(State()))
    {
      hide Apply, MicroWord, Index;
      var mc := rom[Index(ir % 64, sc, fr)];
      assert mc == CurrentWord(State());
      ApplyWord(mc);
    }
  }
}
