/** Compiled code running on the instruction set, with the two I/O routines as an oracle. */
module JitHost {
  import opened Words
  import opened Instructions
  import opened Isa
  import opened Brainfuck
  import opened JitCode

  /**
   * The outside world: the characters get_char will return, and whatever the routines do to the machine
   * beyond returning to their caller with the stack pointer restored.
   */
  datatype Env = Env(input: nat -> Byte, after: Arch -> Arch)

  datatype Host = Host(m: Arch, read: nat, out: seq<Byte>)

  function Returning(env: Env, m: Arch): Arch {
    env.after(m).(sp := Wrap(m.sp + 2), ip := Wrap(Top(m) + 2))
  }

  /** One instruction, or a whole I/O routine when IP is at its entry. */
  function HostStep(env: Env, l: Layout, h: Host): Host {
    if h.m.ip == l.getChar then Host(Returning(env, h.m).(a := env.input(h.read)), h.read + 1, h.out)
    else if h.m.ip == l.putChar then Host(Returning(env, h.m), h.read, h.out + [LowByte(h.m.a)])
    else Host(Step(h.m), h.read, h.out)
  }

  /** The compiled code has executed its RET. */
  predicate Returned(l: Layout, ret: Word, h: Host) {
    h.m.sp == Wrap(l.entry + 2) && h.m.ip == Wrap(ret + 2)
  }

  function HostRun(env: Env, l: Layout, ret: Word, h: Host, n: nat): Host
    decreases n
  {
    if n == 0 || Returned(l, ret, h) then h else HostRun(env, l, ret, HostStep(env, l, h), n - 1)
  }

  lemma {:induction false} HostRunAdd(env: Env, l: Layout, ret: Word, h: Host, m: nat, n: nat)
    ensures HostRun(env, l, ret, h, m + n) == HostRun(env, l, ret, HostRun(env, l, ret, h, m), n)
    decreases m
  {
    hide HostStep, Returned;
    if m > 0 && !Returned(l, ret, h) { HostRunAdd(env, l, ret, HostStep(env, l, h), m - 1, n); }
  }

  lemma StepThen(env: Env, l: Layout, ret: Word, h: Host, n: nat)
    requires h.m.sp != Wrap(l.entry + 2)
    ensures HostRun(env, l, ret, h, n + 1) == HostRun(env, l, ret, HostStep(env, l, h), n)
  {
    hide HostStep, Wrap;
  }

  // ---------- memory ----------

  /** The two bytes of the word at `at` lie outside [lo, hi). */
  predicate Apart(at: Word, lo: int, hi: int) {
    at / 2 * 2 + 1 < lo || hi <= at / 2 * 2
  }

  function PointerSlot(l: Layout): Word { l.entry }
  function ReturnSlot(l: Layout): Word { Wrap(l.entry + 2) }
  function CallSlot(l: Layout): Word { Wrap(l.entry - 2) }

  /** Code buffer, tape and the three stack words in use do not overlap. */
  predicate Disjoint(l: Layout) {
    && l.base % 2 == 0 && l.base + CODE_CAPACITY + 2 <= 0x1_0000 && l.mem + TAPE_SIZE <= 0x1_0000
    && (l.base + CODE_CAPACITY + 2 <= l.mem || l.mem + TAPE_SIZE <= l.base)
    && (forall slot :: slot in [PointerSlot(l), ReturnSlot(l), CallSlot(l)] ==>
          Apart(slot, l.base, l.base + CODE_CAPACITY + 2) && Apart(slot, l.mem, l.mem + TAPE_SIZE))
    && !(l.base <= l.getChar < l.base + CODE_CAPACITY + 2)
    && !(l.base <= l.putChar < l.base + CODE_CAPACITY + 2)
    && l.getChar != l.putChar
  }

  /** What the compiled code keeps in RAM: itself, the tape, the tape pointer and the return address. */
  predicate Holds(l: Layout, code: seq<Byte>, ret: Word, d: Data, ram: Ram) {
    && |code| <= CODE_CAPACITY && l.base + |code| <= 0x1_0000 && l.mem + TAPE_SIZE <= 0x1_0000
    && ram[l.base..l.base + |code|] == code
    && ram[l.mem..l.mem + TAPE_SIZE] == d.cells
    && WordIs(ram, PointerSlot(l), Wrap(l.mem + d.ptr))
    && WordIs(ram, ReturnSlot(l), ret)
  }

  /** The I/O routines leave code, tape and the two outer stack words alone. */
  predicate Polite(l: Layout, before: Ram, after: Ram)
    requires Disjoint(l)
  {
    && after[l.base..l.base + CODE_CAPACITY + 2] == before[l.base..l.base + CODE_CAPACITY + 2]
    && after[l.mem..l.mem + TAPE_SIZE] == before[l.mem..l.mem + TAPE_SIZE]
    && SameWord(after, before, PointerSlot(l)) && SameWord(after, before, ReturnSlot(l))
  }

  ghost predicate PoliteEnv(env: Env, l: Layout)
    requires Disjoint(l)
  {
    forall m: Arch :: Polite(l, m.ram, env.after(m).ram)
  }

  lemma SliceUnchanged(ram: Ram, ram': Ram, lo: nat, hi: nat)
    requires lo <= hi <= 0x1_0000
    requires forall i :: lo <= i < hi ==> ram'[i] == ram[i]
    ensures ram'[lo..hi] == ram[lo..hi]
  {
  }

  lemma WriteThenRead(ram: Ram, at: Word, w: Word)
    ensures WordIs(Write16(ram, at, w), at, w)
  {
  }

  lemma WriteElsewhere(ram: Ram, at: Word, w: Word, lo: nat, hi: nat)
    requires lo <= hi <= 0x1_0000 && Apart(at, lo, hi)
    ensures Write16(ram, at, w)[lo..hi] == ram[lo..hi]
  {
    SliceUnchanged(ram, Write16(ram, at, w), lo, hi);
  }

  lemma WriteOtherWord(ram: Ram, at: Word, w: Word, other: Word)
    requires at / 2 != other / 2
    ensures SameWord(Write16(ram, at, w), ram, other)
  {
  }

  lemma WriteByteElsewhere(ram: Ram, i: Word, v: Byte, at: Word)
    requires Apart(at, i, i + 1)
    ensures SameWord(ram[i := v], ram, at)
  {
  }

  /** Neighbouring stack words are different words, also across the wrap. */
  lemma SlotsDiffer(l: Layout)
    ensures PointerSlot(l) / 2 != ReturnSlot(l) / 2
    ensures PointerSlot(l) / 2 != CallSlot(l) / 2
    ensures ReturnSlot(l) / 2 != CallSlot(l) / 2
  {
  }

  lemma StoreCell(l: Layout, code: seq<Byte>, ret: Word, d: Data, ram: Ram, v: Byte)
    requires Disjoint(l) && Holds(l, code, ret, d, ram) && InBounds(d)
    ensures Holds(l, code, ret, SetCell(d, v), ram[l.mem + d.ptr := v])
  {
    hide Read16;
    var ram' := ram[l.mem + d.ptr := v];
    assert PointerSlot(l) in [PointerSlot(l), ReturnSlot(l), CallSlot(l)];
    assert ReturnSlot(l) in [PointerSlot(l), ReturnSlot(l), CallSlot(l)];
    WriteByteElsewhere(ram, l.mem + d.ptr, v, PointerSlot(l));
    WriteByteElsewhere(ram, l.mem + d.ptr, v, ReturnSlot(l));
    SliceUnchanged(ram, ram', l.base, l.base + |code|);
    assert ram'[l.mem..l.mem + TAPE_SIZE] == d.cells[d.ptr := v];
  }

  lemma StorePointer(l: Layout, code: seq<Byte>, ret: Word, d: Data, ram: Ram, ptr: Word)
    requires Disjoint(l) && Holds(l, code, ret, d, ram)
    ensures Holds(l, code, ret, d.(ptr := ptr), Write16(ram, PointerSlot(l), Wrap(l.mem + ptr)))
  {
    hide Write16, Read16;
    assert PointerSlot(l) in [PointerSlot(l), ReturnSlot(l), CallSlot(l)];
    WriteElsewhere(ram, PointerSlot(l), Wrap(l.mem + ptr), l.base, l.base + |code|);
    WriteElsewhere(ram, PointerSlot(l), Wrap(l.mem + ptr), l.mem, l.mem + TAPE_SIZE);
    WriteThenRead(ram, PointerSlot(l), Wrap(l.mem + ptr));
    SlotsDiffer(l);
    WriteOtherWord(ram, PointerSlot(l), Wrap(l.mem + ptr), ReturnSlot(l));
  }

  lemma StoreCallSlot(l: Layout, code: seq<Byte>, ret: Word, d: Data, ram: Ram, w: Word)
    requires Disjoint(l) && Holds(l, code, ret, d, ram)
    ensures Holds(l, code, ret, d, Write16(ram, CallSlot(l), w))
    ensures Read16(Write16(ram, CallSlot(l), w), CallSlot(l)) == w
  {
    hide Write16, Read16;
    WordIsRead(Write16(ram, CallSlot(l), w), CallSlot(l), w);
    assert CallSlot(l) in [PointerSlot(l), ReturnSlot(l), CallSlot(l)];
    WriteElsewhere(ram, CallSlot(l), w, l.base, l.base + |code|);
    WriteElsewhere(ram, CallSlot(l), w, l.mem, l.mem + TAPE_SIZE);
    WriteThenRead(ram, CallSlot(l), w);
    SlotsDiffer(l);
    WriteOtherWord(ram, CallSlot(l), w, ReturnSlot(l));
    WriteOtherWord(ram, CallSlot(l), w, PointerSlot(l));
  }

  lemma PoliteKeeps(l: Layout, code: seq<Byte>, ret: Word, d: Data, before: Ram, after: Ram)
    requires Disjoint(l) && Holds(l, code, ret, d, before) && Polite(l, before, after)
    ensures Holds(l, code, ret, d, after)
  {
    hide Read16;
    var n := |code|;
    assert after[l.base..l.base + n] == after[l.base..l.base + CODE_CAPACITY + 2][..n];
    assert before[l.base..l.base + n] == before[l.base..l.base + CODE_CAPACITY + 2][..n];
  }

  // ---------- single instructions of the compiled code ----------

  /** The instruction byte at offset o is executed with IP just behind it. */
  lemma Executes(env: Env, l: Layout, code: seq<Byte>, ret: Word, d: Data, h: Host, o: nat, op: int)
    requires Disjoint(l) && Holds(l, code, ret, d, h.m.ram)
    requires o < |code| && h.m.ip == l.base + o && code[o] == op && 0 <= op < 64
    ensures HostStep(env, l, h) == Host(Execute(op, h.m.(ip := l.base + o + 1)), h.read, h.out)
  {
    hide Execute, Read16;
    assert h.m.ram[l.base + o] == h.m.ram[l.base..l.base + |code|][o];
  }

  lemma ReadAligned(ram: Ram, at: Word)
    requires at % 2 == 0
    ensures at + 1 < 0x1_0000 && Read16(ram, at) == FromBytes(ram[at], ram[at + 1])
  {
    assert at / 2 * 2 == at;
  }

  /** An aligned operand word of the code. */
  lemma Operand(l: Layout, code: seq<Byte>, ret: Word, d: Data, ram: Ram, o: nat, w: Word)
    requires Disjoint(l) && Holds(l, code, ret, d, ram)
    requires o % 2 == 0 && o + 2 <= |code| && code[o..o + 2] == Word2(w)
    ensures Read16(ram, l.base + o) == w
  {
    hide Read16, LowByte, HighByte, FromBytes;
    var slice := ram[l.base..l.base + |code|];
    assert ram[l.base + o] == slice[o] == code[o..o + 2][0];
    assert ram[l.base + o + 1] == slice[o + 1] == code[o..o + 2][1];
    ReadAligned(ram, l.base + o);
    BytesRoundTrip(w);
  }

  lemma CurrentCell(l: Layout, code: seq<Byte>, ret: Word, d: Data, ram: Ram)
    requires Disjoint(l) && Holds(l, code, ret, d, ram) && InBounds(d)
    ensures Wrap(l.mem + d.ptr) == l.mem + d.ptr && ram[l.mem + d.ptr] == Cell(d)
  {
    hide Read16;
    assert ram[l.mem + d.ptr] == ram[l.mem..l.mem + TAPE_SIZE][d.ptr];
  }
}
