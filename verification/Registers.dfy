/** What the registers and memories hold after an instruction, in plain arithmetic and bit by bit. */
module Registers {
  import opened Words
  import opened Division
  import opened Isa
  import Instructions
  import Sectors
  import PathLookup

  predicate BitSet(x: nat, k: nat) {
    x / Pow2(k) % 2 == 1
  }

  lemma NextBit(x: nat, k: nat)
    requires k > 0
    ensures BitSet(x, k) <==> BitSet(x / 2, k - 1)
  {
    HalvedTwice(x, Pow2(k - 1));
  }

  lemma HalvedTwice(x: nat, p: nat)
    requires p >= 1
    ensures x / (2 * p) == x / 2 / p
  {
    var q, r := x / 2 / p, x / 2 % p;
    assert x / 2 == q * p + r;
    var r' := 2 * r + x % 2;
    assert x == q * (2 * p) + r' && r' < 2 * p;
    DivisionUnique(x, 2 * p, q, r');
  }

  /** The conjunction has exactly the bits both numbers have, and no bit beyond its width. */
  lemma {:induction false} AndBits(x: nat, y: nat, bits: nat, k: nat)
    ensures BitAnd(x, y, bits) < Pow2(bits)
    ensures k < bits ==> (BitSet(BitAnd(x, y, bits), k) <==> BitSet(x, k) && BitSet(y, k))
  {
    if bits > 0 {
      AndBits(x / 2, y / 2, bits - 1, if k > 0 then k - 1 else 0);
      assert BitAnd(x, y, bits) / 2 == BitAnd(x / 2, y / 2, bits - 1);
      if 0 < k < bits {
        NextBit(x, k);
        NextBit(y, k);
        NextBit(BitAnd(x, y, bits), k);
      }
    }
  }

  /** The flags after an operation with this result and carry. */
  predicate FlagsTell(fr: Flags, result: Word, carry: bool) {
    (fr % 2 == 1 <==> result == 0) && (fr / 2 % 2 == 1 <==> result >= 0x8000) && (fr / 4 == 1 <==> carry)
  }

  /** Everything but A, the flags and IP is as before, and IP is on the next byte. */
  predicate OnlyA(s: Arch, t: Arch) {
    t == s.(ip := (s.ip + 1) % 0x1_0000, a := t.a, fr := t.fr)
  }

  /** AND leaves in A exactly the bits that A and B have both. */
  lemma AndStep(s: Arch, k: nat)
    requires OpcodeAt(s) == Instructions.AND && k < 16
    ensures OnlyA(s, Step(s)) && FlagsTell(Step(s).fr, Step(s).a, false)
    ensures BitSet(Step(s).a, k) <==> BitSet(s.a, k) && BitSet(s.b, k)
  {
    hide BitAnd, Pow2, ExecuteStack, ExecuteJump, ExecuteMove, ExecuteStorage, ExecuteControl;
    AndBits(s.a, s.b, 16, k);
  }

  /** The sum with its carry as seventeenth bit is the sum of the integers. */
  predicate SumIs(x: Word, y: Word, t: Arch) {
    var carry := x as int + y >= 0x1_0000;
    x as int + y == t.a + (if carry then 0x1_0000 else 0) && FlagsTell(t.fr, t.a, carry)
  }

  lemma SumStep(s: Arch)
    requires OpcodeAt(s) in {Instructions.SUM, Instructions.SHL}
    ensures OnlyA(s, Step(s)) && SumIs(s.a, if OpcodeAt(s) == Instructions.SUM then s.b else s.a, Step(s))
  {
    hide ExecuteStack, ExecuteJump, ExecuteMove, ExecuteStorage, ExecuteControl;
  }

  /** SUB takes A from B; the carry says that nothing is borrowed and something taken. */
  lemma DifferenceStep(s: Arch)
    requires OpcodeAt(s) == Instructions.SUB
    ensures OnlyA(s, Step(s)) && FlagsTell(Step(s).fr, Step(s).a, 0 < s.a <= s.b)
    ensures s.b - s.a == Step(s).a - (if s.a <= s.b then 0 else 0x1_0000)
  {
    hide ExecuteStack, ExecuteJump, ExecuteMove, ExecuteStorage, ExecuteControl;
  }

  /** SHR moves the lowest bit of A into the carry. */
  lemma HalfStep(s: Arch)
    requires OpcodeAt(s) == Instructions.SHR
    ensures OnlyA(s, Step(s)) && FlagsTell(Step(s).fr, Step(s).a, s.a % 2 == 1)
    ensures s.a == 2 * (Step(s).a as int) + s.a % 2
  {
    hide ExecuteStack, ExecuteJump, ExecuteMove, ExecuteStorage, ExecuteControl;
  }

  // ---------- memory ----------

  /** A word is stored with its low byte at the even address, and read back from there. */
  lemma WordAccess(s: Arch)
    requires s.b % 2 == 0
    ensures OpcodeAt(s) == Instructions.A_rB ==>
              Step(s).ram[s.b] == s.a % 0x100 && Step(s).ram[s.b + 1] == s.a / 0x100
              && forall i :: 0 <= i < 0x1_0000 && i != s.b && i != s.b + 1 ==> Step(s).ram[i] == s.ram[i]
    ensures OpcodeAt(s) == Instructions.rB_A ==> Step(s).a as int == s.ram[s.b] as int + 0x100 * (s.ram[s.b + 1] as int)
  {
  }

  lemma TopOfPush(s: Arch, w: Word, ip: Word)
    ensures Top(Push(s, w).(ip := ip)) == w && Wrap(Push(s, w).sp + 2) == s.sp
  {
    BytesRoundTrip(w);
    assert Wrap(Wrap(s.sp - 2) + 2) == s.sp;
  }

  /** A pushed word is popped again, at any SP. */
  lemma PushThenPop(s: Arch)
    requires OpcodeAt(s) in {Instructions.PUSHA, Instructions.PUSHB} && OpcodeAt(Step(s)) in {Instructions.POPA, Instructions.POPB}
    ensures var pushed, t := if OpcodeAt(s) == Instructions.PUSHA then s.a else s.b, Step(Step(s));
            t.sp == s.sp && pushed == if OpcodeAt(Step(s)) == Instructions.POPA then t.a else t.b
  {
    hide Push, Top, OpcodeAt, Wrap, ExecuteAlu, ExecuteJump, ExecuteMove, ExecuteStorage, ExecuteControl;
    var w := if OpcodeAt(s) == Instructions.PUSHA then s.a else s.b;
    var t := s.(ip := Wrap(s.ip + 1));
    assert Step(s) == Push(t, w);
    TopOfPush(t, w, Wrap(Step(s).ip + 1));
  }

  // ---------- disk ----------

  /** The storage is a disk of sectors of 256 bytes. */
  predicate DiskIs(mem: Mem, disk: seq<Sectors.Sector>) {
    |disk| == 0x1000 && forall i, j :: 0 <= i < 0x1000 && 0 <= j < 0x100 ==> disk[i][j] == mem[0x100 * i + j]
  }

  /** A sector's byte is read at the sector register and the index register. */
  lemma DiskRead(s: Arch, disk: seq<Sectors.Sector>)
    requires DiskIs(s.mem, disk)
    ensures OpcodeAt(s) == Instructions.MEM_A ==> Step(s).a == disk[s.sec][s.ndx]
    ensures OpcodeAt(s) == Instructions.MEM_AH ==> Step(s).a as int == (s.a as int) % 0x100 + 0x100 * (disk[s.sec][s.ndx] as int)
  {
  }

  /** Writing changes that byte of that sector only. */
  lemma DiskWritten(s: Arch, disk: seq<Sectors.Sector>)
    requires DiskIs(s.mem, disk) && OpcodeAt(s) == Instructions.A_MEM
    ensures DiskIs(Step(s).mem, disk[s.sec := disk[s.sec][s.ndx := s.a % 0x100]])
  {
    var disk' := disk[s.sec := disk[s.sec][s.ndx := s.a % 0x100]];
    forall i, j | 0 <= i < 0x1000 && 0 <= j < 0x100 ensures disk'[i][j] == Step(s).mem[0x100 * i + j] {
      assert disk[i][j] == s.mem[0x100 * i + j];
    }
  }

  /** The sector an entry of a directory leads to is the one the machine selects for its pointer. */
  lemma SectorSelected(s: Arch)
    requires OpcodeAt(s) == Instructions.A_SEC
    ensures Step(s).sec == PathLookup.SectorOf(s.a) && s.a - Step(s).sec == s.a / 0x1000 * 0x1000
  {
  }
}
