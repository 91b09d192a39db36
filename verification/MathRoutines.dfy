/** The library's div and mul, as assembled, running on the machine. */
module MathRoutines {
  import opened Words
  import opened Instructions
  import opened Isa
  import opened StackCode
  import opened Division

  // ---------- the assembled bytes ----------

  predicate DivEntryCode(code: seq<Byte>)
    requires |code| == 68
  {
    && code[0] == PUSHA && code[1] == PUSHB && code[2] == RAM_AL && code[3] == 17 && code[4] == PUSHA
    && code[5] == RAM_AL && code[6] == 0 && code[7] == PUSHA && code[8] == PUSHA && code[9] == CMPB
    && code[10] == NOP && code[11] == JMPRZ && code[12] == 50 && code[13] == 0
  }

  predicate DivShiftCode(code: seq<Byte>)
    requires |code| == 68
  {
    && code[14] == PEEKAR && code[15] == 6 && code[16] == DECA && code[17] == JMPRZ && code[18] == 44
    && code[19] == 0 && code[20] == PUSHAR && code[21] == 6 && code[22] == PEEKAR && code[23] == 4
    && code[24] == SHL && code[25] == PUSHAR && code[26] == 4 && code[27] == POPA && code[28] == SHL
    && code[29] == PUSHA && code[30] == PEEKAR && code[31] == 8 && code[32] == SHL
  }

  predicate DivCarryCode(code: seq<Byte>)
    requires |code| == 68
  {
    && code[33] == JMPRNC && code[34] == 9 && code[35] == 0 && code[36] == A_B && code[37] == PEEKAR
    && code[38] == 4 && code[39] == INCA && code[40] == PUSHAR && code[41] == 4 && code[42] == B_A
  }

  predicate DivTestCode(code: seq<Byte>)
    requires |code| == 68
  {
    && code[43] == PUSHAR && code[44] == 8 && code[45] == PEEKAR && code[46] == 4 && code[47] == A_B
    && code[48] == PEEKAR && code[49] == 10 && code[50] == SUB && code[51] == JMPRN && code[52] == 218
    && code[53] == 255 && code[54] == PUSHAR && code[55] == 4 && code[56] == POPA && code[57] == INCA
    && code[58] == PUSHA && code[59] == JMPR && code[60] == 210 && code[61] == 255
  }

  predicate DivExitCode(code: seq<Byte>)
    requires |code| == 68
  {
    && code[62] == POPA && code[63] == POPB && code[64] == INCSP && code[65] == INCSP && code[66] == INCSP
    && code[67] == RET
  }

  predicate MulEntryCode(code: seq<Byte>)
    requires |code| == 34
  {
    && code[0] == PUSHB && code[1] == PUSHA && code[2] == RAM_BL && code[3] == 0 && code[4] == PUSHB
  }

  predicate MulAddCode(code: seq<Byte>)
    requires |code| == 34
  {
    && code[5] == SHR && code[6] == NOP && code[7] == JMPRNC && code[8] == 7 && code[9] == 0
    && code[10] == PEEKAR && code[11] == 6 && code[12] == POPB && code[13] == SUM && code[14] == PUSHA
  }

  predicate MulShiftCode(code: seq<Byte>)
    requires |code| == 34
  {
    && code[15] == PEEKAR && code[16] == 6 && code[17] == SHL && code[18] == PUSHAR && code[19] == 6
    && code[20] == PEEKAR && code[21] == 4 && code[22] == SHR && code[23] == PUSHAR && code[24] == 4
    && code[25] == CMPA && code[26] == NOP && code[27] == JMPRNZ && code[28] == 233 && code[29] == 255
  }

  predicate MulExitCode(code: seq<Byte>)
    requires |code| == 34
  {
    && code[30] == POPA && code[31] == INCSP && code[32] == INCSP && code[33] == RET
  }

  predicate DivCode(code: seq<Byte>) {
    |code| == 68 && DivEntryCode(code) && DivShiftCode(code) && DivCarryCode(code) && DivTestCode(code) && DivExitCode(code)
  }

  predicate MulCode(code: seq<Byte>) {
    |code| == 34 && MulEntryCode(code) && MulAddCode(code) && MulShiftCode(code) && MulExitCode(code)
  }

  // ---------- steps ----------

  lemma FlagsTell(x: Word, carry: bool)
    ensures FlagZ(FlagsOf(x, carry)) <==> x == 0
    ensures FlagN(FlagsOf(x, carry)) <==> x >= 0x8000
    ensures FlagC(FlagsOf(x, carry)) <==> carry
  {
  }

  /** A run of n steps and one more. */
  lemma Next(base: Word, code: seq<Byte>, bottom: Word, t: Calc, n: nat, u: Calc) returns (v: Calc)
    requires Reaches(base, code, bottom, t, n, u) && Can(code, u)
    ensures v == CalcStep(base, code, bottom, u) && Reaches(base, code, bottom, t, n + 1, v)
  {
    hide Can, CalcStep;
    v := CalcStep(base, code, bottom, u);
    assert Reaches(base, code, bottom, u, 1, v) by { assert Reaches(base, code, bottom, v, 0, v); }
    ReachesMore(base, code, bottom, t, n, u, 1, v);
  }

  lemma Start(base: Word, code: seq<Byte>, bottom: Word, t: Calc)
    ensures Reaches(base, code, bottom, t, 0, t)
  {
  }

  // ---------- div ----------

  /** Five words on the stack, and out at once for a zero dividend. */
  lemma DivEntry(base: Word, code: seq<Byte>, bottom: Word, t: Calc, ret: Word)
    returns (n: nat, u: Calc)
    requires |code| == 68 && DivEntryCode(code) && t.ip == 0 && t.stack == [ret]
    ensures Reaches(base, code, bottom, t, n, u)
    ensures u.ip == (if t.b == 0 then 62 else 14) && u.stack == [0, 0, 0x11, t.b, t.a, ret]
  {
    hide Wrap, FlagsOf, FlagZ, FlagN, FlagC, Slot, Reaches;
    Start(base, code, bottom, t);
    var t1 := Next(base, code, bottom, t, 0, t);
    assert t1.stack == [t.a, ret];
    var t2 := Next(base, code, bottom, t, 1, t1);
    assert t2.stack == [t.b, t.a, ret];
    var t3 := Next(base, code, bottom, t, 2, t2);
    var t4 := Next(base, code, bottom, t, 3, t3);
    assert t4.ip == 5 && t4.stack == [0x11, t.b, t.a, ret];
    var t5 := Next(base, code, bottom, t, 4, t4);
    var t6 := Next(base, code, bottom, t, 5, t5);
    var t7 := Next(base, code, bottom, t, 6, t6);
    assert t7.ip == 9 && t7.b == t.b && t7.stack == [0, 0, 0x11, t.b, t.a, ret];
    var t8 := Next(base, code, bottom, t, 7, t7);
    var t9 := Next(base, code, bottom, t, 8, t8);
    FlagsTell(t.b, false);
    var t10 := Next(base, code, bottom, t, 9, t9);
    n, u := 10, t10;
  }

  /** A round begins: the counter goes down. */
  lemma DivCount(base: Word, code: seq<Byte>, bottom: Word, t: Calc, d: Div, i: Word, a: Word, ret: Word)
    returns (n: nat, u: Calc)
    requires |code| == 68 && DivShiftCode(code) && t.ip == 14 && t.stack == [d.q, d.r, i, d.b, a, ret] && i >= 1
    ensures Reaches(base, code, bottom, t, n, u)
    ensures u.ip == (if i == 1 then 62 else 20) && u.stack == t.stack && u.a == i - 1
  {
    hide Wrap, FlagsOf, FlagZ, FlagN, FlagC, Slot, Reaches;
    Start(base, code, bottom, t);
    var t1 := Next(base, code, bottom, t, 0, t);
    assert t1.ip == 16 && t1.a == i;
    CountsDown(i);
    var t2 := Next(base, code, bottom, t, 1, t1);
    assert t2.a == i - 1;
    FlagsTell(i - 1, i >= 1);
    var t3 := Next(base, code, bottom, t, 2, t2);
    n, u := 3, t3;
  }

  /** Remainder and quotient move up, and so does the dividend. */
  lemma DivUp(base: Word, code: seq<Byte>, bottom: Word, t: Calc, d: Div, i: Word, a: Word, ret: Word)
    returns (n: nat, u: Calc)
    requires |code| == 68 && DivShiftCode(code) && t.ip == 20 && t.stack == [d.q, d.r, i, d.b, a, ret]
    ensures Reaches(base, code, bottom, t, n, u)
    ensures u.ip == 33 && u.stack == [Wrap(d.q + d.q), Wrap(d.r + d.r), t.a, d.b, a, ret] && u.a == Wrap(d.b + d.b)
    ensures FlagC(u.fr) <==> d.b >= 0x8000
  {
    hide Wrap, FlagsOf, FlagZ, FlagN, FlagC, Slot, Reaches;
    Start(base, code, bottom, t);
    var t1 := Next(base, code, bottom, t, 0, t);
    assert t1.stack == [d.q, d.r, t.a, d.b, a, ret];
    var t2 := Next(base, code, bottom, t, 1, t1);
    assert t2.a == d.r;
    var t3 := Next(base, code, bottom, t, 2, t2);
    var t4 := Next(base, code, bottom, t, 3, t3);
    assert t4.ip == 27 && t4.stack == [d.q, Wrap(d.r + d.r), t.a, d.b, a, ret];
    var t5 := Next(base, code, bottom, t, 4, t4);
    assert t5.a == d.q && t5.stack == [Wrap(d.r + d.r), t.a, d.b, a, ret];
    var t6 := Next(base, code, bottom, t, 5, t5);
    var t7 := Next(base, code, bottom, t, 6, t6);
    assert t7.ip == 30 && t7.stack == [Wrap(d.q + d.q), Wrap(d.r + d.r), t.a, d.b, a, ret];
    var t8 := Next(base, code, bottom, t, 7, t7);
    assert t8.a == d.b;
    FlagsTell(Wrap(d.b + d.b), d.b + d.b >= 0x1_0000);
    var t9 := Next(base, code, bottom, t, 8, t8);
    n, u := 9, t9;
  }

  lemma CountsDown(i: Word)
    requires i >= 1
    ensures Wrap(i - 1) == i - 1
  {
  }

  /** The bit shifted out of the dividend joins the remainder. */
  lemma DivCarry(base: Word, code: seq<Byte>, bottom: Word, t: Calc, q: Word, r: Word, i: Word, b: Word, a: Word, ret: Word)
    returns (n: nat, u: Calc)
    requires |code| == 68 && DivCarryCode(code) && t.ip == 33 && t.stack == [q, r, i, b, a, ret]
    ensures Reaches(base, code, bottom, t, n, u)
    ensures u.ip == 43 && u.a == t.a && u.stack == [q, if FlagC(t.fr) then Wrap(r + 1) else r, i, b, a, ret]
  {
    hide Wrap, FlagsOf, FlagZ, FlagN, FlagC, Slot, Reaches;
    Start(base, code, bottom, t);
    var t1 := Next(base, code, bottom, t, 0, t);
    if !FlagC(t.fr) {
      n, u := 1, t1;
    } else {
      assert t1.ip == 36;
      var t2 := Next(base, code, bottom, t, 1, t1);
      var t3 := Next(base, code, bottom, t, 2, t2);
      assert t3.a == r;
      var t4 := Next(base, code, bottom, t, 3, t3);
      var t5 := Next(base, code, bottom, t, 4, t4);
      assert t5.ip == 42 && t5.stack == [q, Wrap(r + 1), i, b, a, ret];
      var t6 := Next(base, code, bottom, t, 5, t5);
      n, u := 6, t6;
    }
  }

  /** The dividend is stored and the difference of remainder and divisor tested. */
  lemma DivCompare(base: Word, code: seq<Byte>, bottom: Word, t: Calc, q: Word, r: Word, i: Word, b: Word, a: Word, ret: Word)
    returns (n: nat, u: Calc)
    requires |code| == 68 && DivTestCode(code) && t.ip == 43 && t.stack == [q, r, i, b, a, ret]
    ensures Reaches(base, code, bottom, t, n, u)
    ensures u.ip == (if Wrap(r - a) >= 0x8000 then 14 else 54) && u.stack == [q, r, i, t.a, a, ret] && u.a == Wrap(r - a)
  {
    hide Wrap, FlagsOf, FlagZ, FlagN, FlagC, Slot, Reaches;
    Start(base, code, bottom, t);
    var t1 := Next(base, code, bottom, t, 0, t);
    assert t1.stack == [q, r, i, t.a, a, ret];
    var t2 := Next(base, code, bottom, t, 1, t1);
    assert t2.a == r;
    var t3 := Next(base, code, bottom, t, 2, t2);
    var t4 := Next(base, code, bottom, t, 3, t3);
    assert t4.ip == 50 && t4.a == a && t4.b == r;
    var t5 := Next(base, code, bottom, t, 4, t4);
    FlagsTell(Wrap(r - a), 0 < a <= r);
    var t6 := Next(base, code, bottom, t, 5, t5);
    n, u := 6, t6;
  }

  /** The divisor is taken off, the quotient bit set, and the next round begins. */
  lemma DivSubtract(base: Word, code: seq<Byte>, bottom: Word, t: Calc, q: Word, r: Word, i: Word, b: Word, a: Word, ret: Word)
    returns (n: nat, u: Calc)
    requires |code| == 68 && DivTestCode(code) && t.ip == 54 && t.stack == [q, r, i, b, a, ret]
    ensures Reaches(base, code, bottom, t, n, u)
    ensures u.ip == 14 && u.stack == [Wrap(q + 1), t.a, i, b, a, ret]
  {
    hide Wrap, FlagsOf, FlagZ, FlagN, FlagC, Slot, Reaches;
    Start(base, code, bottom, t);
    var t1 := Next(base, code, bottom, t, 0, t);
    assert t1.stack == [q, t.a, i, b, a, ret];
    var t2 := Next(base, code, bottom, t, 1, t1);
    assert t2.a == q && t2.stack == [t.a, i, b, a, ret];
    var t3 := Next(base, code, bottom, t, 2, t2);
    var t4 := Next(base, code, bottom, t, 3, t3);
    assert t4.ip == 59 && t4.stack == [Wrap(q + 1), t.a, i, b, a, ret];
    var t5 := Next(base, code, bottom, t, 4, t4);
    n, u := 5, t5;
  }

  /** The divisor is taken off unless the difference looks negative, and the next round begins. */
  lemma DivTest(base: Word, code: seq<Byte>, bottom: Word, t: Calc, q: Word, r: Word, i: Word, b: Word, a: Word, ret: Word)
    returns (n: nat, u: Calc)
    requires |code| == 68 && DivTestCode(code) && t.ip == 43 && t.stack == [q, r, i, b, a, ret]
    ensures Reaches(base, code, bottom, t, n, u)
    ensures u.ip == 14
    ensures u.stack == if Wrap(r - a) >= 0x8000 then [q, r, i, t.a, a, ret] else [Wrap(q + 1), Wrap(r - a), i, t.a, a, ret]
  {
    hide Wrap, Reaches, DivTestCode;
    n, u := DivCompare(base, code, bottom, t, q, r, i, b, a, ret);
    if Wrap(r - a) < 0x8000 {
      var m, v := DivSubtract(base, code, bottom, u, q, r, i, t.a, a, ret);
      ReachesMore(base, code, bottom, t, n, u, m, v);
      n, u := n + m, v;
    }
  }

  /** Quotient and remainder into the registers, the rest off the stack. */
  lemma DivExit(base: Word, code: seq<Byte>, bottom: Word, t: Calc, d: Div, i: Word, a: Word, ret: Word)
    returns (n: nat, u: Calc)
    requires |code| == 68 && DivExitCode(code) && t.ip == 62 && t.stack == [d.q, d.r, i, d.b, a, ret]
    ensures Reaches(base, code, bottom, t, n, u)
    ensures u.ip == 67 && u.stack == [ret] && u.a == d.q && u.b == d.r
  {
    hide Wrap, FlagsOf, FlagZ, FlagN, FlagC, Slot, Reaches;
    Start(base, code, bottom, t);
    var t1 := Next(base, code, bottom, t, 0, t);
    assert t1.stack == [d.r, i, d.b, a, ret];
    var t2 := Next(base, code, bottom, t, 1, t1);
    assert t2.stack == [i, d.b, a, ret];
    var t3 := Next(base, code, bottom, t, 2, t2);
    assert t3.stack == [d.b, a, ret];
    var t4 := Next(base, code, bottom, t, 3, t3);
    assert t4.stack == [a, ret];
    var t5 := Next(base, code, bottom, t, 4, t4);
    n, u := 5, t5;
  }

  /** One pass of the loop is one round. */
  lemma DivRound(base: Word, code: seq<Byte>, bottom: Word, t: Calc, d: Div, i: Word, a: Word, ret: Word)
    returns (n: nat, u: Calc)
    requires DivCode(code) && t.ip == 14 && t.stack == [d.q, d.r, i, d.b, a, ret] && i >= 2
    ensures Reaches(base, code, bottom, t, n, u)
    ensures var e := Round(a, d); u.ip == 14 && u.stack == [e.q, e.r, i - 1, e.b, a, ret]
  {
    hide Wrap, FlagC, Reaches, DivShiftCode, DivCarryCode, DivTestCode;
    var n0, u0 := DivCount(base, code, bottom, t, d, i, a, ret);
    var n1, u1 := DivUp(base, code, bottom, u0, d, i, a, ret);
    ReachesMore(base, code, bottom, t, n0, u0, n1, u1);
    n1 := n0 + n1;
    var n2, u2 := DivCarry(base, code, bottom, u1, Wrap(d.q + d.q), Wrap(d.r + d.r), i - 1, d.b, a, ret);
    ReachesMore(base, code, bottom, t, n1, u1, n2, u2);
    var r := if d.b >= 0x8000 then Wrap(Wrap(d.r + d.r) + 1) else Wrap(d.r + d.r);
    var n3, u3 := DivTest(base, code, bottom, u2, Wrap(d.q + d.q), r, i - 1, d.b, a, ret);
    ReachesMore(base, code, bottom, t, n1 + n2, u2, n3, u3);
    n, u := n1 + n2 + n3, u3;
  }

  /** The loop runs all rounds and leaves. */
  lemma {:induction false} DivLoop(base: Word, code: seq<Byte>, bottom: Word, t: Calc, d: Div, i: Word, a: Word, ret: Word)
    returns (n: nat, u: Calc)
    requires DivCode(code) && t.ip == 14 && t.stack == [d.q, d.r, i, d.b, a, ret] && i >= 1
    ensures Reaches(base, code, bottom, t, n, u)
    ensures var e := Rounds(a, d, i - 1); u.ip == 62 && u.stack == [e.q, e.r, 1, e.b, a, ret]
    decreases i
  {
    hide Round, Reaches, DivCode;
    if i == 1 {
      assert DivCode(code) ==> |code| == 68 && DivShiftCode(code) by { Parts(code); }
      n, u := DivCount(base, code, bottom, t, d, 1, a, ret);
    } else {
      var n1, u1 := DivRound(base, code, bottom, t, d, i, a, ret);
      var n2, u2 := DivLoop(base, code, bottom, u1, Round(a, d), i - 1, a, ret);
      ReachesMore(base, code, bottom, t, n1, u1, n2, u2);
      n, u := n1 + n2, u2;
    }
  }

  lemma Parts(code: seq<Byte>)
    ensures DivCode(code) ==> |code| == 68 && DivEntryCode(code) && DivShiftCode(code) && DivExitCode(code)
  {
  }

  /** The whole routine, up to its RET. */
  lemma DivRuns(base: Word, code: seq<Byte>, bottom: Word, t: Calc, ret: Word)
    returns (n: nat, u: Calc)
    requires DivCode(code) && t.ip == 0 && t.stack == [ret]
    ensures Reaches(base, code, bottom, t, n, u)
    ensures u.ip == 67 && u.stack == [ret] && u.a == Divided(t.a, t.b).q && u.b == Divided(t.a, t.b).r
  {
    hide Rounds, Reaches, DivCode;
    Parts(code);
    var n1, u1 := DivEntry(base, code, bottom, t, ret);
    var d, i, n2, u2 := Div(0, 0, t.b), 0x11 as Word, 0, u1;
    if t.b == 0 {
      Start(base, code, bottom, u1);
    } else {
      n2, u2 := DivLoop(base, code, bottom, u1, d, 0x11, t.a, ret);
      d, i := Rounds(t.a, d, 16), 1;
    }
    ReachesMore(base, code, bottom, t, n1, u1, n2, u2);
    var n3, u3 := DivExit(base, code, bottom, u2, d, i, t.a, ret);
    ReachesMore(base, code, bottom, t, n1 + n2, u2, n3, u3);
    n, u := n1 + n2 + n3, u3;
  }

  // ---------- mul ----------

  /** Both factors and a zero sum on the stack. */
  lemma MulEntry(base: Word, code: seq<Byte>, bottom: Word, t: Calc, ret: Word)
    returns (n: nat, u: Calc)
    requires |code| == 34 && MulEntryCode(code) && t.ip == 0 && t.stack == [ret]
    ensures Reaches(base, code, bottom, t, n, u)
    ensures u.ip == 5 && u.stack == [0, t.a, t.b, ret] && u.a == t.a
  {
    hide Wrap, FlagsOf, FlagZ, FlagN, FlagC, Slot, Reaches;
    Start(base, code, bottom, t);
    var t1 := Next(base, code, bottom, t, 0, t);
    assert t1.stack == [t.b, ret];
    var t2 := Next(base, code, bottom, t, 1, t1);
    assert t2.stack == [t.a, t.b, ret];
    var t3 := Next(base, code, bottom, t, 2, t2);
    var t4 := Next(base, code, bottom, t, 3, t3);
    n, u := 4, t4;
  }

  /** An odd multiplier adds the multiplicand to the sum. */
  lemma MulAdd(base: Word, code: seq<Byte>, bottom: Word, t: Calc, c: Word, a: Word, b: Word, ret: Word)
    returns (n: nat, u: Calc)
    requires |code| == 34 && MulAddCode(code) && t.ip == 5 && t.stack == [c, a, b, ret] && t.a == a
    ensures Reaches(base, code, bottom, t, n, u)
    ensures u.ip == 15 && u.stack == [if a % 2 == 1 then Wrap(c + b) else c, a, b, ret]
  {
    hide Wrap, FlagsOf, FlagZ, FlagN, FlagC, Slot, Reaches;
    Start(base, code, bottom, t);
    var t1 := Next(base, code, bottom, t, 0, t);
    var t2 := Next(base, code, bottom, t, 1, t1);
    FlagsTell(a / 2, a % 2 == 1);
    var t3 := Next(base, code, bottom, t, 2, t2);
    if a % 2 == 0 {
      n, u := 3, t3;
    } else {
      assert t3.ip == 10;
      var t4 := Next(base, code, bottom, t, 3, t3);
      assert t4.a == b;
      var t5 := Next(base, code, bottom, t, 4, t4);
      assert t5.b == c && t5.stack == [a, b, ret];
      var t6 := Next(base, code, bottom, t, 5, t5);
      Commuted(b, c);
      var t7 := Next(base, code, bottom, t, 6, t6);
      n, u := 7, t7;
    }
  }

  lemma Commuted(x: Word, y: Word)
    ensures Wrap(x + y) == Wrap(y + x)
  {
  }

  /** Multiplicand up, multiplier down, and round again unless it is zero. */
  lemma MulShift(base: Word, code: seq<Byte>, bottom: Word, t: Calc, c: Word, a: Word, b: Word, ret: Word)
    returns (n: nat, u: Calc)
    requires |code| == 34 && MulShiftCode(code) && t.ip == 15 && t.stack == [c, a, b, ret]
    ensures Reaches(base, code, bottom, t, n, u)
    ensures u.ip == (if a / 2 == 0 then 30 else 5) && u.stack == [c, a / 2, Wrap(b + b), ret] && u.a == a / 2
  {
    hide Wrap, FlagsOf, FlagZ, FlagN, FlagC, Slot, Reaches;
    Start(base, code, bottom, t);
    var t1 := Next(base, code, bottom, t, 0, t);
    assert t1.a == b;
    var t2 := Next(base, code, bottom, t, 1, t1);
    var t3 := Next(base, code, bottom, t, 2, t2);
    assert t3.ip == 20 && t3.stack == [c, a, Wrap(b + b), ret];
    var t4 := Next(base, code, bottom, t, 3, t3);
    assert t4.a == a;
    var t5 := Next(base, code, bottom, t, 4, t4);
    var t6 := Next(base, code, bottom, t, 5, t5);
    assert t6.ip == 25 && t6.a == a / 2 && t6.stack == [c, a / 2, Wrap(b + b), ret];
    var t7 := Next(base, code, bottom, t, 6, t6);
    var t8 := Next(base, code, bottom, t, 7, t7);
    FlagsTell(a / 2, false);
    var t9 := Next(base, code, bottom, t, 8, t8);
    n, u := 9, t9;
  }

  /** The sum into A, the rest off the stack. */
  lemma MulExit(base: Word, code: seq<Byte>, bottom: Word, t: Calc, c: Word, a: Word, b: Word, ret: Word)
    returns (n: nat, u: Calc)
    requires |code| == 34 && MulExitCode(code) && t.ip == 30 && t.stack == [c, a, b, ret]
    ensures Reaches(base, code, bottom, t, n, u)
    ensures u.ip == 33 && u.stack == [ret] && u.a == c
  {
    hide Wrap, FlagsOf, FlagZ, FlagN, FlagC, Slot, Reaches;
    Start(base, code, bottom, t);
    var t1 := Next(base, code, bottom, t, 0, t);
    assert t1.stack == [a, b, ret];
    var t2 := Next(base, code, bottom, t, 1, t1);
    assert t2.stack == [b, ret];
    var t3 := Next(base, code, bottom, t, 2, t2);
    n, u := 3, t3;
  }

  /** The loop runs until the multiplier is used up, at least once. */
  lemma {:induction false} MulLoop(base: Word, code: seq<Byte>, bottom: Word, t: Calc, c: Word, a: Word, b: Word, ret: Word)
    returns (n: nat, u: Calc, b': Word)
    requires MulCode(code) && t.ip == 5 && t.stack == [c, a, b, ret] && t.a == a
    ensures Reaches(base, code, bottom, t, n, u)
    ensures u.ip == 30 && u.stack == [Product(c, a, b), 0, b', ret]
    decreases a
  {
    hide Wrap, Reaches, MulAddCode, MulShiftCode;
    var c' := if a % 2 == 1 then Wrap(c + b) else c;
    var n1, u1 := MulAdd(base, code, bottom, t, c, a, b, ret);
    var n2, u2 := MulShift(base, code, bottom, u1, c', a, b, ret);
    ReachesMore(base, code, bottom, t, n1, u1, n2, u2);
    b' := Wrap(b + b);
    n, u := n1 + n2, u2;
    if a / 2 != 0 {
      var n3, u3, b'' := MulLoop(base, code, bottom, u2, c', a / 2, b', ret);
      ReachesMore(base, code, bottom, t, n1 + n2, u2, n3, u3);
      b' := b'';
      n, u := n1 + n2 + n3, u3;
    } else {
      ProductEnds(c, a, b);
    }
  }

  lemma ProductEnds(c: Word, a: Word, b: Word)
    requires a / 2 == 0
    ensures Product(c, a, b) == if a % 2 == 1 then Wrap(c + b) else c
  {
  }

  lemma MulRuns(base: Word, code: seq<Byte>, bottom: Word, t: Calc, ret: Word)
    returns (n: nat, u: Calc)
    requires MulCode(code) && t.ip == 0 && t.stack == [ret]
    ensures Reaches(base, code, bottom, t, n, u)
    ensures u.ip == 33 && u.stack == [ret] && u.a == Wrap(t.a * t.b)
  {
    hide Wrap, Product, Reaches, MulEntryCode, MulAddCode, MulShiftCode, MulExitCode;
    var n1, u1 := MulEntry(base, code, bottom, t, ret);
    var n2, u2, b' := MulLoop(base, code, bottom, u1, 0, t.a, t.b, ret);
    ReachesMore(base, code, bottom, t, n1, u1, n2, u2);
    ProductIsSum(0, t.a, t.b);
    var n3, u3 := MulExit(base, code, bottom, u2, Product(0, t.a, t.b), 0, b', ret);
    ReachesMore(base, code, bottom, t, n1 + n2, u2, n3, u3);
    n, u := n1 + n2 + n3, u3;
  }

  // ---------- on the machine ----------

  /** A call has just entered the routine at `base`: its return word `ret` is on top of the caller's stack. */
  predicate Called(s: Arch, base: Word, code: seq<Byte>, bottom: Word, ret: Word) {
    && code != [] && Placed(base, code, bottom) && CodeIn(s.ram, base, code)
    && s.ip == base && s.sp == Slot(bottom, 1) && WordIs(s.ram, bottom, ret)
  }

  /** The routine has returned after the call's operand; memory differs in its own stack words only. */
  predicate ReturnedTo(s: Arch, end: Arch, bottom: Word, ret: Word) {
    && end == s.(a := end.a, b := end.b, fr := end.fr, sp := bottom, ip := Wrap(ret as int + 2), ram := end.ram)
    && Frame(end.ram, s.ram, bottom)
  }

  lemma Entered(s: Arch, base: Word, code: seq<Byte>, bottom: Word, ret: Word)
    requires Called(s, base, code, bottom, ret)
    ensures Sim(s, s, Calc(s.a, s.b, s.fr, 0, [ret]), base, code, bottom)
  {
    hide Placed, Read16, Slot, Frame;
    BottomSlot(bottom);
    FrameSame(s.ram, bottom);
  }

  lemma FrameSame(ram: Ram, bottom: Word)
    ensures Frame(ram, ram, bottom)
  {
  }

  /** A run of the routine to its RET returns on the machine. */
  lemma RoutineReturns(s: Arch, base: Word, code: seq<Byte>, bottom: Word, ret: Word, n: nat, u: Calc)
    requires Called(s, base, code, bottom, ret)
    requires var t := Calc(s.a, s.b, s.fr, 0, [ret]);
             Reaches(base, code, bottom, t, n, u) && u.ip < |code| && code[u.ip] == RET && u.stack == t.stack
    ensures ReturnedTo(s, Run(s, n + 1), bottom, ret) && Run(s, n + 1).a == u.a && Run(s, n + 1).b == u.b
  {
    hide Read16, Slot, Frame, Reaches, Step, Run, CodeIn, StackIn, Wrap;
    Entered(s, base, code, bottom, ret);
    RunSimulated(s, s, Calc(s.a, s.b, s.fr, 0, [ret]), base, code, bottom, n, u);
    ReturnSimulated(s, Run(s, n), u, base, code, bottom);
    RunAdd(s, n, 1);
    OneMore(Run(s, n));
  }

  lemma OneMore(s: Arch)
    ensures Run(s, 1) == Step(s)
  {
    assert Run(Step(s), 0) == Step(s);
  }

  /**
   * div, called with divisor A and dividend B, returns to its caller with the stack restored, the quotient in A and
   * the remainder in B, exactly for the divisors and dividends its sign test can tell apart.
   */
  lemma DivReturns(s: Arch, base: Word, code: seq<Byte>, bottom: Word, ret: Word) returns (n: nat)
    requires DivCode(code) && Called(s, base, code, bottom, ret)
    ensures ReturnedTo(s, Run(s, n), bottom, ret)
    ensures s.a > 0 ==>
              ((Run(s, n).a == s.b / s.a && Run(s, n).b == s.b % s.a) <==>
               (s.a <= 0x8000 || s.b == 0 || (s.a == 0x8001 && s.b >= 0x8000)))
  {
    hide Called, Read16, Reaches, Run, Divided, ReturnedTo;
    var t := Calc(s.a, s.b, s.fr, 0, [ret]);
    var m, u := DivRuns(base, code, bottom, t, ret);
    RoutineReturns(s, base, code, bottom, ret, m, u);
    if s.a > 0 { DividedExactly(s.a, s.b); }
    n := m + 1;
  }

  /** mul returns the product of A and B modulo 2^16 in A, with the stack restored. */
  lemma MulReturns(s: Arch, base: Word, code: seq<Byte>, bottom: Word, ret: Word) returns (n: nat)
    requires MulCode(code) && Called(s, base, code, bottom, ret)
    ensures ReturnedTo(s, Run(s, n), bottom, ret) && Run(s, n).a == Wrap(s.a * s.b)
  {
    hide Called, Read16, Reaches, Run, ReturnedTo, Wrap;
    var t := Calc(s.a, s.b, s.fr, 0, [ret]);
    var m, u := MulRuns(base, code, bottom, t, ret);
    RoutineReturns(s, base, code, bottom, ret, m, u);
    n := m + 1;
  }
}
