/** Compiled programs behave like their text. */
module JitCorrect {
  import opened Words
  import opened Instructions
  import opened Isa
  import opened Brackets
  import opened Brainfuck
  import opened Coalescing
  import opened CoalescingCorrect
  import opened JitCode
  import opened JitHost
  import opened JitFragments

  /** Every emitted pointer move is short enough for its one-byte operand. */
  predicate ByteMoves(ts: seq<Token>) {
    forall k :: 0 <= k < |ts| && ts[k].Repeat? && (ts[k].op == LEFT || ts[k].op == RIGHT) ==> ts[k].count < 0x100
  }

  /** The machine is at the fragment of token t.pc, or at the epilogue, with the data of t. */
  predicate At(l: Layout, ts: seq<Token>, code: seq<Byte>, ret: Word, t: TokenState, h: Host) {
    t.pc <= |ts| && Ready(l, code, ret, t.d, h, Offset(ts, t.pc))
  }

  lemma {:induction false} ScannedTokensAreGood(p: seq<Byte>, n: nat)
    requires n <= |p|
    ensures GoodTokens(Scan(p, n).tokens) && GoodTokens(Flush(Scan(p, n)))
  {
    ScanIsGood(p, n);
    if n > 0 { ScannedTokensAreGood(p, n - 1); }
  }

  lemma TokensAreGood(p: seq<Byte>)
    ensures GoodTokens(Tokens(p))
  {
    ScannedTokensAreGood(p, |p|);
  }

  lemma FragmentBytes(l: Layout, ts: seq<Token>, code: seq<Byte>, k: nat)
    requires Translates(l, ts, code) && GoodTokens(ts) && k < |ts|
    ensures Offset(ts, k + 1) == Offset(ts, k) + Size(ts[k]) <= |code|
    ensures code[Offset(ts, k)..Offset(ts, k) + Size(ts[k])] == Bytes(l, ts, k)
  {
    hide Bytes;
    BytesSize(l, ts, k);
    assert FragmentAt(l, ts, code, k);
  }

  /** The token at t.pc is not a pointer move, or its count fits the one-byte operand. */
  predicate MoveFits(ts: seq<Token>, t: TokenState) {
    t.pc < |ts| && ts[t.pc].Repeat? && (ts[t.pc].op == LEFT || ts[t.pc].op == RIGHT) ==> ts[t.pc].count < 0x100
  }

  /** Machine steps of one token. */
  function StepsOf(ts: seq<Token>, t: TokenState): (n: nat)
    ensures n >= 4
  {
    if t.pc >= |ts| then 4
    else
      match ts[t.pc]
      case Repeat(op, count) => if count == 1 then 4 else if op == PLUS || op == MINUS then 7 else 5
      case Loop => if Cell(t.d) == 0 then 6 else 4
      case EndLoop => 4
      case _ => 5
  }

  lemma RepeatRuns(env: Env, l: Layout, ts: seq<Token>, code: seq<Byte>, ret: Word, t: TokenState, h: Host)
    requires Disjoint(l) && Translates(l, ts, code) && GoodTokens(ts)
    requires t.pc < |ts| && ts[t.pc].Repeat? && TokenSafe(ts, t) && At(l, ts, code, ret, t, h)
    ensures At(l, ts, code, ret, TokenState(t.pc + 1, Act(ts[t.pc].op, ts[t.pc].count, t.d)),
               HostRun(env, l, ret, h, StepsOf(ts, t)))
            <==> MoveFits(ts, t)
  {
    hide Disjoint, Translates, Ready, HostRun, RepeatBytes, Act;
    var op, count, o := ts[t.pc].op, ts[t.pc].count, Offset(ts, t.pc);
    FragmentBytes(l, ts, code, t.pc);
    if op == PLUS {
      if count == 1 { IncrementOnce(env, l, code, ret, t.d, h, o); }
      else { AddMany(env, l, code, ret, t.d, h, o, count); }
    } else if op == MINUS {
      if count == 1 { DecrementOnce(env, l, code, ret, t.d, h, o); }
      else { SubtractMany(env, l, code, ret, t.d, h, o, count); }
    } else if count == 1 {
      MoveOnce(env, l, code, ret, t.d, h, o, op);
    } else {
      MoveMany(env, l, code, ret, t.d, h, o, op, count);
      MoveExactIff(l, code, ret, t.d, HostRun(env, l, ret, h, 5), o + 6, op, count);
    }
  }

  /** Having moved by the low byte of the count is having moved by the count only if they are equal. */
  lemma MoveExactIff(l: Layout, code: seq<Byte>, ret: Word, d: Data, h: Host, o: nat, op: Byte, count: Word)
    requires (op == LEFT || op == RIGHT) && Ready(l, code, ret, Act(op, LowByte(count), d), h, o)
    ensures Ready(l, code, ret, Act(op, count, d), h, o) <==> count < 0x100
  {
    hide Wrap, Read16;
    if count < 0x100 {
      ByteItself(count);
    } else {
      WrapInjective(d.ptr, LowByte(count), count);
      var p, q := Act(op, LowByte(count), d).ptr, Act(op, count, d).ptr;
      WrapInjective(l.mem, p, q);
    }
  }

  /** The loop bracket fragments, opened up to their operands. */
  lemma LoopBytes(l: Layout, ts: seq<Token>, code: seq<Byte>, k: nat)
    requires Translates(l, ts, code) && GoodTokens(ts) && k < |ts|
    ensures Offset(ts, k) + Size(ts[k]) <= |code|
    ensures var o := Offset(ts, k);
            && (ts[k].Loop? ==> code[o..o + 4] == [PEEKB, rB_AL, CMPA, JMPRZ])
            && (ts[k].Loop? ==> code[o + 4..o + 6] == Word2(ForwardJump(ts, k)))
            && (ts[k].EndLoop? ==> code[o..o + 4] == [PEEKB, rB_AL, CMPA, JMPRNZ])
            && (ts[k].EndLoop? ==> code[o + 4..o + 6] == Word2(BackwardJump(ts, k)))
  {
    hide Word2, ForwardJump, BackwardJump, Translates, RepeatBytes, Offset;
    FragmentBytes(l, ts, code, k);
    var o := Offset(ts, k);
    if ts[k].Loop? || ts[k].EndLoop? {
      SubSlice(code, o, o + 6, 0, 4);
      SubSlice(code, o, o + 6, 4, 6);
    }
  }

  lemma LoopRuns(env: Env, l: Layout, ts: seq<Token>, input: nat -> Byte, code: seq<Byte>, ret: Word, t: TokenState, h: Host)
    requires Disjoint(l) && Translates(l, ts, code) && GoodTokens(ts) && Balanced(Shapes(ts))
    requires t.pc < |ts| && ts[t.pc].Loop? && TokenSafe(ts, t) && At(l, ts, code, ret, t, h)
    ensures At(l, ts, code, ret, TokenStep(ts, input, t), HostRun(env, l, ret, h, StepsOf(ts, t)))
  {
    hide Disjoint, Translates, Ready, HostRun, Word2, Offset, Cell;
    var o := Offset(ts, t.pc);
    LoopBytes(l, ts, code, t.pc);
    OffsetNext(ts, t.pc);
    if Cell(t.d) != 0 {
      LoopEntered(env, l, code, ret, t.d, h, o);
    } else {
      BalancedCloses(Shapes(ts), t.pc);
      var j := CloseOf(Shapes(ts), t.pc);
      assert ts[j].EndLoop?;
      LoopBytes(l, ts, code, j);
      OffsetGrows(ts, t.pc, j);
      OffsetNext(ts, j);
      LoopSkipped(env, l, code, ret, t.d, h, o, Offset(ts, j));
    }
  }

  lemma OffsetNext(ts: seq<Token>, k: nat)
    requires k < |ts|
    ensures Offset(ts, k + 1) == Offset(ts, k) + Size(ts[k])
  {
  }

  lemma EndLoopRuns(env: Env, l: Layout, ts: seq<Token>, input: nat -> Byte, code: seq<Byte>, ret: Word, t: TokenState, h: Host)
    requires Disjoint(l) && Translates(l, ts, code) && GoodTokens(ts) && Balanced(Shapes(ts))
    requires t.pc < |ts| && ts[t.pc].EndLoop? && TokenSafe(ts, t) && At(l, ts, code, ret, t, h)
    ensures At(l, ts, code, ret, TokenStep(ts, input, t), HostRun(env, l, ret, h, StepsOf(ts, t)))
  {
    hide Disjoint, Translates, Ready, HostRun, Word2, Offset, Cell;
    var o := Offset(ts, t.pc);
    LoopBytes(l, ts, code, t.pc);
    OffsetNext(ts, t.pc);
    assert Matched(Shapes(ts), t.pc);
    if Cell(t.d) == 0 {
      LoopLeft(env, l, code, ret, t.d, h, o);
    } else {
      var i := OpenOf(Shapes(ts), t.pc);
      assert ts[i].Loop?;
      OffsetGrows(ts, i, t.pc);
      OffsetNext(ts, i);
      LoopRepeated(env, l, code, ret, t.d, h, o, Offset(ts, i));
    }
  }

  /** Running the fragment performs the token, unless it is a move whose count does not fit. */
  lemma TokenRuns(env: Env, l: Layout, ts: seq<Token>, code: seq<Byte>, ret: Word, t: TokenState, h: Host)
    requires Disjoint(l) && PoliteEnv(env, l)
    requires Translates(l, ts, code) && GoodTokens(ts) && Balanced(Shapes(ts))
    requires t.pc < |ts| && TokenSafe(ts, t) && At(l, ts, code, ret, t, h)
    ensures At(l, ts, code, ret, TokenStep(ts, env.input, t), HostRun(env, l, ret, h, StepsOf(ts, t)))
            <==> MoveFits(ts, t)
  {
    hide Disjoint, PoliteEnv, Translates, Ready, HostRun, Word2, GoodTokens, Balanced, Act;
    var o := Offset(ts, t.pc);
    match ts[t.pc]
    case Repeat(op, count) =>
      RepeatRuns(env, l, ts, code, ret, t, h);
    case Loop =>
      LoopRuns(env, l, ts, env.input, code, ret, t, h);
    case EndLoop =>
      EndLoopRuns(env, l, ts, env.input, code, ret, t, h);
    case Input =>
      FragmentBytes(l, ts, code, t.pc);
      InputFragment(env, l, code, ret, t.d, h, o);
    case Output =>
      FragmentBytes(l, ts, code, t.pc);
      OutputFragment(env, l, code, ret, t.d, h, o);
  }

  /** Machine steps of m token steps. */
  function StepsOfRun(ts: seq<Token>, input: nat -> Byte, t: TokenState, m: nat): (n: nat)
    requires Balanced(Shapes(ts))
    ensures n >= m
    decreases m
  {
    if m == 0 || t.pc >= |ts| then m else StepsOf(ts, t) + StepsOfRun(ts, input, TokenStep(ts, input, t), m - 1)
  }

  /** Every executed pointer move fits. */
  predicate MovesFit(ts: seq<Token>, input: nat -> Byte, t: TokenState, m: nat)
    requires Balanced(Shapes(ts))
    decreases m
  {
    m == 0 || t.pc >= |ts| || (MoveFits(ts, t) && MovesFit(ts, input, TokenStep(ts, input, t), m - 1))
  }

  lemma {:induction false} ByteMovesFit(ts: seq<Token>, input: nat -> Byte, t: TokenState, m: nat)
    requires Balanced(Shapes(ts)) && ByteMoves(ts)
    ensures MovesFit(ts, input, t, m)
    decreases m
  {
    hide TokenStep;
    if m > 0 && t.pc < |ts| { ByteMovesFit(ts, input, TokenStep(ts, input, t), m - 1); }
  }

  /** At each of the m token boundaries the machine has the tokens' data. */
  predicate Tracks(env: Env, l: Layout, ts: seq<Token>, code: seq<Byte>, ret: Word, t: TokenState, h: Host, m: nat)
    requires Balanced(Shapes(ts))
    decreases m
  {
    && At(l, ts, code, ret, t, h)
    && (m == 0 || t.pc >= |ts|
        || Tracks(env, l, ts, code, ret, TokenStep(ts, env.input, t), HostRun(env, l, ret, h, StepsOf(ts, t)), m - 1))
  }

  /** The machine follows a safe run of the tokens exactly when every pointer move it executes fits its byte. */
  lemma {:induction false} TracksIffMovesFit(env: Env, l: Layout, ts: seq<Token>, code: seq<Byte>, ret: Word, t: TokenState, h: Host, m: nat)
    requires Disjoint(l) && PoliteEnv(env, l) && Translates(l, ts, code) && GoodTokens(ts) && Balanced(Shapes(ts))
    requires SafeTokenRun(ts, env.input, t, m) && At(l, ts, code, ret, t, h)
    ensures Tracks(env, l, ts, code, ret, t, h, m) <==> MovesFit(ts, env.input, t, m)
    decreases m
  {
    hide Disjoint, PoliteEnv, Translates, GoodTokens, Balanced, TokenStep, TokenSafe, At, HostRun, StepsOf, MoveFits;
    if m > 0 {
      TokenRuns(env, l, ts, code, ret, t, h);
      var t', h' := TokenStep(ts, env.input, t), HostRun(env, l, ret, h, StepsOf(ts, t));
      if MoveFits(ts, t) {
        TracksIffMovesFit(env, l, ts, code, ret, t', h', m - 1);
      } else {
        assert !At(l, ts, code, ret, t', h');
      }
    }
  }

  lemma {:induction false} TrackedEnd(env: Env, l: Layout, ts: seq<Token>, code: seq<Byte>, ret: Word, t: TokenState, h: Host, m: nat)
    requires Balanced(Shapes(ts)) && Tracks(env, l, ts, code, ret, t, h, m) && SafeTokenRun(ts, env.input, t, m)
    ensures At(l, ts, code, ret, TokenRun(ts, env.input, t, m),
               HostRun(env, l, ret, h, StepsOfRun(ts, env.input, t, m)))
    decreases m
  {
    hide Balanced, TokenStep, TokenSafe, At, StepsOf;
    if m > 0 {
      var t', k := TokenStep(ts, env.input, t), StepsOf(ts, t);
      TrackedEnd(env, l, ts, code, ret, t', HostRun(env, l, ret, h, k), m - 1);
      HostRunAdd(env, l, ret, h, k, StepsOfRun(ts, env.input, t', m - 1));
    }
  }

  // ---------- entry and exit ----------

  /** Just after the call of the code: return address on the stack, code loaded, tape blank. */
  predicate Entered(l: Layout, code: seq<Byte>, ret: Word, h: Host) {
    && h.m.ip == l.base && h.m.sp == PointerSlot(l) && h.read == 0 && h.out == []
    && l.base + |code| <= 0x1_0000 && l.mem + TAPE_SIZE <= 0x1_0000
    && h.m.ram[l.base..l.base + |code|] == code
    && h.m.ram[l.mem..l.mem + TAPE_SIZE] == START.d.cells
    && WordIs(h.m.ram, ReturnSlot(l), ret)
  }

  lemma PrologueBytes(l: Layout, ts: seq<Token>, code: seq<Byte>)
    requires Translates(l, ts, code)
    ensures |code| >= 6 && code[0] == NOP && code[1] == RAM_A && code[4] == PUSHA && code[5] == NOP
    ensures code[2..4] == Word2(l.mem)
  {
    var bytes := code[..6];
    assert code[0] == bytes[0] && code[1] == bytes[1] && code[4] == bytes[4] && code[5] == bytes[5];
    MiddleSlice([NOP, RAM_A], Word2(l.mem), [PUSHA, NOP]);
    assert bytes == code[0..6];
    SubSlice(code, 0, 6, 2, 4);
  }

  /** The prologue pushes the address of the first cell. */
  lemma PrologueRuns(env: Env, l: Layout, ts: seq<Token>, code: seq<Byte>, ret: Word, h: Host)
    requires Disjoint(l) && Translates(l, ts, code) && |code| <= CODE_CAPACITY && Entered(l, code, ret, h)
    ensures Ready(l, code, ret, START.d, HostRun(env, l, ret, h, 4), PROLOGUE_SIZE)
  {
    hide Disjoint, Translates, Wrap, Read16, Write16, HostRun, Word2;
    PrologueBytes(l, ts, code);
    StackSlots(l);
    var stale := Read16(h.m.ram, PointerSlot(l));
    var d := START.d.(ptr := Wrap(stale - l.mem));
    WrapInner(l.mem, stale - l.mem);
    WordItself(stale);
    WordIsRead(h.m.ram, PointerSlot(l), stale);
    assert Holds(l, code, ret, d, h.m.ram);
    var h1 := Advance(env, l, code, ret, d, h, 0, NOP, 3);
    var h2 := Advance(env, l, code, ret, d, h1, 1, RAM_A, 2);
    Operand(l, code, ret, d, h1.m.ram, 2, l.mem);
    InCode(l, code, ret, d, h1.m.ram, 4);
    WordItself(l.mem);
    PushPointer(env, l, code, ret, d, 0, h2, 4);
    assert d.(ptr := 0) == START.d;
  }

  lemma WordItself(x: Word)
    ensures Wrap(x) == x
  {
  }

  lemma EpilogueBytes(l: Layout, ts: seq<Token>, code: seq<Byte>)
    requires Translates(l, ts, code)
    ensures var o := Offset(ts, |ts|); o + 2 == |code| && code[o] == INCSP && code[o + 1] == RET
  {
    var o := Offset(ts, |ts|);
    assert code[o] == code[o..][0] && code[o + 1] == code[o..][1];
  }

  /** The epilogue drops the pointer and returns. */
  lemma EpilogueRuns(env: Env, l: Layout, ts: seq<Token>, code: seq<Byte>, ret: Word, d: Data, h: Host)
    requires Disjoint(l) && Translates(l, ts, code) && Ready(l, code, ret, d, h, Offset(ts, |ts|))
    ensures var end := HostRun(env, l, ret, h, 2);
            && Returned(l, ret, end) && end.read == d.read && end.out == d.out
            && Holds(l, code, ret, d, end.m.ram)
  {
    hide Disjoint, Wrap, Read16, HostRun, Translates, Holds, Offset;
    var o := Offset(ts, |ts|);
    EpilogueBytes(l, ts, code);
    StackSlots(l);
    HoldsPointer(l, code, ret, d, h.m.ram);
    var h1 := Advance(env, l, code, ret, d, h, o, INCSP, 1);
    var h2 := Advance(env, l, code, ret, d, h1, o + 1, RET, 0);
    RunNone(env, l, ret, h2);
  }

  // ---------- the theorems ----------

  /** `code` is the translation of a well-nested program whose pointer moves fit, loaded and just called. */
  ghost predicate Called(env: Env, l: Layout, p: seq<Byte>, code: seq<Byte>, ret: Word, h: Host) {
    && WellNested(p) && ByteMoves(Tokens(p))
    && Translates(l, Tokens(p), code) && |code| <= CODE_CAPACITY
    && Disjoint(l) && PoliteEnv(env, l) && Entered(l, code, ret, h)
  }

  lemma RunReaches(env: Env, l: Layout, p: seq<Byte>, code: seq<Byte>, ret: Word, h: Host, m: nat) returns (k: nat)
    requires Called(env, l, p, code, ret, h) && Balanced(Shapes(Tokens(p)))
    requires SafeTokenRun(Tokens(p), env.input, TokenState(0, START.d), m)
    ensures At(l, Tokens(p), code, ret, TokenRun(Tokens(p), env.input, TokenState(0, START.d), m), HostRun(env, l, ret, h, k))
    ensures k >= m
  {
    hide Tokens, ByteMoves, WellNested, Disjoint, PoliteEnv, Translates, Balanced, Entered, Ready, HostRun, GoodTokens, Offset;
    hide TokenRun, SafeTokenRun, Tracks, MovesFit;
    var ts, t := Tokens(p), TokenState(0, START.d);
    TokensAreGood(p);
    PrologueRuns(env, l, ts, code, ret, h);
    OffsetStart(ts);
    var started := HostRun(env, l, ret, h, 4);
    ByteMovesFit(ts, env.input, t, m);
    TracksIffMovesFit(env, l, ts, code, ret, t, started, m);
    TrackedEnd(env, l, ts, code, ret, t, started, m);
    var n := StepsOfRun(ts, env.input, t, m);
    HostRunAdd(env, l, ret, h, 4, n);
    k := 4 + n;
  }

  lemma OffsetStart(ts: seq<Token>)
    ensures Offset(ts, 0) == PROLOGUE_SIZE
  {
  }

  /**
   * A program whose direct interpretation ends after n steps: the compiled code returns to its caller with the
   * same tape, pointer, number of characters read and characters written.
   */
  lemma CompiledCodeReturns(env: Env, l: Layout, p: seq<Byte>, code: seq<Byte>, ret: Word, h: Host, n: nat) returns (k: nat)
    requires Called(env, l, p, code, ret, h)
    requires SafeRun(p, env.input, START, n) && TextRun(p, env.input, START, n).pc >= |p|
    ensures var d := TextRun(p, env.input, START, n).d;
            var end := HostRun(env, l, ret, h, k);
            && Returned(l, ret, end) && end.read == d.read && end.out == d.out
            && Holds(l, code, ret, d, end.m.ram)
  {
    hide Tokens, ByteMoves, WellNested, Balanced, Disjoint, PoliteEnv, Entered, Translates, Scan;
    hide TextRun, SafeRun, TokenRun, SafeTokenRun, HostRun;
    var m := CoalescingIsCorrect(p, env.input, n);
    var j := RunReaches(env, l, p, code, ret, h, m);
    var d := TextRun(p, env.input, START, n).d;
    EpilogueRuns(env, l, Tokens(p), code, ret, d, HostRun(env, l, ret, h, j));
    HostRunAdd(env, l, ret, h, j, 2);
    k := j + 2;
  }

  lemma {:induction false} StillRunning(env: Env, l: Layout, ret: Word, h: Host, j: nat, k: nat)
    requires j <= k && !Returned(l, ret, HostRun(env, l, ret, h, k))
    ensures !Returned(l, ret, HostRun(env, l, ret, h, j))
  {
    HostRunAdd(env, l, ret, h, j, k - j);
  }

  /**
   * A program still inside its text after (k + 1) (|p| + 1) steps: the compiled code has not returned within
   * k machine steps. A program that never ends therefore never returns.
   */
  lemma CompiledCodeKeepsRunning(env: Env, l: Layout, p: seq<Byte>, code: seq<Byte>, ret: Word, h: Host, k: nat, n: nat)
    requires Called(env, l, p, code, ret, h) && n == (k + 1) * (|p| + 1)
    requires SafeRun(p, env.input, START, n) && TextRun(p, env.input, START, n).pc < |p|
    ensures !Returned(l, ret, HostRun(env, l, ret, h, k))
  {
    hide Tokens, ByteMoves, WellNested, Balanced, Disjoint, PoliteEnv, Entered, Translates, Scan;
    hide TextRun, SafeRun, TokenRun, SafeTokenRun, HostRun;
    TokensBalanced(p);
    StartRepresents(p);
    var t := TokenState(0, START.d);
    var m := TextRunSimulated(p, env.input, START, t, n);
    EnoughSteps(m, k, |p|, n, TextRun(p, env.input, START, n).pc);
    var j := RunReaches(env, l, p, code, ret, h, m);
    StackSlots(l);
    StillRunning(env, l, ret, h, k, j);
  }

  lemma EnoughSteps(m: nat, k: nat, width: nat, n: nat, pc: nat)
    requires n == (k + 1) * (width + 1) && n <= m * (width + 1) + pc && pc < width
    ensures m > k
  {
    ProductGrows(m, k, width + 1);
  }

  lemma ProductGrows(m: nat, k: nat, w: nat)
    ensures m <= k ==> m * w <= k * w
    ensures (k + 1) * w == k * w + w
  {
  }

  /** The text `><<`: one step right, two steps left. */
  const CANCELLED: seq<Byte> := [RIGHT, LEFT, LEFT]

  lemma CancelledTokens()
    ensures Tokens(CANCELLED) == [Repeat(RIGHT, 0xFFFF)]
  {
    var p := CANCELLED;
    assert Scan(p, 0) == Pending([], OP_NONE, 0);
    assert Scan(p, 1) == Pending([], RIGHT, 1);
    assert Scan(p, 2) == Pending([], RIGHT, 0);
    assert Scan(p, 3) == Pending([], RIGHT, 0xFFFF);
  }

  lemma MoveStep(p: seq<Byte>, input: nat -> Byte, s: TextState, ptr: Word)
    requires WellNested(p) && s.pc < |p|
    requires (p[s.pc] == RIGHT && ptr == Wrap(s.d.ptr + 1)) || (p[s.pc] == LEFT && ptr == Wrap(s.d.ptr - 1))
    ensures TextStep(p, input, s) == TextState(s.pc + 1, s.d.(ptr := ptr)) && TextSafe(p, s)
  {
  }

  lemma CancelledText(input: nat -> Byte)
    ensures WellNested(CANCELLED) && SafeRun(CANCELLED, input, START, 3)
    ensures TextRun(CANCELLED, input, START, 3) == TextState(3, START.d.(ptr := 0xFFFF))
  {
    hide WellNested, TextSafe;
    var p := CANCELLED;
    assert |p| == 3 && p[0] == RIGHT && p[1] == LEFT && p[2] == LEFT;
    var s1 := TextState(1, START.d.(ptr := 1));
    var s2 := TextState(2, START.d);
    var s3 := TextState(3, START.d.(ptr := 0xFFFF));
    PlainIsBalanced(p);
    MoveStep(p, input, START, 1);
    MoveStep(p, input, s1, 0);
    MoveStep(p, input, s2, 0xFFFF);
    hide TextStep;
    assert TextRun(p, input, s3, 0) == s3 && SafeRun(p, input, s3, 0);
    assert TextRun(p, input, s2, 1) == s3 && SafeRun(p, input, s2, 1);
    assert TextRun(p, input, s1, 2) == s3 && SafeRun(p, input, s1, 2);
  }

  /**
   * A move that cancels and then goes the other way keeps its first direction with a count of 2^16 - 1, of which
   * only the low byte is emitted: the text ends one cell to the left of its start, the machine 255 cells to the right.
   */
  lemma CancelledMoveGoesWrong(env: Env, l: Layout, code: seq<Byte>, ret: Word, h: Host)
    requires Translates(l, Tokens(CANCELLED), code) && |code| <= CODE_CAPACITY
    requires Disjoint(l) && PoliteEnv(env, l) && Entered(l, code, ret, h)
    ensures WellNested(CANCELLED) && SafeRun(CANCELLED, env.input, START, 3)
    ensures TextRun(CANCELLED, env.input, START, 3) == TextState(3, START.d.(ptr := 0xFFFF))
    ensures Ready(l, code, ret, START.d.(ptr := 255), HostRun(env, l, ret, h, 9), 12)
  {
    hide Disjoint, PoliteEnv, Translates, HostRun, Ready, Tokens, WellNested, SafeRun, TextRun;
    CancelledText(env.input);
    WrongMove(env, l, code, ret, h);
  }

  lemma WrongMove(env: Env, l: Layout, code: seq<Byte>, ret: Word, h: Host)
    requires Translates(l, Tokens(CANCELLED), code) && |code| <= CODE_CAPACITY
    requires Disjoint(l) && PoliteEnv(env, l) && Entered(l, code, ret, h)
    ensures Ready(l, code, ret, START.d.(ptr := 255), HostRun(env, l, ret, h, 9), 12)
  {
    hide Disjoint, PoliteEnv, Translates, HostRun, Ready, Tokens;
    CancelledTokens();
    var ts := [Repeat(RIGHT, 0xFFFF)];
    assert Offset(ts, 0) == 6 && Size(ts[0]) == 6;
    FragmentBytes(l, ts, code, 0);
    PrologueRuns(env, l, ts, code, ret, h);
    MoveMany(env, l, code, ret, START.d, HostRun(env, l, ret, h, 4), 6, RIGHT, 0xFFFF);
    assert Act(RIGHT, LowByte(0xFFFF), START.d) == START.d.(ptr := 255);
    HostRunAdd(env, l, ret, h, 4, 5);
  }

  lemma PlainIsBalanced(p: seq<Byte>)
    requires forall i :: 0 <= i < |p| ==> !IsBracket(p[i])
    ensures WellNested(p)
  {
    NothingOpens(p, |p|);
  }

  lemma {:induction false} NothingOpens(p: seq<Byte>, n: nat)
    requires n <= |p| && forall i :: 0 <= i < |p| ==> !IsBracket(p[i])
    ensures OpenStack(Shape(p), n) == []
  {
    if n > 0 { NothingOpens(p, n - 1); }
  }
}
