/** The one-pass compiler: coalescing, code buffer, jump stack and backpatching. */
module JitCompiler {
  import opened Words
  import opened Instructions
  import opened Brackets
  import opened Brainfuck
  import opened Coalescing
  import opened JitCode
  import opened JitEncoding

  const CODE_END := 511
  const MAX_NESTING := 16

  /**
   * How compilation ends. `Overrun` is the case the end-of-buffer test misses: it compares the code pointer with
   * CODE_END after single bytes only, and an operand skip from 510 to 512 jumps over it (`JitLimits` tells when). What
   * the program does after that (it overwrites its own code pointer) is not part of this model.
   */
  datatype Status = Ok | CodeExceeding | TooManyNested | Unmatched | Overrun {
    predicate IsFailure() { !Ok? }
    function PropagateFailure(): Status { this }
  }

  function OpenLoops(ts: seq<Token>): seq<nat> {
    OpenStack(Shapes(ts), |ts|)
  }

  /** What becomes of n single bytes at an even position: the end-of-buffer test is made after each of them. */
  function BytesFate(at: nat, n: nat): Status {
    if at > CODE_CAPACITY then Overrun else if at + n > CODE_CAPACITY then CodeExceeding else Ok
  }

  /** The bytes a fragment starts with, before the code pointer skips an operand. */
  function Lead(t: Token): nat {
    match t case Repeat(_, _) => Size(t) case Input => 2 case _ => 4
  }

  /** How emitting token t after ts ends. */
  function Fate(ts: seq<Token>, t: Token): Status {
    var at := Offset(ts, |ts|);
    if BytesFate(at, Lead(t)) != Ok then BytesFate(at, Lead(t))
    else if t.Loop? && |OpenLoops(ts)| == MAX_NESTING then TooManyNested
    else if t.EndLoop? && OpenLoops(ts) == [] then Unmatched
    else if t.Input? then BytesFate(at + 4, 2)
    else Ok
  }

  /** How emitting the tokens one after the other ends. */
  function FateOf(ts: seq<Token>): Status {
    if ts == [] then Ok else
      var before := ts[..|ts| - 1];
      if FateOf(before) != Ok then FateOf(before) else Fate(before, ts[|ts| - 1])
  }

  /** How a compilation ends: the tokens, the two bytes of the epilogue, and the test for open loops. */
  function CompileFate(ts: seq<Token>): Status {
    if FateOf(ts) != Ok then FateOf(ts)
    else if BytesFate(Offset(ts, |ts|), EPILOGUE_SIZE) != Ok then BytesFate(Offset(ts, |ts|), EPILOGUE_SIZE)
    else if OpenLoops(ts) != [] then Unmatched
    else Ok
  }

  /** Why token t could not be emitted after ts. */
  predicate Blocked(ts: seq<Token>, t: Token, st: Status) {
    st != Ok && Fate(ts, t) == st
  }

  /** A fragment that does not fit ends beyond the capacity; the other failures are about loops. */
  lemma BlockedMeans(ts: seq<Token>, t: Token)
    ensures match Fate(ts, t)
            case Ok => true
            case CodeExceeding => Offset(ts, |ts|) + Size(t) > CODE_CAPACITY
            case Overrun => Offset(ts, |ts|) + Size(t) > CODE_CAPACITY
            case TooManyNested => t.Loop? && |OpenLoops(ts)| == MAX_NESTING
            case Unmatched => t.EndLoop? && OpenLoops(ts) == []
  {
  }

  lemma FateNext(ts: seq<Token>, t: Token)
    ensures FateOf(ts + [t]) == if FateOf(ts) == Ok then Fate(ts, t) else FateOf(ts)
  {
    assert (ts + [t])[..|ts|] == ts;
  }

  /** What has failed stays failed. */
  lemma {:induction false} FateStays(ts: seq<Token>, us: seq<Token>)
    requires ts <= us && FateOf(ts) != Ok
    ensures FateOf(us) == FateOf(ts)
  {
    hide Fate;
    if |ts| < |us| {
      assert ts == us[..|us| - 1][..|ts|];
      FateStays(ts, us[..|us| - 1]);
    } else {
      assert ts == us;
    }
  }

  function TokenFor(count: Word, op: Byte): Token {
    if IsCommand(op) then CommandToken(op) else Repeat(op, count)
  }

  lemma LoopsExtend(ts: seq<Token>, t: Token)
    ensures OpenLoops(ts + [t]) ==
            if t.Loop? then OpenLoops(ts) + [|ts|]
            else if t.EndLoop? && OpenLoops(ts) != [] then OpenLoops(ts)[..|OpenLoops(ts)| - 1]
            else OpenLoops(ts)
  {
    ShapesExtend(ts, t);
    StackExtends(ts, t, |ts|);
  }

  lemma PatchAppend(e: seq<Byte>, x: seq<Byte>, at: nat, w: Word)
    requires at + 2 <= |e|
    ensures Patch(e + x, at, w) == Patch(e, at, w) + x
  {
    hide Word2;
  }

  class Compiler {
    const l: Layout
    const code: array<Byte>
    var codePtr: nat
    const jmpStack: array<Word>
    var jmpHead: nat
    var times: Word
    var lastop: Byte
    ghost var tokens: seq<Token>

    /** The buffers have their declared sizes and the code buffer lies below the end of memory. */
    ghost predicate Sized()
      reads this
    {
      && code.Length == CODE_END + 1 && jmpStack.Length == MAX_NESTING
      && l.base + code.Length + 2 <= 0x1_0000
      && codePtr <= code.Length && codePtr != CODE_END
    }

    ghost function Emitted(): seq<Byte>
      requires Sized()
      reads this, code
    {
      code[..codePtr]
    }

    /** The jump stack holds the address just behind the operand of every open loop. */
    ghost predicate StackMatches()
      requires Sized()
      reads this, jmpStack
    {
      && jmpHead == |OpenLoops(tokens)| <= MAX_NESTING
      && forall a :: 0 <= a < jmpHead ==> OpensAt(tokens, OpenLoops(tokens)[a], jmpStack[a], l.base)
    }

    ghost predicate Valid()
      reads this, code, jmpStack
    {
      Sized() && Encodes(l, tokens, Emitted()) && StackMatches()
    }

    /** An empty compiler over fresh buffers, with the prologue still to come. */
    constructor (l: Layout)
      requires l.base + CODE_END + 3 <= 0x1_0000
      ensures Sized() && fresh(code) && fresh(jmpStack) && this.l == l
      ensures codePtr == 0 && jmpHead == 0 && times == 0 && lastop == OP_NONE && tokens == []
    {
      this.l := l;
      code := new Byte[CODE_END + 1](_ => 0);
      jmpStack := new Word[MAX_NESTING](_ => 0);
      codePtr, jmpHead, times, lastop, tokens := 0, 0, 0, OP_NONE, [];
    }

    /** One byte at the code pointer. */
    method PushInst(inst: Byte) returns (st: Status)
      requires Sized()
      modifies this`codePtr, code
      ensures st == BytesFate(old(codePtr), 1)
      ensures st == Ok ==> Sized() && codePtr == old(codePtr) + 1 && Emitted() == old(Emitted()) + [inst]
    {
      if codePtr > CODE_END {
        return Overrun;
      }
      code[codePtr] := inst;
      codePtr := codePtr + 1;
      return if codePtr == CODE_END then CodeExceeding else Ok;
    }

    /** A word at the even code pointer, which then moves behind it. */
    method PushWord(w: Word)
      requires Sized() && codePtr <= CODE_CAPACITY && codePtr % 2 == 0
      modifies this`codePtr, code
      ensures Sized() && codePtr == old(codePtr) + 2 && Emitted() == old(Emitted()) + Word2(w)
    {
      code[codePtr] := LowByte(w);
      code[codePtr + 1] := HighByte(w);
      codePtr := codePtr + 2;
    }

    /** Two and four consecutive calls of PushInst. */
    method PushTwo(a: Byte, b: Byte) returns (st: Status)
      requires Sized() && codePtr % 2 == 0
      modifies this`codePtr, code
      ensures st == BytesFate(old(codePtr), 2)
      ensures st == Ok ==> Sized() && codePtr == old(codePtr) + 2 && Emitted() == old(Emitted()) + [a, b]
    {
      st := PushInst(a);
      if st == Ok {
        st := PushInst(b);
      }
    }

    method PushFour(a: Byte, b: Byte, c: Byte, d: Byte) returns (st: Status)
      requires Sized() && codePtr % 2 == 0
      modifies this`codePtr, code
      ensures st == BytesFate(old(codePtr), 4)
      ensures st == Ok ==> Sized() && codePtr == old(codePtr) + 4 && Emitted() == old(Emitted()) + [a, b, c, d]
    {
      st := PushTwo(a, b);
      if st == Ok {
        st := PushTwo(c, d);
      }
    }

    /** The fragments of + - < >. */
    method PushRepeat(count: Word, op: Byte) returns (st: Status)
      requires Sized() && codePtr % 2 == 0 && IsAction(op)
      modifies this`codePtr, code
      ensures st == BytesFate(old(codePtr), |RepeatBytes(op, count)|)
      ensures st == Ok ==> Sized() && codePtr == old(codePtr) + |RepeatBytes(op, count)|
      ensures st == Ok ==> Emitted() == old(Emitted()) + RepeatBytes(op, count)
    {
      hide RepeatBytes;
      if op == PLUS || op == MINUS {
        st := PushChange(count, op);
      } else {
        st := PushMove(count, op);
      }
    }

    method PushChange(count: Word, op: Byte) returns (st: Status)
      requires Sized() && codePtr % 2 == 0 && (op == PLUS || op == MINUS)
      modifies this`codePtr, code
      ensures st == BytesFate(old(codePtr), |RepeatBytes(op, count)|)
      ensures st == Ok ==> Sized() && codePtr == old(codePtr) + |RepeatBytes(op, count)|
      ensures st == Ok ==> Emitted() == old(Emitted()) + RepeatBytes(op, count)
    {
      hide LowByte;
      if op == PLUS {
        if count == 1 {
          st := PushFour(PEEKB, rB_AL, INCA, AL_rB);
        } else {
          :- PushFour(PEEKB, rB_AL, RAM_BL, LowByte(count));
          st := PushFour(SUM, PEEKB, AL_rB, NOP);
        }
      } else {
        if count == 1 {
          st := PushFour(PEEKB, rB_AL, DECA, AL_rB);
        } else {
          :- PushFour(PEEKB, rB_AL, A_B, RAM_AL);
          st := PushFour(LowByte(count), SUB, PEEKB, AL_rB);
        }
      }
    }

    method PushMove(count: Word, op: Byte) returns (st: Status)
      requires Sized() && codePtr % 2 == 0 && (op == LEFT || op == RIGHT)
      modifies this`codePtr, code
      ensures st == BytesFate(old(codePtr), |RepeatBytes(op, count)|)
      ensures st == Ok ==> Sized() && codePtr == old(codePtr) + |RepeatBytes(op, count)|
      ensures st == Ok ==> Emitted() == old(Emitted()) + RepeatBytes(op, count)
    {
      hide LowByte;
      if op == LEFT {
        if count == 1 {
          st := PushFour(POPA, DECA, PUSHA, NOP);
        } else {
          :- PushFour(POPB, RAM_AL, LowByte(count), SUB);
          st := PushTwo(PUSHA, NOP);
        }
      } else {
        if count == 1 {
          st := PushFour(POPA, INCA, PUSHA, NOP);
        } else {
          :- PushFour(POPB, RAM_AL, LowByte(count), SUM);
          st := PushTwo(PUSHA, NOP);
        }
      }
    }

    /** `[`: the test with a blank operand; the address behind it goes on the jump stack. */
    method PushOpen() returns (st: Status)
      requires Valid()
      modifies this`codePtr, this`jmpHead, this`tokens, code, jmpStack
      ensures st == Ok ==> Valid() && tokens == old(tokens) + [Loop]
      ensures st == Fate(old(tokens), Loop)
    {
      hide Encodes, Offset;
      EncodedFrame(l, tokens, Emitted());
      :- PushFour(PEEKB, rB_AL, CMPA, JMPRZ);
      ghost var before := old(Emitted());
      codePtr := codePtr + 2;
      assert Emitted()[..|before| + 4] == before + LOOP_BYTES;
      if jmpHead == MAX_NESTING {
        return TooManyNested;
      }
      jmpStack[jmpHead] := l.base + codePtr;
      jmpHead := jmpHead + 1;
      LoopEmitted(l, old(tokens), before, Emitted());
      LoopsExtend(old(tokens), Loop);
      EntriesExtend(old(tokens), Loop, l.base);
      OffsetExtends(old(tokens), Loop, |old(tokens)|);
      tokens := tokens + [Loop];
      return Ok;
    }

    /** `]`: the test, its negative distance, and the same distance patched into the operand of the open loop. */
    method PushClose() returns (st: Status)
      requires Valid()
      modifies this`codePtr, this`jmpHead, this`tokens, code
      ensures st == Ok ==> Valid() && tokens == old(tokens) + [EndLoop]
      ensures st == Fate(old(tokens), EndLoop)
    {
      hide Encodes, Offset, Word2;
      EncodedFrame(l, tokens, Emitted());
      ghost var ts, e := tokens, Emitted();
      :- PushFour(PEEKB, rB_AL, CMPA, JMPRNZ);
      if jmpHead == 0 {
        return Unmatched;
      }
      jmpHead := jmpHead - 1;
      var open := jmpStack[jmpHead];
      ghost var i := OpenLoops(ts)[jmpHead];
      ClosedInPlace(l, ts, e, i);
      var distance: int := Wrap(l.base + codePtr - open);
      PushWord(Wrap(-distance));
      PatchCode(open - 2 - l.base, distance);
      ghost var d := |e| + 4 - (Offset(ts, i) + 6);
      assert distance == Wrap(d) == d;
      LoopsExtend(ts, EndLoop);
      EntriesExtend(ts, EndLoop, l.base);
      tokens := tokens + [EndLoop];
      return Ok;
    }

    /** Overwriting an operand emitted earlier. */
    method PatchCode(at: nat, w: Word)
      requires Sized() && at + 2 <= codePtr
      modifies code
      ensures Emitted() == Patch(old(Emitted()), at, w)
    {
      code[at] := LowByte(w);
      code[at + 1] := HighByte(w);
    }

    /** `,` and `.`: the call of a routine, with the byte moved from or to the cell. */
    method PushRoutine(t: Token) returns (st: Status)
      requires Valid() && (t.Input? || t.Output?)
      modifies this`codePtr, this`tokens, code
      ensures st == Ok ==> Valid() && tokens == old(tokens) + [t]
      ensures st == Fate(old(tokens), t)
    {
      hide Encodes, Offset, Word2;
      EncodedFrame(l, tokens, Emitted());
      if t.Input? {
        :- PushTwo(NOP, CALL);
        PushWord(l.getChar);
        :- PushTwo(PEEKB, AL_rB);
      } else {
        :- PushFour(PEEKB, rB_AL, NOP, CALL);
        PushWord(l.putChar);
      }
      assert Emitted() == old(Emitted()) + Bytes(l, old(tokens) + [t], |old(tokens)|);
      Append(t);
      return Ok;
    }

    /** The fragment of t has just been emitted; it opens and closes no loop. */
    ghost method Append(t: Token)
      requires Sized() && StackMatches() && !t.Loop? && !t.EndLoop?
      requires t.Repeat? ==> IsAction(t.op) && t.count != 0
      requires exists e: seq<Byte> ::
                 Encodes(l, tokens, e) && Emitted() == e + Bytes(l, tokens + [t], |tokens|)
      modifies this`tokens
      ensures Valid() && tokens == old(tokens) + [t]
    {
      hide Encodes, Offset, Bytes;
      var e: seq<Byte> :| Encodes(l, tokens, e) && Emitted() == e + Bytes(l, tokens + [t], |tokens|);
      BytesOf(l, tokens + [t], |tokens|);
      Appended(l, tokens, t, e, Bytes(l, tokens + [t], |tokens|));
      LoopsExtend(tokens, t);
      EntriesExtend(tokens, t, l.base);
      tokens := tokens + [t];
    }

    /** push_op: emits `count` times `op`; nothing for an empty count or no operation. */
    method PushOp(count: Word, op: Byte) returns (st: Status)
      requires Valid() && (op == OP_NONE || IsAction(op) || IsCommand(op))
      modifies this`codePtr, this`jmpHead, this`tokens, code, jmpStack
      ensures st == Ok ==> Valid()
      ensures st == Ok ==> tokens == if count == 0 || op == OP_NONE then old(tokens) else old(tokens) + [TokenFor(count, op)]
      ensures st == if count == 0 || op == OP_NONE then Ok else Fate(old(tokens), TokenFor(count, op))
      ensures st == Ok && FateOf(old(tokens)) == Ok ==> FateOf(tokens) == Ok
    {
      hide Fate;
      FateNext(tokens, TokenFor(count, op));
      if count == 0 || op == OP_NONE {
        return Ok;
      }
      if op == OPEN {
        st := PushOpen();
      } else if op == CLOSE {
        st := PushClose();
      } else if IsCommand(op) {
        st := PushRoutine(CommandToken(op));
      } else {
        st := PushRun(count, op);
      }
    }

    method PushRun(count: Word, op: Byte) returns (st: Status)
      requires Valid() && count != 0 && IsAction(op)
      modifies this`codePtr, this`tokens, code
      ensures st == Ok ==> Valid() && tokens == old(tokens) + [Repeat(op, count)]
      ensures st == Fate(old(tokens), Repeat(op, count))
    {
      hide Encodes, Offset;
      EncodedFrame(l, tokens, Emitted());
      RepeatSize(op, count);
      hide RepeatBytes;
      :- PushRepeat(count, op);
      Append(Repeat(op, count));
      return Ok;
    }

    ghost function State(): Pending
      reads this
    {
      Pending(tokens, lastop, times)
    }

    /** check_and_push: joins the pending run, shortens it, or emits it and starts a new one. */
    method CheckAndPush(op: Byte, opposite: Byte) returns (st: Status)
      requires Valid() && IsAction(op) && opposite == Opposite(op) && (lastop == OP_NONE || IsAction(lastop))
      modifies this`codePtr, this`jmpHead, this`times, this`lastop, this`tokens, code, jmpStack
      ensures st == Ok ==> Valid() && State() == Feed(old(State()), op)
      ensures st == Ok && FateOf(old(tokens)) == Ok ==> FateOf(tokens) == Ok
      ensures st != Ok ==> FlushBlocked(old(State()), st) && old(lastop) != op && old(lastop) != opposite
    {
      hide Encodes, Fate;
      if lastop == opposite {
        times := Wrap(times - 1);
        if times == 0 {
          times := 0;
        }
        return Ok;
      }
      if lastop != op {
        :- PushOp(times, lastop);
        lastop, times := op, 0;
      }
      times := Wrap(times + 1);
      return Ok;
    }

    /** A command: the pending run is emitted first, then the command's own fragment. */
    method PushCommand(ch: Byte) returns (st: Status)
      requires Valid() && IsCommand(ch) && (lastop == OP_NONE || IsAction(lastop))
      modifies this`codePtr, this`jmpHead, this`times, this`lastop, this`tokens, code, jmpStack
      ensures st == Ok ==> Valid() && State() == Feed(old(State()), ch)
      ensures st == Ok && FateOf(old(tokens)) == Ok ==> FateOf(tokens) == Ok
      ensures st != Ok && FateOf(old(tokens)) == Ok ==>
                || FlushBlocked(old(State()), st)
                || (FateOf(Flush(old(State()))) == Ok && Blocked(Flush(old(State())), CommandToken(ch), st))
    {
      hide Encodes, Fate;
      :- PushOp(times, lastop);
      :- PushOp(1, ch);
      lastop, times := OP_NONE, 0;
      return Ok;
    }

    method PushPrologue()
      requires Sized() && codePtr == 0 && jmpHead == 0 && tokens == []
      modifies this`codePtr, code
      ensures Valid()
    {
      hide Word2;
      var st := PushTwo(NOP, RAM_A);
      PushWord(l.mem);
      st := PushTwo(PUSHA, NOP);
      assert Emitted()[..PROLOGUE_SIZE] == Prologue(l);
    }

    /** One character of the program. */
    method PushChar(ch: Byte) returns (st: Status)
      requires Valid() && (lastop == OP_NONE || IsAction(lastop))
      modifies this`codePtr, this`jmpHead, this`times, this`lastop, this`tokens, code, jmpStack
      ensures st == Ok ==> Valid() && State() == Feed(old(State()), ch)
      ensures st == Ok && FateOf(old(tokens)) == Ok ==> FateOf(tokens) == Ok
      ensures st != Ok && FateOf(old(tokens)) == Ok ==> Stuck(old(State()), ch, st)
    {
      hide Encodes, Blocked, Fate;
      if ch == PLUS {
        st := CheckAndPush(PLUS, MINUS);
      } else if ch == MINUS {
        st := CheckAndPush(MINUS, PLUS);
      } else if ch == LEFT {
        st := CheckAndPush(LEFT, RIGHT);
      } else if ch == RIGHT {
        st := CheckAndPush(RIGHT, LEFT);
      } else if IsCommand(ch) {
        st := PushCommand(ch);
      } else {
        st := Ok;
      }
    }

    /**
     * Compiles a null-terminated program into an empty buffer. It succeeds exactly for well-nested programs at most
     * sixteen loops deep whose translation fits, and then the buffer holds that translation. The failure of any other
     * program is that of its first token that cannot be emitted.
     */
    method Compile(text: seq<Byte>) returns (st: Status)
      requires Sized() && codePtr == 0 && jmpHead == 0 && times == 0 && lastop == OP_NONE && tokens == []
      requires IsText(text)
      modifies this`codePtr, this`jmpHead, this`times, this`lastop, this`tokens, code, jmpStack
      ensures st == Ok <==> Accepted(text[..|text| - 1])
      ensures st == CompileFate(Tokens(text[..|text| - 1]))
      ensures st == Ok ==> Sized() && Translates(l, Tokens(text[..|text| - 1]), Emitted())
    {
      hide Encodes, Accepted, Tokens, Fate, FateOf, CompileFate;
      ghost var p := text[..|text| - 1];
      PushPrologue();
      :- CompileAll(text);
      RunIsGood(p, |p|);
      st := PushOp(times, lastop);
      if st != Ok {
        LastFlushRejects(p, st);
        return;
      }
      AllTokens(p);
      ghost var e := Emitted();
      st := FinishCode();
      if st != Ok {
        TooLong(p, st);
        return;
      }
      FinalLoops(p);
      if jmpHead != 0 {
        UnclosedRejects(p);
        return Unmatched;
      }
      AllClosed(p);
      Finished(l, Tokens(p), e);
    }

    /** The characters of the program, one after the other. */
    method CompileAll(text: seq<Byte>) returns (st: Status)
      requires Valid() && State() == Pending([], OP_NONE, 0) && IsText(text)
      modifies this`codePtr, this`jmpHead, this`times, this`lastop, this`tokens, code, jmpStack
      ensures st != Ok ==> !Accepted(text[..|text| - 1]) && st == CompileFate(Tokens(text[..|text| - 1]))
      ensures st == Ok ==> Valid() && State() == Scan(text[..|text| - 1], |text| - 1) && FateOf(tokens) == Ok
      ensures st == Ok ==> NestedSoFar(text[..|text| - 1], |text| - 1)
    {
      hide Encodes, Accepted, Tokens, Stuck, Fate, CompileFate, StackMatches;
      ghost var p := text[..|text| - 1];
      var i := 0;
      NothingNested(p);
      while text[i] != 0
        invariant 0 <= i <= |p| && Valid() && State() == Scan(p, i)
        invariant NestedSoFar(p, i) && FateOf(tokens) == Ok
        decreases |text| - i
      {
        RunIsGood(p, i);
        st := PushChar(text[i]);
        if st != Ok {
          StuckRejects(p, i, st);
          return;
        }
        DepthKept();
        NestedNext(p, i, l, Emitted());
        i := i + 1;
      }
      return Ok;
    }

    lemma DepthKept()
      requires Sized() && StackMatches()
      ensures |OpenLoops(tokens)| <= MAX_NESTING
    {
    }

    /** INCSP RET. */
    method FinishCode() returns (st: Status)
      requires Valid()
      modifies this`codePtr, code
      ensures st == BytesFate(Offset(tokens, |tokens|), EPILOGUE_SIZE)
      ensures st == Ok ==> Sized() && Emitted() == old(Emitted()) + EPILOGUE
    {
      hide Encodes, Offset;
      EncodedFrame(l, tokens, Emitted());
      st := PushTwo(INCSP, RET);
    }
  }

  /** A null-terminated text. */
  predicate IsText(text: seq<Byte>) {
    |text| > 0 && text[|text| - 1] == 0 && forall i :: 0 <= i < |text| - 1 ==> text[i] != 0
  }

  /** Address `at` is just behind the operand of loop k. */
  predicate OpensAt(ts: seq<Token>, k: nat, at: Word, base: Word) {
    k < |ts| && at == base + Offset(ts, k) + 6
  }

  lemma RepeatSize(op: Byte, count: Word)
    requires IsAction(op)
    ensures |RepeatBytes(op, count)| == Size(Repeat(op, count))
  {
  }

  lemma BytesOf(l: Layout, ts: seq<Token>, k: nat)
    requires k < |ts| && (ts[k].Repeat? ==> IsAction(ts[k].op))
    ensures |Bytes(l, ts, k)| == Size(ts[k])
  {
  }

  /** The loop fragment with any operand. */
  lemma LoopEmitted(l: Layout, ts: seq<Token>, e: seq<Byte>, e': seq<Byte>)
    requires Encodes(l, ts, e) && |e'| == |e| + 6 && e'[..|e| + 4] == e + LOOP_BYTES
    ensures Encodes(l, ts + [Loop], e')
  {
    hide Encodes;
    var fragment := e'[|e|..];
    assert e'[..|e|] == e'[..|e| + 4][..|e|] == e;
    assert fragment[..4] == e'[..|e| + 4][|e|..] == LOOP_BYTES;
    assert e' == e + fragment;
    Appended(l, ts, Loop, e, fragment);
  }

  /** The same patch made after the loop end has been emitted. */
  lemma ClosedInPlace(l: Layout, ts: seq<Token>, e: seq<Byte>, i: nat)
    requires Encodes(l, ts, e) && OpenLoops(ts) != [] && i == OpenLoops(ts)[|OpenLoops(ts)| - 1]
    ensures i < |ts| && ts[i].Loop? && Offset(ts, i) + 6 <= |e|
    ensures var d := |e| + 4 - (Offset(ts, i) + 6);
            Encodes(l, ts + [EndLoop], Patch(e + END_LOOP_BYTES + Word2(Wrap(-d)), Offset(ts, i) + 4, Wrap(d)))
  {
    hide Encodes, Offset, Word2, Patch, Wrap;
    Closed(l, ts, e, i);
    var d := |e| + 4 - (Offset(ts, i) + 6);
    PatchAppend(e, END_LOOP_BYTES, Offset(ts, i) + 4, Wrap(d));
    PatchAppend(e + END_LOOP_BYTES, Word2(Wrap(-d)), Offset(ts, i) + 4, Wrap(d));
  }

  /** Addresses of loops that stay open are unaffected by a new token. */
  lemma EntriesExtend(ts: seq<Token>, t: Token, base: Word)
    ensures forall k, at :: OpensAt(ts, k, at, base) ==> OpensAt(ts + [t], k, at, base)
  {
    forall k, at | OpensAt(ts, k, at, base) ensures OpensAt(ts + [t], k, at, base) {
      OffsetExtends(ts, t, k);
    }
  }

  // ---------- what is accepted ----------

  predicate Shallow(p: seq<Byte>) {
    forall n :: 0 <= n <= |p| ==> |OpenStack(Shape(p), n)| <= MAX_NESTING
  }

  /** Well nested, at most sixteen deep, and short enough for the code buffer. */
  predicate Accepted(p: seq<Byte>) {
    WellNested(p) && Shallow(p) && CodeSize(Tokens(p)) <= CODE_CAPACITY
  }

  predicate FlushBlocked(s: Pending, st: Status) {
    s.times != 0 && s.op != OP_NONE && Blocked(s.tokens, TokenFor(s.times, s.op), st)
  }

  predicate Stuck(s: Pending, ch: Byte, st: Status) {
    || (FlushBlocked(s, st) && (IsCommand(ch) || (IsAction(ch) && s.op != ch && s.op != Opposite(ch))))
    || (IsCommand(ch) && FateOf(Flush(s)) == Ok && Blocked(Flush(s), CommandToken(ch), st))
  }

  lemma {:induction false} RunIsGood(p: seq<Byte>, n: nat)
    requires n <= |p|
    ensures Scan(p, n).op == OP_NONE || IsAction(Scan(p, n).op)
  {
    if n > 0 { RunIsGood(p, n - 1); }
  }

  lemma {:induction false} PrefixOffset(ts: seq<Token>, us: seq<Token>, k: nat)
    requires ts <= us && k <= |ts|
    ensures Offset(us, k) == Offset(ts, k)
  {
    if k > 0 { PrefixOffset(ts, us, k - 1); }
  }

  /** A token list that starts with too long a part is too long. */
  lemma PartTooLong(ts: seq<Token>, t: Token, us: seq<Token>)
    requires ts + [t] <= us && Offset(ts, |ts|) + Size(t) > CODE_CAPACITY
    ensures CodeSize(us) > CODE_CAPACITY
  {
    assert us[|ts|] == (ts + [t])[|ts|] == t;
    assert ts <= us;
    PrefixOffset(ts, us, |ts|);
    OffsetGrows(us, |ts|, |us|);
  }

  /** Loops open among the emitted tokens are the brackets open in the text. */
  lemma LoopsOfText(p: seq<Byte>, n: nat)
    requires n <= |p|
    ensures |OpenLoops(Scan(p, n).tokens)| == |OpenStack(Shape(p), n)|
    ensures Flushes(p, n) ==> |OpenLoops(Flush(Scan(p, n)))| == |OpenStack(Shape(p), n)|
  {
    hide Tokens, Scan, Flush;
    ScannedPrefix(p, n);
    StacksCorrespond(p, n);
    LoopsOfPrefix(Scan(p, n).tokens, Tokens(p));
    if Flushes(p, n) {
      FlushedPrefix(p, n);
      StackAcrossFlush(p, n);
      LoopsOfPrefix(Flush(Scan(p, n)), Tokens(p));
    }
  }

  lemma LoopsOfPrefix(ts: seq<Token>, us: seq<Token>)
    requires ts <= us
    ensures OpenLoops(ts) == OpenStack(Shapes(us), |ts|)
  {
    assert Shapes(us)[..|ts|] == Shapes(ts)[..|ts|];
    StackOfPrefix(Shapes(ts), Shapes(us), |ts|);
  }

  /** The brackets read so far are nested and not too deep. */
  predicate NestedSoFar(p: seq<Byte>, n: nat)
    requires n <= |p|
  {
    && (forall j :: 0 <= j < n && Shape(p)[j].Close? ==> OpenStack(Shape(p), j) != [])
    && (forall m :: 0 <= m <= n ==> |OpenStack(Shape(p), m)| <= MAX_NESTING)
  }

  lemma NothingNested(p: seq<Byte>)
    ensures NestedSoFar(p, 0)
  {
  }

  lemma NestedNext(p: seq<Byte>, n: nat, l: Layout, e: seq<Byte>)
    requires n < |p| && NestedSoFar(p, n)
    requires Encodes(l, Scan(p, n + 1).tokens, e) && |OpenLoops(Scan(p, n + 1).tokens)| <= MAX_NESTING
    ensures NestedSoFar(p, n + 1)
  {
    hide Scan, Flush, OpenLoops, Encodes;
    LoopsOfText(p, n + 1);
    if p[n] == CLOSE {
      LoopsOfText(p, n);
      FeedFlushes(p, n);
      EndIsMatched(l, Flush(Scan(p, n)), e);
    }
  }

  lemma EndIsMatched(l: Layout, ts: seq<Token>, e: seq<Byte>)
    requires Encodes(l, ts + [EndLoop], e)
    ensures OpenLoops(ts) != []
  {
    assert Matched(Shapes(ts + [EndLoop]), |ts|);
    StackExtends(ts, EndLoop, |ts|);
  }

  /** The failing token is one of the program's. */
  lemma BlockedFate(p: seq<Byte>, ts: seq<Token>, t: Token, st: Status)
    requires ts + [t] <= Tokens(p) && FateOf(ts) == Ok && Blocked(ts, t, st)
    ensures CompileFate(Tokens(p)) == st
  {
    hide Fate, Tokens, FateOf;
    FateNext(ts, t);
    FateStays(ts + [t], Tokens(p));
  }

  lemma FlushBlockedRejects(p: seq<Byte>, n: nat, st: Status)
    requires n <= |p| && Flushes(p, n) && FlushBlocked(Scan(p, n), st) && FateOf(Scan(p, n).tokens) == Ok
    ensures !Accepted(p) && CompileFate(Tokens(p)) == st
  {
    hide Tokens, Scan, Shallow, WellNested, CodeSize, Fate, FateOf, CompileFate;
    RunIsGood(p, n);
    FlushedPrefix(p, n);
    var s := Scan(p, n);
    BlockedMeans(s.tokens, TokenFor(s.times, s.op));
    BlockedFate(p, s.tokens, TokenFor(s.times, s.op), st);
    PartTooLong(s.tokens, TokenFor(s.times, s.op), Tokens(p));
  }

  lemma CommandBlockedRejects(p: seq<Byte>, n: nat, st: Status)
    requires n < |p| && IsCommand(p[n]) && Blocked(Flush(Scan(p, n)), CommandToken(p[n]), st)
    requires FateOf(Flush(Scan(p, n))) == Ok
    ensures !Accepted(p) && CompileFate(Tokens(p)) == st
  {
    hide Tokens, Scan, Flush, CodeSize, OpenLoops, Shape, Fate, FateOf, CompileFate;
    var ts, t := Flush(Scan(p, n)), CommandToken(p[n]);
    FeedFlushes(p, n);
    ScannedPrefix(p, n + 1);
    LoopsOfText(p, n);
    ShapeAt(p, n);
    BlockedMeans(ts, t);
    BlockedFate(p, ts, t, st);
    match st
    case CodeExceeding => PartTooLong(ts, t, Tokens(p));
    case Overrun => PartTooLong(ts, t, Tokens(p));
    case TooManyNested =>
      assert |OpenStack(Shape(p), n + 1)| == MAX_NESTING + 1;
    case Unmatched =>
      assert Shape(p)[n].Close? && OpenStack(Shape(p), n) == [];
  }

  lemma ShapeAt(p: seq<Byte>, n: nat)
    requires n < |p|
    ensures Shape(p)[n] == ShapeOf(p[n])
  {
  }

  lemma StuckRejects(p: seq<Byte>, n: nat, st: Status)
    requires n < |p| && Stuck(Scan(p, n), p[n], st) && FateOf(Scan(p, n).tokens) == Ok
    ensures !Accepted(p) && CompileFate(Tokens(p)) == st
  {
    hide Accepted, Scan, Blocked, FateOf, CompileFate, Tokens;
    if FlushBlocked(Scan(p, n), st) && Flushes(p, n) {
      FlushBlockedRejects(p, n, st);
    } else {
      CommandBlockedRejects(p, n, st);
    }
  }

  lemma LastFlushRejects(p: seq<Byte>, st: Status)
    requires FlushBlocked(Scan(p, |p|), st) && FateOf(Scan(p, |p|).tokens) == Ok
    ensures !Accepted(p) && CompileFate(Tokens(p)) == st
  {
    hide Accepted, Scan, Blocked, FateOf, CompileFate, Tokens;
    FlushBlockedRejects(p, |p|, st);
  }

  lemma TooLong(p: seq<Byte>, st: Status)
    requires FateOf(Tokens(p)) == Ok && st != Ok && st == BytesFate(Offset(Tokens(p), |Tokens(p)|), EPILOGUE_SIZE)
    ensures !Accepted(p) && CompileFate(Tokens(p)) == st
  {
    hide Tokens, WellNested, Shallow, FateOf;
  }

  lemma AllTokens(p: seq<Byte>)
    ensures Tokens(p) == Flush(Scan(p, |p|))
  {
    hide Scan, Flush;
  }

  lemma FinalLoops(p: seq<Byte>)
    ensures |OpenLoops(Flush(Scan(p, |p|)))| == |OpenStack(Shape(p), |p|)|
  {
    hide Scan, Flush, OpenLoops;
    LoopsOfText(p, |p|);
  }

  lemma UnclosedRejects(p: seq<Byte>)
    requires OpenStack(Shape(p), |p|) != [] && OpenLoops(Tokens(p)) != [] && FateOf(Tokens(p)) == Ok
    requires BytesFate(Offset(Tokens(p), |Tokens(p)|), EPILOGUE_SIZE) == Ok
    ensures !Accepted(p) && CompileFate(Tokens(p)) == Unmatched
  {
    hide Tokens, FateOf, OpenLoops;
  }

  lemma AllClosed(p: seq<Byte>)
    requires NestedSoFar(p, |p|) && OpenStack(Shape(p), |p|) == [] && OpenLoops(Tokens(p)) == []
    requires FateOf(Tokens(p)) == Ok && BytesFate(Offset(Tokens(p), |Tokens(p)|), EPILOGUE_SIZE) == Ok
    ensures Accepted(p) && Balanced(Shapes(Tokens(p))) && CompileFate(Tokens(p)) == Ok
  {
    hide Scan, Flush, FateOf;
    assert WellNested(p);
    TokensBalanced(p);
  }
}
