/** The machine code the compiler emits for a token list. */
module JitCode {
  import opened Words
  import opened Instructions
  import opened Brackets
  import opened Brainfuck
  import opened Coalescing

  /** Addresses the code depends on: where it lies, its tape, its stack on entry and the two I/O routines. */
  datatype Layout = Layout(base: Word, mem: Word, entry: Word, getChar: Word, putChar: Word)

  const PROLOGUE_SIZE := 6
  const EPILOGUE_SIZE := 2
  const CODE_CAPACITY := 510

  /** Every fragment has an even size, so every operand word is aligned. */
  function Size(t: Token): (n: nat)
    ensures 4 <= n <= 8 && n % 2 == 0
  {
    match t
    case Repeat(op, count) => if count == 1 then 4 else if op == PLUS || op == MINUS then 8 else 6
    case _ => 6
  }

  /** Where the fragment of token k starts, relative to the base. */
  function Offset(ts: seq<Token>, k: nat): (o: nat)
    requires k <= |ts|
    ensures o >= PROLOGUE_SIZE && o % 2 == 0
  {
    if k == 0 then PROLOGUE_SIZE else Offset(ts, k - 1) + Size(ts[k - 1])
  }

  function CodeSize(ts: seq<Token>): nat {
    Offset(ts, |ts|) + EPILOGUE_SIZE
  }

  function Word2(w: Word): (s: seq<Byte>)
    ensures |s| == 2
  {
    [LowByte(w), HighByte(w)]
  }

  /** From the operand of the loop at k to the comparison inside the fragment of its end. */
  function ForwardJump(ts: seq<Token>, k: nat): Word
    requires k < |ts|
  {
    Wrap(Offset(ts, CloseOf(Shapes(ts), k)) + 4 - (Offset(ts, k) + 6))
  }

  /** From the operand of the loop end at k to just behind the operand of its loop. */
  function BackwardJump(ts: seq<Token>, k: nat): Word
    requires k < |ts|
  {
    if Matched(Shapes(ts), k) then Wrap(Offset(ts, OpenOf(Shapes(ts), k)) + 6 - (Offset(ts, k) + 4)) else 0
  }

  function RepeatBytes(op: Byte, count: Word): seq<Byte> {
    if op == PLUS then
      if count == 1 then [PEEKB, rB_AL, INCA, AL_rB]
      else [PEEKB, rB_AL, RAM_BL, LowByte(count), SUM, PEEKB, AL_rB, NOP]
    else if op == MINUS then
      if count == 1 then [PEEKB, rB_AL, DECA, AL_rB]
      else [PEEKB, rB_AL, A_B, RAM_AL, LowByte(count), SUB, PEEKB, AL_rB]
    else if op == LEFT then
      if count == 1 then [POPA, DECA, PUSHA, NOP] else [POPB, RAM_AL, LowByte(count), SUB, PUSHA, NOP]
    else
      if count == 1 then [POPA, INCA, PUSHA, NOP] else [POPB, RAM_AL, LowByte(count), SUM, PUSHA, NOP]
  }

  function Bytes(l: Layout, ts: seq<Token>, k: nat): seq<Byte>
    requires k < |ts|
  {
    match ts[k]
    case Repeat(op, count) => RepeatBytes(op, count)
    case Loop => [PEEKB, rB_AL, CMPA, JMPRZ] + Word2(ForwardJump(ts, k))
    case EndLoop => [PEEKB, rB_AL, CMPA, JMPRNZ] + Word2(BackwardJump(ts, k))
    case Input => [NOP, CALL] + Word2(l.getChar) + [PEEKB, AL_rB]
    case Output => [PEEKB, rB_AL, NOP, CALL] + Word2(l.putChar)
  }

  function Prologue(l: Layout): (s: seq<Byte>)
    ensures |s| == PROLOGUE_SIZE
  {
    [NOP, RAM_A] + Word2(l.mem) + [PUSHA, NOP]
  }

  const EPILOGUE: seq<Byte> := [INCSP, RET]

  predicate GoodTokens(ts: seq<Token>) {
    forall k :: 0 <= k < |ts| && ts[k].Repeat? ==> IsAction(ts[k].op) && ts[k].count != 0
  }

  lemma BytesSize(l: Layout, ts: seq<Token>, k: nat)
    requires k < |ts| && GoodTokens(ts)
    ensures |Bytes(l, ts, k)| == Size(ts[k])
  {
  }

  lemma {:induction false} OffsetGrows(ts: seq<Token>, j: nat, k: nat)
    requires j < k <= |ts|
    ensures Offset(ts, j) + Size(ts[j]) <= Offset(ts, k)
    decreases k
  {
    if j < k - 1 { OffsetGrows(ts, j, k - 1); }
  }

  /** `code` is the complete translation of `ts`. */
  predicate Translates(l: Layout, ts: seq<Token>, code: seq<Byte>) {
    && |code| == CodeSize(ts)
    && code[..PROLOGUE_SIZE] == Prologue(l)
    && (forall k :: 0 <= k < |ts| ==> FragmentAt(l, ts, code, k))
    && code[Offset(ts, |ts|)..] == EPILOGUE
  }

  predicate FragmentAt(l: Layout, ts: seq<Token>, code: seq<Byte>, k: nat)
    requires k < |ts|
  {
    var o := Offset(ts, k);
    o + |Bytes(l, ts, k)| <= |code| && code[o..o + |Bytes(l, ts, k)|] == Bytes(l, ts, k)
  }
}
