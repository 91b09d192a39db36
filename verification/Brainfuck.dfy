/** Brainfuck programs on a bounded tape, run directly from their text. */
module Brainfuck {
  import opened Words
  import opened Brackets

  const PLUS: Byte := 43
  const COMMA: Byte := 44
  const MINUS: Byte := 45
  const POINT: Byte := 46
  const LEFT: Byte := 60
  const RIGHT: Byte := 62
  const OPEN: Byte := 91
  const CLOSE: Byte := 93
  const OP_NONE: Byte := 0

  const TAPE_SIZE := 16

  type Tape = s: seq<Byte> | |s| == TAPE_SIZE witness seq(TAPE_SIZE, _ => 0)

  /** Tape, pointer (relative to the tape, modulo 2^16), characters read so far and characters written. */
  datatype Data = Data(cells: Tape, ptr: Word, read: nat, out: seq<Byte>)

  predicate InBounds(d: Data) {
    d.ptr < TAPE_SIZE
  }

  function Cell(d: Data): Byte {
    if InBounds(d) then d.cells[d.ptr] else 0
  }

  function SetCell(d: Data, v: Byte): Data {
    if InBounds(d) then d.(cells := d.cells[d.ptr := v]) else d
  }

  /** Performing one of + - < > `count` times. */
  function Act(op: Byte, count: Word, d: Data): Data {
    if op == PLUS then SetCell(d, LowByte(Cell(d) + count))
    else if op == MINUS then SetCell(d, LowByte(Cell(d) - count))
    else if op == LEFT then d.(ptr := Wrap(d.ptr - count))
    else if op == RIGHT then d.(ptr := Wrap(d.ptr + count))
    else d
  }

  function Get(d: Data, input: nat -> Byte): Data {
    SetCell(d, input(d.read)).(read := d.read + 1)
  }

  function Put(d: Data): Data {
    d.(out := d.out + [Cell(d)])
  }

  predicate IsAction(ch: Byte) {
    ch == PLUS || ch == MINUS || ch == LEFT || ch == RIGHT
  }

  predicate IsBracket(ch: Byte) {
    ch == OPEN || ch == CLOSE
  }

  function ShapeOf(ch: Byte): Bracket {
    if ch == OPEN then Open else if ch == CLOSE then Close else Plain
  }

  function Shape(p: seq<Byte>): (s: seq<Bracket>)
    ensures |s| == |p|
  {
    seq(|p|, i requires 0 <= i < |p| => ShapeOf(p[i]))
  }

  predicate WellNested(p: seq<Byte>) {
    Balanced(Shape(p))
  }

  datatype TextState = TextState(pc: nat, d: Data)

  /** Interprets the character at pc; other characters than the eight commands are comments. */
  function TextStep(p: seq<Byte>, input: nat -> Byte, s: TextState): TextState
    requires WellNested(p) && s.pc < |p|
  {
    var ch := p[s.pc];
    if IsAction(ch) then TextState(s.pc + 1, Act(ch, 1, s.d))
    else if ch == COMMA then TextState(s.pc + 1, Get(s.d, input))
    else if ch == POINT then TextState(s.pc + 1, Put(s.d))
    else if ch == OPEN && Cell(s.d) == 0 then TextState(CloseOf(Shape(p), s.pc) + 1, s.d)
    else if ch == CLOSE && Cell(s.d) != 0 then TextState(OpenOf(Shape(p), s.pc) + 1, s.d)
    else TextState(s.pc + 1, s.d)
  }

  lemma TextStepInRange(p: seq<Byte>, input: nat -> Byte, s: TextState)
    requires WellNested(p) && s.pc < |p|
    ensures TextStep(p, input, s).pc <= |p|
  {
    if p[s.pc] == OPEN { BalancedCloses(Shape(p), s.pc); }
  }

  /** The cell under the pointer exists whenever the next character looks at it. */
  predicate TextSafe(p: seq<Byte>, s: TextState) {
    s.pc < |p| && (p[s.pc] in {PLUS, MINUS, COMMA, POINT, OPEN, CLOSE}) ==> InBounds(s.d)
  }

  /** At most n steps, stopping at the end of the text. */
  function TextRun(p: seq<Byte>, input: nat -> Byte, s: TextState, n: nat): TextState
    requires WellNested(p)
    decreases n
  {
    if n == 0 || s.pc >= |p| then s else TextRun(p, input, TextStep(p, input, s), n - 1)
  }

  predicate SafeRun(p: seq<Byte>, input: nat -> Byte, s: TextState, n: nat)
    requires WellNested(p)
    decreases n
  {
    n == 0 || s.pc >= |p| || (TextSafe(p, s) && SafeRun(p, input, TextStep(p, input, s), n - 1))
  }

  const BLANK: Tape := [0, 0, 0, 0, 0, 0, 0, 0, 0, 0, 0, 0, 0, 0, 0, 0]

  const START := TextState(0, Data(BLANK, 0, 0, []))
}
