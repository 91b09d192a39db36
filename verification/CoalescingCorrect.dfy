/** Running the coalesced tokens is running the text. */
module CoalescingCorrect {
  import opened Words
  import opened Brackets
  import opened Brainfuck
  import opened Coalescing

  // ---------- runs modulo 2^16 ----------

  lemma ByteSums(c: Byte, t: Word)
    ensures LowByte(c + Wrap(t + 1)) == LowByte(LowByte(c + t) + 1)
    ensures LowByte(c + Wrap(t - 1)) == LowByte(LowByte(c + t) - 1)
    ensures LowByte(c - Wrap(t + 1)) == LowByte(LowByte(c - t) - 1)
    ensures LowByte(c - Wrap(t - 1)) == LowByte(LowByte(c - t) + 1)
  {
    hide Wrap, LowByte;
    LowByteInner(c, t + 1);
    LowByteInner(c, t - 1);
    LowByteInner(1, c + t);
    LowByteInner(-1, c + t);
    LowByteInner(1, c - t);
    LowByteInner(-1, c - t);
  }

  lemma WordSums(x: Word, t: Word)
    ensures Wrap(x + Wrap(t + 1)) == Wrap(Wrap(x + t) + 1)
    ensures Wrap(x + Wrap(t - 1)) == Wrap(Wrap(x + t) - 1)
    ensures Wrap(x - Wrap(t + 1)) == Wrap(Wrap(x - t) - 1)
    ensures Wrap(x - Wrap(t - 1)) == Wrap(Wrap(x - t) + 1)
  {
    hide Wrap;
    WrapInner(x, t + 1);
    WrapInner(x, t - 1);
    WrapInner(1, x + t);
    WrapInner(-1, x + t);
    WrapInner(1, x - t);
    WrapInner(-1, x - t);
  }

  /** One more action of the run's own kind. */
  lemma ActMore(op: Byte, t: Word, d: Data)
    requires IsAction(op)
    ensures Act(op, Wrap(t + 1), d) == Act(op, 1, Act(op, t, d))
  {
    hide Wrap, LowByte;
    ByteSums(Cell(d), t);
    WordSums(d.ptr, t);
  }

  /** One action of the opposite kind shortens the run, through zero into negative counts. */
  lemma ActLess(op: Byte, t: Word, d: Data)
    requires IsAction(op)
    ensures Act(op, Wrap(t - 1), d) == Act(Opposite(op), 1, Act(op, t, d))
  {
    hide Wrap, LowByte;
    ByteSums(Cell(d), t);
    WordSums(d.ptr, t);
  }

  lemma ActNone(op: Byte, d: Data)
    ensures Act(op, 0, d) == d
    ensures Act(OP_NONE, 0, d) == d
  {
    assert InBounds(d) ==> d.cells[d.ptr := d.cells[d.ptr]] == d.cells;
  }

  // ---------- the simulation ----------

  predicate GoodRun(pend: Pending) {
    IsAction(pend.op) || (pend.op == OP_NONE && pend.times == 0)
  }

  lemma {:induction false} ScanIsGood(p: seq<Byte>, n: nat)
    requires n <= |p|
    ensures GoodRun(Scan(p, n))
  {
    if n > 0 { ScanIsGood(p, n - 1); }
  }

  /** The token machine is where the pending run began; performing the run gives the text's data. */
  predicate Represents(p: seq<Byte>, s: TextState, t: TokenState) {
    && s.pc <= |p|
    && t.pc == |Scan(p, s.pc).tokens|
    && s.d == Act(Scan(p, s.pc).op, Scan(p, s.pc).times, t.d)
    && (Scan(p, s.pc).op == PLUS || Scan(p, s.pc).op == MINUS ==> InBounds(t.d))
  }

  /** Before a flushing character the token machine catches up, in at most one step. */
  lemma CatchUp(p: seq<Byte>, input: nat -> Byte, s: TextState, t: TokenState) returns (m: nat)
    requires WellNested(p) && Balanced(Shapes(Tokens(p)))
    requires Represents(p, s, t) && Flushes(p, s.pc)
    ensures m <= 1
    ensures TokenRun(Tokens(p), input, t, m) == TokenState(TokenOf(p, s.pc), s.d)
    ensures SafeTokenRun(Tokens(p), input, t, m)
  {
    hide Tokens, Scan, Act, WellNested;
    var pend := Scan(p, s.pc);
    ScanIsGood(p, s.pc);
    FlushedPrefix(p, s.pc);
    if pend.times == 0 || pend.op == OP_NONE {
      ActNone(pend.op, t.d);
      m := 0;
    } else {
      assert Tokens(p)[t.pc] == Repeat(pend.op, pend.times);
      assert TokenStep(Tokens(p), input, t) == TokenState(t.pc + 1, s.d);
      m := 1;
      assert TokenRun(Tokens(p), input, t, 1) == TokenRun(Tokens(p), input, TokenStep(Tokens(p), input, t), 0);
    }
  }

  /** An action character that joins the pending run needs no token step. */
  lemma JoinStep(p: seq<Byte>, input: nat -> Byte, s: TextState, t: TokenState)
    requires WellNested(p) && s.pc < |p| && TextSafe(p, s)
    requires Represents(p, s, t) && IsAction(p[s.pc]) && !Flushes(p, s.pc)
    ensures Represents(p, TextStep(p, input, s), t)
  {
    hide Act, WellNested, Flush;
    var pend, ch := Scan(p, s.pc), p[s.pc];
    assert Scan(p, s.pc + 1) == Feed(pend, ch);
    if pend.op == Opposite(ch) { ActLess(pend.op, pend.times, t.d); }
    else { ActMore(pend.op, pend.times, t.d); }
  }

  lemma RunStartStep(p: seq<Byte>, input: nat -> Byte, s: TextState, t: TokenState) returns (m: nat)
    requires WellNested(p) && Balanced(Shapes(Tokens(p)))
    requires s.pc < |p| && TextSafe(p, s)
    requires Represents(p, s, t) && IsAction(p[s.pc]) && Flushes(p, s.pc)
    ensures Represents(p, TextStep(p, input, s), TokenRun(Tokens(p), input, t, m))
    ensures SafeTokenRun(Tokens(p), input, t, m)
  {
    hide Tokens, Scan, Flush, Act, WellNested, TokenRun, SafeTokenRun;
    m := CatchUp(p, input, s, t);
    FeedFlushes(p, s.pc);
  }

  lemma TokenCommand(p: seq<Byte>, input: nat -> Byte, s: TextState)
    requires WellNested(p) && Balanced(Shapes(Tokens(p)))
    requires s.pc < |p| && TextSafe(p, s) && IsCommand(p[s.pc])
    ensures TokenOf(p, s.pc) < |Tokens(p)|
    ensures var next := TextStep(p, input, s);
            var u := TokenState(TokenOf(p, s.pc), s.d);
            && next.pc <= |p|
            && TokenStep(Tokens(p), input, u) == TokenState(|Scan(p, next.pc).tokens|, next.d)
            && TokenSafe(Tokens(p), u)
            && Scan(p, next.pc).op == OP_NONE && Scan(p, next.pc).times == 0
  {
    hide Tokens, Scan, Flush, Act, Balanced, Cell, Get, Put, CloseOf, OpenOf;
    var ch := p[s.pc];
    CommandAt(p, s.pc);
    FeedFlushes(p, s.pc);
    TextStepInRange(p, input, s);
    if ch == OPEN {
      CloseCorresponds(p, s.pc);
      var j := CloseOf(Shape(p), s.pc);
      assert p[j] == CLOSE;
      CommandAt(p, j);
      FeedFlushes(p, j);
    } else if ch == CLOSE {
      OpenCorresponds(p, s.pc);
      var i := OpenOf(Shape(p), s.pc);
      assert p[i] == OPEN;
      CommandAt(p, i);
      FeedFlushes(p, i);
    }
  }

  lemma CommandStep(p: seq<Byte>, input: nat -> Byte, s: TextState, t: TokenState) returns (m: nat)
    requires WellNested(p) && Balanced(Shapes(Tokens(p)))
    requires s.pc < |p| && TextSafe(p, s)
    requires Represents(p, s, t) && IsCommand(p[s.pc])
    ensures m >= 1
    ensures Represents(p, TextStep(p, input, s), TokenRun(Tokens(p), input, t, m))
    ensures SafeTokenRun(Tokens(p), input, t, m)
  {
    hide Tokens, Scan, Flush, Act, WellNested, Balanced, TokenStep, TokenSafe, TextStep, TextSafe;
    var k := CatchUp(p, input, s, t);
    var ts, u := Tokens(p), TokenState(TokenOf(p, s.pc), s.d);
    TokenCommand(p, input, s);
    m := k + 1;
    assert TokenRun(ts, input, u, 1) == TokenRun(ts, input, TokenStep(ts, input, u), 0);
    assert SafeTokenRun(ts, input, TokenStep(ts, input, u), 0);
    assert SafeTokenRun(ts, input, u, 1);
    TokenRunAdd(ts, input, t, k, 1);
    var next := TextStep(p, input, s);
    ActNone(OP_NONE, next.d);
  }

  /** One text step; the token machine moves at least once whenever the text jumps backwards. */
  lemma TextStepSimulated(p: seq<Byte>, input: nat -> Byte, s: TextState, t: TokenState) returns (m: nat)
    requires WellNested(p) && Balanced(Shapes(Tokens(p)))
    requires s.pc < |p| && TextSafe(p, s) && Represents(p, s, t)
    ensures Represents(p, TextStep(p, input, s), TokenRun(Tokens(p), input, t, m))
    ensures SafeTokenRun(Tokens(p), input, t, m)
    ensures m >= 1 || TextStep(p, input, s).pc == s.pc + 1
  {
    hide Tokens, Scan, Flush, Act, WellNested, Balanced, TokenStep, TokenSafe, TextSafe, Represents;
    if IsCommand(p[s.pc]) {
      m := CommandStep(p, input, s, t);
    } else if !IsAction(p[s.pc]) {
      CommentStep(p, input, s, t);
      m := 0;
    } else if Flushes(p, s.pc) {
      m := RunStartStep(p, input, s, t);
    } else {
      JoinStep(p, input, s, t);
      m := 0;
    }
  }

  lemma CommentStep(p: seq<Byte>, input: nat -> Byte, s: TextState, t: TokenState)
    requires WellNested(p) && s.pc < |p|
    requires Represents(p, s, t) && !IsAction(p[s.pc]) && !IsCommand(p[s.pc])
    ensures Represents(p, TextStep(p, input, s), t)
  {
  }

  /**
   * Any safe run of the text is a safe run of the tokens. The token run cannot fall behind for ever:
   * |p| + 1 text steps without a token step would leave the text.
   */
  lemma {:induction false} TextRunSimulated(p: seq<Byte>, input: nat -> Byte, s: TextState, t: TokenState, n: nat) returns (m: nat)
    requires WellNested(p) && Balanced(Shapes(Tokens(p)))
    requires Represents(p, s, t) && SafeRun(p, input, s, n)
    ensures Represents(p, TextRun(p, input, s, n), TokenRun(Tokens(p), input, t, m))
    ensures SafeTokenRun(Tokens(p), input, t, m)
    ensures TextRun(p, input, s, n).pc < |p| ==> s.pc + n <= m * (|p| + 1) + TextRun(p, input, s, n).pc
    decreases n
  {
    hide Tokens, Scan, Flush, WellNested, Balanced, TokenStep, TokenSafe, TextSafe, TextStep;
    if n == 0 || s.pc >= |p| {
      m := 0;
    } else {
      var k := TextStepSimulated(p, input, s, t);
      var next := TextStep(p, input, s);
      var rest := TextRunSimulated(p, input, next, TokenRun(Tokens(p), input, t, k), n - 1);
      TokenRunAdd(Tokens(p), input, t, k, rest);
      m := k + rest;
      Progress(k, rest, |p| + 1, s.pc, next.pc);
    }
  }

  lemma Progress(k: nat, rest: nat, width: nat, from: nat, to: nat)
    requires from < width && (k >= 1 || to == from + 1)
    ensures from + 1 + rest * width <= (k + rest) * width + to
  {
    assert (k + rest) * width == k * width + rest * width;
    if k >= 1 { assert k * width >= width; }
  }

  lemma StartRepresents(p: seq<Byte>)
    ensures Represents(p, START, TokenState(0, START.d))
  {
    ActNone(OP_NONE, START.d);
  }

  /** A text that ends after n safe steps ends its tokens too, with the same tape, pointer and output. */
  lemma CoalescingIsCorrect(p: seq<Byte>, input: nat -> Byte, n: nat) returns (m: nat)
    requires WellNested(p) && SafeRun(p, input, START, n) && TextRun(p, input, START, n).pc >= |p|
    ensures Balanced(Shapes(Tokens(p)))
    ensures TokenRun(Tokens(p), input, TokenState(0, START.d), m)
         == TokenState(|Tokens(p)|, TextRun(p, input, START, n).d)
    ensures SafeTokenRun(Tokens(p), input, TokenState(0, START.d), m)
  {
    hide Tokens, Scan, Flush, WellNested, Balanced, TokenStep, TokenSafe, TextSafe, TextStep;
    TokensBalanced(p);
    StartRepresents(p);
    var t := TokenState(0, START.d);
    var k := TextRunSimulated(p, input, START, t, n);
    var last := CatchUp(p, input, TextRun(p, input, START, n), TokenRun(Tokens(p), input, t, k));
    TokenRunAdd(Tokens(p), input, t, k, last);
    TokensEnd(p);
    m := k + last;
  }
}
