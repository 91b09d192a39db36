/** The run-length coalescing of the Brainfuck compiler and its meaning. */
module Coalescing {
  import opened Words
  import opened Brackets
  import opened Brainfuck

  datatype Token = Repeat(op: Byte, count: Word) | Loop | EndLoop | Input | Output

  /** The compiler's state between characters: emitted tokens and the pending run. */
  datatype Pending = Pending(tokens: seq<Token>, op: Byte, times: Word)

  function Opposite(op: Byte): Byte {
    if op == PLUS then MINUS else if op == MINUS then PLUS
    else if op == LEFT then RIGHT else if op == RIGHT then LEFT else op
  }

  /** Emitting the pending run; an empty run emits nothing. */
  function Flush(s: Pending): (tokens: seq<Token>)
    ensures s.tokens <= tokens
  {
    if s.times == 0 || s.op == OP_NONE then s.tokens else s.tokens + [Repeat(s.op, s.times)]
  }

  function CommandToken(ch: Byte): Token {
    if ch == OPEN then Loop else if ch == CLOSE then EndLoop else if ch == COMMA then Input else Output
  }

  predicate IsCommand(ch: Byte) {
    ch == OPEN || ch == CLOSE || ch == COMMA || ch == POINT
  }

  /** An opposite action shortens the run but keeps its operation, even through zero. */
  function Feed(s: Pending, ch: Byte): (r: Pending)
    ensures s.tokens <= r.tokens
  {
    if IsAction(ch) then
      if s.op == Opposite(ch) then s.(times := Wrap(s.times - 1))
      else if s.op == ch then s.(times := Wrap(s.times + 1))
      else Pending(Flush(s), ch, 1)
    else if IsCommand(ch) then Pending(Flush(s) + [CommandToken(ch)], OP_NONE, 0)
    else s
  }

  function Scan(p: seq<Byte>, n: nat): Pending
    requires n <= |p|
  {
    if n == 0 then Pending([], OP_NONE, 0) else Feed(Scan(p, n - 1), p[n - 1])
  }

  function Tokens(p: seq<Byte>): seq<Token> {
    Flush(Scan(p, |p|))
  }

  function TokenShape(t: Token): Bracket {
    match t case Loop => Open case EndLoop => Close case _ => Plain
  }

  function Shapes(ts: seq<Token>): (s: seq<Bracket>)
    ensures |s| == |ts|
  {
    seq(|ts|, i requires 0 <= i < |ts| => TokenShape(ts[i]))
  }

  datatype TokenState = TokenState(pc: nat, d: Data)

  function TokenStep(ts: seq<Token>, input: nat -> Byte, t: TokenState): TokenState
    requires Balanced(Shapes(ts)) && t.pc < |ts|
  {
    match ts[t.pc]
    case Repeat(op, count) => TokenState(t.pc + 1, Act(op, count, t.d))
    case Input => TokenState(t.pc + 1, Get(t.d, input))
    case Output => TokenState(t.pc + 1, Put(t.d))
    case Loop => TokenState(if Cell(t.d) == 0 then CloseOf(Shapes(ts), t.pc) + 1 else t.pc + 1, t.d)
    case EndLoop => TokenState(if Cell(t.d) != 0 then OpenOf(Shapes(ts), t.pc) + 1 else t.pc + 1, t.d)
  }

  predicate TokenSafe(ts: seq<Token>, t: TokenState) {
    t.pc < |ts| && !(ts[t.pc].Repeat? && (ts[t.pc].op == LEFT || ts[t.pc].op == RIGHT)) ==> InBounds(t.d)
  }

  function TokenRun(ts: seq<Token>, input: nat -> Byte, t: TokenState, n: nat): TokenState
    requires Balanced(Shapes(ts))
    decreases n
  {
    if n == 0 || t.pc >= |ts| then t else TokenRun(ts, input, TokenStep(ts, input, t), n - 1)
  }

  /** n genuine steps, none of them touching a cell off the tape. */
  predicate SafeTokenRun(ts: seq<Token>, input: nat -> Byte, t: TokenState, n: nat)
    requires Balanced(Shapes(ts))
    decreases n
  {
    n == 0 || (t.pc < |ts| && TokenSafe(ts, t) && SafeTokenRun(ts, input, TokenStep(ts, input, t), n - 1))
  }

  lemma {:induction false} TokenRunAdd(ts: seq<Token>, input: nat -> Byte, t: TokenState, m: nat, n: nat)
    requires Balanced(Shapes(ts))
    ensures TokenRun(ts, input, t, m + n) == TokenRun(ts, input, TokenRun(ts, input, t, m), n)
    ensures SafeTokenRun(ts, input, t, m) && SafeTokenRun(ts, input, TokenRun(ts, input, t, m), n)
            ==> SafeTokenRun(ts, input, t, m + n)
    decreases m
  {
    hide TokenStep, TokenSafe;
    if m > 0 && t.pc < |ts| { TokenRunAdd(ts, input, TokenStep(ts, input, t), m - 1, n); }
  }

  // ---------- tokens and text positions ----------

  lemma {:induction false} ScanGrows(p: seq<Byte>, m: nat, n: nat)
    requires m <= n <= |p|
    ensures Scan(p, m).tokens <= Scan(p, n).tokens
    decreases n
  {
    if m < n { ScanGrows(p, m, n - 1); }
  }

  /** Everything emitted by position n is in the final token list. */
  lemma ScannedPrefix(p: seq<Byte>, n: nat)
    requires n <= |p|
    ensures Scan(p, n).tokens <= Tokens(p)
  {
    ScanGrows(p, n, |p|);
  }

  /** The character at n closes the pending run. */
  predicate Flushes(p: seq<Byte>, n: nat)
    requires n <= |p|
  {
    n == |p| || IsCommand(p[n])
    || (IsAction(p[n]) && Scan(p, n).op != Opposite(p[n]) && Scan(p, n).op != p[n])
  }

  /** The position, among the tokens, of the command at text position n. */
  function TokenOf(p: seq<Byte>, n: nat): nat
    requires n <= |p|
  {
    |Flush(Scan(p, n))|
  }

  lemma FlushedPrefix(p: seq<Byte>, n: nat)
    requires n <= |p| && Flushes(p, n)
    ensures Flush(Scan(p, n)) <= Tokens(p)
  {
    if n < |p| { ScannedPrefix(p, n + 1); }
  }

  lemma CommandAt(p: seq<Byte>, n: nat)
    requires n < |p| && IsCommand(p[n])
    ensures TokenOf(p, n) < |Tokens(p)| && Tokens(p)[TokenOf(p, n)] == CommandToken(p[n])
    ensures |Scan(p, n + 1).tokens| == TokenOf(p, n) + 1
  {
    ScannedPrefix(p, n + 1);
  }

  /** The flushed run is not a bracket, so it leaves the bracket stack alone. */
  lemma StackAcrossFlush(p: seq<Byte>, n: nat)
    requires n <= |p| && Flushes(p, n)
    ensures TokenOf(p, n) <= |Tokens(p)| && |Scan(p, n).tokens| <= TokenOf(p, n)
    ensures OpenStack(Shapes(Tokens(p)), TokenOf(p, n)) == OpenStack(Shapes(Tokens(p)), |Scan(p, n).tokens|)
  {
    FlushedPrefix(p, n);
  }

  /** The open brackets of the first n characters and those of their tokens are the same, in order. */
  predicate NestedAlike(p: seq<Byte>, n: nat)
    requires n <= |p| && |Scan(p, n).tokens| <= |Tokens(p)|
  {
    var text := OpenStack(Shape(p), n);
    var tokens := OpenStack(Shapes(Tokens(p)), |Scan(p, n).tokens|);
    && |tokens| == |text|
    && forall a :: 0 <= a < |text| ==> text[a] < n && tokens[a] == TokenOf(p, text[a])
  }

  /** A character other than a command may flush a run but opens and closes nothing. */
  lemma StackAcrossPlain(p: seq<Byte>, n: nat)
    requires n < |p| && !IsCommand(p[n])
    ensures |Scan(p, n).tokens| <= |Tokens(p)| && |Scan(p, n + 1).tokens| <= |Tokens(p)|
    ensures OpenStack(Shapes(Tokens(p)), |Scan(p, n + 1).tokens|) == OpenStack(Shapes(Tokens(p)), |Scan(p, n).tokens|)
    ensures OpenStack(Shape(p), n + 1) == OpenStack(Shape(p), n)
  {
    hide OpenStack, Flush, Tokens, Feed;
    ScannedPrefix(p, n);
    ScannedPrefix(p, n + 1);
    PlainKeepsStack(Shape(p), n);
    if Flushes(p, n) {
      StackAcrossFlush(p, n);
      FeedFlushes(p, n);
    } else {
      FeedJoins(p, n);
    }
  }

  lemma PlainKeepsStack(s: seq<Bracket>, n: nat)
    requires n < |s| && s[n].Plain?
    ensures OpenStack(s, n + 1) == OpenStack(s, n)
  {
  }

  lemma FeedFlushes(p: seq<Byte>, n: nat)
    requires n < |p| && Flushes(p, n)
    ensures IsAction(p[n]) ==> Scan(p, n + 1) == Pending(Flush(Scan(p, n)), p[n], 1)
    ensures IsCommand(p[n]) ==> Scan(p, n + 1) == Pending(Flush(Scan(p, n)) + [CommandToken(p[n])], OP_NONE, 0)
  {
  }

  lemma FeedJoins(p: seq<Byte>, n: nat)
    requires n < |p| && !Flushes(p, n)
    ensures Scan(p, n + 1).tokens == Scan(p, n).tokens && Scan(p, n + 1).op == Scan(p, n).op
  {
  }

  lemma {:induction false} StacksCorrespond(p: seq<Byte>, n: nat)
    requires n <= |p|
    ensures |Scan(p, n).tokens| <= |Tokens(p)|
    ensures NestedAlike(p, n)
  {
    hide Scan, Flush, Tokens, Feed;
    ScannedPrefix(p, n);
    if n == 0 {
      EmptyNestedAlike(p);
    } else {
      StacksCorrespond(p, n - 1);
      if !IsCommand(p[n - 1]) {
        hide OpenStack;
        StackAcrossPlain(p, n - 1);
      } else {
        StackAcrossFlush(p, n - 1);
        CommandAt(p, n - 1);
      }
    }
  }

  lemma EmptyNestedAlike(p: seq<Byte>)
    ensures |Scan(p, 0).tokens| <= |Tokens(p)| && NestedAlike(p, 0)
  {
  }

  /** Every bracket token comes from a bracket of the text. */
  lemma {:induction false} BracketFromText(p: seq<Byte>, j: nat, n: nat) returns (m: nat)
    requires n <= |p| && j < |Scan(p, n).tokens| && !TokenShape(Scan(p, n).tokens[j]).Plain?
    ensures m < n && IsBracket(p[m]) && TokenOf(p, m) == j && Scan(p, n).tokens[j] == CommandToken(p[m])
    decreases n
  {
    if j < |Scan(p, n - 1).tokens| {
      ScanGrows(p, n - 1, n);
      m := BracketFromText(p, j, n - 1);
    } else {
      m := n - 1;
    }
  }

  lemma BracketTokenFromText(p: seq<Byte>, j: nat) returns (m: nat)
    requires j < |Tokens(p)| && !TokenShape(Tokens(p)[j]).Plain?
    ensures m < |p| && IsBracket(p[m]) && TokenOf(p, m) == j && Tokens(p)[j] == CommandToken(p[m])
  {
    ScannedPrefix(p, |p|);
    m := BracketFromText(p, j, |p|);
  }

  /** The token brackets of a well-nested program are balanced. */
  lemma TokensBalanced(p: seq<Byte>)
    requires WellNested(p)
    ensures Balanced(Shapes(Tokens(p)))
  {
    hide Tokens, Scan;
    var ts := Tokens(p);
    forall j | 0 <= j < |ts| && Shapes(ts)[j].Close?
      ensures OpenStack(Shapes(ts), j) != []
    {
      var m := BracketTokenFromText(p, j);
      assert Shape(p)[m].Close?;
      StacksCorrespond(p, m);
      StackAcrossFlush(p, m);
    }
    StacksCorrespond(p, |p|);
    StackAcrossFlush(p, |p|);
    TokensEnd(p);
  }

  lemma TokensEnd(p: seq<Byte>)
    ensures TokenOf(p, |p|) == |Tokens(p)|
  {
  }

  /** Matching brackets of the text become matching brackets of the tokens. */
  lemma OpenCorresponds(p: seq<Byte>, j: nat)
    requires WellNested(p) && j < |p| && p[j] == CLOSE
    ensures Matched(Shape(p), j) && Matched(Shapes(Tokens(p)), TokenOf(p, j))
    ensures OpenOf(Shapes(Tokens(p)), TokenOf(p, j)) == TokenOf(p, OpenOf(Shape(p), j))
  {
    hide Tokens, Scan, Flush;
    assert Shape(p)[j].Close?;
    StacksCorrespond(p, j);
    StackAcrossFlush(p, j);
    CommandAt(p, j);
  }

  lemma CloseCorresponds(p: seq<Byte>, i: nat)
    requires WellNested(p) && i < |p| && p[i] == OPEN
    ensures TokenOf(p, i) < |Tokens(p)| && CloseOf(Shape(p), i) < |p|
    ensures CloseOf(Shapes(Tokens(p)), TokenOf(p, i)) == TokenOf(p, CloseOf(Shape(p), i))
  {
    hide Tokens, Scan, Flush;
    CommandAt(p, i);
    assert Shape(p)[i].Open?;
    BalancedCloses(Shape(p), i);
    var j := CloseOf(Shape(p), i);
    assert Shape(p)[j].Close?;
    OpenCorresponds(p, j);
    CloseOfOpenOf(Shapes(Tokens(p)), TokenOf(p, j));
  }
}
