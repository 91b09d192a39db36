/** The commands of a Brainfuck program by their characters: what each does, where loops begin and end, and its token. */
module Commands {
  import opened Words
  import opened Brackets
  import opened Brainfuck
  import opened Coalescing
  import opened JitCode
  import opened Instructions
  import JitCompiler

  // ---------- loops ----------

  /** Opening less closing brackets among the first n characters. */
  function Depth(p: seq<Byte>, n: nat): int
    requires n <= |p|
  {
    if n == 0 then 0
    else Depth(p, n - 1) + (if p[n - 1] == '[' as int then 1 else if p[n - 1] == ']' as int then -1 else 0)
  }

  predicate NeverNegative(p: seq<Byte>, n: nat)
    requires n <= |p|
  {
    forall m :: 0 <= m <= n ==> Depth(p, m) >= 0
  }

  /** The bracket pair at i and j: between them the depth stays above that outside. */
  predicate Encloses(p: seq<Byte>, i: nat, j: nat) {
    && i < j < |p| && p[i] == '[' as int && p[j] == ']' as int && Depth(p, j + 1) == Depth(p, i)
    && forall m :: i < m <= j ==> Depth(p, m) > Depth(p, i)
  }

  predicate AllMatched(p: seq<Byte>, n: nat)
    requires n <= |p|
  {
    forall j :: 0 <= j < n && Shape(p)[j].Close? ==> OpenStack(Shape(p), j) != []
  }

  lemma {:induction false} StackIsDepth(p: seq<Byte>, n: nat)
    requires n <= |p| && (NeverNegative(p, n) || AllMatched(p, n))
    ensures |OpenStack(Shape(p), n)| == Depth(p, n)
  {
    if n > 0 { StackIsDepth(p, n - 1); }
  }

  /** Well nested: no prefix closes more than it opens, and the whole closes all. */
  lemma NestedExactly(p: seq<Byte>)
    ensures WellNested(p) <==> NeverNegative(p, |p|) && Depth(p, |p|) == 0
  {
    if WellNested(p) {
      forall m | 0 <= m <= |p| ensures Depth(p, m) >= 0 { StackIsDepth(p, m); }
      StackIsDepth(p, |p|);
    } else if NeverNegative(p, |p|) && Depth(p, |p|) == 0 {
      StackIsDepth(p, |p|);
      forall j | 0 <= j < |p| && Shape(p)[j].Close? ensures OpenStack(Shape(p), j) != [] {
        StackIsDepth(p, j);
        assert Depth(p, j + 1) == Depth(p, j) - 1;
      }
    }
  }

  /** While i is open it stands on the stack just above what was open before it. */
  lemma {:induction false} StandsAbove(s: seq<Bracket>, i: nat, m: nat)
    requires i < m <= |s| && s[i].Open? && i in OpenStack(s, m)
    ensures |OpenStack(s, i)| < |OpenStack(s, m)| && OpenStack(s, m)[|OpenStack(s, i)|] == i
    decreases m
  {
    if m > i + 1 {
      assert i in OpenStack(s, m - 1);
      StandsAbove(s, i, m - 1);
      StackPointsAtOpens(s, m - 1);
    }
  }

  /** The interpreter's matching brackets enclose each other. */
  lemma MatchingEncloses(p: seq<Byte>, j: nat)
    requires WellNested(p) && Matched(Shape(p), j)
    ensures Encloses(p, OpenOf(Shape(p), j), j)
  {
    hide OpenStack;
    var s, i := Shape(p), OpenOf(Shape(p), j);
    TopIsOpen(s, j);
    forall m | i < m <= j ensures Depth(p, m) > Depth(p, i) {
      if i !in OpenStack(s, m) { StaysClosed(s, i, m, j); }
      StandsAbove(s, i, m);
      StackIsDepth(p, m);
      StackIsDepth(p, i);
    }
    StackIsDepth(p, j);
    StackIsDepth(p, i);
    StandsAbove(s, i, j);
    StackPointsAtOpens(s, j);
  }

  lemma TopIsOpen(s: seq<Bracket>, j: nat)
    requires Matched(s, j)
    ensures OpenStack(s, j)[|OpenStack(s, j)| - 1] == OpenOf(s, j) && OpenOf(s, j) in OpenStack(s, j)
  {
  }

  /** The programs the compiler takes: well nested, no more than sixteen deep, with no more than 510 bytes of code. */
  lemma AcceptedExactly(p: seq<Byte>)
    ensures JitCompiler.Accepted(p) <==>
            && NeverNegative(p, |p|) && Depth(p, |p|) == 0 && (forall n :: 0 <= n <= |p| ==> Depth(p, n) <= 16)
            && CodeSize(Tokens(p)) <= 510
  {
    hide Balanced, CodeSize, Tokens, Depth, OpenStack, JitCompiler.Shallow;
    NestedExactly(p);
    if NeverNegative(p, |p|) { ShallowExactly(p); }
  }

  lemma ShallowExactly(p: seq<Byte>)
    requires NeverNegative(p, |p|)
    ensures JitCompiler.Shallow(p) <==> forall n :: 0 <= n <= |p| ==> Depth(p, n) <= 16
  {
    if JitCompiler.Shallow(p) {
      forall n | 0 <= n <= |p| ensures Depth(p, n) <= 16 {
        StackIsDepth(p, n);
        assert |OpenStack(Shape(p), n)| <= JitCompiler.MAX_NESTING;
      }
    } else {
      var n :| 0 <= n <= |p| && |OpenStack(Shape(p), n)| > JitCompiler.MAX_NESTING;
      StackIsDepth(p, n);
      assert Depth(p, n) > 16;
    }
  }

  // ---------- one character ----------

  /** Inside the tape of sixteen cells: the cell one up or down modulo 256, the pointer one left or right, input, output. */
  lemma CommandStep(p: seq<Byte>, input: nat -> Byte, s: TextState)
    requires WellNested(p) && s.pc < |p| && s.d.ptr < 16
    ensures var cell, d, t := s.d.cells[s.d.ptr], s.d, TextStep(p, input, s);
            match p[s.pc] as char
            case '+' => t == TextState(s.pc + 1, d.(cells := d.cells[d.ptr := if cell == 255 then 0 else cell + 1]))
            case '-' => t == TextState(s.pc + 1, d.(cells := d.cells[d.ptr := if cell == 0 then 255 else cell - 1]))
            case '<' => t == TextState(s.pc + 1, d.(ptr := if d.ptr == 0 then 0xFFFF else d.ptr - 1))
            case '>' => t == TextState(s.pc + 1, d.(ptr := d.ptr + 1))
            case ',' => t == TextState(s.pc + 1, d.(cells := d.cells[d.ptr := input(d.read)], read := d.read + 1))
            case '.' => t == TextState(s.pc + 1, d.(out := d.out + [cell]))
            case '[' => t.d == d && if cell != 0 then t.pc == s.pc + 1 else t.pc > 0 && Encloses(p, s.pc, t.pc - 1)
            case ']' => t.d == d && if cell == 0 then t.pc == s.pc + 1 else t.pc > 0 && Encloses(p, t.pc - 1, s.pc)
            case _ => t == TextState(s.pc + 1, d)
  {
    hide Balanced, OpenOf, CloseOf, Encloses;
    if p[s.pc] as char == '[' && s.d.cells[s.d.ptr] == 0 {
      BalancedCloses(Shape(p), s.pc);
      MatchingEncloses(p, CloseOf(Shape(p), s.pc));
    } else if p[s.pc] as char == ']' && s.d.cells[s.d.ptr] != 0 {
      ClosesSomething(p, s.pc);
      MatchingEncloses(p, s.pc);
    }
  }

  lemma ClosesSomething(p: seq<Byte>, j: nat)
    requires WellNested(p) && j < |p| && p[j] == ']' as int
    ensures Matched(Shape(p), j)
  {
    assert Shape(p)[j].Close?;
  }

  // ---------- tokens ----------

  function Copies(c: Byte, n: nat): (p: seq<Byte>)
    ensures |p| == n
  {
    seq(n, _ => c)
  }

  lemma {:induction false} RunScanned(p: seq<Byte>, c: Byte, n: nat)
    requires n <= |p| && n < 0x1_0000 && p == Copies(c, |p|) && c as char in {'+', '-', '<', '>'}
    ensures Scan(p, n) == if n == 0 then Pending([], OP_NONE, 0) else Pending([], c, n)
  {
    if n > 0 { RunScanned(p, c, n - 1); }
  }

  /** A run of one of the four actions is one token with its length. */
  lemma RunToken(c: Byte, n: nat)
    requires 0 < n < 0x1_0000 && c as char in {'+', '-', '<', '>'}
    ensures Tokens(Copies(c, n)) == [Repeat(c, n)]
  {
    RunScanned(Copies(c, n), c, n);
  }

  /** The other commands are tokens of their own; any other character is none. */
  lemma CommandTokens(c: Byte)
    requires c as char !in {'+', '-', '<', '>'}
    ensures Tokens([c]) == match c as char
                           case '[' => [Loop]
                           case ']' => [EndLoop]
                           case ',' => [Input]
                           case '.' => [Output]
                           case _ => []
  {
    assert Scan([c], 0) == Pending([], OP_NONE, 0);
    assert Scan([c], 1) == Feed(Scan([c], 0), c);
  }

  /** The machine code of single commands: the instruction that makes the difference stands at its place. */
  lemma CommandCode(l: Layout, c: Byte)
    requires c as char in {'+', '-', '<', '>', ',', '.'}
    ensures var ts := Tokens([c]);
            && |ts| == 1
            && match c as char
               case '+' => Bytes(l, ts, 0) == [PEEKB, rB_AL, INCA, AL_rB]
               case '-' => Bytes(l, ts, 0) == [PEEKB, rB_AL, DECA, AL_rB]
               case '<' => Bytes(l, ts, 0) == [POPA, DECA, PUSHA, NOP]
               case '>' => Bytes(l, ts, 0) == [POPA, INCA, PUSHA, NOP]
               case ',' => Bytes(l, ts, 0) == [NOP, CALL, l.getChar % 0x100, l.getChar / 0x100, PEEKB, AL_rB]
               case _ => Bytes(l, ts, 0) == [PEEKB, rB_AL, NOP, CALL, l.putChar % 0x100, l.putChar / 0x100]
  {
    if c as char in {'+', '-', '<', '>'} {
      assert Copies(c, 1) == [c];
      RunToken(c, 1);
    } else {
      CommandTokens(c);
    }
  }
}
