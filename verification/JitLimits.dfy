/** When the code buffer overflows, and when the compiler notices. */
module JitLimits {
  import opened Words
  import opened Brackets
  import opened Brainfuck
  import opened Coalescing
  import opened JitCode
  import opened JitCompiler

  /** Its fragment ends with an operand. */
  predicate EndsWithOperand(t: Token) {
    t.Loop? || t.EndLoop? || t.Output?
  }

  /** The loops among the first n tokens are matched and not too deep. */
  predicate LoopsFine(ts: seq<Token>, n: nat)
    requires n <= |ts|
  {
    forall j :: 0 <= j < n ==>
      && (ts[j].Loop? ==> |OpenLoops(ts[..j])| != MAX_NESTING)
      && (ts[j].EndLoop? ==> OpenLoops(ts[..j]) != [])
  }

  /** The operand of token k takes the code pointer from 510 to 512, over the address that is tested. */
  predicate JumpsOver(ts: seq<Token>, k: nat)
    requires k < |ts|
  {
    (EndsWithOperand(ts[k]) && Offset(ts, k) == 506) || (ts[k].Input? && Offset(ts, k) == 508)
  }

  /** Token k, or the epilogue for k == |ts|, is the first not to fit, and its bytes run into the tested address. */
  predicate RunsInto(ts: seq<Token>, k: nat)
    requires k <= |ts|
  {
    && Offset(ts, k) <= CODE_CAPACITY
    && Offset(ts, k) + (if k == |ts| then EPILOGUE_SIZE else Size(ts[k])) > CODE_CAPACITY
    && (k < |ts| ==> !JumpsOver(ts, k))
  }

  // ---------- prefixes ----------

  lemma SamePrefix(ts: seq<Token>, n: nat, k: nat)
    requires k <= n <= |ts|
    ensures Offset(ts[..n], k) == Offset(ts, k) && ts[..n][..k] == ts[..k]
  {
    PrefixOffset(ts[..n], ts, k);
  }

  lemma FinePrefix(ts: seq<Token>, n: nat, m: nat)
    requires m <= n <= |ts|
    ensures LoopsFine(ts[..n], m) <==> LoopsFine(ts, m)
  {
    hide OpenLoops;
    assert forall j :: 0 <= j < m ==> ts[..n][j] == ts[j] && ts[..n][..j] == ts[..j];
  }

  lemma JumpsPrefix(ts: seq<Token>, n: nat, k: nat)
    requires k < n <= |ts|
    ensures JumpsOver(ts[..n], k) <==> JumpsOver(ts, k)
    ensures LoopsFine(ts[..n], k + 1) <==> LoopsFine(ts, k + 1)
  {
    SamePrefix(ts, n, k);
    FinePrefix(ts, n, k + 1);
  }

  // ---------- the code pointer while all goes well ----------

  /** Emitted tokens have fine loops; the code pointer is inside the buffer, or was taken over its end by an operand. */
  lemma {:induction false} WhileOk(ts: seq<Token>)
    requires FateOf(ts) == Ok
    ensures LoopsFine(ts, |ts|)
    ensures Offset(ts, |ts|) <= CODE_CAPACITY || (ts != [] && JumpsOver(ts, |ts| - 1))
    ensures ts != [] && JumpsOver(ts, |ts| - 1) ==> Offset(ts, |ts|) == CODE_CAPACITY + 2
  {
    hide OpenLoops;
    if ts != [] {
      var n := |ts| - 1;
      WhileOk(ts[..n]);
      SamePrefix(ts, n, n);
      FinePrefix(ts, n, n);
    }
  }

  /** Fine loops and room for the rest: all goes well. */
  lemma {:induction false} OkWhileRoom(ts: seq<Token>)
    requires LoopsFine(ts, |ts|) && Offset(ts, |ts|) <= CODE_CAPACITY
    ensures FateOf(ts) == Ok
  {
    hide OpenLoops;
    if ts != [] {
      var n := |ts| - 1;
      SamePrefix(ts, n, n);
      FinePrefix(ts, n, n);
      OkWhileRoom(ts[..n]);
    }
  }

  /** The first token that fails. */
  lemma {:induction false} FirstFailure(ts: seq<Token>) returns (k: nat)
    requires FateOf(ts) != Ok
    ensures k < |ts| && FateOf(ts[..k]) == Ok && Fate(ts[..k], ts[k]) == FateOf(ts)
  {
    hide Fate;
    var n := |ts| - 1;
    if FateOf(ts[..n]) != Ok {
      k := FirstFailure(ts[..n]);
      SamePrefix(ts, n, k);
    } else {
      k := n;
    }
  }

  lemma FailsAt(ts: seq<Token>, k: nat)
    requires k < |ts| && FateOf(ts[..k]) == Ok && Fate(ts[..k], ts[k]) != Ok
    ensures CompileFate(ts) == FateOf(ts) == Fate(ts[..k], ts[k])
  {
    hide Fate, FateOf;
    FateNext(ts[..k], ts[k]);
    assert ts[..k] + [ts[k]] == ts[..k + 1];
    FateStays(ts[..k + 1], ts);
  }

  // ---------- the two overflows, exactly ----------

  /** The compiler overruns its buffer exactly when an operand takes the code pointer over the tested address. */
  lemma OverrunExactly(ts: seq<Token>)
    ensures CompileFate(ts) == Overrun <==> exists k :: 0 <= k < |ts| && LoopsFine(ts, k + 1) && JumpsOver(ts, k)
  {
    hide OpenLoops, FateOf, Fate, CompileFate, LoopsFine, JumpsOver;
    if CompileFate(ts) == Overrun {
      var k := JumpFound(ts);
    }
    if k :| 0 <= k < |ts| && LoopsFine(ts, k + 1) && JumpsOver(ts, k) {
      JumpOverruns(ts, k);
    }
  }

  lemma JumpFound(ts: seq<Token>) returns (k: nat)
    requires CompileFate(ts) == Overrun
    ensures k < |ts| && LoopsFine(ts, k + 1) && JumpsOver(ts, k)
  {
    hide OpenLoops, LoopsFine, FateOf;
    if FateOf(ts) == Ok {
      WhileOk(ts);
      k := |ts| - 1;
    } else {
      var m := FirstFailure(ts);
      WhileOk(ts[..m]);
      SamePrefix(ts, m, m);
      FinePrefix(ts, m, m);
      if Offset(ts, m) > CODE_CAPACITY {
        k := m - 1;
        JumpsPrefix(ts, m, k);
      } else {
        k := m;
        FineInput(ts, m);
      }
    }
  }

  lemma FineInput(ts: seq<Token>, k: nat)
    requires k < |ts| && LoopsFine(ts, k) && !ts[k].Loop? && !ts[k].EndLoop?
    ensures LoopsFine(ts, k + 1)
  {
    hide OpenLoops;
  }

  lemma FineBefore(ts: seq<Token>, k: nat)
    requires k < |ts| && LoopsFine(ts, k + 1)
    ensures LoopsFine(ts[..k], k) && LoopsFine(ts[..k + 1], k + 1)
    ensures ts[k].Loop? ==> |OpenLoops(ts[..k])| != MAX_NESTING
    ensures ts[k].EndLoop? ==> OpenLoops(ts[..k]) != []
  {
    hide OpenLoops;
    FinePrefix(ts, k, k);
    FinePrefix(ts, k + 1, k + 1);
  }

  lemma JumpOverruns(ts: seq<Token>, k: nat)
    requires k < |ts| && LoopsFine(ts, k + 1) && JumpsOver(ts, k)
    ensures CompileFate(ts) == Overrun
  {
    hide OpenLoops, LoopsFine, FateOf, CompileFate;
    FineBefore(ts, k);
    SamePrefix(ts, k, k);
    OkWhileRoom(ts[..k]);
    if ts[k].Input? {
      FailsAt(ts, k);
    } else {
      FateNext(ts[..k], ts[k]);
      assert ts[..k] + [ts[k]] == ts[..k + 1];
      WhileOk(ts[..k + 1]);
      JumpsPrefix(ts, k + 1, k);
      SamePrefix(ts, k + 1, k + 1);
      if k + 1 < |ts| {
        FailsAt(ts, k + 1);
      } else {
        assert ts[..k + 1] == ts;
        EpilogueFails(ts);
      }
    }
  }

  lemma EpilogueFails(ts: seq<Token>)
    requires FateOf(ts) == Ok && BytesFate(Offset(ts, |ts|), EPILOGUE_SIZE) != Ok
    ensures CompileFate(ts) == BytesFate(Offset(ts, |ts|), EPILOGUE_SIZE)
  {
    hide FateOf;
  }

  /** The compiler reports that the code is too long exactly when the overflow happens in single bytes. */
  lemma CodeExceedingExactly(ts: seq<Token>)
    ensures CompileFate(ts) == CodeExceeding <==> exists k :: 0 <= k <= |ts| && LoopsFine(ts, k) && RunsInto(ts, k)
  {
    hide OpenLoops, FateOf, Fate, CompileFate, LoopsFine, RunsInto;
    if CompileFate(ts) == CodeExceeding {
      var k := EndFound(ts);
    }
    if k :| 0 <= k <= |ts| && LoopsFine(ts, k) && RunsInto(ts, k) {
      EndReported(ts, k);
    }
  }

  lemma EndFound(ts: seq<Token>) returns (k: nat)
    requires CompileFate(ts) == CodeExceeding
    ensures k <= |ts| && LoopsFine(ts, k) && RunsInto(ts, k)
  {
    hide OpenLoops, LoopsFine, FateOf;
    if FateOf(ts) == Ok {
      WhileOk(ts);
      k := |ts|;
    } else {
      k := FirstFailure(ts);
      WhileOk(ts[..k]);
      SamePrefix(ts, k, k);
      FinePrefix(ts, k, k);
    }
  }

  lemma EndReported(ts: seq<Token>, k: nat)
    requires k <= |ts| && LoopsFine(ts, k) && RunsInto(ts, k)
    ensures CompileFate(ts) == CodeExceeding
  {
    hide OpenLoops, LoopsFine, FateOf, CompileFate;
    SamePrefix(ts, k, k);
    FinePrefix(ts, k, k);
    OkWhileRoom(ts[..k]);
    if k < |ts| {
      FailsAt(ts, k);
    } else {
      assert ts[..k] == ts;
      EpilogueFails(ts);
    }
  }

  // ---------- a program that overruns ----------

  /** `+.` n times. */
  function Points(n: nat): seq<Byte> {
    if n == 0 then [] else Points(n - 1) + [PLUS, POINT]
  }

  function PointTokens(n: nat): (ts: seq<Token>)
    ensures |ts| == 2 * n
  {
    if n == 0 then [] else PointTokens(n - 1) + [Repeat(PLUS, 1), Output]
  }

  lemma {:induction false} ScanPrefix(p: seq<Byte>, n: nat, m: nat)
    requires n <= m <= |p|
    ensures Scan(p[..m], n) == Scan(p, n)
  {
    hide Feed;
    if n > 0 { ScanPrefix(p, n - 1, m); }
  }

  lemma ScanNext(p: seq<Byte>, ch: Byte)
    ensures Scan(p + [ch], |p| + 1) == Feed(Scan(p, |p|), ch)
  {
    hide Feed;
    ScanPrefix(p + [ch], |p|, |p|);
    assert (p + [ch])[..|p|] == p;
  }

  lemma {:induction false} PointsScanned(n: nat)
    ensures Scan(Points(n), |Points(n)|) == Pending(PointTokens(n), OP_NONE, 0)
  {
    hide Scan, Feed;
    if n == 0 {
      NothingScanned();
    } else {
      var p, ts := Points(n - 1), PointTokens(n - 1);
      PointsScanned(n - 1);
      PointScanned(p, ts);
      assert p + [PLUS] + [POINT] == Points(n);
      assert ts + [Repeat(PLUS, 1)] + [Output] == PointTokens(n);
    }
  }

  lemma NothingScanned()
    ensures Scan([], 0) == Pending([], OP_NONE, 0)
  {
  }

  lemma PointScanned(p: seq<Byte>, ts: seq<Token>)
    requires Scan(p, |p|) == Pending(ts, OP_NONE, 0)
    ensures Scan(p + [PLUS] + [POINT], |p| + 2) == Pending(ts + [Repeat(PLUS, 1)] + [Output], OP_NONE, 0)
  {
    hide Scan, Feed;
    ScanNext(p, PLUS);
    ScanNext(p + [PLUS], POINT);
    PointFed(ts);
  }

  lemma PointFed(ts: seq<Token>)
    ensures Feed(Feed(Pending(ts, OP_NONE, 0), PLUS), POINT) == Pending(ts + [Repeat(PLUS, 1)] + [Output], OP_NONE, 0)
  {
  }

  lemma {:induction false} PointOffsets(n: nat)
    ensures Offset(PointTokens(n), 2 * n) == PROLOGUE_SIZE + 10 * n
    ensures forall j :: 0 <= j < 2 * n ==> !PointTokens(n)[j].Loop? && !PointTokens(n)[j].EndLoop?
  {
    if n > 0 {
      var ts, us := PointTokens(n - 1), PointTokens(n);
      PointOffsets(n - 1);
      PrefixOffset(ts, us, 2 * n - 2);
      assert Offset(us, 2 * n - 1) == Offset(us, 2 * n - 2) + Size(us[2 * n - 2]);
    }
  }

  lemma PointsEnd(p: seq<Byte>, ts: seq<Token>)
    requires Scan(p, |p|) == Pending(ts, OP_NONE, 0)
    ensures Tokens(p + [POINT]) == ts + [Output]
  {
    hide Scan;
    ScanNext(p, POINT);
  }

  /** Fifty times `+.` and one more `.`: the last operand ends at 512, and the epilogue is written past the buffer. */
  lemma FiftyOnePointsOverrun()
    ensures CompileFate(Tokens(Points(50) + [POINT])) == Overrun
  {
    hide OpenLoops, CompileFate, Scan, Tokens, Points, PointTokens, Offset;
    var p, ts := Points(50), PointTokens(50) + [Output];
    PointsScanned(50);
    PointOffsets(50);
    PointsEnd(p, PointTokens(50));
    PrefixOffset(PointTokens(50), ts, 100);
    assert JumpsOver(ts, 100) && LoopsFine(ts, 101);
    OverrunExactly(ts);
  }
}
