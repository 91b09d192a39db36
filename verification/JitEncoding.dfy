/** What the code buffer holds while the program is still being read. */
module JitEncoding {
  import opened Words
  import opened Instructions
  import opened Brackets
  import opened Brainfuck
  import opened Coalescing
  import opened JitCode

  const LOOP_BYTES: seq<Byte> := [PEEKB, rB_AL, CMPA, JMPRZ]
  const END_LOOP_BYTES: seq<Byte> := [PEEKB, rB_AL, CMPA, JMPRNZ]

  /** The operand of a loop whose end has not been seen is still blank. */
  predicate StillOpen(ts: seq<Token>, k: nat)
    requires k < |ts|
  {
    ts[k].Loop? && CloseOf(Shapes(ts), k) == |ts|
  }

  predicate FragmentSoFar(l: Layout, ts: seq<Token>, e: seq<Byte>, k: nat)
    requires k < |ts|
  {
    var o := Offset(ts, k);
    && o + Size(ts[k]) <= |e|
    && (if StillOpen(ts, k) then e[o..o + 4] == LOOP_BYTES else e[o..o + Size(ts[k])] == Bytes(l, ts, k))
  }

  /** The emitted bytes `e` are the translation of `ts` up to the operands of open loops. */
  predicate Encodes(l: Layout, ts: seq<Token>, e: seq<Byte>) {
    && |e| == Offset(ts, |ts|)
    && e[..PROLOGUE_SIZE] == Prologue(l)
    && GoodTokens(ts)
    && (forall k :: 0 <= k < |ts| && ts[k].EndLoop? ==> Matched(Shapes(ts), k))
    && (forall k :: 0 <= k < |ts| ==> FragmentSoFar(l, ts, e, k))
  }

  // ---------- one more token ----------

  lemma ShapesExtend(ts: seq<Token>, t: Token)
    ensures Shapes(ts + [t]) == Shapes(ts) + [TokenShape(t)]
    ensures Shapes(ts + [t])[..|ts|] == Shapes(ts)[..|ts|]
  {
  }

  lemma {:induction false} OffsetExtends(ts: seq<Token>, t: Token, k: nat)
    requires k <= |ts|
    ensures Offset(ts + [t], k) == Offset(ts, k)
  {
    if k > 0 { OffsetExtends(ts, t, k - 1); }
  }

  lemma StackExtends(ts: seq<Token>, t: Token, n: nat)
    requires n <= |ts|
    ensures OpenStack(Shapes(ts + [t]), n) == OpenStack(Shapes(ts), n)
  {
    ShapesExtend(ts, t);
    assert Shapes(ts + [t])[..n] == Shapes(ts)[..n];
    StackOfPrefix(Shapes(ts + [t]), Shapes(ts), n);
  }

  lemma MatchExtends(ts: seq<Token>, t: Token, k: nat)
    requires k < |ts|
    ensures Matched(Shapes(ts + [t]), k) <==> Matched(Shapes(ts), k)
    ensures Matched(Shapes(ts), k) ==> OpenOf(Shapes(ts + [t]), k) == OpenOf(Shapes(ts), k)
  {
    StackExtends(ts, t, k);
    ShapesExtend(ts, t);
  }

  lemma {:induction false} CloseFromExtends(ts: seq<Token>, t: Token, i: nat, j: nat)
    requires j <= |ts|
    ensures var before := CloseFrom(Shapes(ts), i, j);
            CloseFrom(Shapes(ts + [t]), i, j)
            == if before < |ts| then before else CloseFrom(Shapes(ts + [t]), i, |ts|)
    decreases |ts| - j
  {
    if j < |ts| {
      MatchExtends(ts, t, j);
      CloseFromExtends(ts, t, i, j + 1);
    }
  }

  /** A loop stays open, stays closed, or is closed by the new token. */
  lemma CloseExtends(ts: seq<Token>, t: Token, k: nat)
    requires k < |ts|
    ensures CloseOf(Shapes(ts), k) < |ts| ==> CloseOf(Shapes(ts + [t]), k) == CloseOf(Shapes(ts), k)
    ensures CloseOf(Shapes(ts), k) == |ts| ==>
              CloseOf(Shapes(ts + [t]), k)
              == if Matched(Shapes(ts + [t]), |ts|) && OpenOf(Shapes(ts + [t]), |ts|) == k then |ts| else |ts| + 1
  {
    CloseFromExtends(ts, t, k, k + 1);
  }

  /** The bytes of an earlier token change only when its loop is closed. */
  lemma BytesExtend(l: Layout, ts: seq<Token>, t: Token, k: nat)
    requires k < |ts| && !StillOpen(ts, k)
    requires ts[k].EndLoop? ==> Matched(Shapes(ts), k)
    ensures !StillOpen(ts + [t], k) && Bytes(l, ts + [t], k) == Bytes(l, ts, k)
  {
    hide CloseOf;
    OffsetExtends(ts, t, k);
    if ts[k].Loop? {
      CloseExtends(ts, t, k);
      OffsetExtends(ts, t, CloseOf(Shapes(ts), k));
    } else if ts[k].EndLoop? {
      MatchExtends(ts, t, k);
      OffsetExtends(ts, t, OpenOf(Shapes(ts), k));
    }
  }

  lemma PrefixSlice(e: seq<Byte>, e': seq<Byte>, n: nat, lo: nat, hi: nat)
    requires n <= |e| && n <= |e'| && e'[..n] == e[..n] && lo <= hi <= n
    ensures e'[lo..hi] == e[lo..hi]
  {
    assert e'[lo..hi] == e'[..n][lo..hi];
    assert e[lo..hi] == e[..n][lo..hi];
  }

  /** An earlier fragment survives the new token, provided that does not close its loop. */
  lemma FragmentSurvives(l: Layout, ts: seq<Token>, t: Token, e: seq<Byte>, e': seq<Byte>, k: nat)
    requires Encodes(l, ts, e) && k < |ts| && Offset(ts, k) + Size(ts[k]) <= |e| <= |e'|
    requires e'[Offset(ts, k)..Offset(ts, k) + Size(ts[k])] == e[Offset(ts, k)..Offset(ts, k) + Size(ts[k])]
    requires StillOpen(ts, k) ==> StillOpen(ts + [t], k)
    ensures FragmentSoFar(l, ts + [t], e', k)
  {
    hide StillOpen, Bytes, Offset, OpenStack;
    OffsetExtends(ts, t, k);
    var o := Offset(ts, k);
    assert FragmentSoFar(l, ts, e, k);
    if StillOpen(ts, k) {
      assert e'[o..o + 4] == e'[o..o + Size(ts[k])][..4] == e[o..o + Size(ts[k])][..4] == e[o..o + 4];
    } else {
      BytesExtend(l, ts, t, k);
    }
  }

  lemma EndMatches(ts: seq<Token>)
    requires OpenStack(Shapes(ts), |ts|) != []
    ensures Matched(Shapes(ts + [EndLoop]), |ts|)
  {
    ShapesExtend(ts, EndLoop);
    StackExtends(ts, EndLoop, |ts|);
  }

  /** Everything but the fragments: sizes, prologue, matched ends. */
  lemma FrameExtends(l: Layout, ts: seq<Token>, t: Token, e: seq<Byte>, e': seq<Byte>)
    requires Encodes(l, ts, e) && |e'| == |e| + Size(t) && e'[..PROLOGUE_SIZE] == e[..PROLOGUE_SIZE]
    requires t.Repeat? ==> IsAction(t.op) && t.count != 0
    requires t.EndLoop? ==> OpenStack(Shapes(ts), |ts|) != []
    requires forall k :: 0 <= k <= |ts| ==> FragmentSoFar(l, ts + [t], e', k)
    ensures Encodes(l, ts + [t], e')
  {
    hide FragmentSoFar, StillOpen, OpenStack, CloseOf, Prologue, Shapes, Bytes;
    var ts' := ts + [t];
    ShapesExtend(ts, t);
    OffsetExtends(ts, t, |ts|);
    assert Offset(ts', |ts'|) == Offset(ts', |ts|) + Size(t);
    forall k | 0 <= k < |ts'| && ts'[k].EndLoop? ensures Matched(Shapes(ts'), k) {
      if k < |ts| { MatchExtends(ts, t, k); } else { EndMatches(ts); }
    }
  }

  /** Appending a token other than a loop end. */
  lemma Appended(l: Layout, ts: seq<Token>, t: Token, e: seq<Byte>, fragment: seq<Byte>)
    requires Encodes(l, ts, e) && !t.EndLoop?
    requires t.Repeat? ==> IsAction(t.op) && t.count != 0
    requires |fragment| == Size(t)
    requires if t.Loop? then fragment[..4] == LOOP_BYTES else fragment == Bytes(l, ts + [t], |ts|)
    ensures Encodes(l, ts + [t], e + fragment)
  {
    hide Encodes, FragmentSoFar, Bytes, OpenStack;
    var ts', e' := ts + [t], e + fragment;
    forall k | 0 <= k <= |ts| ensures FragmentSoFar(l, ts', e', k) {
      if k < |ts| {
        EncodedSize(l, ts, e, k);
        var o := Offset(ts, k);
        PrefixSlice(e, e', |e|, o, o + Size(ts[k]));
        CloseExtends(ts, t, k);
        ShapesExtend(ts, t);
        FragmentSurvives(l, ts, t, e, e', k);
      } else {
        LastFragment(l, ts, t, e, fragment);
      }
    }
    EncodedFrame(l, ts, e);
    PrefixSlice(e, e', |e|, 0, PROLOGUE_SIZE);
    FrameExtends(l, ts, t, e, e');
  }

  lemma EncodedFrame(l: Layout, ts: seq<Token>, e: seq<Byte>)
    requires Encodes(l, ts, e)
    ensures |e| == Offset(ts, |ts|) >= PROLOGUE_SIZE && e[..PROLOGUE_SIZE] == e[0..PROLOGUE_SIZE] == Prologue(l)
  {
  }

  lemma EncodedSize(l: Layout, ts: seq<Token>, e: seq<Byte>, k: nat)
    requires Encodes(l, ts, e) && k < |ts|
    ensures Offset(ts, k) + Size(ts[k]) <= |e| && FragmentSoFar(l, ts, e, k)
  {
  }

  lemma LastFragment(l: Layout, ts: seq<Token>, t: Token, e: seq<Byte>, fragment: seq<Byte>)
    requires Encodes(l, ts, e) && |fragment| == Size(t)
    requires if t.Loop? then fragment[..4] == LOOP_BYTES else fragment == Bytes(l, ts + [t], |ts|)
    ensures FragmentSoFar(l, ts + [t], e + fragment, |ts|)
  {
    hide Bytes, FragmentSoFar;
    OffsetExtends(ts, t, |ts|);
    var e' := e + fragment;
    var o := |e|;
    assert e'[o..o + Size(t)] == fragment;
    if t.Loop? {
      assert e'[o..o + 4] == fragment[..4];
      assert StillOpen(ts + [t], |ts|);
    }
    FragmentMeans(l, ts + [t], e', |ts|);
  }

  lemma FragmentMeans(l: Layout, ts: seq<Token>, e: seq<Byte>, k: nat)
    requires k < |ts|
    ensures FragmentSoFar(l, ts, e, k) <==>
            var o := Offset(ts, k);
            && o + Size(ts[k]) <= |e|
            && (if StillOpen(ts, k) then e[o..o + 4] == LOOP_BYTES else e[o..o + Size(ts[k])] == Bytes(l, ts, k))
  {
  }

  /** Overwriting two bytes. */
  function Patch(e: seq<Byte>, at: nat, w: Word): (r: seq<Byte>)
    requires at + 2 <= |e|
    ensures |r| == |e|
  {
    e[..at] + Word2(w) + e[at + 2..]
  }

  lemma PatchElsewhere(e: seq<Byte>, at: nat, w: Word, lo: nat, hi: nat)
    requires at + 2 <= |e| && lo <= hi <= |e| && (hi <= at || at + 2 <= lo)
    ensures Patch(e, at, w)[lo..hi] == e[lo..hi]
  {
    hide Word2;
  }

  lemma PatchedWord(e: seq<Byte>, at: nat, w: Word)
    requires at + 2 <= |e|
    ensures Patch(e, at, w)[at..at + 2] == Word2(w)
  {
    hide Word2;
  }

  /**
   * Closing the innermost open loop i: its operand is patched with the distance d from behind it to the operand
   * of the loop end, and the loop end gets -d.
   */
  lemma Closed(l: Layout, ts: seq<Token>, e: seq<Byte>, i: nat)
    requires Encodes(l, ts, e) && OpenStack(Shapes(ts), |ts|) != []
    requires i == OpenStack(Shapes(ts), |ts|)[|OpenStack(Shapes(ts), |ts|)| - 1]
    ensures i < |ts| && ts[i].Loop? && Offset(ts, i) + 6 <= |e|
    ensures var d := |e| + 4 - (Offset(ts, i) + 6);
            Encodes(l, ts + [EndLoop], Patch(e, Offset(ts, i) + 4, Wrap(d)) + END_LOOP_BYTES + Word2(Wrap(-d)))
  {
    hide Encodes, FragmentSoFar, Patch;
    var t, ts' := EndLoop, ts + [EndLoop];
    StackPointsAtOpens(Shapes(ts), |ts|);
    EncodedFrame(l, ts, e);
    EncodedSize(l, ts, e, i);
    ShapesExtend(ts, t);
    StackExtends(ts, t, |ts|);
    NeverClosed(Shapes(ts), i);
    var at, d := Offset(ts, i) + 4, |e| + 4 - (Offset(ts, i) + 6);
    var fragment := END_LOOP_BYTES + Word2(Wrap(-d));
    var patched := Patch(e, at, Wrap(d));
    var e' := patched + fragment;
    assert patched + END_LOOP_BYTES + Word2(Wrap(-d)) == e';
    assert OpenOf(Shapes(ts'), |ts|) == i;
    forall k | 0 <= k <= |ts| ensures FragmentSoFar(l, ts', e', k) {
      if k == i {
        LoopClosed(l, ts, e, i);
        PrefixSlice(patched, e', |e|, Offset(ts, i), Offset(ts, i) + 6);
        SameFragment(l, ts', patched, e', i);
      } else if k < |ts| {
        OtherFragment(l, ts, e, i, k, fragment);
      } else {
        EndEmitted(l, ts, e, i);
      }
    }
    PatchElsewhere(e, at, Wrap(d), 0, PROLOGUE_SIZE);
    PrefixSlice(patched, e', |e|, 0, PROLOGUE_SIZE);
    FrameExtends(l, ts, t, e, e');
  }

  lemma SameFragment(l: Layout, ts: seq<Token>, e: seq<Byte>, e': seq<Byte>, k: nat)
    requires k < |ts| && FragmentSoFar(l, ts, e, k) && !StillOpen(ts, k) && |e| <= |e'|
    requires var o := Offset(ts, k); o + Size(ts[k]) <= |e| && e'[o..o + Size(ts[k])] == e[o..o + Size(ts[k])]
    ensures FragmentSoFar(l, ts, e', k)
  {
  }

  lemma LoopClosed(l: Layout, ts: seq<Token>, e: seq<Byte>, i: nat)
    requires Encodes(l, ts, e) && i < |ts| && ts[i].Loop? && StillOpen(ts, i)
    requires Matched(Shapes(ts + [EndLoop]), |ts|) && OpenOf(Shapes(ts + [EndLoop]), |ts|) == i
    ensures Offset(ts, i) + 6 <= |e|
    ensures var d := |e| + 4 - (Offset(ts, i) + 6);
            FragmentSoFar(l, ts + [EndLoop], Patch(e, Offset(ts, i) + 4, Wrap(d)), i)
    ensures !StillOpen(ts + [EndLoop], i) && Offset(ts + [EndLoop], i) == Offset(ts, i)
  {
    hide Encodes, FragmentSoFar, Patch, Word2;
    var ts' := ts + [EndLoop];
    EncodedFrame(l, ts, e);
    EncodedSize(l, ts, e, i);
    FragmentMeans(l, ts, e, i);
    CloseExtends(ts, EndLoop, i);
    OffsetExtends(ts, EndLoop, i);
    OffsetExtends(ts, EndLoop, |ts|);
    var o, d := Offset(ts, i), |e| + 4 - (Offset(ts, i) + 6);
    var patched := Patch(e, o + 4, Wrap(d));
    PatchElsewhere(e, o + 4, Wrap(d), o, o + 4);
    PatchedWord(e, o + 4, Wrap(d));
    assert patched[o..o + 6] == patched[o..o + 4] + patched[o + 4..o + 6];
    FragmentMeans(l, ts', patched, i);
  }

  lemma OtherFragment(l: Layout, ts: seq<Token>, e: seq<Byte>, i: nat, k: nat, fragment: seq<Byte>)
    requires Encodes(l, ts, e) && i < |ts| && k < |ts| && k != i && ts[i].Loop? && |fragment| == 6
    requires Matched(Shapes(ts + [EndLoop]), |ts|) && OpenOf(Shapes(ts + [EndLoop]), |ts|) == i
    requires Offset(ts, i) + 6 <= |e|
    ensures var d := |e| + 4 - (Offset(ts, i) + 6);
            FragmentSoFar(l, ts + [EndLoop], Patch(e, Offset(ts, i) + 4, Wrap(d)) + fragment, k)
  {
    hide Encodes, FragmentSoFar, Patch, Word2;
    var o, d := Offset(ts, i), |e| + 4 - (Offset(ts, i) + 6);
    var patched := Patch(e, o + 4, Wrap(d));
    EncodedSize(l, ts, e, k);
    if k < i { OffsetGrows(ts, k, i); } else { OffsetGrows(ts, i, k); }
    PatchElsewhere(e, o + 4, Wrap(d), Offset(ts, k), Offset(ts, k) + Size(ts[k]));
    PrefixSlice(patched, patched + fragment, |e|, Offset(ts, k), Offset(ts, k) + Size(ts[k]));
    CloseExtends(ts, EndLoop, k);
    FragmentSurvives(l, ts, EndLoop, e, patched + fragment, k);
  }

  lemma EndEmitted(l: Layout, ts: seq<Token>, e: seq<Byte>, i: nat)
    requires Encodes(l, ts, e) && i < |ts| && Offset(ts, i) + 6 <= |e|
    requires Matched(Shapes(ts + [EndLoop]), |ts|) && OpenOf(Shapes(ts + [EndLoop]), |ts|) == i
    ensures var d := |e| + 4 - (Offset(ts, i) + 6);
            FragmentSoFar(l, ts + [EndLoop],
                          Patch(e, Offset(ts, i) + 4, Wrap(d)) + (END_LOOP_BYTES + Word2(Wrap(-d))), |ts|)
  {
    hide Encodes, FragmentSoFar, Patch, Word2;
    var ts' := ts + [EndLoop];
    EncodedFrame(l, ts, e);
    OffsetExtends(ts, EndLoop, i);
    OffsetExtends(ts, EndLoop, |ts|);
    var d := |e| + 4 - (Offset(ts, i) + 6);
    var patched, fragment := Patch(e, Offset(ts, i) + 4, Wrap(d)), END_LOOP_BYTES + Word2(Wrap(-d));
    assert BackwardJump(ts', |ts|) == Wrap(-d);
    assert (patched + fragment)[|e|..|e| + 6] == fragment;
    FragmentMeans(l, ts', patched + fragment, |ts|);
  }

  // ---------- the finished program ----------

  /** When every loop is closed and the epilogue follows, the translation is complete. */
  lemma Finished(l: Layout, ts: seq<Token>, e: seq<Byte>)
    requires Encodes(l, ts, e) && Balanced(Shapes(ts))
    ensures Translates(l, ts, e + EPILOGUE)
  {
    hide Encodes, FragmentSoFar, Bytes, Offset;
    var code := e + EPILOGUE;
    EncodedFrame(l, ts, e);
    PrefixSlice(e, code, |e|, 0, PROLOGUE_SIZE);
    forall k | 0 <= k < |ts| ensures FragmentAt(l, ts, code, k) {
      EncodedSize(l, ts, e, k);
      FragmentMeans(l, ts, e, k);
      if ts[k].Loop? { BalancedCloses(Shapes(ts), k); }
      EncodedGood(l, ts, e);
      BytesSize(l, ts, k);
      PrefixSlice(e, code, |e|, Offset(ts, k), Offset(ts, k) + Size(ts[k]));
    }
  }

  lemma EncodedGood(l: Layout, ts: seq<Token>, e: seq<Byte>)
    requires Encodes(l, ts, e)
    ensures GoodTokens(ts)
  {
  }
}
