/** Calls nest: in a run of properly nested activations every return goes to its own call. */
module Calls {
  import opened Words
  import opened Isa
  import Instructions

  /** An open activation: the state at its call, and what its own instructions have added to SP since. */
  datatype Frame = Frame(call: Arch, moved: int)

  predicate IsCall(s: Arch) {
    OpcodeAt(s) == Instructions.CALL || OpcodeAt(s) == Instructions.CALLR
  }

  predicate IsReturn(s: Arch) {
    OpcodeAt(s) == Instructions.RET
  }

  /** A call opens an activation, a return closes the newest, any other instruction moves SP on its behalf. */
  function Advance(fs: seq<Frame>, s: Arch): seq<Frame> {
    if IsCall(s) then fs + [Frame(s, 0)]
    else if fs == [] then []
    else
      var top := |fs| - 1;
      if IsReturn(s) then fs[..top] else fs[top := fs[top].(moved := fs[top].moved + Step(s).sp - s.sp)]
  }

  /** The open activations after n steps. */
  function Frames(s: Arch, n: nat): seq<Frame> {
    if n == 0 then [] else Advance(Frames(s, n - 1), Run(s, n - 1))
  }

  /** The instruction at s writes to no open return word, and a return comes when the activation's own moves balance. */
  predicate Behaves(fs: seq<Frame>, s: Arch) {
    && (forall i :: 0 <= i < |fs| ==> SameWord(Step(s).ram, s.ram, fs[i].call.sp))
    && (IsReturn(s) && fs != [] ==> Wrap(fs[|fs| - 1].moved) == 0)
  }

  ghost predicate ProperlyNested(s: Arch, n: nat) {
    forall k :: 0 <= k < n ==> Behaves(Frames(s, k), Run(s, k))
  }

  /** SP inside an activation whose callees have all returned. */
  function OwnSp(f: Frame): Word {
    Wrap(f.call.sp - 2 + f.moved)
  }

  /** Every open activation's call has left the address of its operand on the stack, where its return finds it. */
  predicate Intact(fs: seq<Frame>, ram: Ram) {
    forall i :: 0 <= i < |fs| ==> WordIs(ram, fs[i].call.sp, Wrap(fs[i].call.ip + 1))
  }

  /** The return words are intact, and SP is where the activations have moved it. */
  predicate Stacked(fs: seq<Frame>, s: Arch) {
    && Intact(fs, s.ram)
    && (forall i :: 0 <= i < |fs| - 1 ==> fs[i + 1].call.sp == OwnSp(fs[i]))
    && (fs != [] ==> s.sp == OwnSp(fs[|fs| - 1]))
  }

  // ---------- one step ----------

  lemma CallPushes(s: Arch)
    requires IsCall(s)
    ensures Step(s).sp == OwnSp(Frame(s, 0)) && WordIs(Step(s).ram, s.sp, Wrap(s.ip + 1))
  {
    hide ExecuteStack, ExecuteAlu, ExecuteMove, ExecuteStorage, ExecuteJump, FlagsOf, Wrap;
  }

  lemma ReturnPops(s: Arch, f: Frame)
    requires IsReturn(s) && s.sp == OwnSp(f) && Wrap(f.moved) == 0 && WordIs(s.ram, f.call.sp, Wrap(f.call.ip + 1))
    ensures Step(s).ip == Wrap(f.call.ip + 3) && Step(s).sp == f.call.sp && Step(s).ram == s.ram
  {
    hide ExecuteStack, ExecuteAlu, ExecuteMove, ExecuteStorage, ExecuteJump, FlagsOf, Wrap, Read16;
    WordIsRead(s.ram, f.call.sp, Wrap(f.call.ip + 1));
    WrapInner(f.call.sp - 2, f.moved);
    Around(f.call.sp, f.moved);
    WrapInner(2, f.call.ip + 1);
    assert Step(s) == ExecuteControl(Instructions.RET, s.(ip := Wrap(s.ip + 1)));
  }

  lemma Around(sp: Word, moved: int)
    requires Wrap(moved) == 0
    ensures Wrap(Wrap(sp - 2 + moved) + 2) == sp
  {
    WrapInner(2, sp - 2 + moved);
    WrapInner(sp, moved);
  }

  lemma Moves(f: Frame, sp: Word, sp': Word)
    requires sp == OwnSp(f)
    ensures sp' == OwnSp(f.(moved := f.moved + sp' - sp))
  {
    WrapInner(sp' - sp, f.call.sp - 2 + f.moved);
    assert Wrap(sp' - sp + sp) == sp';
  }

  lemma StillIntact(fs: seq<Frame>, ram: Ram, after: Ram)
    requires Intact(fs, ram) && forall i :: 0 <= i < |fs| ==> SameWord(after, ram, fs[i].call.sp)
    ensures Intact(fs, after)
  {
  }

  lemma FrameMoved(fs: seq<Frame>, s: Arch, after: Arch, moved: int)
    requires Stacked(fs, s) && Intact(fs, after.ram) && fs != [] && after.sp == OwnSp(fs[|fs| - 1].(moved := moved))
    ensures Stacked(fs[|fs| - 1 := fs[|fs| - 1].(moved := moved)], after)
  {
    hide OwnSp, WordIs;
  }

  /** One step keeps the activations stacked; a return resumes behind its call. */
  lemma StepStacked(fs: seq<Frame>, s: Arch)
    requires Stacked(fs, s) && Behaves(fs, s)
    ensures Stacked(Advance(fs, s), Step(s))
    ensures IsReturn(s) && fs != [] ==>
              Step(s).ip == Wrap(fs[|fs| - 1].call.ip + 3) && Step(s).sp == fs[|fs| - 1].call.sp
  {
    hide Step, OwnSp, WordIs, SameWord, Wrap;
    StillIntact(fs, s.ram, Step(s).ram);
    if IsCall(s) {
      CallPushes(s);
    } else if fs != [] {
      var top := |fs| - 1;
      if IsReturn(s) {
        ReturnPops(s, fs[top]);
      } else {
        Moves(fs[top], s.sp, Step(s).sp);
        FrameMoved(fs, s, Step(s), fs[top].moved + Step(s).sp - s.sp);
      }
    }
  }

  // ---------- whole runs ----------

  lemma NextStep(s: Arch, n: nat)
    ensures Run(s, n + 1) == Step(Run(s, n)) && Frames(s, n + 1) == Advance(Frames(s, n), Run(s, n))
  {
    hide Step, Advance;
    RunAdd(s, n, 1);
    assert Run(Run(s, n), 1) == Run(Step(Run(s, n)), 0);
  }

  lemma {:induction false} RunStacked(s: Arch, n: nat)
    requires ProperlyNested(s, n)
    ensures Stacked(Frames(s, n), Run(s, n))
  {
    hide Step, Stacked, Behaves, Advance;
    if n == 0 {
      NothingStacked(s);
    } else {
      RunStacked(s, n - 1);
      StepStacked(Frames(s, n - 1), Run(s, n - 1));
      NextStep(s, n - 1);
    }
  }

  lemma NothingStacked(s: Arch)
    ensures Stacked([], s)
  {
  }

  /**
   * In a properly nested run every return resumes just behind the operand of its matching CALL or CALLR with the
   * caller's SP, even or odd, and the return words of all activations still open are intact.
   */
  lemma CallsNest(s: Arch, n: nat, k: nat)
    requires ProperlyNested(s, n) && k < n && IsReturn(Run(s, k)) && Frames(s, k) != []
    ensures var open := Frames(s, k);
            var f := open[|open| - 1];
            && Run(s, k + 1).ip == Wrap(f.call.ip + 3) && Run(s, k + 1).sp == f.call.sp
            && Frames(s, k + 1) == open[..|open| - 1] && Intact(open[..|open| - 1], Run(s, k + 1).ram)
  {
    hide Step, OwnSp, Intact, Run, Frames, Behaves;
    var open, u := Frames(s, k), Run(s, k);
    RunStacked(s, k);
    StepStacked(open, u);
    NextStep(s, k);
    assert Advance(open, u) == open[..|open| - 1];
  }

  /** The oldest open activation is that of the first call, until it returns. */
  lemma {:induction false} FirstCallOpen(s: Arch, k: nat)
    requires IsCall(s) && 0 < k && forall j :: 0 < j <= k ==> Frames(s, j) != []
    ensures Frames(s, k)[0].call == s
  {
    hide Step;
    NextStep(s, k - 1);
    if k > 1 {
      FirstCallOpen(s, k - 1);
    } else {
      assert Frames(s, 0) == [] && Run(s, 0) == s;
    }
  }

  /** A call with everything nested in it, however deep: it comes back behind its operand with its SP. */
  lemma CallsReturn(s: Arch, n: nat)
    requires IsCall(s) && ProperlyNested(s, n) && n > 0
    requires Frames(s, n) == [] && forall j :: 0 < j < n ==> Frames(s, j) != []
    ensures Run(s, n).ip == Wrap(s.ip + 3) && Run(s, n).sp == s.sp
  {
    hide Step, Run, ProperlyNested, Intact;
    NextStep(s, 0);
    assert Frames(s, 0) == [] && Run(s, 0) == s by { StartOf(s); }
    assert n > 1;
    NextStep(s, n - 1);
    FirstCallOpen(s, n - 1);
    CallsNest(s, n, n - 1);
  }

  lemma StartOf(s: Arch)
    ensures Frames(s, 0) == [] && Run(s, 0) == s
  {
  }
}
