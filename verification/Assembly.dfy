/** Assembly programs after parsing: their bytes, labels and operand sites. */
module Assembly {
  import opened Words
  import opened ObjectFiles
  import opened Linking
  import Instructions

  datatype Bytecode =
    | Inst(op: Byte)
    | InstHex(op: Byte, num: Word)
    | InstHex2(op: Byte, num: Word)
    | InstLabel(op: Byte, name: string)
    | InstRelLabel(op: Byte, name: string)
    | Hex(num: Word)
    | Hex2(num: Word)
    | Text(chars: seq<Byte>)
    | SetLabel(name: string)
    | Global(name: string)
    | Extern(name: string)
    | Align
    | Space(num: Word)

  type Program = seq<Bytecode>

  predicate Named(bc: Bytecode) {
    bc.InstLabel? || bc.InstRelLabel? || bc.SetLabel? || bc.Global? || bc.Extern?
  }

  predicate Mentions(prog: Program, name: string) {
    exists j :: 0 <= j < |prog| && Named(prog[j]) && prog[j].name == name
  }

  predicate HasSite(bc: Bytecode) {
    bc.InstLabel? || bc.InstRelLabel?
  }

  /** A NOP brings the opcode to an odd position, so that its word operand is even. */
  function Pad(n: nat): seq<Byte> {
    if n % 2 == 0 then [Instructions.NOP] else []
  }

  /** What a bytecode adds to n bytes of code; label operands start as zeros. */
  function BytesOf(bc: Bytecode, n: nat): seq<Byte> {
    match bc
    case Inst(op) => [op]
    case InstHex(op, num) => [op, LowByte(num)]
    case InstHex2(op, num) => Pad(n) + [op, LowByte(num), HighByte(num)]
    case InstLabel(op, _) => Pad(n) + [op, 0, 0]
    case InstRelLabel(op, _) => Pad(n) + [op, 0, 0]
    case Hex(num) => [LowByte(num)]
    case Hex2(num) => [LowByte(num), HighByte(num)]
    case Text(chars) => chars
    case Align => if n % 2 == 1 then [0] else []
    case Space(num) => seq(num, _ => 0)
    case _ => []
  }

  function Raw(prog: Program): seq<Byte> {
    if prog == [] then [] else
      var before := Raw(prog[..|prog| - 1]);
      before + BytesOf(prog[|prog| - 1], |before|)
  }

  /** Where a label stands; UNSET if it is never set. */
  function LabelPos(prog: Program, name: string): nat {
    if prog == [] then UNSET else
      var before, last := prog[..|prog| - 1], prog[|prog| - 1];
      if LabelPos(before, name) == UNSET && last == SetLabel(name) then |Raw(before)| else LabelPos(before, name)
  }

  /** The last two bytes of a label-operand instruction. */
  function SiteAt(prog: Program, i: nat): (s: int)
    requires i < |prog| && HasSite(prog[i])
  {
    |Raw(prog[..i + 1])| - 2
  }

  function AbsoluteSites(prog: Program, name: string): seq<Word> {
    if prog == [] then [] else
      var before, last := prog[..|prog| - 1], prog[|prog| - 1];
      AbsoluteSites(before, name)
      + (if last.InstLabel? && last.name == name then [Wrap(|Raw(prog)| - 2)] else [])
  }

  function RelativeSites(prog: Program, name: string): seq<Word> {
    if prog == [] then [] else
      var before, last := prog[..|prog| - 1], prog[|prog| - 1];
      RelativeSites(before, name)
      + (if last.InstRelLabel? && last.name == name then [Wrap(|Raw(prog)| - 2)] else [])
  }

  function Globals(prog: Program): seq<string> {
    if prog == [] then [] else
      var before, last := prog[..|prog| - 1], prog[|prog| - 1];
      Globals(before) + (if last.Global? then [last.name] else [])
  }

  function Externs(prog: Program): seq<string> {
    if prog == [] then [] else
      var before, last := prog[..|prog| - 1], prog[|prog| - 1];
      Externs(before) + (if last.Extern? then [last.name] else [])
  }

  /** The names of a program, in the order they are first met. */
  function Names(prog: Program): seq<string> {
    if prog == [] then [] else
      var before, last := prog[..|prog| - 1], prog[|prog| - 1];
      Names(before) + (if Named(last) && last.name !in Names(before) then [last.name] else [])
  }

  /** Everything a program says about a name. */
  function EntryFor(prog: Program, name: string): Symbol {
    Symbol(name, Wrap(LabelPos(prog, name)), AbsoluteSites(prog, name), RelativeSites(prog, name))
  }

  /** A name may not be set or declared once it is set. */
  predicate Orderly(prog: Program) {
    forall i :: 0 <= i < |prog| && (prog[i].SetLabel? || prog[i].Global? || prog[i].Extern?) ==>
      LabelPos(prog[..i], prog[i].name) == UNSET
  }

  /** Externs are neither set nor referred to relatively. */
  predicate ExternsClean(prog: Program) {
    forall name :: name in Externs(prog) ==> LabelPos(prog, name) == UNSET && RelativeSites(prog, name) == []
  }

  /** Every other name is set. */
  predicate AllSet(prog: Program) {
    forall i :: 0 <= i < |prog| && Named(prog[i]) && prog[i].name !in Externs(prog) ==> LabelPos(prog, prog[i].name) != UNSET
  }

  /** The word the assembler leaves at a label operand. */
  function Operand(prog: Program, i: nat): Word
    requires i < |prog| && HasSite(prog[i])
  {
    if prog[i].InstRelLabel? then Wrap(LabelPos(prog, prog[i].name) - SiteAt(prog, i))
    else if prog[i].name in Externs(prog) then UNSET
    else Wrap(LabelPos(prog, prog[i].name))
  }

  // ---------- layout ----------

  lemma RawSnoc(prog: Program, bc: Bytecode)
    ensures Raw(prog + [bc]) == Raw(prog) + BytesOf(bc, |Raw(prog)|)
  {
    assert (prog + [bc])[..|prog|] == prog;
  }

  lemma {:induction false} RawPrefix(prog: Program, n: nat)
    requires n <= |prog|
    ensures |Raw(prog[..n])| <= |Raw(prog)| && Raw(prog)[..|Raw(prog[..n])|] == Raw(prog[..n])
    decreases |prog|
  {
    hide BytesOf;
    var last := |prog| - 1;
    if n <= last {
      assert prog[..last][..n] == prog[..n];
      RawPrefix(prog[..last], n);
    } else {
      assert prog[..n] == prog;
    }
  }

  lemma OperandBytes(bc: Bytecode, n: nat)
    requires HasSite(bc)
    ensures var bytes := BytesOf(bc, n);
            |bytes| >= 3 && (n + |bytes|) % 2 == 0 && bytes[|bytes| - 3] == bc.op
  {
  }

  /** Operand sites are even, follow their opcode, and lie in the code. */
  lemma SiteShape(prog: Program, i: nat)
    requires i < |prog| && HasSite(prog[i])
    ensures SiteAt(prog, i) % 2 == 0 && |Raw(prog[..i])| < SiteAt(prog, i) && SiteAt(prog, i) + 2 <= |Raw(prog)|
    ensures Raw(prog)[SiteAt(prog, i) - 1] == prog[i].op
  {
    hide Raw, BytesOf;
    assert prog[..i + 1] == prog[..i] + [prog[i]];
    RawSnoc(prog[..i], prog[i]);
    OperandBytes(prog[i], |Raw(prog[..i])|);
    RawPrefix(prog, i + 1);
    assert Raw(prog)[SiteAt(prog, i) - 1] == Raw(prog[..i + 1])[SiteAt(prog, i) - 1];
  }

  lemma SitesApart(prog: Program, i: nat, j: nat)
    requires i < j < |prog| && HasSite(prog[i]) && HasSite(prog[j])
    ensures SiteAt(prog, i) + 2 <= SiteAt(prog, j)
  {
    hide Raw;
    SiteShape(prog, j);
    assert prog[..j][..i + 1] == prog[..i + 1];
    RawPrefix(prog[..j], i + 1);
  }

  // ---------- one more bytecode ----------

  lemma EntrySnoc(prog: Program, bc: Bytecode, name: string)
    ensures var e, e' := EntryFor(prog, name), EntryFor(prog + [bc], name);
            && LabelPos(prog + [bc], name) ==
                 (if LabelPos(prog, name) == UNSET && bc == SetLabel(name) then |Raw(prog)| else LabelPos(prog, name))
            && e'.relocs == (if bc.InstLabel? && bc.name == name then e.relocs + [Wrap(|Raw(prog + [bc])| - 2)] else e.relocs)
            && e'.relrelocs ==
                 (if bc.InstRelLabel? && bc.name == name then e.relrelocs + [Wrap(|Raw(prog + [bc])| - 2)] else e.relrelocs)
    ensures Globals(prog + [bc]) == if bc.Global? then Globals(prog) + [bc.name] else Globals(prog)
    ensures Externs(prog + [bc]) == if bc.Extern? then Externs(prog) + [bc.name] else Externs(prog)
  {
    hide Raw;
    assert (prog + [bc])[..|prog|] == prog;
  }

  lemma NamesSnoc(prog: Program, bc: Bytecode)
    ensures Names(prog + [bc]) == if Named(bc) && bc.name !in Names(prog) then Names(prog) + [bc.name] else Names(prog)
  {
    assert (prog + [bc])[..|prog|] == prog;
  }

  lemma OrderlySnoc(prog: Program, bc: Bytecode)
    ensures Orderly(prog + [bc]) <==>
            Orderly(prog) && (bc.SetLabel? || bc.Global? || bc.Extern? ==> LabelPos(prog, bc.name) == UNSET)
  {
    hide LabelPos;
    var prog' := prog + [bc];
    assert forall i :: 0 <= i < |prog| ==> prog'[i] == prog[i] && prog'[..i] == prog[..i];
    assert prog'[..|prog|] == prog && prog'[|prog|] == bc;
    if Orderly(prog') {
      forall i | 0 <= i < |prog| && (prog[i].SetLabel? || prog[i].Global? || prog[i].Extern?)
        ensures LabelPos(prog[..i], prog[i].name) == UNSET
      {
        assert prog'[i] == prog[i];
      }
    }
  }

  lemma {:induction false} OrderlyPrefix(prog: Program, n: nat)
    requires n <= |prog| && Orderly(prog)
    ensures Orderly(prog[..n])
  {
    hide LabelPos;
    assert forall i :: 0 <= i < n ==> prog[..n][i] == prog[i] && prog[..n][..i] == prog[..i];
  }

  lemma {:induction false} Unmentioned(prog: Program, name: string)
    requires forall i :: 0 <= i < |prog| && Named(prog[i]) ==> prog[i].name != name
    ensures EntryFor(prog, name) == Symbol(name, UNSET, [], [])
  {
    hide Raw;
    if prog != [] {
      var before, last := prog[..|prog| - 1], prog[|prog| - 1];
      assert forall i :: 0 <= i < |before| ==> before[i] == prog[i];
      Unmentioned(before, name);
      assert prog == before + [last];
      EntrySnoc(before, last, name);
    }
  }

  /** Labels stand inside the code or at its end. */
  lemma {:induction false} LabelBound(prog: Program, name: string)
    ensures LabelPos(prog, name) == UNSET || LabelPos(prog, name) <= |Raw(prog)|
  {
    hide BytesOf;
    if prog != [] {
      LabelBound(prog[..|prog| - 1], name);
      RawPrefix(prog, |prog| - 1);
    }
  }

  /** A set label is one of the program's bytecodes. */
  lemma {:induction false} LabelIsSet(prog: Program, name: string) returns (i: nat)
    requires LabelPos(prog, name) != UNSET
    ensures i < |prog| && prog[i] == SetLabel(name) && LabelPos(prog, name) == |Raw(prog[..i])|
  {
    hide Raw;
    var last := |prog| - 1;
    if LabelPos(prog[..last], name) != UNSET {
      i := LabelIsSet(prog[..last], name);
      assert prog[..last][..i] == prog[..i];
    } else {
      i := last;
    }
  }

  /** In an orderly program the label of a SetLabel stands where that bytecode is. */
  lemma {:induction false} LabelStands(prog: Program, i: nat)
    requires Orderly(prog) && i < |prog| && prog[i].SetLabel? && |Raw(prog)| < UNSET
    ensures LabelPos(prog, prog[i].name) == |Raw(prog[..i])|
    decreases |prog|
  {
    hide Raw;
    var last := |prog| - 1;
    RawPrefix(prog, i);
    if i < last {
      OrderlyPrefix(prog, last);
      assert prog[..last][..i] == prog[..i];
      RawPrefix(prog, last);
      LabelStands(prog[..last], i);
    }
  }

  predicate IsSite(prog: Program, relative: bool, name: string, s: Word, i: nat) {
    && i < |prog| && (if relative then prog[i].InstRelLabel? else prog[i].InstLabel?)
    && prog[i].name == name && s == Wrap(SiteAt(prog, i))
  }

  /** The site lists are exactly the sites of the instructions naming the label. */
  lemma {:induction false} SitesExactly(prog: Program, relative: bool, name: string, s: Word)
    ensures s in (if relative then RelativeSites(prog, name) else AbsoluteSites(prog, name)) <==>
            exists i :: IsSite(prog, relative, name, s, i)
  {
    hide Raw, Wrap;
    if prog != [] {
      var n := |prog| - 1;
      var before := prog[..n];
      SitesExactly(before, relative, name, s);
      assert prog[..n + 1] == prog;
      forall i: nat | i < n ensures IsSite(before, relative, name, s, i) <==> IsSite(prog, relative, name, s, i) {
        assert before[..i + 1] == prog[..i + 1];
      }
      if IsSite(prog, relative, name, s, n) { }
    }
  }

  lemma MentionsSnoc(prog: Program, bc: Bytecode, name: string)
    ensures Mentions(prog + [bc], name) <==> Mentions(prog, name) || (Named(bc) && bc.name == name)
  {
    var prog' := prog + [bc];
    assert prog'[|prog|] == bc;
    if Mentions(prog, name) {
      var j :| 0 <= j < |prog| && Named(prog[j]) && prog[j].name == name;
      assert prog'[j] == prog[j];
    }
  }

  lemma {:induction false} ExternDeclared(prog: Program, name: string)
    requires name in Externs(prog) || name in Globals(prog)
    ensures Mentions(prog, name)
  {
    var n := |prog| - 1;
    if name in Externs(prog[..n]) || name in Globals(prog[..n]) {
      ExternDeclared(prog[..n], name);
      var i :| 0 <= i < n && Named(prog[..n][i]) && prog[..n][i].name == name;
      assert prog[i] == prog[..n][i];
    } else {
      assert prog[n].name == name;
    }
  }

  // ---------- patching label operands ----------

  /** The relocation puts the right word at some label operand. */
  predicate RightPatch(prog: Program, r: Reloc) {
    exists i :: 0 <= i < |prog| && HasSite(prog[i]) && r.where == SiteAt(prog, i) && r.what == Operand(prog, i)
  }

  predicate AllRight(prog: Program, rs: seq<Reloc>) {
    forall i :: 0 <= i < |rs| ==> RightPatch(prog, rs[i])
  }

  lemma RightIsCoherent(prog: Program, rs: seq<Reloc>)
    requires AllRight(prog, rs)
    ensures InRange(rs, |Raw(prog)|) && Coherent(rs)
  {
    hide Raw, Operand, SiteAt;
    forall i | 0 <= i < |rs| ensures rs[i].where + 2 <= |Raw(prog)| {
      assert RightPatch(prog, rs[i]);
      var x :| 0 <= x < |prog| && HasSite(prog[x]) && rs[i].where == SiteAt(prog, x) && rs[i].what == Operand(prog, x);
      SiteShape(prog, x);
    }
    forall i, j | 0 <= i < |rs| && 0 <= j < |rs| ensures Compatible(rs[i], rs[j]) {
      assert RightPatch(prog, rs[i]) && RightPatch(prog, rs[j]);
      var x :| 0 <= x < |prog| && HasSite(prog[x]) && rs[i].where == SiteAt(prog, x) && rs[i].what == Operand(prog, x);
      var y :| 0 <= y < |prog| && HasSite(prog[y]) && rs[j].where == SiteAt(prog, y) && rs[j].what == Operand(prog, y);
      if x < y { SitesApart(prog, x, y); } else if y < x { SitesApart(prog, y, x); }
    }
  }

  predicate InSite(prog: Program, a: nat) {
    exists i :: 0 <= i < |prog| && HasSite(prog[i]) && SiteAt(prog, i) <= a < SiteAt(prog, i) + 2
  }

  /** Every label operand holds its word, and every other byte is as emitted. */
  predicate OperandsIn(prog: Program, code: seq<Byte>) {
    && |code| == |Raw(prog)|
    && (forall i :: 0 <= i < |prog| && HasSite(prog[i]) ==>
          0 <= SiteAt(prog, i) && SiteAt(prog, i) + 2 <= |code| && WordAt(code, SiteAt(prog, i)) == Operand(prog, i))
    && (forall a :: 0 <= a < |code| && !InSite(prog, a) ==> code[a] == Raw(prog)[a])
  }

  /** Right patches that reach every label operand, in whatever order and however often, leave the operands in. */
  lemma PatchesReach(prog: Program, rs: seq<Reloc>)
    requires AllRight(prog, rs) && InRange(rs, |Raw(prog)|)
    requires forall i :: 0 <= i < |prog| && HasSite(prog[i]) ==>
               exists r :: r in rs && r.where == SiteAt(prog, i) && r.what == Operand(prog, i)
    ensures OperandsIn(prog, PatchAll(Raw(prog), rs))
  {
    hide Raw, Operand, SiteAt, WordAt, PatchAll;
    var code := PatchAll(Raw(prog), rs);
    RightIsCoherent(prog, rs);
    PatchedWords(Raw(prog), rs);
    forall i | 0 <= i < |prog| && HasSite(prog[i])
      ensures 0 <= SiteAt(prog, i) && SiteAt(prog, i) + 2 <= |code| && WordAt(code, SiteAt(prog, i)) == Operand(prog, i)
    {
      SiteShape(prog, i);
      var r :| r in rs && r.where == SiteAt(prog, i) && r.what == Operand(prog, i);
      var k :| 0 <= k < |rs| && rs[k] == r;
    }
    forall a | 0 <= a < |code| && !InSite(prog, a) ensures code[a] == Raw(prog)[a] {
      forall k | 0 <= k < |rs| ensures !Covers(rs[k], a) {
        assert RightPatch(prog, rs[k]);
      }
      UnpatchedByte(Raw(prog), rs, a);
    }
  }

  /** A site of an absolute, non-extern operand with the label's position. */
  predicate IsLocal(prog: Program, r: Reloc) {
    exists i :: 0 <= i < |prog| && prog[i].InstLabel? && prog[i].name !in Externs(prog)
                && r.where == SiteAt(prog, i) && r.what == Operand(prog, i)
  }

  predicate SameEntry(s: Symbol, e: Symbol) {
    s.image == e.image && s.pos == e.pos && s.relocs == e.relocs
  }

  /** Relocations and declared symbols are those of the program. */
  predicate Declares(prog: Program, obj: Obj) {
    && IndicesGood(obj)
    && (forall r :: r in obj.relocs ==> IsLocal(prog, r))
    && (forall i :: 0 <= i < |prog| && prog[i].InstLabel? && prog[i].name !in Externs(prog) ==>
          exists r :: r in obj.relocs && r.where == SiteAt(prog, i) && r.what == Operand(prog, i))
    && |obj.externs| == |Externs(prog)| && |obj.globals| == |Globals(prog)|
    && (forall e :: 0 <= e < |obj.externs| ==> SameEntry(ExternOf(obj, e), EntryFor(prog, Externs(prog)[e])))
    && (forall g :: 0 <= g < |obj.globals| ==> SameEntry(GlobalOf(obj, g), EntryFor(prog, Globals(prog)[g])))
  }

  /** What the object of a program must be, with or without debug symbols. */
  predicate Assembles(prog: Program, obj: Obj) {
    OperandsIn(prog, obj.code) && Declares(prog, obj)
  }

  /** Relative operands hold their words; absolute ones are left open, being filled in by the linker. */
  predicate DistancesIn(prog: Program, code: seq<Byte>) {
    && |code| == |Raw(prog)|
    && (forall i :: 0 <= i < |prog| && prog[i].InstRelLabel? ==>
          0 <= SiteAt(prog, i) && SiteAt(prog, i) + 2 <= |code| && WordAt(code, SiteAt(prog, i)) == Operand(prog, i))
    && (forall a :: 0 <= a < |code| && !InSite(prog, a) ==> code[a] == Raw(prog)[a])
  }

  /** The object stands for the program as far as linking is concerned. */
  predicate Stands(prog: Program, obj: Obj) {
    DistancesIn(prog, obj.code) && Declares(prog, obj)
  }

  lemma AssembledStands(prog: Program, obj: Obj)
    requires Assembles(prog, obj)
    ensures Stands(prog, obj)
  {
    hide Raw, SiteAt, Operand, Declares, InSite;
  }

  /** The programs that assemble, when the tables are large enough. */
  predicate Assemblable(prog: Program) {
    Orderly(prog) && ExternsClean(prog) && AllSet(prog)
  }
}
