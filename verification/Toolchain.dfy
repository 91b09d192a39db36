/** Assembled objects are what the linker expects, and label operands survive linking. */
module Toolchain {
  import opened Words
  import opened ObjectFiles
  import opened Linking
  import opened LinkingCorrect
  import opened Assembly
  import Instructions

  /** Small enough for its addresses to stay below the unset mark, with names free of debug marks. */
  predicate Sizable(prog: Program) {
    && |Raw(prog)| < UNSET
    && (forall g :: 0 <= g < |Globals(prog)| ==> Plain(Globals(prog)[g]))
    && (forall e :: 0 <= e < |Externs(prog)| ==> Plain(Externs(prog)[e]))
  }

  /** No name is declared both global and extern. */
  predicate Distinct(prog: Program) {
    forall g :: 0 <= g < |Globals(prog)| ==> Globals(prog)[g] !in Externs(prog)
  }

  // ---------- positions and sites of an assembled object ----------

  lemma SetPos(prog: Program, name: string)
    requires Assemblable(prog) && Sizable(prog) && Mentions(prog, name)
    ensures name in Externs(prog) ==> LabelPos(prog, name) == UNSET
    ensures name !in Externs(prog) ==> LabelPos(prog, name) <= |Raw(prog)|
    ensures Wrap(LabelPos(prog, name)) == LabelPos(prog, name)
  {
    hide Raw, LabelPos, Externs, Globals;
    LabelBound(prog, name);
  }

  /**
   * The assembler accepts a name declared both global and extern, but the linker needs globals to have a position:
   * it has one exactly when the name is not extern as well.
   */
  lemma GlobalIsSetExactly(prog: Program, obj: Obj, g: nat)
    requires Assemblable(prog) && Sizable(prog) && Stands(prog, obj) && g < |obj.globals|
    ensures GlobalOf(obj, g).pos <= |obj.code| <==> Globals(prog)[g] !in Externs(prog)
    ensures GlobalOf(obj, g).pos == LabelPos(prog, Globals(prog)[g])
  {
    hide Raw, LabelPos, Externs, Globals, AbsoluteSites, RelativeSites, IsLocal, Operand, Assemblable, Sizable;
    ExternDeclared(prog, Globals(prog)[g]);
    SetPos(prog, Globals(prog)[g]);
    CodeSize(prog, obj);
    assert SameEntry(GlobalOf(obj, g), EntryFor(prog, Globals(prog)[g]));
  }

  /** Such a program. */
  const BOTH_WAYS: Program := [Global("x"), Extern("x")]

  /** It is assembled, and its object's global has no position. */
  lemma GlobalAndExtern(obj: Obj)
    requires Stands(BOTH_WAYS, obj)
    ensures Assemblable(BOTH_WAYS) && !Distinct(BOTH_WAYS)
    ensures |obj.globals| == 1 && GlobalOf(obj, 0).image == "x" && GlobalOf(obj, 0).pos == 0xFFFF
  {
    hide Raw, LabelPos, AbsoluteSites, RelativeSites, Externs, Globals, DistancesIn, IsLocal;
    BothWaysLayout();
    assert SameEntry(GlobalOf(obj, 0), EntryFor(BOTH_WAYS, "x"));
  }

  lemma BothWaysLayout()
    ensures Globals(BOTH_WAYS) == ["x"] && Externs(BOTH_WAYS) == ["x"] && RelativeSites(BOTH_WAYS, "x") == []
    ensures LabelPos(BOTH_WAYS, "x") == UNSET && LabelPos(BOTH_WAYS[..0], "x") == UNSET && LabelPos(BOTH_WAYS[..1], "x") == UNSET
  {
    hide Raw, LabelPos, AbsoluteSites, RelativeSites, Externs, Globals;
    var g, e := BOTH_WAYS[0], BOTH_WAYS[1];
    assert [] + [g] == [g] && [g] + [e] == BOTH_WAYS && BOTH_WAYS[..0] == [] && BOTH_WAYS[..1] == [g];
    NothingYet("x");
    EntrySnoc([], g, "x");
    EntrySnoc([g], e, "x");
  }

  lemma CodeSize(prog: Program, obj: Obj)
    requires Stands(prog, obj) && Sizable(prog)
    ensures |obj.code| == |Raw(prog)| < UNSET
  {
  }

  /** A site recorded for a name is the operand of an instruction naming it. */
  lemma SiteOrigin(prog: Program, name: string, s: Word) returns (i: nat)
    requires Sizable(prog) && s in AbsoluteSites(prog, name)
    ensures i < |prog| && prog[i].InstLabel? && prog[i].name == name && s == SiteAt(prog, i) && s + 2 <= |Raw(prog)|
  {
    hide Raw, AbsoluteSites, RelativeSites, SiteAt;
    SitesExactly(prog, false, name, s);
    i :| IsSite(prog, false, name, s, i);
    SiteShape(prog, i);
  }

  lemma ExternSite(prog: Program, obj: Obj, e: nat, j: nat) returns (i: nat)
    requires Sizable(prog) && Stands(prog, obj) && e < |obj.externs| && j < |ExternOf(obj, e).relocs|
    ensures i < |prog| && prog[i].InstLabel? && prog[i].name == ExternOf(obj, e).image && prog[i].name in Externs(prog)
    ensures ExternOf(obj, e).relocs[j] == SiteAt(prog, i) && SiteAt(prog, i) + 2 <= |obj.code|
  {
    hide Raw, AbsoluteSites, RelativeSites, SiteAt, Externs, Globals, LabelPos, IsLocal, Operand, Sizable;
    CodeSize(prog, obj);
    assert SameEntry(ExternOf(obj, e), EntryFor(prog, Externs(prog)[e]));
    i := SiteOrigin(prog, Externs(prog)[e], ExternOf(obj, e).relocs[j]);
  }

  lemma LocalSite(prog: Program, obj: Obj, x: nat) returns (i: nat)
    requires Assemblable(prog) && Sizable(prog) && Stands(prog, obj) && x < |obj.relocs|
    ensures i < |prog| && prog[i].InstLabel? && prog[i].name !in Externs(prog)
    ensures obj.relocs[x].where == SiteAt(prog, i) && SiteAt(prog, i) + 2 <= |obj.code|
    ensures obj.relocs[x].what == LabelPos(prog, prog[i].name) <= |obj.code|
  {
    hide Raw, SiteAt, Externs, Globals, LabelPos, Sizable, EntryFor;
    CodeSize(prog, obj);
    assert IsLocal(prog, obj.relocs[x]);
    i :| 0 <= i < |prog| && prog[i].InstLabel? && prog[i].name !in Externs(prog)
         && obj.relocs[x].where == SiteAt(prog, i) && obj.relocs[x].what == Operand(prog, i);
    SiteShape(prog, i);
    SetPos(prog, prog[i].name);
  }

  lemma DifferentSites(prog: Program, i: nat, j: nat)
    requires i < |prog| && j < |prog| && HasSite(prog[i]) && HasSite(prog[j]) && i != j
    ensures Apart(SiteAt(prog, i), SiteAt(prog, j))
  {
    hide Raw, SiteAt;
    if i < j { SitesApart(prog, i, j); } else { SitesApart(prog, j, i); }
  }

  // ---------- well-formedness ----------

  lemma AssembledExterns(prog: Program, obj: Obj)
    requires Assemblable(prog) && Sizable(prog) && Stands(prog, obj)
    ensures ExternsGood(obj)
  {
    hide Raw, AbsoluteSites, RelativeSites, SiteAt, Externs, Globals, LabelPos, IsLocal, Operand, DistancesIn;
    forall e | 0 <= e < |obj.externs| ensures Plain(ExternOf(obj, e).image) && ExternOf(obj, e).pos == UNSET {
      assert SameEntry(ExternOf(obj, e), EntryFor(prog, Externs(prog)[e]));
    }
    forall e, j | 0 <= e < |obj.externs| && 0 <= j < |ExternOf(obj, e).relocs|
      ensures ExternOf(obj, e).relocs[j] + 2 <= |obj.code|
    {
      var i := ExternSite(prog, obj, e, j);
    }
    forall e, j, x | 0 <= e < |obj.externs| && 0 <= j < |ExternOf(obj, e).relocs| && 0 <= x < |obj.relocs|
      ensures Apart(ExternOf(obj, e).relocs[j], obj.relocs[x].where)
    {
      ExternLocalApart(prog, obj, e, j, x);
    }
    forall e, j, e', j' | 0 <= e < |obj.externs| && 0 <= j < |ExternOf(obj, e).relocs|
                          && 0 <= e' < |obj.externs| && 0 <= j' < |ExternOf(obj, e').relocs|
      ensures || Apart(ExternOf(obj, e).relocs[j], ExternOf(obj, e').relocs[j'])
              || (ExternOf(obj, e).relocs[j] == ExternOf(obj, e').relocs[j'] && ExternOf(obj, e).image == ExternOf(obj, e').image)
    {
      ExternExternApart(prog, obj, e, j, e', j');
    }
  }

  lemma ExternLocalApart(prog: Program, obj: Obj, e: nat, j: nat, x: nat)
    requires Assemblable(prog) && Sizable(prog) && Stands(prog, obj)
    requires e < |obj.externs| && j < |ExternOf(obj, e).relocs| && x < |obj.relocs|
    ensures Apart(ExternOf(obj, e).relocs[j], obj.relocs[x].where)
  {
    hide Raw, SiteAt, Externs, Globals, LabelPos, Sizable, Assemblable, DistancesIn;
    var i := ExternSite(prog, obj, e, j);
    var i' := LocalSite(prog, obj, x);
    DifferentSites(prog, i, i');
  }

  lemma ExternExternApart(prog: Program, obj: Obj, e: nat, j: nat, e': nat, j': nat)
    requires Assemblable(prog) && Sizable(prog) && Stands(prog, obj)
    requires e < |obj.externs| && j < |ExternOf(obj, e).relocs| && e' < |obj.externs| && j' < |ExternOf(obj, e').relocs|
    ensures || Apart(ExternOf(obj, e).relocs[j], ExternOf(obj, e').relocs[j'])
            || (ExternOf(obj, e).relocs[j] == ExternOf(obj, e').relocs[j'] && ExternOf(obj, e).image == ExternOf(obj, e').image)
  {
    hide Raw, SiteAt, Externs, Globals, LabelPos, Sizable, Assemblable, DistancesIn;
    var i := ExternSite(prog, obj, e, j);
    var i' := ExternSite(prog, obj, e', j');
    if i != i' { DifferentSites(prog, i, i'); }
  }

  lemma AssembledGlobals(prog: Program, obj: Obj)
    requires Assemblable(prog) && Sizable(prog) && Distinct(prog) && Stands(prog, obj)
    ensures GlobalsGood(obj)
  {
    hide Raw, AbsoluteSites, RelativeSites, SiteAt, Externs, Globals, LabelPos, IsLocal, DistancesIn;
    forall g | 0 <= g < |obj.globals| ensures Plain(GlobalOf(obj, g).image) && GlobalOf(obj, g).pos <= |obj.code| {
      assert SameEntry(GlobalOf(obj, g), EntryFor(prog, Globals(prog)[g]));
      GlobalIsSetExactly(prog, obj, g);
    }
    forall g, s | 0 <= g < |obj.globals| && s in GlobalOf(obj, g).relocs ensures Reloc(s, GlobalOf(obj, g).pos) in obj.relocs {
      assert SameEntry(GlobalOf(obj, g), EntryFor(prog, Globals(prog)[g]));
      GlobalIsSetExactly(prog, obj, g);
      var i := SiteOrigin(prog, Globals(prog)[g], s);
      var r :| r in obj.relocs && r.where == SiteAt(prog, i) && r.what == Operand(prog, i);
      LabelBound(prog, prog[i].name);
      assert r == Reloc(s, GlobalOf(obj, g).pos);
    }
  }

  lemma AssembledLocals(prog: Program, obj: Obj)
    requires Assemblable(prog) && Sizable(prog) && Stands(prog, obj)
    ensures InRange(obj.relocs, |obj.code|) && Coherent(obj.relocs)
    ensures forall i :: 0 <= i < |obj.relocs| ==> obj.relocs[i].what <= |obj.code|
  {
    hide Raw, AbsoluteSites, RelativeSites, SiteAt, Externs, Globals, LabelPos, DistancesIn, Operand;
    forall x | 0 <= x < |obj.relocs| ensures obj.relocs[x].what <= |obj.code| {
      var i := LocalSite(prog, obj, x);
    }
    forall x | 0 <= x < |obj.relocs| ensures RightPatch(prog, obj.relocs[x]) {
      assert IsLocal(prog, obj.relocs[x]);
    }
    RightIsCoherent(prog, obj.relocs);
    CodeSize(prog, obj);
  }

  lemma StandsIsWellFormed(prog: Program, obj: Obj)
    requires Assemblable(prog) && Sizable(prog) && Distinct(prog) && Stands(prog, obj)
    ensures WellFormed(obj)
  {
    hide DistancesIn, IsLocal, ExternsGood, GlobalsGood, Coherent, InRange, Assemblable, Sizable, Distinct;
    AssembledExterns(prog, obj);
    AssembledGlobals(prog, obj);
    AssembledLocals(prog, obj);
  }

  /** What the assembler produces is what the linker expects. */
  lemma AssembledIsWellFormed(prog: Program, obj: Obj)
    requires Assemblable(prog) && Sizable(prog) && Distinct(prog) && Assembles(prog, obj)
    ensures Stands(prog, obj) && WellFormed(obj)
  {
    hide Assembles, Stands, Assemblable, Sizable, Distinct, WellFormed;
    AssembledStands(prog, obj);
    StandsIsWellFormed(prog, obj);
  }

  // ---------- the start-up object ----------

  /** The start-up object every executable begins with: a jump to `_start`. */
  const BOILERPLATE := Obj([Instructions.NOP, Instructions.JMP, 0, 0], [], [], [0], [Symbol("_start", UNSET, [2], [])])

  /** It stands for this program. */
  const BOOTSTRAP: Program := [Extern("_start"), InstLabel(Instructions.JMP, "_start")]

  lemma BootstrapStands()
    ensures Stands(BOOTSTRAP, BOILERPLATE) && Assemblable(BOOTSTRAP) && Sizable(BOOTSTRAP) && Distinct(BOOTSTRAP)
    ensures WellFormed(BOILERPLATE) && SiteAt(BOOTSTRAP, 1) == 2
  {
    hide Raw, LabelPos, AbsoluteSites, RelativeSites, Externs, Globals, WellFormed, SiteAt;
    BootstrapLayout();
    assert Plain("_start");
    BootstrapBytes();
    StandsIsWellFormed(BOOTSTRAP, BOILERPLATE);
  }

  lemma BootstrapBytes()
    ensures DistancesIn(BOOTSTRAP, BOILERPLATE.code)
  {
    hide Raw, SiteAt;
    BootstrapLayout();
    assert InSite(BOOTSTRAP, 2) && InSite(BOOTSTRAP, 3);
  }

  lemma BootstrapLayout()
    ensures Raw(BOOTSTRAP) == [Instructions.NOP, Instructions.JMP, 0, 0] && BOOTSTRAP[..1] == [Extern("_start")]
    ensures Externs(BOOTSTRAP) == ["_start"] && Globals(BOOTSTRAP) == [] && LabelPos(BOOTSTRAP, "_start") == UNSET
    ensures AbsoluteSites(BOOTSTRAP, "_start") == [2] && RelativeSites(BOOTSTRAP, "_start") == [] && SiteAt(BOOTSTRAP, 1) == 2
    ensures LabelPos(BOOTSTRAP[..0], "_start") == UNSET
  {
    hide Raw, LabelPos, AbsoluteSites, RelativeSites, Externs, Globals;
    var e, j := BOOTSTRAP[0], BOOTSTRAP[1];
    assert [] + [e] == [e] && BOOTSTRAP[..1] == [e] && BOOTSTRAP == [e] + [j] && BOOTSTRAP[..2] == BOOTSTRAP && BOOTSTRAP[..0] == [];
    NothingYet("_start");
    RawSnoc([], e);
    EntrySnoc([], e, "_start");
    RawSnoc([e], j);
    EntrySnoc([e], j, "_start");
  }

  lemma NothingYet(name: string)
    ensures Raw([]) == [] && Externs([]) == [] && Globals([]) == []
    ensures LabelPos([], name) == UNSET && AbsoluteSites([], name) == [] && RelativeSites([], name) == []
  {
  }

  // ---------- label operands after linking ----------

  /** Each object is what its program assembles to, and together they link. */
  predicate Built(progs: seq<Program>, objs: seq<Obj>) {
    && |progs| == |objs|
    && (forall k :: 0 <= k < |progs| ==>
          Assemblable(progs[k]) && Sizable(progs[k]) && Distinct(progs[k]) && Stands(progs[k], objs[k]))
    && Linkable(objs) && AllIndicesGood(objs) && DefinedOnce(Events(objs))
  }

  /** Program k' is the one whose label program k means by the name. */
  predicate Binds(progs: seq<Program>, k: nat, name: string, k': nat)
    requires k < |progs|
  {
    k' < |progs| && if name in Externs(progs[k]) then name in Globals(progs[k']) else k' == k
  }

  /** The address of a label in the linked image. */
  function AddressOf(progs: seq<Program>, objs: seq<Obj>, k: nat, name: string): nat
    requires k < |progs| == |objs|
  {
    OffsetOf(objs, k) + LabelPos(progs[k], name)
  }

  lemma ProgramOf(progs: seq<Program>, objs: seq<Obj>, k: nat)
    requires Built(progs, objs) && k < |progs|
    ensures Assemblable(progs[k]) && Sizable(progs[k]) && Distinct(progs[k]) && Stands(progs[k], objs[k])
  {
  }

  lemma TheyLink(progs: seq<Program>, objs: seq<Obj>)
    requires Built(progs, objs)
    ensures |progs| == |objs| && Linkable(objs) && AllIndicesGood(objs) && DefinedOnce(Events(objs))
  {
  }

  /** The origin of an absolute operand: a local relocation, or an extern site. */
  lemma OperandOrigin(progs: seq<Program>, objs: seq<Obj>, k: nat, i: nat, k': nat) returns (o: Origin)
    requires Built(progs, objs) && k < |progs| && i < |progs[k]| && progs[k][i].InstLabel?
    requires Binds(progs, k, progs[k][i].name, k')
    ensures Settled(objs, o) && SiteOf(objs, o) == OffsetOf(objs, k) + SiteAt(progs[k], i)
    ensures WordOf(objs, o) == AddressOf(progs, objs, k', progs[k][i].name)
  {
    hide DistancesIn, Linkable, DefinedOnce, Events, PosOf, OffsetOf, Raw, SiteAt, LabelPos, Externs, Globals;
    hide Assemblable, Sizable, Distinct, AbsoluteSites, RelativeSites;
    var prog, obj, name := progs[k], objs[k], progs[k][i].name;
    ProgramOf(progs, objs, k);
    if name in Externs(prog) {
      var e, j := ExternOperand(prog, obj, i);
      o := Outer(k, e, j);
      var g :| 0 <= g < |Globals(progs[k'])| && Globals(progs[k'])[g] == name;
      ProgramOf(progs, objs, k');
      assert SameEntry(GlobalOf(objs[k'], g), EntryFor(progs[k'], name));
      GlobalIsSetExactly(progs[k'], objs[k'], g);
      DefinitionPos(objs, k', g);
      GlobalInside(objs, k', g);
    } else {
      var r :| r in obj.relocs && r.where == SiteAt(prog, i) && r.what == Operand(prog, i);
      var x :| 0 <= x < |obj.relocs| && obj.relocs[x] == r;
      o := Local(k, x);
      var i' := LocalSite(prog, obj, x);
      if i != i' { DifferentSites(prog, i, i'); }
    }
  }

  lemma ExternOperand(prog: Program, obj: Obj, i: nat) returns (e: nat, j: nat)
    requires Sizable(prog) && Stands(prog, obj) && i < |prog| && prog[i].InstLabel? && prog[i].name in Externs(prog)
    ensures e < |obj.externs| && j < |ExternOf(obj, e).relocs| && ExternOf(obj, e).image == prog[i].name
    ensures ExternOf(obj, e).relocs[j] == SiteAt(prog, i)
  {
    hide Raw, AbsoluteSites, RelativeSites, SiteAt, Externs, Globals, LabelPos, IsLocal, Operand, DistancesIn;
    e :| 0 <= e < |Externs(prog)| && Externs(prog)[e] == prog[i].name;
    assert SameEntry(ExternOf(obj, e), EntryFor(prog, Externs(prog)[e]));
    SiteShape(prog, i);
    SitesExactly(prog, false, prog[i].name, SiteAt(prog, i));
    assert IsSite(prog, false, prog[i].name, SiteAt(prog, i), i);
    j :| 0 <= j < |ExternOf(obj, e).relocs| && ExternOf(obj, e).relocs[j] == SiteAt(prog, i);
  }

  /** After linking an absolute operand holds the address of its label, in its own object or another. */
  lemma AbsoluteOperandLinked(progs: seq<Program>, objs: seq<Obj>, k: nat, i: nat, k': nat)
    requires Built(progs, objs) && k < |progs| && i < |progs[k]| && progs[k][i].InstLabel?
    requires Binds(progs, k, progs[k][i].name, k')
    ensures var site := OffsetOf(objs, k) + SiteAt(progs[k], i);
            0 <= site && site + 2 <= |LinkedCode(objs)| && WordAt(LinkedCode(objs), site) == AddressOf(progs, objs, k', progs[k][i].name)
  {
    hide Stands, Linkable, DefinedOnce, Events, PosOf, OffsetOf, SiteAt, Settled, SiteOf, WordOf, WordAt, LinkedCode;
    hide AddressOf, Binds, Built, AllIndicesGood;
    TheyLink(progs, objs);
    var o := OperandOrigin(progs, objs, k, i, k');
    SettledWord(objs, o);
  }

  predicate InAbsolute(prog: Program, a: nat) {
    exists i :: 0 <= i < |prog| && prog[i].InstLabel? && SiteAt(prog, i) <= a < SiteAt(prog, i) + 2
  }

  /** No relocation reaches outside the absolute operands. */
  lemma NotAnOperand(progs: seq<Program>, objs: seq<Obj>, k: nat, a: nat, o: Origin)
    requires Built(progs, objs) && k < |progs| && a < |objs[k].code| && Located(objs, o)
    requires !InAbsolute(progs[k], a)
    ensures !(SiteOf(objs, o) <= OffsetOf(objs, k) + a < SiteOf(objs, o) + 2)
  {
    hide Linkable, DefinedOnce, Events, OffsetOf, SiteAt, Stands, EvenSize, Raw;
    OriginInside(objs, o);
    ProgramOf(progs, objs, k);
    if o.k != k {
      Separate(objs, o.k, k);
    } else if o.Local? {
      var i := LocalSite(progs[k], objs[k], o.i);
    } else {
      var i := ExternSite(progs[k], objs[k], o.e, o.j);
    }
  }

  /** Bytes of a program outside its absolute operands are in the linked image as assembled. */
  lemma ByteLinked(progs: seq<Program>, objs: seq<Obj>, k: nat, a: nat)
    requires Built(progs, objs) && k < |progs| && a < |objs[k].code|
    requires !InAbsolute(progs[k], a)
    ensures OffsetOf(objs, k) + a < |LinkedCode(objs)| && LinkedCode(objs)[OffsetOf(objs, k) + a] == objs[k].code[a]
  {
    hide Linkable, DefinedOnce, Events, OffsetOf, SiteAt, Stands, EvenSize, Raw, LinkedCode, SiteOf, Located;
    forall o | Settled(objs, o) ensures !(SiteOf(objs, o) <= OffsetOf(objs, k) + a < SiteOf(objs, o) + 2) {
      NotAnOperand(progs, objs, k, a, o);
    }
    OtherBytesUnchanged(objs, k, a);
  }

  lemma RelativeOutside(prog: Program, i: nat)
    requires i < |prog| && prog[i].InstRelLabel? && SiteAt(prog, i) >= 0
    ensures !InAbsolute(prog, SiteAt(prog, i)) && !InAbsolute(prog, SiteAt(prog, i) + 1)
  {
    hide SiteAt;
    forall x | 0 <= x < |prog| && prog[x].InstLabel? ensures Apart(SiteAt(prog, x), SiteAt(prog, i)) {
      DifferentSites(prog, x, i);
    }
  }

  lemma OpcodeOutsideAll(prog: Program, i: nat)
    requires i < |prog| && HasSite(prog[i]) && SiteAt(prog, i) >= 1
    ensures !InAbsolute(prog, SiteAt(prog, i) - 1)
  {
    hide SiteAt;
    forall x | 0 <= x < |prog| && prog[x].InstLabel? ensures !(SiteAt(prog, x) <= SiteAt(prog, i) - 1 < SiteAt(prog, x) + 2) {
      OpcodeOutside(prog, i, x);
    }
  }

  /** A relative operand is linked as assembled: the distance to its label. */
  lemma RelativeOperandLinked(progs: seq<Program>, objs: seq<Obj>, k: nat, i: nat)
    requires Built(progs, objs) && k < |progs| && i < |progs[k]| && progs[k][i].InstRelLabel?
    ensures var site := OffsetOf(objs, k) + SiteAt(progs[k], i);
            && 0 <= site && site + 2 <= |LinkedCode(objs)|
            && WordAt(LinkedCode(objs), site) == Wrap(LabelPos(progs[k], progs[k][i].name) - SiteAt(progs[k], i))
  {
    hide Linkable, DefinedOnce, Events, OffsetOf, SiteAt, EvenSize, Raw, LinkedCode, LabelPos, Wrap, Stands, Built, InAbsolute,
      AllIndicesGood, Operand, Externs, Globals, Assemblable, Sizable, Distinct, Image;
    TheyLink(progs, objs);
    var prog := progs[k];
    ProgramOf(progs, objs, k);
    OperandAssembled(prog, objs[k], i);
    RelativeOutside(prog, i);
    ByteLinked(progs, objs, k, SiteAt(prog, i));
    ByteLinked(progs, objs, k, SiteAt(prog, i) + 1);
  }

  lemma OperandAssembled(prog: Program, obj: Obj, i: nat)
    requires Stands(prog, obj) && i < |prog| && HasSite(prog[i])
    ensures 0 <= SiteAt(prog, i) - 1 && SiteAt(prog, i) + 2 <= |obj.code| && SiteAt(prog, i) % 2 == 0
    ensures prog[i].InstRelLabel? ==>
              WordAt(obj.code, SiteAt(prog, i)) == Wrap(LabelPos(prog, prog[i].name) - SiteAt(prog, i))
    ensures obj.code[SiteAt(prog, i) - 1] == prog[i].op
  {
    hide Raw, SiteAt, Declares, Externs, Globals, WordAt, LabelPos;
    SiteShape(prog, i);
    var a := SiteAt(prog, i) - 1;
    forall x | 0 <= x < |prog| && HasSite(prog[x]) ensures !(SiteAt(prog, x) <= a < SiteAt(prog, x) + 2) {
      OpcodeOutside(prog, i, x);
    }
    assert !InSite(prog, a);
  }

  /** An opcode byte is in no operand. */
  lemma OpcodeOutside(prog: Program, i: nat, x: nat)
    requires i < |prog| && HasSite(prog[i]) && x < |prog| && HasSite(prog[x])
    ensures !(SiteAt(prog, x) <= SiteAt(prog, i) - 1 < SiteAt(prog, x) + 2)
  {
    hide Raw;
    SiteShape(prog, i);
    if x < i {
      RawPrefix(prog[..i], x + 1);
      assert prog[..i][..x + 1] == prog[..x + 1];
    } else if i < x {
      SitesApart(prog, i, x);
    }
  }

  /** The opcode before a label operand is linked as assembled. */
  lemma OpcodeLinked(progs: seq<Program>, objs: seq<Obj>, k: nat, i: nat)
    requires Built(progs, objs) && k < |progs| && i < |progs[k]| && HasSite(progs[k][i])
    ensures var site := OffsetOf(objs, k) + SiteAt(progs[k], i);
            0 <= site - 1 < |LinkedCode(objs)| && LinkedCode(objs)[site - 1] == progs[k][i].op
  {
    hide Linkable, DefinedOnce, Events, OffsetOf, SiteAt, EvenSize, Raw, LinkedCode, Stands, Built, InAbsolute, AllIndicesGood, Operand, Externs, Globals, Assemblable, Sizable, Distinct, Image;
    TheyLink(progs, objs);
    var prog := progs[k];
    ProgramOf(progs, objs, k);
    OperandAssembled(prog, objs[k], i);
    OpcodeOutsideAll(prog, i);
    ByteLinked(progs, objs, k, SiteAt(prog, i) - 1);
  }
}
