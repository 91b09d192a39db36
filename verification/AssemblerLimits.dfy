/** Which programs the assembler accepts. */
module AssemblerLimits {
  import opened Words
  import opened ObjectFiles
  import opened Linking
  import opened Assembly
  import opened Assembler
  import opened Toolchain

  /** The sites of a name fit its symbol. */
  predicate SitesFit(prog: Program, name: string) {
    |AbsoluteSites(prog, name)| < 128 && |RelativeSites(prog, name)| < 128
  }

  /** A program whose names, declarations and sites the tables hold. */
  predicate TablesFit(prog: Program) {
    && |Names(prog)| < 128 && |Globals(prog)| < 64 && |Externs(prog)| < 32
    && forall i :: 0 <= i < |Names(prog)| ==> SitesFit(prog, Names(prog)[i])
  }

  lemma {:induction false} NamesExactly(prog: Program, name: string)
    ensures name in Names(prog) <==> Mentions(prog, name)
  {
    if prog != [] {
      var before, last := prog[..|prog| - 1], prog[|prog| - 1];
      NamesExactly(before, name);
      assert prog == before + [last];
      MentionsSnoc(before, last, name);
    }
  }

  lemma NewName(prog: Program, name: string)
    requires name !in Names(prog)
    ensures AbsoluteSites(prog, name) == [] && RelativeSites(prog, name) == [] && LabelPos(prog, name) == UNSET
  {
    hide Names, LabelPos, AbsoluteSites, RelativeSites;
    NamesExactly(prog, name);
    Unmentioned(prog, name);
    LabelUnmentioned(prog, name);
  }

  lemma {:induction false} LabelUnmentioned(prog: Program, name: string)
    requires !Mentions(prog, name)
    ensures LabelPos(prog, name) == UNSET
  {
    hide Raw;
    if prog != [] {
      var before, last := prog[..|prog| - 1], prog[|prog| - 1];
      assert prog == before + [last];
      MentionsSnoc(before, last, name);
      LabelUnmentioned(before, name);
    }
  }

  /** One more bytecode, seen from one name. */
  lemma SitesNext(prog: Program, bc: Bytecode, name: string)
    ensures SitesFit(prog + [bc], name) ==> SitesFit(prog, name)
    ensures !(HasSite(bc) && bc.name == name) ==> (SitesFit(prog + [bc], name) <==> SitesFit(prog, name))
    ensures bc.InstLabel? && bc.name == name ==>
              (SitesFit(prog + [bc], name) <==> SitesFit(prog, name) && |AbsoluteSites(prog, name)| + 1 < INTERN_RELOC_MAX)
    ensures bc.InstRelLabel? && bc.name == name ==>
              (SitesFit(prog + [bc], name) <==> SitesFit(prog, name) && |RelativeSites(prog, name)| + 1 < INTERN_RELOC_MAX)
  {
    hide LabelPos, AbsoluteSites, RelativeSites, Raw;
    EntrySnoc(prog, bc, name);
  }

  /** Compiling one more bytecode succeeds exactly when it sets nothing twice and the tables still hold everything. */
  lemma CompileExactly(prog: Program, bc: Bytecode)
    requires TablesFit(prog)
    ensures CompileFate(prog, bc) == Ok <==>
            (Named(bc) && !HasSite(bc) ==> LabelPos(prog, bc.name) == UNSET) && TablesFit(prog + [bc])
  {
    hide LabelPos, AbsoluteSites, RelativeSites, Names, Globals, Externs, SitesFit;
    EntrySnoc(prog, bc, "");
    NamesSnoc(prog, bc);
    var names, names' := Names(prog), Names(prog + [bc]);
    forall i | 0 <= i < |names| ensures SitesFit(prog, names[i]) && names'[i] == names[i] {
    }
    forall i | 0 <= i < |names'| && !(HasSite(bc) && bc.name == names'[i]) ensures SitesFit(prog + [bc], names'[i]) {
      SitesNext(prog, bc, names'[i]);
      if i == |names| { UnusedFits(prog, names'[i]); }
    }
    if HasSite(bc) {
      SitesNext(prog, bc, bc.name);
      NamedFits(prog, bc.name);
      NameIncluded(prog, bc);
    }
  }

  lemma UnusedFits(prog: Program, name: string)
    requires name !in Names(prog)
    ensures SitesFit(prog, name)
  {
    NewName(prog, name);
  }

  lemma NamedFits(prog: Program, name: string)
    requires TablesFit(prog)
    ensures SitesFit(prog, name)
  {
    hide SitesFit, Names;
    if name !in Names(prog) { UnusedFits(prog, name); }
  }

  lemma NameIncluded(prog: Program, bc: Bytecode)
    requires Named(bc)
    ensures bc.name in Names(prog + [bc])
  {
    hide Names;
    NamesSnoc(prog, bc);
  }

  lemma TablesShrink(prog: Program, bc: Bytecode)
    requires TablesFit(prog + [bc])
    ensures TablesFit(prog)
  {
    hide AbsoluteSites, RelativeSites, Names, Globals, Externs, SitesFit, LabelPos;
    EntrySnoc(prog, bc, "");
    NamesSnoc(prog, bc);
    forall i | 0 <= i < |Names(prog)| ensures SitesFit(prog, Names(prog)[i]) {
      assert Names(prog + [bc])[i] == Names(prog)[i];
      SitesNext(prog, bc, Names(prog)[i]);
    }
  }

  lemma NothingFits()
    ensures TablesFit([]) && Orderly([])
  {
  }

  lemma {:induction false} CompiledExactly(prog: Program)
    ensures CompiledFate(prog) == Ok <==> Orderly(prog) && TablesFit(prog)
  {
    hide TablesFit, Orderly, CompileFate, LabelPos;
    if prog == [] {
      NothingFits();
    } else {
      var before, last := prog[..|prog| - 1], prog[|prog| - 1];
      assert prog == before + [last];
      CompiledExactly(before);
      OrderlySnoc(before, last);
      if TablesFit(prog) { TablesShrink(before, last); }
      if TablesFit(before) { CompileExactly(before, last); }
    }
  }

  // ---------- the check ----------

  predicate SymbolsSet(symbols: seq<Symbol>, externs: seq<string>) {
    forall i :: 0 <= i < |symbols| && symbols[i].image !in externs ==> symbols[i].pos != UNSET
  }

  lemma {:induction false} SymbolsExactly(symbols: seq<Symbol>, externs: seq<string>)
    ensures SymbolsFate(symbols, externs) == Ok <==> SymbolsSet(symbols, externs) && |TableRelocs(symbols, externs)| < RELOC_MAX
  {
    if symbols != [] {
      var n := |symbols| - 1;
      SymbolsExactly(symbols[..n], externs);
      if SymbolsSet(symbols[..n], externs) && (symbols[n].image !in externs ==> symbols[n].pos != UNSET) {
        forall i | 0 <= i < |symbols| && symbols[i].image !in externs ensures symbols[i].pos != UNSET {
          if i < n { assert symbols[..n][i] == symbols[i]; }
        }
      }
    }
  }

  lemma TableSet(prog: Program)
    requires |Raw(prog)| <= UNSET
    ensures SymbolsSet(TableOf(prog), Externs(prog)) <==> AllSet(prog)
  {
    hide Names, LabelPos, AbsoluteSites, RelativeSites, Externs, Raw;
    var names, externs := Names(prog), Externs(prog);
    if SymbolsSet(TableOf(prog), externs) {
      forall i | 0 <= i < |prog| && Named(prog[i]) && prog[i].name !in externs ensures LabelPos(prog, prog[i].name) != UNSET {
        NamesExactly(prog, prog[i].name);
        var k :| 0 <= k < |names| && names[k] == prog[i].name;
        assert TableOf(prog)[k].image == names[k];
        LabelFits(prog, names[k]);
      }
    }
    if AllSet(prog) {
      forall k | 0 <= k < |names| && names[k] !in externs ensures TableOf(prog)[k].pos != UNSET {
        NamesExactly(prog, names[k]);
        LabelFits(prog, names[k]);
      }
    }
  }

  /**
   * The assembler accepts exactly the programs that make sense, that is, set no name twice, keep externs unset and set
   * everything else, and whose names, declarations, sites and relocations the tables hold.
   */
  lemma AcceptedExactly(prog: Program)
    requires |Raw(prog)| <= UNSET
    ensures AssembleFate(prog) == Ok <==> Assemblable(prog) && TablesFit(prog) && |ListedRelocs(prog)| < 128
  {
    hide TablesFit, Orderly, CompiledFate, SymbolsFate, TableRelocs, AllSet, ExternsClean, SymbolsSet;
    CompiledExactly(prog);
    SymbolsExactly(TableOf(prog), Externs(prog));
    TableSet(prog);
  }

  /** A program that declares a name both global and extern is accepted. */
  lemma BothWaysAccepted()
    ensures AssembleFate(BOTH_WAYS) == Ok
  {
    hide Raw, LabelPos, AbsoluteSites, RelativeSites, Externs, Globals, CompiledFate, Names;
    var g, e := BOTH_WAYS[0], BOTH_WAYS[1];
    assert [] + [g] == [g] && [g] + [e] == BOTH_WAYS && BOTH_WAYS[..0] == [] && BOTH_WAYS[..1] == [g];
    BothWaysLayout();
    NothingYet("x");
    NothingCompiled();
    assert Names([]) == [] by { NoNames(); }
    CompiledNext([], g);
    CompiledNext([g], e);
    NamesSnoc([], g);
    NamesSnoc([g], e);
    EntrySnoc([], g, "x");
    OnlyExtern(TableOf(BOTH_WAYS)[0], Externs(BOTH_WAYS));
    assert TableOf(BOTH_WAYS) == [TableOf(BOTH_WAYS)[0]];
  }

  lemma NoNames()
    ensures Names([]) == []
  {
  }

  lemma OnlyExtern(s: Symbol, externs: seq<string>)
    requires s.image in externs
    ensures SymbolsFate([s], externs) == Ok
  {
    assert [s][..0] == [];
  }
}
