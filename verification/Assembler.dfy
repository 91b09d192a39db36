/** The assembler's back end: compiling bytecodes into an object, then patching its label operands. */
module Assembler {
  import opened Words
  import opened ObjectFiles
  import opened Linking
  import opened Assembly
  import Instructions

  /** How assembling ends; TooMany stands for the failed table-size assertions. */
  datatype Status = Ok | Redefinition | BadExtern | Unset | TooMany {
    predicate IsFailure() { !Ok? }
    function PropagateFailure(): Status { this }
  }

  function Images(symbols: seq<Symbol>): (names: seq<string>)
    ensures |names| == |symbols|
  {
    seq(|symbols|, i requires 0 <= i < |symbols| => symbols[i].image)
  }

  /** The symbols are exactly the names met so far, in order, each with everything the program says about it. */
  predicate Knows(symbols: seq<Symbol>, prog: Program) {
    && Images(symbols) == Names(prog)
    && (forall i :: 0 <= i < |symbols| ==> symbols[i] == EntryFor(prog, symbols[i].image))
    && (forall i, j :: 0 <= i < j < |symbols| ==> symbols[i].image != symbols[j].image)
    && (forall i :: 0 <= i < |prog| && Named(prog[i]) ==> FindSymbol(symbols, prog[i].name) < |symbols|)
    && (forall i :: 0 <= i < |symbols| ==> Mentions(prog, symbols[i].image))
  }

  predicate Tables(symbols: seq<Symbol>, globals: seq<nat>, externs: seq<nat>, prog: Program) {
    && Knows(symbols, prog)
    && Indexes(symbols, globals, Globals(prog))
    && Indexes(symbols, externs, Externs(prog))
    && Orderly(prog)
  }

  // ---------- what assembling a program comes to ----------

  /** How compiling a bytecode behind a program ends. */
  function CompileFate(prog: Program, bc: Bytecode): Status {
    if !Named(bc) then Ok
    else if !HasSite(bc) && LabelPos(prog, bc.name) != UNSET then Redefinition
    else if bc.name !in Names(prog) && |Names(prog)| + 1 >= SYMBOL_MAX then TooMany
    else if bc.InstLabel? && |AbsoluteSites(prog, bc.name)| + 1 >= INTERN_RELOC_MAX then TooMany
    else if bc.InstRelLabel? && |RelativeSites(prog, bc.name)| + 1 >= INTERN_RELOC_MAX then TooMany
    else if bc.Global? && |Globals(prog)| + 1 >= GLOBAL_MAX then TooMany
    else if bc.Extern? && |Externs(prog)| + 1 >= EXTERN_MAX then TooMany
    else Ok
  }

  function CompiledFate(prog: Program): Status {
    if prog == [] then Ok else
      var before := prog[..|prog| - 1];
      if CompiledFate(before) != Ok then CompiledFate(before) else CompileFate(before, prog[|prog| - 1])
  }

  /** The symbol table of a program. */
  function TableOf(prog: Program): (symbols: seq<Symbol>)
    ensures |symbols| == |Names(prog)|
  {
    seq(|Names(prog)|, i requires 0 <= i < |Names(prog)| => EntryFor(prog, Names(prog)[i]))
  }

  /** The relocations of a symbol table: symbol by symbol, site by site. */
  function TableRelocs(symbols: seq<Symbol>, externs: seq<string>): seq<Reloc> {
    if symbols == [] then [] else
      var n := |symbols| - 1;
      TableRelocs(symbols[..n], externs) + (if symbols[n].image in externs then [] else Target(symbols[n].relocs, symbols[n].pos))
  }

  /** How the check of the symbols ends. */
  function SymbolsFate(symbols: seq<Symbol>, externs: seq<string>): Status {
    if symbols == [] then Ok else
      var n := |symbols| - 1;
      if SymbolsFate(symbols[..n], externs) != Ok then SymbolsFate(symbols[..n], externs)
      else if symbols[n].image in externs then Ok
      else if symbols[n].pos == UNSET then Unset
      else if |TableRelocs(symbols[..n], externs)| + |symbols[n].relocs| >= RELOC_MAX then TooMany
      else Ok
  }

  /** How assembling a program ends, with or without debug symbols. */
  function AssembleFate(prog: Program): Status {
    if CompiledFate(prog) != Ok then CompiledFate(prog)
    else if !ExternsClean(prog) then BadExtern
    else SymbolsFate(TableOf(prog), Externs(prog))
  }

  /** The relocations of an assembled program. */
  function ListedRelocs(prog: Program): seq<Reloc> {
    TableRelocs(TableOf(prog), Externs(prog))
  }

  lemma CompiledNext(prog: Program, bc: Bytecode)
    ensures CompiledFate(prog + [bc]) == if CompiledFate(prog) == Ok then CompileFate(prog, bc) else CompiledFate(prog)
  {
    hide CompileFate;
    assert (prog + [bc])[..|prog|] == prog;
  }

  lemma {:induction false} CompiledStays(prog: Program, n: nat)
    requires n <= |prog| && CompiledFate(prog[..n]) != Ok
    ensures CompiledFate(prog) == CompiledFate(prog[..n])
    decreases |prog|
  {
    hide CompileFate;
    var last := |prog| - 1;
    if n <= last {
      assert prog[..last][..n] == prog[..n];
      CompiledStays(prog[..last], n);
    } else {
      assert prog[..n] == prog;
    }
  }

  lemma {:induction false} SymbolsStay(symbols: seq<Symbol>, externs: seq<string>, n: nat)
    requires n <= |symbols| && SymbolsFate(symbols[..n], externs) != Ok
    ensures SymbolsFate(symbols, externs) == SymbolsFate(symbols[..n], externs)
    decreases |symbols|
  {
    hide TableRelocs;
    var last := |symbols| - 1;
    if n <= last {
      assert symbols[..last][..n] == symbols[..n];
      SymbolsStay(symbols[..last], externs, n);
    } else {
      assert symbols[..n] == symbols;
    }
  }

  /** The assembler's table is the program's. */
  lemma KnowsTable(symbols: seq<Symbol>, prog: Program)
    requires Knows(symbols, prog)
    ensures symbols == TableOf(prog)
  {
    hide EntryFor, Names;
    forall i | 0 <= i < |symbols| ensures symbols[i] == TableOf(prog)[i] {
      assert symbols[i].image == Images(symbols)[i];
    }
  }

  /** A bytecode without a name leaves the tables right. */
  lemma TablesUnnamed(symbols: seq<Symbol>, globals: seq<nat>, externs: seq<nat>, prog: Program, bc: Bytecode)
    requires Tables(symbols, globals, externs, prog) && !Named(bc)
    ensures Tables(symbols, globals, externs, prog + [bc])
  {
    hide LabelPos, AbsoluteSites, RelativeSites, Globals, Externs, Raw, Orderly, Mentions, Names;
    EntrySnoc(prog, bc, "");
    NamesSnoc(prog, bc);
    OrderlySnoc(prog, bc);
    forall i | 0 <= i < |symbols|
      ensures symbols[i] == EntryFor(prog + [bc], symbols[i].image) && Mentions(prog + [bc], symbols[i].image)
    {
      EntrySnoc(prog, bc, symbols[i].image);
      MentionsSnoc(prog, bc, symbols[i].image);
    }
  }

  /** The table after a bytecode naming `s.image`: its symbol replaced, or appended when new. */
  function Updated(symbols: seq<Symbol>, s: Symbol): (r: seq<Symbol>)
    ensures |symbols| <= |r| && FindSymbol(symbols, s.image) < |r|
    ensures forall k :: 0 <= k < |symbols| ==> r[k].image == symbols[k].image
    ensures r[FindSymbol(symbols, s.image)] == s
  {
    var i := FindSymbol(symbols, s.image);
    if i < |symbols| then symbols[i := s] else symbols + [s]
  }

  lemma FindUpdated(symbols: seq<Symbol>, s: Symbol, name: string)
    ensures FindSymbol(symbols, name) < |symbols| || name == s.image ==>
              FindSymbol(Updated(symbols, s), name) < |Updated(symbols, s)|
  {
    if FindSymbol(symbols, s.image) < |symbols| {
      FindReplaced(symbols, FindSymbol(symbols, s.image), s, name);
    } else {
      FindAppended(symbols, s, name);
    }
  }

  /** A name is known exactly when it has been met. */
  lemma KnownName(symbols: seq<Symbol>, prog: Program, name: string)
    requires Images(symbols) == Names(prog)
    ensures FindSymbol(symbols, name) < |symbols| <==> name in Names(prog)
  {
    hide Names;
    var i := FindSymbol(symbols, name);
    if i < |symbols| {
      assert Images(symbols)[i] == name;
    }
    if name in Names(prog) {
      var k :| 0 <= k < |Names(prog)| && Names(prog)[k] == name;
      assert symbols[k].image == Images(symbols)[k];
    }
  }

  lemma ImagesUpdated(symbols: seq<Symbol>, prog: Program, bc: Bytecode, s: Symbol)
    requires Images(symbols) == Names(prog) && Named(bc) && s.image == bc.name
    ensures Images(Updated(symbols, s)) == Names(prog + [bc])
  {
    hide Names;
    KnownName(symbols, prog, bc.name);
    NamesSnoc(prog, bc);
    if FindSymbol(symbols, s.image) == |symbols| {
      assert Images(symbols + [s]) == Images(symbols) + [s.image];
    } else {
      assert Images(Updated(symbols, s)) == Images(symbols);
    }
  }

  lemma KnowsNamed(symbols: seq<Symbol>, prog: Program, bc: Bytecode)
    requires Knows(symbols, prog) && Named(bc)
    ensures Knows(Updated(symbols, EntryFor(prog + [bc], bc.name)), prog + [bc])
  {
    hide LabelPos, AbsoluteSites, RelativeSites, Globals, Externs, Raw, Mentions, Names, Images;
    var prog', s := prog + [bc], EntryFor(prog + [bc], bc.name);
    ImagesUpdated(symbols, prog, bc, s);
    var symbols' := Updated(symbols, s);
    forall i | 0 <= i < |symbols'|
      ensures symbols'[i] == EntryFor(prog', symbols'[i].image) && Mentions(prog', symbols'[i].image)
    {
      EntrySnoc(prog, bc, symbols'[i].image);
      MentionsSnoc(prog, bc, symbols'[i].image);
    }
    forall i | 0 <= i < |prog'| && Named(prog'[i]) ensures FindSymbol(symbols', prog'[i].name) < |symbols'| {
      assert i < |prog| ==> prog'[i] == prog[i];
      FindUpdated(symbols, s, prog'[i].name);
    }
  }

  /** A named bytecode updates its symbol; a declaration also adds its index. */
  lemma TablesNamed(symbols: seq<Symbol>, globals: seq<nat>, externs: seq<nat>, prog: Program, bc: Bytecode)
    requires Tables(symbols, globals, externs, prog) && Named(bc)
    requires !HasSite(bc) ==> LabelPos(prog, bc.name) == UNSET
    ensures var i := FindSymbol(symbols, bc.name);
            Tables(Updated(symbols, EntryFor(prog + [bc], bc.name)),
                   if bc.Global? then globals + [i] else globals,
                   if bc.Extern? then externs + [i] else externs, prog + [bc])
  {
    hide LabelPos, AbsoluteSites, RelativeSites, Globals, Externs, Raw, Orderly, Knows;
    EntrySnoc(prog, bc, "");
    OrderlySnoc(prog, bc);
    KnowsNamed(symbols, prog, bc);
  }

  /** A name's symbol holds its entry; a name without one has none yet. */
  lemma KnownEntry(symbols: seq<Symbol>, prog: Program, name: string)
    requires Knows(symbols, prog)
    ensures var i := FindSymbol(symbols, name);
            EntryFor(prog, name) == if i < |symbols| then symbols[i] else Symbol(name, UNSET, [], [])
  {
    hide LabelPos, AbsoluteSites, RelativeSites;
    if FindSymbol(symbols, name) == |symbols| {
      forall i | 0 <= i < |prog| && Named(prog[i]) ensures prog[i].name != name {
        assert FindSymbol(symbols, prog[i].name) < |symbols|;
      }
      Unmentioned(prog, name);
    }
  }

  class Assembler {
    var code: seq<Byte>
    var symbols: seq<Symbol>
    var globals: seq<nat>
    var externs: seq<nat>
    var relocs: seq<Reloc>
    ghost var prog: Program

    ghost predicate Valid()
      reads this
    {
      && code == Raw(prog) && |code| <= UNSET
      && Tables(symbols, globals, externs, prog)
      && relocs == []
    }

    constructor ()
      ensures Valid() && prog == []
    {
      code, symbols, globals, externs, relocs := [], [], [], [], [];
      prog := [];
    }

    /** Sets or declares a name; one that is set already must not be met again. */
    method AddSymbol(name: string, pos: Word) returns (st: Status, i: nat)
      modifies this`symbols
      ensures i == FindSymbol(old(symbols), name)
      ensures st == if i < |old(symbols)| then (if old(symbols)[i].pos != UNSET then Redefinition else Ok)
                    else if i + 1 >= SYMBOL_MAX then TooMany else Ok
      ensures st != Ok ==> symbols == old(symbols)
      ensures st == Ok ==> symbols == Updated(old(symbols),
                if i < |old(symbols)| then old(symbols)[i].(pos := pos) else Symbol(name, pos, [], []))
    {
      i := FindSymbol(symbols, name);
      if i < |symbols| {
        if symbols[i].pos != UNSET {
          return Redefinition, i;
        }
        symbols := symbols[i := symbols[i].(pos := pos)];
        return Ok, i;
      }
      if |symbols| + 1 >= SYMBOL_MAX {
        return TooMany, i;
      }
      symbols := symbols + [Symbol(name, pos, [], [])];
      return Ok, i;
    }

    /** Records a use of a label, absolute or relative. */
    method AddSite(name: string, site: Word, relative: bool) returns (st: Status)
      modifies this`symbols
      ensures var i := FindSymbol(old(symbols), name);
              var s := if i < |old(symbols)| then old(symbols)[i] else Symbol(name, UNSET, [], []);
              st == if i == |old(symbols)| && i + 1 >= SYMBOL_MAX then TooMany
                    else if |if relative then s.relrelocs else s.relocs| + 1 >= INTERN_RELOC_MAX then TooMany
                    else Ok
      ensures st == Ok ==>
                var i := FindSymbol(old(symbols), name);
                var s := if i < |old(symbols)| then old(symbols)[i] else Symbol(name, UNSET, [], []);
                symbols == Updated(old(symbols), if relative then s.(relrelocs := s.relrelocs + [site])
                                                 else s.(relocs := s.relocs + [site]))
    {
      var i := FindSymbol(symbols, name);
      if i == |symbols| {
        var added;
        added, i := AddSymbol(name, UNSET);
        if added != Ok {
          return TooMany;
        }
      }
      var s := symbols[i];
      if relative {
        if |s.relrelocs| + 1 >= INTERN_RELOC_MAX { return TooMany; }
        symbols := symbols[i := s.(relrelocs := s.relrelocs + [site])];
      } else {
        if |s.relocs| + 1 >= INTERN_RELOC_MAX { return TooMany; }
        symbols := symbols[i := s.(relocs := s.relocs + [site])];
      }
      return Ok;
    }

    /** Appends the bytes of a bytecode that names nothing. */
    method CompilePlain(bc: Bytecode)
      requires !Named(bc)
      modifies this`code
      ensures code == old(code) + BytesOf(bc, |old(code)|)
    {
      match bc
      case Inst(op) =>
        code := code + [op];
      case InstHex(op, num) =>
        code := code + [op, LowByte(num)];
      case InstHex2(op, num) =>
        if |code| % 2 == 0 { code := code + [Instructions.NOP]; }
        code := code + [op];
        code := code + [LowByte(num), HighByte(num)];
      case Hex(num) =>
        code := code + [LowByte(num)];
      case Hex2(num) =>
        code := code + [LowByte(num), HighByte(num)];
      case Text(chars) =>
        code := code + chars;
      case Align =>
        if |code| % 2 == 1 { code := code + [0]; }
      case Space(num) =>
        code := code + seq(num, _ => 0);
    }

    /** An instruction with a label operand: aligned, its site recorded under the label. */
    method CompileOperand(bc: Bytecode) returns (st: Status)
      requires HasSite(bc) && Knows(symbols, prog) && code == Raw(prog) && |Raw(prog + [bc])| <= UNSET
      modifies this`code, this`symbols
      ensures st == Ok ==> code == Raw(prog + [bc]) && symbols == Updated(old(symbols), EntryFor(prog + [bc], bc.name))
      ensures st == CompileFate(prog, bc)
    {
      hide Raw, EntryFor, Knows, Updated, BytesOf, CompileFate, Names;
      SiteFate(symbols, prog, bc);
      RawSnoc(prog, bc);
      OperandEmitted(bc, |code|);
      if |code| % 2 == 0 { code := code + [Instructions.NOP]; }
      code := code + [bc.op];
      assert code + [0, 0] == Raw(prog + [bc]);
      SiteEntry(symbols, prog, bc, |code|);
      :- AddSite(bc.name, |code|, bc.InstRelLabel?);
      code := code + [0, 0];
      return Ok;
    }

    /** Setting or declaring a name. */
    method CompileName(bc: Bytecode) returns (st: Status)
      requires Named(bc) && !HasSite(bc) && Knows(symbols, prog) && code == Raw(prog) && |code| <= UNSET
      requires |globals| == |Globals(prog)| && |externs| == |Externs(prog)|
      modifies this`symbols, this`globals, this`externs
      ensures st == Ok ==> symbols == Updated(old(symbols), EntryFor(prog + [bc], bc.name))
      ensures st == Ok ==> globals == if bc.Global? then old(globals) + [FindSymbol(old(symbols), bc.name)] else old(globals)
      ensures st == Ok ==> externs == if bc.Extern? then old(externs) + [FindSymbol(old(symbols), bc.name)] else old(externs)
      ensures st == CompileFate(prog, bc)
    {
      hide Raw, LabelPos, AbsoluteSites, RelativeSites, Knows, Updated, CompileFate, Names;
      NameFate(symbols, globals, externs, prog, bc);
      LabelFits(prog, bc.name);
      KnownEntry(symbols, prog, bc.name);
      EntrySnoc(prog, bc, bc.name);
      var added, i := AddSymbol(bc.name, if bc.SetLabel? then |code| else UNSET);
      if added != Ok { return added; }
      if bc.Global? {
        if |globals| + 1 >= GLOBAL_MAX { return TooMany; }
        globals := globals + [i];
      } else if bc.Extern? {
        if |externs| + 1 >= EXTERN_MAX { return TooMany; }
        externs := externs + [i];
      }
      return Ok;
    }

    /** Compiles one bytecode behind the others. */
    method Compile(bc: Bytecode) returns (st: Status)
      requires Valid() && |Raw(prog + [bc])| <= UNSET
      modifies this
      ensures st == Ok ==> Valid() && prog == old(prog) + [bc]
      ensures st == CompileFate(old(prog), bc)
    {
      hide Tables, Raw, LabelPos, Knows, Orderly, Updated, EntryFor, BytesOf, CompileFate, Globals, Externs;
      RawSnoc(prog, bc);
      OrderlySnoc(prog, bc);
      TablesKnow(symbols, globals, externs, prog);
      if HasSite(bc) {
        :- CompileOperand(bc);
        TablesNamed(old(symbols), globals, externs, prog, bc);
      } else if Named(bc) {
        UnsizedName(bc, |code|);
        Declared(symbols, globals, externs, prog);
        :- CompileName(bc);
        FateUnset(prog, bc);
        TablesNamed(old(symbols), old(globals), old(externs), prog, bc);
      } else {
        CompilePlain(bc);
        PlainFate(prog, bc);
        TablesUnnamed(symbols, globals, externs, prog, bc);
      }
      prog := prog + [bc];
      return Ok;
    }

    // ---------- the final check ----------

    /** Writes one word at every site. */
    method PatchSites(sites: seq<Word>, what: Word)
      requires InRange(Target(sites, what), |code|)
      modifies this`code
      ensures code == PatchAll(old(code), Target(sites, what))
    {
      ghost var rs := Target(sites, what);
      for j := 0 to |sites|
        invariant code == PatchAll(old(code), rs[..j])
      {
        assert rs[..j + 1][..j] == rs[..j] && rs[j].where == sites[j];
        code := PutWord(code, sites[j], what);
      }
      assert rs[..|rs|] == rs;
    }

    /** Writes at every relative site its distance to the label. */
    method PatchRelative(s: Symbol)
      requires InRange(Distances(s), |code|)
      modifies this`code
      ensures code == PatchAll(old(code), Distances(s))
    {
      ghost var rs := Distances(s);
      for j := 0 to |s.relrelocs|
        invariant code == PatchAll(old(code), rs[..j])
      {
        assert rs[..j + 1][..j] == rs[..j] && rs[j].where == s.relrelocs[j];
        code := PutWord(code, s.relrelocs[j], Wrap(s.pos - s.relrelocs[j]));
      }
      assert rs[..|rs|] == rs;
    }

    /** The state after some right patches. */
    ghost predicate Patched(done: seq<Reloc>)
      reads this
    {
      AllRight(prog, done) && InRange(done, |Raw(prog)|) && code == PatchAll(Raw(prog), done)
    }

    /** Extern sites get the unset mark; `marks` tells which symbols are extern. */
    method CheckExterns() returns (st: Status, marks: seq<bool>, ghost done: seq<Reloc>)
      requires Valid()
      modifies this`code
      ensures st == Ok || st == BadExtern
      ensures st == Ok <==> ExternsClean(prog)
      ensures st == Ok ==> Patched(done)
      ensures st == Ok ==> |marks| == |symbols| && forall i :: 0 <= i < |marks| ==> marks[i] == (symbols[i].image in Externs(prog))
      ensures st == Ok ==> forall i :: 0 <= i < |symbols| && marks[i] ==> Includes(done, Target(symbols[i].relocs, UNSET))
    {
      hide Raw, LabelPos, AbsoluteSites, RelativeSites, Externs, Globals, Operand, AllRight, Target, ExternsClean, Tables,
        Includes, PatchAll;
      TablesIndex(symbols, globals, externs, prog);
      marks := seq(|symbols|, _ => false);
      done := [];
      RightEmpty(prog);
      ghost var names := Externs(prog);
      for e := 0 to |externs|
        invariant Patched(done) && |marks| == |symbols|
        invariant forall i :: 0 <= i < |marks| ==> marks[i] == (exists x :: 0 <= x < e && externs[x] == i)
        invariant forall i :: 0 <= i < |symbols| && marks[i] ==> Includes(done, Target(symbols[i].relocs, UNSET))
        invariant forall x :: 0 <= x < e ==> CleanName(prog, names[x])
      {
        var s := symbols[externs[e]];
        ExternEntry(symbols, globals, externs, prog, e);
        LabelFits(prog, s.image);
        ghost var marks0 := marks;
        if s.pos != UNSET || |s.relrelocs| != 0 {
          NotClean(prog, names[e]);
          return BadExtern, marks, done;
        }
        marks := marks[externs[e] := true];
        SitesEven(prog, s.image);
        assert forall j :: 0 <= j < |s.relocs| ==> s.relocs[j] % 2 == 0;
        RightExtern(prog, s.image);
        MorePatches(prog, done, Target(s.relocs, UNSET));
        IncludesMore(done, Target(s.relocs, UNSET));
        PatchSites(s.relocs, UNSET);
        done := done + Target(s.relocs, UNSET);
        MarkOne(externs, e, marks0);
      }
      TablesKnow(symbols, globals, externs, prog);
      ExternMarks(symbols, externs, prog, marks);
      AllClean(prog);
      st := Ok;
    }

    /** One symbol: its distances, and unless it is extern its position at its sites, which become relocations. */
    method CheckSymbol(s: Symbol, isExtern: bool, ghost before: seq<Reloc>) returns (st: Status, ghost done: seq<Reloc>)
      requires |Raw(prog)| <= UNSET && Patched(before) && |relocs| < RELOC_MAX
      requires s == EntryFor(prog, s.image) && isExtern == (s.image in Externs(prog))
      modifies this`code, this`relocs
      ensures st == if isExtern then Ok else if s.pos == UNSET then Unset
                    else if |old(relocs)| + |s.relocs| >= RELOC_MAX then TooMany else Ok
      ensures st == Ok ==> Patched(done) && |relocs| < RELOC_MAX
      ensures st == Ok ==> done == before + (Distances(s) + if isExtern then [] else Target(s.relocs, s.pos))
      ensures relocs == old(relocs) + if st == Ok && !isExtern then Target(s.relocs, s.pos) else []
    {
      hide Raw, LabelPos, AbsoluteSites, RelativeSites, Externs, Globals, Operand, AllRight, Target, Distances, PatchAll;
      LabelFits(prog, s.image);
      RightDistances(prog, s.image);
      MorePatches(prog, before, Distances(s));
      PatchRelative(s);
      done := before + Distances(s);
      if !isExtern {
        if s.pos == UNSET {
          return Unset, done;
        }
        if |relocs| + |s.relocs| >= RELOC_MAX {
          return TooMany, done;
        }
        SitesEven(prog, s.image);
        assert forall j :: 0 <= j < |s.relocs| ==> s.relocs[j] % 2 == 0;
        RightLocal(prog, s.image);
        MorePatches(prog, done, Target(s.relocs, s.pos));
        PatchSites(s.relocs, s.pos);
        done := done + Target(s.relocs, s.pos);
        relocs := relocs + Target(s.relocs, s.pos);
      }
      st := Ok;
    }

    /** Every symbol that is not extern needs a position. */
    method CheckSymbols(marks: seq<bool>, ghost before: seq<Reloc>) returns (st: Status, ghost done: seq<Reloc>)
      requires Tables(symbols, globals, externs, prog) && |Raw(prog)| <= UNSET && Patched(before) && relocs == []
      requires |marks| == |symbols| && forall i :: 0 <= i < |marks| ==> marks[i] == (symbols[i].image in Externs(prog))
      modifies this`code, this`relocs
      ensures st == SymbolsFate(symbols, Externs(prog))
      ensures st == Ok || st == Unset || st == TooMany
      ensures st == Ok ==> AllSet(prog) && relocs == TableRelocs(symbols, Externs(prog))
      ensures st == Unset ==> !AllSet(prog)
      ensures st == Ok ==> Patched(done) && Includes(done, before)
      ensures st == Ok ==> forall i :: 0 <= i < |symbols| ==> SymbolDone(symbols[i], marks[i], done, relocs)
      ensures st == Ok ==> forall r :: r in relocs ==> IsLocal(prog, r)
    {
      hide Raw, LabelPos, AbsoluteSites, RelativeSites, Externs, Globals, Target, AllSet, Distances, IsLocal, Patched,
        EntryFor, SymbolDone, Includes, Tables, SymbolsFate, TableRelocs;
      done := before;
      NoSymbols(symbols, Externs(prog));
      IncludesMore(before, []);
      for i := 0 to |symbols|
        invariant Patched(done) && Includes(done, before) && |relocs| < RELOC_MAX
        invariant forall k :: 0 <= k < i ==> SymbolDone(symbols[k], marks[k], done, relocs)
        invariant forall r :: r in relocs ==> IsLocal(prog, r)
        invariant forall k :: 0 <= k < i && !marks[k] ==> symbols[k].pos != UNSET
        invariant SymbolsFate(symbols[..i], Externs(prog)) == Ok && relocs == TableRelocs(symbols[..i], Externs(prog))
      {
        ghost var done0, relocs0 := done, relocs;
        var s := symbols[i];
        NextSymbol(symbols, Externs(prog), i);
        SymbolEntry(symbols, globals, externs, prog, i);
        st, done := CheckSymbol(s, marks[i], done);
        if st == Unset { UnsetSymbol(symbols, globals, externs, prog, i); }
        if st != Ok {
          SymbolsStay(symbols, Externs(prog), i + 1);
          return;
        }
        SymbolsStayDone(symbols[..i], marks[..i], done0, relocs0, done, relocs);
        NewlyDone(s, marks[i], before, done0, relocs0, done, relocs);
        if !marks[i] { LocalEntry(symbols, globals, externs, prog, i); }
      }
      TablesKnow(symbols, globals, externs, prog);
      NoneUnset(symbols, prog);
      assert symbols[..|symbols|] == symbols;
      st := Ok;
    }

    /** The check of an object before it is written: every operand patched, every local site listed. */
    method Check() returns (st: Status)
      requires Valid()
      modifies this`code, this`relocs
      ensures st == Ok ==> ExternsClean(prog) && AllSet(prog) && OperandsIn(prog, code) && LocalsListed(prog, relocs)
      ensures st == if ExternsClean(prog) then SymbolsFate(TableOf(prog), Externs(prog)) else BadExtern
      ensures st == BadExtern <==> !ExternsClean(prog)
      ensures st == Unset ==> !AllSet(prog)
      ensures st != Redefinition
      ensures st == Ok ==> relocs == ListedRelocs(prog)
    {
      hide Raw, Externs, Globals, Target, AllSet, ExternsClean, Distances, IsLocal, Patched, EntryFor, SymbolDone, Includes,
        OperandsIn, PatchAll, Tables, AllRight, InRange, SymbolsFate, TableRelocs, TableOf;
      TablesKnow(symbols, globals, externs, prog);
      KnowsTable(symbols, prog);
      ghost var done;
      var marks;
      st, marks, done := CheckExterns();
      if st != Ok { return; }
      ghost var forExterns := done;
      st, done := CheckSymbols(marks, done);
      if st != Ok { return; }
      forall i | 0 <= i < |symbols| && marks[i] ensures Includes(done, Target(symbols[i].relocs, UNSET)) {
        IncludesTwice(done, forExterns, Target(symbols[i].relocs, UNSET));
      }
      AllReached(symbols, prog, marks, done, relocs);
      IsPatched(done);
      PatchesReach(prog, done);
    }

    lemma IsPatched(done: seq<Reloc>)
      requires Patched(done)
      ensures AllRight(prog, done) && InRange(done, |Raw(prog)|) && code == PatchAll(Raw(prog), done)
    {
    }

    /** The globals and externs with fresh indices; the globals lose their relative sites. */
    method Strip() returns (kept: seq<Symbol>, gs: seq<nat>, es: seq<nat>)
      requires forall g :: 0 <= g < |globals| ==> globals[g] < |symbols|
      requires forall e :: 0 <= e < |externs| ==> externs[e] < |symbols|
      ensures |gs| == |globals| && |es| == |externs| && |kept| == |gs| + |es|
      ensures forall g :: 0 <= g < |gs| ==> gs[g] == g && SameEntry(kept[g], symbols[globals[g]])
      ensures forall e :: 0 <= e < |es| ==> es[e] == |gs| + e && SameEntry(kept[|gs| + e], symbols[externs[e]])
    {
      kept, gs, es := [], [], [];
      for i := 0 to |globals|
        invariant |kept| == |gs| == i
        invariant forall g :: 0 <= g < i ==> gs[g] == g && SameEntry(kept[g], symbols[globals[g]])
      {
        gs, kept := gs + [|kept|], kept + [symbols[globals[i]].(relrelocs := [])];
      }
      for i := 0 to |externs|
        invariant |kept| == |globals| + i && |es| == i
        invariant forall g :: 0 <= g < |globals| ==> SameEntry(kept[g], symbols[globals[g]])
        invariant forall e :: 0 <= e < i ==> es[e] == |globals| + e && SameEntry(kept[|globals| + e], symbols[externs[e]])
      {
        es, kept := es + [|kept|], kept + [symbols[externs[i]]];
      }
    }

    /** The object: all symbols with debug information, otherwise globals and externs only. */
    method Finish(debug: bool) returns (obj: Obj)
      requires Tables(symbols, globals, externs, prog) && OperandsIn(prog, code) && LocalsListed(prog, relocs)
      ensures Assembles(prog, obj) && obj.code == code && obj.relocs == relocs
    {
      hide Raw, EntryFor, OperandsIn, Orderly, IsLocal, Globals, Externs, Tables, Operand;
      Declared(symbols, globals, externs, prog);
      if debug {
        obj := Obj(code, relocs, globals, externs, symbols);
      } else {
        var kept, gs, es := Strip();
        obj := Obj(code, relocs, gs, es, kept);
      }
    }

    /**
     * Assembles a parsed program. How that ends, and the relocations in their order, do not depend on the debug
     * symbols; apart from full tables it fails exactly on programs that make no sense.
     */
    method Assemble(source: Program, debug: bool) returns (st: Status, obj: Obj)
      requires Valid() && prog == [] && |Raw(source)| <= UNSET
      modifies this
      ensures st == AssembleFate(source)
      ensures st == Ok ==> Assemblable(source) && Assembles(source, obj) && obj.relocs == ListedRelocs(source)
      ensures st == Redefinition ==> !Orderly(source)
      ensures st == BadExtern ==> Orderly(source) && !ExternsClean(source)
      ensures st == Unset ==> Orderly(source) && ExternsClean(source) && !AllSet(source)
    {
      hide Raw, Orderly, Assembles, ExternsClean, AllSet, OperandsIn, Tables, CompiledFate, CompileFate, SymbolsFate,
        ListedRelocs;
      obj := Obj([], [], [], [], []);
      NothingCompiled();
      assert source[..0] == [];
      for i := 0 to |source|
        invariant Valid() && prog == source[..i] && CompiledFate(prog) == Ok
      {
        assert source[..i + 1] == source[..i] + [source[i]];
        RawPrefix(source, i + 1);
        CompiledNext(prog, source[i]);
        st := Compile(source[i]);
        if st != Ok {
          CompiledStays(source, i + 1);
          FateIsCause(source, i, st);
          return;
        }
      }
      assert source[..|source|] == source;
      TablesKnow(symbols, globals, externs, prog);
      st := Check();
      if st != Ok { return; }
      obj := Finish(debug);
    }
  }

  /** The relocations are those of the local sites, no more and no fewer. */
  predicate LocalsListed(prog: Program, relocs: seq<Reloc>) {
    && (forall r :: r in relocs ==> IsLocal(prog, r))
    && (forall i :: 0 <= i < |prog| && prog[i].InstLabel? && prog[i].name !in Externs(prog) ==>
          exists r :: r in relocs && r.where == SiteAt(prog, i) && r.what == Operand(prog, i))
  }

  lemma IncludesTwice(all: seq<Reloc>, some: seq<Reloc>, part: seq<Reloc>)
    requires Includes(all, some) && Includes(some, part)
    ensures Includes(all, part)
  {
  }

  /** Once every symbol is done, every label operand has its patch and every local one its relocation. */
  lemma AllReached(symbols: seq<Symbol>, prog: Program, marks: seq<bool>, done: seq<Reloc>, relocs: seq<Reloc>)
    requires Knows(symbols, prog) && |Raw(prog)| <= UNSET && |marks| == |symbols|
    requires forall i :: 0 <= i < |marks| ==> marks[i] == (symbols[i].image in Externs(prog))
    requires forall i :: 0 <= i < |symbols| && marks[i] ==> Includes(done, Target(symbols[i].relocs, UNSET))
    requires forall i :: 0 <= i < |symbols| ==> SymbolDone(symbols[i], marks[i], done, relocs)
    requires forall r :: r in relocs ==> IsLocal(prog, r)
    ensures LocalsListed(prog, relocs)
    ensures forall j :: 0 <= j < |prog| && HasSite(prog[j]) ==>
              exists r :: r in done && r.where == SiteAt(prog, j) && r.what == Operand(prog, j)
  {
    hide Raw, Externs, Knows, Operand, SiteAt, Includes, SymbolDone, IsLocal;
    forall j | 0 <= j < |prog| && HasSite(prog[j])
      ensures exists r :: r in done && r.where == SiteAt(prog, j) && r.what == Operand(prog, j)
      ensures prog[j].InstLabel? && prog[j].name !in Externs(prog) ==>
                exists r :: r in relocs && r.where == SiteAt(prog, j) && r.what == Operand(prog, j)
    {
      var i := FindSymbol(symbols, prog[j].name);
      KnownOperand(symbols, prog, j);
      OperandReached(prog, symbols[i], marks[i], done, relocs, j);
    }
  }

  lemma KnownOperand(symbols: seq<Symbol>, prog: Program, j: nat)
    requires Knows(symbols, prog) && j < |prog| && HasSite(prog[j])
    ensures var i := FindSymbol(symbols, prog[j].name); i < |symbols| && symbols[i] == EntryFor(prog, prog[j].name)
  {
    hide EntryFor;
  }

  lemma OperandReached(prog: Program, s: Symbol, isExtern: bool, done: seq<Reloc>, relocs: seq<Reloc>, j: nat)
    requires |Raw(prog)| <= UNSET && j < |prog| && HasSite(prog[j]) && s == EntryFor(prog, prog[j].name)
    requires isExtern == (s.image in Externs(prog)) && SymbolDone(s, isExtern, done, relocs)
    requires isExtern ==> Includes(done, Target(s.relocs, UNSET))
    ensures exists r :: r in done && r.where == SiteAt(prog, j) && r.what == Operand(prog, j)
    ensures prog[j].InstLabel? && !isExtern ==>
              exists r :: r in relocs && r.where == SiteAt(prog, j) && r.what == Operand(prog, j)
  {
    hide Raw, Externs, LabelPos, AbsoluteSites, RelativeSites, SiteAt;
    var site := SiteAt(prog, j);
    SiteWraps(prog, j);
    LabelFits(prog, s.image);
    var relative := prog[j].InstRelLabel?;
    SitesExactly(prog, relative, s.image, Wrap(site));
    assert IsSite(prog, relative, s.image, Wrap(site), j);
    if relative {
      var k :| 0 <= k < |s.relrelocs| && s.relrelocs[k] == site;
      assert Distances(s)[k] in Distances(s) && Distances(s)[k].where == site;
    } else {
      var k :| 0 <= k < |s.relocs| && s.relocs[k] == site;
      var what := if isExtern then UNSET else s.pos;
      assert Target(s.relocs, what)[k] in Target(s.relocs, what) && Target(s.relocs, what)[k] == Reloc(site, what);
    }
  }

  /** All patches and relocations of a symbol are there. */
  predicate SymbolDone(s: Symbol, isExtern: bool, done: seq<Reloc>, relocs: seq<Reloc>) {
    && Includes(done, Distances(s))
    && (!isExtern ==> Includes(done, Target(s.relocs, s.pos)) && Includes(relocs, Target(s.relocs, s.pos)))
  }

  lemma IncludesMore(rs: seq<Reloc>, more: seq<Reloc>)
    ensures Includes(rs + more, rs) && Includes(rs + more, more) && rs + [] == rs
    ensures forall part :: Includes(rs, part) ==> Includes(rs + more, part)
  {
  }

  lemma SymbolsStayDone(symbols: seq<Symbol>, marks: seq<bool>, done: seq<Reloc>, relocs: seq<Reloc>,
                        done': seq<Reloc>, relocs': seq<Reloc>)
    requires |symbols| == |marks| && done <= done' && relocs <= relocs'
    requires forall k :: 0 <= k < |symbols| ==> SymbolDone(symbols[k], marks[k], done, relocs)
    ensures forall k :: 0 <= k < |symbols| ==> SymbolDone(symbols[k], marks[k], done', relocs')
  {
    hide Includes, Target, Distances;
    assert done' == done + done'[|done|..] && relocs' == relocs + relocs'[|relocs|..];
    IncludesMore(done, done'[|done|..]);
    IncludesMore(relocs, relocs'[|relocs|..]);
  }

  lemma NewlyDone(s: Symbol, isExtern: bool, before: seq<Reloc>, done: seq<Reloc>, relocs: seq<Reloc>,
                  done': seq<Reloc>, relocs': seq<Reloc>)
    requires Includes(done, before)
    requires done' == done + (Distances(s) + if isExtern then [] else Target(s.relocs, s.pos))
    requires relocs' == relocs + if isExtern then [] else Target(s.relocs, s.pos)
    ensures SymbolDone(s, isExtern, done', relocs') && Includes(done', before)
  {
    hide Target, Distances;
  }

  lemma TablesIndex(symbols: seq<Symbol>, globals: seq<nat>, externs: seq<nat>, prog: Program)
    requires Tables(symbols, globals, externs, prog)
    ensures Indexes(symbols, globals, Globals(prog)) && Indexes(symbols, externs, Externs(prog))
  {
  }

  lemma ExternEntry(symbols: seq<Symbol>, globals: seq<nat>, externs: seq<nat>, prog: Program, e: nat)
    requires Tables(symbols, globals, externs, prog) && e < |externs|
    ensures externs[e] < |symbols| && e < |Externs(prog)| && Externs(prog)[e] in Externs(prog)
    ensures symbols[externs[e]] == EntryFor(prog, Externs(prog)[e])
  {
    hide EntryFor, Externs;
  }

  /** The declared indices hold the entries of the declared names. */
  lemma Declared(symbols: seq<Symbol>, globals: seq<nat>, externs: seq<nat>, prog: Program)
    requires Tables(symbols, globals, externs, prog)
    ensures |globals| == |Globals(prog)| && |externs| == |Externs(prog)|
    ensures forall g :: 0 <= g < |globals| ==>
              globals[g] < |symbols| && SameEntry(symbols[globals[g]], EntryFor(prog, Globals(prog)[g]))
    ensures forall e :: 0 <= e < |externs| ==>
              externs[e] < |symbols| && SameEntry(symbols[externs[e]], EntryFor(prog, Externs(prog)[e]))
  {
    hide EntryFor, Externs, Globals;
  }

  lemma SymbolEntry(symbols: seq<Symbol>, globals: seq<nat>, externs: seq<nat>, prog: Program, i: nat)
    requires Tables(symbols, globals, externs, prog) && i < |symbols|
    ensures symbols[i] == EntryFor(prog, symbols[i].image)
  {
    hide EntryFor;
  }

  lemma LocalEntry(symbols: seq<Symbol>, globals: seq<nat>, externs: seq<nat>, prog: Program, i: nat)
    requires Tables(symbols, globals, externs, prog) && i < |symbols| && symbols[i].image !in Externs(prog)
    requires |Raw(prog)| <= UNSET
    ensures forall r :: r in Target(symbols[i].relocs, symbols[i].pos) ==> IsLocal(prog, r)
  {
    hide LabelPos, AbsoluteSites, RelativeSites, IsLocal, Target, Externs, Raw;
    RightLocal(prog, symbols[i].image);
  }

  lemma UnsetSymbol(symbols: seq<Symbol>, globals: seq<nat>, externs: seq<nat>, prog: Program, i: nat)
    requires Tables(symbols, globals, externs, prog) && i < |symbols| && symbols[i].image !in Externs(prog)
    requires |Raw(prog)| <= UNSET && symbols[i].pos == UNSET
    ensures !AllSet(prog)
  {
    hide LabelPos, AbsoluteSites, RelativeSites, Externs, Raw;
    LabelFits(prog, symbols[i].image);
    SomeUnset(prog, symbols[i].image);
  }

  /** The distances from a symbol's relative sites to its position. */
  function Distances(s: Symbol): (rs: seq<Reloc>)
    ensures |rs| == |s.relrelocs|
  {
    seq(|s.relrelocs|, j requires 0 <= j < |s.relrelocs| => Reloc(s.relrelocs[j], Wrap(s.pos - s.relrelocs[j])))
  }

  predicate Includes(rs: seq<Reloc>, part: seq<Reloc>) {
    forall r :: r in part ==> r in rs
  }

  predicate CleanName(prog: Program, name: string) {
    LabelPos(prog, name) == UNSET && RelativeSites(prog, name) == []
  }

  lemma AllClean(prog: Program)
    requires forall x :: 0 <= x < |Externs(prog)| ==> CleanName(prog, Externs(prog)[x])
    ensures ExternsClean(prog)
  {
  }

  lemma NotClean(prog: Program, name: string)
    requires name in Externs(prog) && !CleanName(prog, name)
    ensures !ExternsClean(prog)
  {
  }

  lemma SomeUnset(prog: Program, name: string)
    requires Mentions(prog, name) && name !in Externs(prog) && LabelPos(prog, name) == UNSET
    ensures !AllSet(prog)
  {
  }

  lemma NoneUnset(symbols: seq<Symbol>, prog: Program)
    requires Knows(symbols, prog) && |Raw(prog)| <= UNSET
    requires forall k :: 0 <= k < |symbols| && symbols[k].image !in Externs(prog) ==> symbols[k].pos != UNSET
    ensures AllSet(prog)
  {
    hide Raw, LabelPos, AbsoluteSites, RelativeSites, Externs;
    forall i | 0 <= i < |prog| && Named(prog[i]) && prog[i].name !in Externs(prog) ensures LabelPos(prog, prog[i].name) != UNSET {
      LabelFits(prog, prog[i].name);
      KnownEntry(symbols, prog, prog[i].name);
    }
  }

  lemma MarkOne(externs: seq<nat>, e: nat, marks: seq<bool>)
    requires e < |externs| && externs[e] < |marks|
    requires forall i :: 0 <= i < |marks| ==> marks[i] == (exists x :: 0 <= x < e && externs[x] == i)
    ensures var marks' := marks[externs[e] := true];
            forall i :: 0 <= i < |marks| ==> marks'[i] == (exists x :: 0 <= x < e + 1 && externs[x] == i)
  {
    var marks' := marks[externs[e] := true];
    forall i | 0 <= i < |marks| ensures marks'[i] == (exists x :: 0 <= x < e + 1 && externs[x] == i) {
      if i == externs[e] {
        assert 0 <= e < e + 1 && externs[e] == i;
      } else if marks[i] {
        var x :| 0 <= x < e && externs[x] == i;
        assert 0 <= x < e + 1;
      }
    }
  }

  lemma ExternMarks(symbols: seq<Symbol>, externs: seq<nat>, prog: Program, marks: seq<bool>)
    requires Knows(symbols, prog) && Indexes(symbols, externs, Externs(prog)) && |marks| == |symbols|
    requires forall i :: 0 <= i < |marks| ==> marks[i] == (exists x :: 0 <= x < |externs| && externs[x] == i)
    ensures forall i :: 0 <= i < |marks| ==> marks[i] == (symbols[i].image in Externs(prog))
  {
    hide EntryFor, Externs;
    forall i | 0 <= i < |marks| ensures marks[i] == (symbols[i].image in Externs(prog)) {
      if symbols[i].image in Externs(prog) {
        var x :| 0 <= x < |externs| && Externs(prog)[x] == symbols[i].image;
        assert symbols[externs[x]].image == symbols[i].image;
      }
    }
  }

  // ---------- right patches ----------

  lemma RightEmpty(prog: Program)
    ensures AllRight(prog, []) && PatchAll(Raw(prog), []) == Raw(prog)
  {
  }

  lemma MorePatches(prog: Program, done: seq<Reloc>, more: seq<Reloc>)
    requires AllRight(prog, done) && AllRight(prog, more)
    ensures AllRight(prog, done + more) && InRange(done, |Raw(prog)|) && InRange(more, |Raw(prog)|)
    ensures InRange(done + more, |Raw(prog)|)
    ensures PatchAll(Raw(prog), done + more) == PatchAll(PatchAll(Raw(prog), done), more)
  {
    hide RightPatch, Raw;
    RightIsCoherent(prog, done);
    RightIsCoherent(prog, more);
    PatchSplit(Raw(prog), done, more);
  }

  lemma SiteWraps(prog: Program, i: nat)
    requires i < |prog| && HasSite(prog[i]) && |Raw(prog)| <= UNSET
    ensures Wrap(SiteAt(prog, i)) == SiteAt(prog, i) && SiteAt(prog, i) % 2 == 0
  {
    hide Raw, SiteAt;
    SiteShape(prog, i);
  }

  lemma SitesEven(prog: Program, name: string)
    requires |Raw(prog)| <= UNSET
    ensures forall j :: 0 <= j < |AbsoluteSites(prog, name)| ==> AbsoluteSites(prog, name)[j] % 2 == 0
  {
    hide Raw, AbsoluteSites, RelativeSites, SiteAt;
    var sites := AbsoluteSites(prog, name);
    forall j | 0 <= j < |sites| ensures sites[j] % 2 == 0 {
      SitesExactly(prog, false, name, sites[j]);
      var i :| IsSite(prog, false, name, sites[j], i);
      SiteWraps(prog, i);
    }
  }

  lemma RightExtern(prog: Program, name: string)
    requires |Raw(prog)| <= UNSET && name in Externs(prog)
    ensures AllRight(prog, Target(AbsoluteSites(prog, name), UNSET))
  {
    hide Raw, AbsoluteSites, RelativeSites, SiteAt, Externs;
    var sites := AbsoluteSites(prog, name);
    forall j | 0 <= j < |sites| ensures RightPatch(prog, Reloc(sites[j], UNSET)) {
      SitesExactly(prog, false, name, sites[j]);
      var i :| IsSite(prog, false, name, sites[j], i);
      SiteWraps(prog, i);
      assert Operand(prog, i) == UNSET;
    }
  }

  lemma RightLocal(prog: Program, name: string)
    requires |Raw(prog)| <= UNSET && name !in Externs(prog)
    ensures AllRight(prog, Target(AbsoluteSites(prog, name), Wrap(LabelPos(prog, name))))
    ensures forall r :: r in Target(AbsoluteSites(prog, name), Wrap(LabelPos(prog, name))) ==> IsLocal(prog, r)
  {
    hide Raw, AbsoluteSites, RelativeSites, SiteAt, Externs, LabelPos;
    var sites, pos := AbsoluteSites(prog, name), Wrap(LabelPos(prog, name));
    forall j | 0 <= j < |sites| ensures RightPatch(prog, Reloc(sites[j], pos)) && IsLocal(prog, Reloc(sites[j], pos)) {
      SitesExactly(prog, false, name, sites[j]);
      var i :| IsSite(prog, false, name, sites[j], i);
      SiteWraps(prog, i);
      assert Operand(prog, i) == pos;
    }
  }

  lemma RightDistances(prog: Program, name: string)
    requires |Raw(prog)| <= UNSET
    ensures AllRight(prog, Distances(EntryFor(prog, name)))
  {
    hide Raw, AbsoluteSites, RelativeSites, SiteAt, LabelPos, Wrap;
    var sites := RelativeSites(prog, name);
    LabelFits(prog, name);
    forall j | 0 <= j < |sites| ensures RightPatch(prog, Distances(EntryFor(prog, name))[j]) {
      SitesExactly(prog, true, name, sites[j]);
      var i :| IsSite(prog, true, name, sites[j], i);
      SiteWraps(prog, i);
      assert Operand(prog, i) == Wrap(LabelPos(prog, name) - sites[j]);
    }
  }

  /** Adding the site to what is known of the label gives its next entry. */
  lemma SiteEntry(symbols: seq<Symbol>, prog: Program, bc: Bytecode, site: Word)
    requires HasSite(bc) && Knows(symbols, prog) && site + 2 == |Raw(prog + [bc])|
    ensures var i := FindSymbol(symbols, bc.name);
            var s := if i < |symbols| then symbols[i] else Symbol(bc.name, UNSET, [], []);
            EntryFor(prog + [bc], bc.name) ==
              if bc.InstRelLabel? then s.(relrelocs := s.relrelocs + [site]) else s.(relocs := s.relocs + [site])
  {
    hide Raw, LabelPos, AbsoluteSites, RelativeSites, Knows;
    KnownEntry(symbols, prog, bc.name);
    EntrySnoc(prog, bc, bc.name);
  }

  lemma OperandEmitted(bc: Bytecode, n: nat)
    requires HasSite(bc)
    ensures BytesOf(bc, n) == Pad(n) + [bc.op, 0, 0]
  {
  }

  lemma UnsizedName(bc: Bytecode, n: nat)
    requires Named(bc) && !HasSite(bc)
    ensures BytesOf(bc, n) == []
  {
  }

  lemma LabelFits(prog: Program, name: string)
    requires |Raw(prog)| <= UNSET
    ensures Wrap(LabelPos(prog, name)) == LabelPos(prog, name)
  {
    LabelBound(prog, name);
  }

  lemma TablesKnow(symbols: seq<Symbol>, globals: seq<nat>, externs: seq<nat>, prog: Program)
    requires Tables(symbols, globals, externs, prog)
    ensures Knows(symbols, prog) && Orderly(prog)
  {
  }

  // ---------- fates ----------

  lemma FateUnset(prog: Program, bc: Bytecode)
    requires Named(bc) && !HasSite(bc) && CompileFate(prog, bc) == Ok
    ensures LabelPos(prog, bc.name) == UNSET
  {
    hide LabelPos, Names;
  }

  lemma NothingCompiled()
    ensures CompiledFate([]) == Ok
  {
  }

  lemma PlainFate(prog: Program, bc: Bytecode)
    requires !Named(bc)
    ensures CompileFate(prog, bc) == Ok
  {
  }

  /** What the tables say about a use of a label. */
  lemma SiteFate(symbols: seq<Symbol>, prog: Program, bc: Bytecode)
    requires HasSite(bc) && Knows(symbols, prog)
    ensures var i := FindSymbol(symbols, bc.name);
            var s := if i < |symbols| then symbols[i] else Symbol(bc.name, UNSET, [], []);
            CompileFate(prog, bc) ==
              if i == |symbols| && i + 1 >= SYMBOL_MAX then TooMany
              else if |if bc.InstRelLabel? then s.relrelocs else s.relocs| + 1 >= INTERN_RELOC_MAX then TooMany
              else Ok
  {
    hide LabelPos, AbsoluteSites, RelativeSites, Names, Knows;
    TableImages(symbols, prog);
    KnownName(symbols, prog, bc.name);
    KnownEntry(symbols, prog, bc.name);
  }

  /** What the tables say about setting or declaring a name. */
  lemma NameFate(symbols: seq<Symbol>, globals: seq<nat>, externs: seq<nat>, prog: Program, bc: Bytecode)
    requires Named(bc) && !HasSite(bc) && Knows(symbols, prog) && |Raw(prog)| <= UNSET
    requires |globals| == |Globals(prog)| && |externs| == |Externs(prog)|
    ensures var i := FindSymbol(symbols, bc.name);
            CompileFate(prog, bc) ==
              if i < |symbols| && symbols[i].pos != UNSET then Redefinition
              else if i == |symbols| && i + 1 >= SYMBOL_MAX then TooMany
              else if bc.Global? && |globals| + 1 >= GLOBAL_MAX then TooMany
              else if bc.Extern? && |externs| + 1 >= EXTERN_MAX then TooMany
              else Ok
  {
    hide LabelPos, AbsoluteSites, RelativeSites, Names, Knows, Raw, Globals, Externs, Wrap;
    TableImages(symbols, prog);
    KnownName(symbols, prog, bc.name);
    KnownEntry(symbols, prog, bc.name);
    LabelFits(prog, bc.name);
  }

  lemma TableImages(symbols: seq<Symbol>, prog: Program)
    requires Knows(symbols, prog)
    ensures Images(symbols) == Names(prog) && |symbols| == |Names(prog)|
  {
  }

  lemma NoSymbols(symbols: seq<Symbol>, externs: seq<string>)
    ensures SymbolsFate(symbols[..0], externs) == Ok && TableRelocs(symbols[..0], externs) == []
  {
  }

  lemma NextSymbol(symbols: seq<Symbol>, externs: seq<string>, i: nat)
    requires i < |symbols| && SymbolsFate(symbols[..i], externs) == Ok
    ensures TableRelocs(symbols[..i + 1], externs) ==
            TableRelocs(symbols[..i], externs) + if symbols[i].image in externs then [] else Target(symbols[i].relocs, symbols[i].pos)
    ensures SymbolsFate(symbols[..i + 1], externs) ==
            if symbols[i].image in externs then Ok
            else if symbols[i].pos == UNSET then Unset
            else if |TableRelocs(symbols[..i], externs)| + |symbols[i].relocs| >= RELOC_MAX then TooMany
            else Ok
  {
    assert symbols[..i + 1][..i] == symbols[..i];
  }

  /** A name set again is why a program is refused. */
  lemma FateIsCause(prog: Program, n: nat, st: Status)
    requires n < |prog| && st != Ok && st == CompileFate(prog[..n], prog[n])
    ensures st == Redefinition || st == TooMany
    ensures st == Redefinition ==> !Orderly(prog)
  {
    hide LabelPos, Names, AbsoluteSites, RelativeSites, Globals, Externs;
  }
}
