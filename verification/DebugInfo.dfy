/** Debug information changes symbol tables only. */
module DebugInfo {
  import opened Words
  import opened ObjectFiles
  import opened Linking
  import opened LinkingCorrect
  import opened Assembly
  import opened Toolchain
  import Assembler
  import Linker

  /** Two objects differ at most in symbols that are neither global nor extern, and in relative sites. */
  predicate Alike(a: Obj, b: Obj) {
    && IndicesGood(a) && IndicesGood(b) && a.code == b.code && a.relocs == b.relocs
    && |a.externs| == |b.externs| && |a.globals| == |b.globals|
    && (forall e :: 0 <= e < |a.externs| ==> SameEntry(ExternOf(a, e), ExternOf(b, e)))
    && (forall g :: 0 <= g < |a.globals| ==> SameEntry(GlobalOf(a, g), GlobalOf(b, g)))
  }

  predicate AllAlike(objs: seq<Obj>, others: seq<Obj>) {
    |objs| == |others| && forall k :: 0 <= k < |objs| ==> Alike(objs[k], others[k])
  }

  /** Objects of one source are alike. */
  lemma SameSourceAlike(prog: Program, a: Obj, b: Obj)
    requires Assembles(prog, a) && Assembles(prog, b) && a.relocs == b.relocs
    ensures Alike(a, b)
  {
    hide OperandsIn, EntryFor, Globals, Externs, IsLocal, Operand, SiteAt;
    OneCode(prog, a.code, b.code);
    forall e | 0 <= e < |a.externs| ensures SameEntry(ExternOf(a, e), ExternOf(b, e)) {
      assert SameEntry(ExternOf(a, e), EntryFor(prog, Externs(prog)[e]));
      assert SameEntry(ExternOf(b, e), EntryFor(prog, Externs(prog)[e]));
    }
    forall g | 0 <= g < |a.globals| ensures SameEntry(GlobalOf(a, g), GlobalOf(b, g)) {
      assert SameEntry(GlobalOf(a, g), EntryFor(prog, Globals(prog)[g]));
      assert SameEntry(GlobalOf(b, g), EntryFor(prog, Globals(prog)[g]));
    }
  }

  /** The operands and the other bytes are all there is. */
  lemma OneCode(prog: Program, c: seq<Byte>, d: seq<Byte>)
    requires OperandsIn(prog, c) && OperandsIn(prog, d)
    ensures c == d
  {
    hide Raw, SiteAt, Operand, WordAt;
    forall a | 0 <= a < |c| ensures c[a] == d[a] {
      if InSite(prog, a) {
        var i :| 0 <= i < |prog| && HasSite(prog[i]) && SiteAt(prog, i) <= a < SiteAt(prog, i) + 2;
        SameWord(c, d, SiteAt(prog, i));
      }
    }
  }

  lemma SameWord(c: seq<Byte>, d: seq<Byte>, at: nat)
    requires at + 2 <= |c| && at + 2 <= |d| && WordAt(c, at) == WordAt(d, at)
    ensures c[at] == d[at] && c[at + 1] == d[at + 1]
  {
  }

  lemma EventsAlike(a: Obj, b: Obj, offset: nat)
    requires Alike(a, b)
    ensures EventsOf(a, offset) == EventsOf(b, offset) && Padded(a) == Padded(b) && EvenSize(a) == EvenSize(b)
    ensures LocalRelocs(a, offset) == LocalRelocs(b, offset)
  {
    hide Shifted, Wrap;
    forall e | 0 <= e < |a.externs| ensures RefEvent(a, offset, e) == RefEvent(b, offset, e) {
      assert SameEntry(ExternOf(a, e), ExternOf(b, e));
    }
    forall g | 0 <= g < |a.globals| ensures DefEvent(a, offset, g) == DefEvent(b, offset, g) {
      assert SameEntry(GlobalOf(a, g), GlobalOf(b, g));
    }
  }

  lemma {:induction false} OffsetsAlike(objs: seq<Obj>, others: seq<Obj>, k: nat)
    requires AllAlike(objs, others) && k <= |objs|
    ensures OffsetOf(objs, k) == OffsetOf(others, k)
  {
    if k > 0 { OffsetsAlike(objs, others, k - 1); }
  }

  /** The linker sees the same image, relocations and events. */
  lemma {:induction false} ProgramsAlike(objs: seq<Obj>, others: seq<Obj>)
    requires AllAlike(objs, others) && AllIndicesGood(objs) && AllIndicesGood(others)
    ensures Image(objs) == Image(others) && AllLocalRelocs(objs) == AllLocalRelocs(others) && Events(objs) == Events(others)
    decreases |objs|
  {
    hide Padded, LocalRelocs, EventsOf, Alike, EvenSize, IndicesGood;
    if objs != [] {
      var last := |objs| - 1;
      ProgramsAlike(objs[..last], others[..last]);
      OffsetsAlike(objs, others, last);
      EventsAlike(objs[last], others[last], OffsetOf(objs, last));
    }
  }

  /** With or without debug information a program links, or fails to, in the same way and to the same executable. */
  lemma DebugInformationIsInert(objs: seq<Obj>, others: seq<Obj>, libs: seq<Library>)
    requires AllAlike(objs, others) && Linkable(objs) && Linkable(others) && AllIndicesGood(objs) && AllIndicesGood(others)
    ensures DefinedOnce(Events(objs)) <==> DefinedOnce(Events(others))
    ensures AllResolved(Events(objs), libs) <==> AllResolved(Events(others), libs)
    ensures AllRelocs(objs) == AllRelocs(others)
    ensures Dynamics(Events(objs), libs, |libs|) == Dynamics(Events(others), libs, |libs|)
    ensures DefinedOnce(Events(objs)) ==> LinkedCode(objs) == LinkedCode(others)
  {
    hide Events, Image, AllLocalRelocs, Linkable, AllAlike, DefinedOnce, AllResolved, Dynamics, PatchAll;
    ProgramsAlike(objs, others);
  }

  // ---------- from sources to an executable ----------

  /** What a build comes to. */
  datatype Outcome =
    | Failed(k: nat, why: Assembler.Status)
    | NotLinked(reason: Linker.Status)
    | Built(code: seq<Byte>, relocs: seq<Reloc>, dynamics: seq<Dynamic>)

  function SourceSize(sources: seq<Program>): nat {
    if sources == [] then 0 else
      var n := |Raw(sources[|sources| - 1])|;
      SourceSize(sources[..|sources| - 1]) + n + n % 2
  }

  /** Sources whose addresses fit, behind the start-up object. */
  predicate Buildable(sources: seq<Program>) {
    (forall k :: 0 <= k < |sources| ==> Sizable(sources[k]) && Distinct(sources[k])) && SourceSize(sources) + 4 < UNSET
  }

  function StartUp(executable: bool): seq<Obj> {
    if executable then [BOILERPLATE] else []
  }

  /** The start-up object and one object for each source. */
  predicate ObjectsOf(executable: bool, sources: seq<Program>, objs: seq<Obj>) {
    && |objs| == |StartUp(executable)| + |sources| && StartUp(executable) <= objs
    && forall k :: 0 <= k < |sources| ==> ObjectOf(sources[k], objs[|StartUp(executable)| + k])
  }

  predicate ObjectOf(source: Program, obj: Obj) {
    Assembler.AssembleFate(source) == Assembler.Ok && Assembles(source, obj) && obj.relocs == Assembler.ListedRelocs(source)
  }

  /** What linking the objects comes to; with debug symbols a table can be full as well. */
  predicate LinksTo(objs: seq<Obj>, shared: seq<Library>, early: nat, debug: bool, r: Outcome)
    requires AllIndicesGood(objs) && Linkable(objs)
  {
    match r
    case Failed(_, _) => false
    case NotLinked(why) => why != Linker.Linked && Linker.Ends(why, Linker.LinkFate(objs, shared, early), debug)
    case Built(code, relocs, dynamics) =>
      && Linker.LinkFate(objs, shared, early) == Linker.Linked
      && DefinedOnce(Events(objs)) && AllResolved(Events(objs), shared)
      && code == LinkedCode(objs) && relocs == AllRelocs(objs)
      && dynamics == Dynamics(Events(objs), shared, |shared|)
  }

  /** The first source that is not assembled. */
  predicate FailsFirst(sources: seq<Program>, k: nat, why: Assembler.Status) {
    && k < |sources| && why == Assembler.AssembleFate(sources[k]) && why != Assembler.Ok
    && forall j :: 0 <= j < k ==> Assembler.AssembleFate(sources[j]) == Assembler.Ok
  }

  /** What building the sources comes to, whatever debug symbols the objects have. */
  ghost predicate Means(executable: bool, sources: seq<Program>, shared: seq<Library>, early: nat, debug: bool, r: Outcome) {
    if r.Failed? then FailsFirst(sources, r.k, r.why)
    else exists objs :: ObjectsOf(executable, sources, objs) && Linkable(objs) && AllIndicesGood(objs) && LinksTo(objs, shared, early, debug, r)
  }

  lemma SizeNext(objs: seq<Obj>, obj: Obj)
    ensures OffsetOf(objs + [obj], |objs| + 1) == OffsetOf(objs, |objs|) + EvenSize(obj)
  {
    assert (objs + [obj])[..|objs|] == objs;
    OffsetOfPrefix(objs + [obj], |objs|, |objs|);
  }

  lemma StartUpSize(executable: bool)
    ensures OffsetOf(StartUp(executable), |StartUp(executable)|) <= 4 && Linkable(StartUp(executable))
  {
    hide WellFormed, Stands, Assemblable, Sizable, Distinct, SiteAt;
    BootstrapStands();
    assert StartUp(executable)[..0] == [];
  }

  lemma {:induction false} PartSize(sources: seq<Program>, n: nat)
    requires n <= |sources|
    ensures SourceSize(sources[..n]) <= SourceSize(sources)
    decreases |sources|
  {
    hide Raw;
    if n < |sources| {
      assert sources[..|sources| - 1][..n] == sources[..n];
      PartSize(sources[..|sources| - 1], n);
    } else {
      assert sources[..n] == sources;
    }
  }

  lemma ObjectIsGood(source: Program, obj: Obj)
    requires Sizable(source) && Distinct(source) && Assemblable(source) && Assembles(source, obj)
    ensures WellFormed(obj) && EvenSize(obj) == |Raw(source)| + |Raw(source)| % 2
  {
    hide Raw, WellFormed, Stands, Distinct, Assemblable, Assembles, Sizable;
    AssembledIsWellFormed(source, obj);
    CodeSize(source, obj);
  }

  lemma SourceNext(sources: seq<Program>, n: nat)
    requires Buildable(sources) && n < |sources|
    ensures Sizable(sources[n]) && Distinct(sources[n])
    ensures SourceSize(sources[..n]) + |Raw(sources[n])| + |Raw(sources[n])| % 2 == SourceSize(sources[..n + 1])
    ensures SourceSize(sources[..n + 1]) + 4 < UNSET
  {
    hide Raw, Sizable, Distinct;
    assert sources[..n + 1][..n] == sources[..n];
    PartSize(sources, n + 1);
  }

  lemma LinkableNext(objs: seq<Obj>, obj: Obj)
    requires Linkable(objs) && WellFormed(obj) && OffsetOf(objs, |objs|) + EvenSize(obj) < UNSET
    ensures Linkable(objs + [obj])
  {
    hide WellFormed;
    SizeNext(objs, obj);
  }

  lemma ObjectLinks(sources: seq<Program>, n: nat, objs: seq<Obj>, obj: Obj)
    requires Buildable(sources) && n < |sources| && Assembles(sources[n], obj) && Assemblable(sources[n])
    requires Linkable(objs) && OffsetOf(objs, |objs|) <= SourceSize(sources[..n]) + 4
    ensures Linkable(objs + [obj])
    ensures OffsetOf(objs + [obj], |objs| + 1) <= SourceSize(sources[..n + 1]) + 4
  {
    hide Raw, WellFormed, Distinct, Assemblable, Assembles, Sizable, Linkable, Buildable, SourceSize, EvenSize, OffsetOf;
    SourceNext(sources, n);
    ObjectIsGood(sources[n], obj);
    SizeNext(objs, obj);
    LinkableNext(objs, obj);
  }

  lemma NothingBuilt(executable: bool, sources: seq<Program>)
    ensures ObjectsOf(executable, sources[..0], StartUp(executable)) && SourceSize(sources[..0]) == 0
  {
  }

  /** One more source, one more object. */
  lemma ObjectsNext(executable: bool, sources: seq<Program>, n: nat, objs: seq<Obj>, obj: Obj)
    requires n < |sources| && ObjectsOf(executable, sources[..n], objs) && ObjectOf(sources[n], obj)
    ensures ObjectsOf(executable, sources[..n + 1], objs + [obj])
  {
    hide ObjectOf;
    var at, some, all := |StartUp(executable)|, sources[..n + 1], objs + [obj];
    forall k | 0 <= k < |some| ensures ObjectOf(some[k], all[at + k]) {
      if k < n { assert ObjectOf(sources[..n][k], objs[at + k]); }
    }
  }

  /** Assembles the sources, each with or without debug symbols, and links the objects with or without theirs. */
  method Build(executable: bool, sources: seq<Program>, shared: seq<Library>, early: nat, debug: seq<bool>, linkDebug: bool) returns (r: Outcome)
    requires Buildable(sources) && |debug| == |sources| && early <= |shared|
    ensures Means(executable, sources, shared, early, linkDebug, r)
  {
    hide Raw, Assembles, Linkable, DefinedOnce, AllResolved, Events, LinkedCode, AllRelocs, Dynamics, IndicesGood, Linker.LinkFate,
      Assembler.AssembleFate, Assembler.ListedRelocs, Distinct, Assemblable, SourceSize, OffsetOf, ObjectsOf, AllIndicesGood;
    NothingBuilt(executable, sources);
    var objs := StartUp(executable);
    StartUpSize(executable);
    for k := 0 to |sources|
      invariant ObjectsOf(executable, sources[..k], objs) && Linkable(objs)
      invariant OffsetOf(objs, |objs|) <= SourceSize(sources[..k]) + 4
      invariant forall j :: 0 <= j < k ==> Assembler.AssembleFate(sources[j]) == Assembler.Ok
    {
      SourceNext(sources, k);
      var assembler := new Assembler.Assembler();
      var st, obj := assembler.Assemble(sources[k], debug[k]);
      if st != Assembler.Ok {
        return Failed(k, st);
      }
      ObjectLinks(sources, k, objs, obj);
      ObjectsNext(executable, sources, k, objs, obj);
      objs := objs + [obj];
    }
    assert sources[..|sources|] == sources;
    GoodIndices(objs);
    var linker := new Linker.Linker();
    var linked := linker.Link(objs, shared, early, linkDebug);
    r := if linked == Linker.Linked then Built(linker.code, linker.relocs, linker.dynamics) else NotLinked(linked);
    assert LinksTo(objs, shared, early, linkDebug, r);
  }

  /** Any two objects lists of the same sources are alike. */
  lemma ObjectsAlike(executable: bool, sources: seq<Program>, objs: seq<Obj>, others: seq<Obj>)
    requires ObjectsOf(executable, sources, objs) && ObjectsOf(executable, sources, others) && AllIndicesGood(objs)
    ensures AllAlike(objs, others)
  {
    hide Assembles, Alike, IndicesGood, Assembler.AssembleFate, Assembler.ListedRelocs;
    var n := |StartUp(executable)|;
    forall k | 0 <= k < |objs| ensures Alike(objs[k], others[k]) {
      if k < n {
        assert objs[k] == others[k] == BOILERPLATE;
        AlikeItself(objs[k]);
      } else {
        assert ObjectOf(sources[k - n], objs[n + (k - n)]) && ObjectOf(sources[k - n], others[n + (k - n)]);
        SameSourceAlike(sources[k - n], objs[k], others[k]);
      }
    }
  }

  lemma AlikeItself(a: Obj)
    requires IndicesGood(a)
    ensures Alike(a, a)
  {
  }

  /** Without debug symbols in the linker the outcome is determined by the sources. */
  lemma PlainBuildsAgree(executable: bool, sources: seq<Program>, shared: seq<Library>, early: nat, r: Outcome, r': Outcome)
    requires Means(executable, sources, shared, early, false, r) && Means(executable, sources, shared, early, false, r')
    ensures r == r'
  {
    DebugCanOnlyFill(executable, sources, shared, early, false, r, r');
  }

  /** Debug symbols at either stage change nothing, except that those of the linker can fill one of its tables. */
  lemma DebugCanOnlyFill(executable: bool, sources: seq<Program>, shared: seq<Library>, early: nat, debug': bool, r: Outcome, r': Outcome)
    requires Means(executable, sources, shared, early, false, r) && Means(executable, sources, shared, early, debug', r')
    ensures r' == r || (debug' && r' == NotLinked(Linker.TooMany))
  {
    hide Events, DefinedOnce, AllResolved, LinkedCode, AllRelocs, Dynamics, IndicesGood, Linkable, Assembler.AssembleFate,
      ObjectOf, AllAlike, Linker.LinkFate;
    var debug := false;
    if !r.Failed? && !r'.Failed? {
      var objs :| ObjectsOf(executable, sources, objs) && Linkable(objs) && AllIndicesGood(objs) && LinksTo(objs, shared, early, debug, r);
      var others :| ObjectsOf(executable, sources, others) && Linkable(others) && AllIndicesGood(others) && LinksTo(others, shared, early, debug', r');
      ObjectsAlike(executable, sources, objs, others);
      DebugInformationIsInert(objs, others, shared);
      FatesAlike(objs, others, shared, early);
    } else {
      FailureIsFirst(executable, sources, shared, early, debug, debug', r, r');
    }
  }

  lemma {:induction false} ObjsFatesAlike(objs: seq<Obj>, others: seq<Obj>)
    requires AllAlike(objs, others) && AllIndicesGood(objs) && AllIndicesGood(others)
    ensures Linker.ObjsFate(objs) == Linker.ObjsFate(others)
  {
    hide Alike, IndicesGood, AllLocalRelocs, Events, Linker.EventsFate;
    if objs != [] {
      var n := |objs| - 1;
      ObjsFatesAlike(objs[..n], others[..n]);
      ProgramsAlike(objs, others);
    }
  }

  /** Linking alike objects ends alike. */
  lemma FatesAlike(objs: seq<Obj>, others: seq<Obj>, shared: seq<Library>, early: nat)
    requires AllAlike(objs, others) && AllIndicesGood(objs) && AllIndicesGood(others)
    ensures Linker.LinkFate(objs, shared, early) == Linker.LinkFate(others, shared, early)
  {
    hide AllAlike, IndicesGood, AllLocalRelocs, Events, Linker.ObjsFate, Linker.EntriesFit, AllResolved;
    ObjsFatesAlike(objs, others);
    ProgramsAlike(objs, others);
  }

  lemma FailureIsFirst(executable: bool, sources: seq<Program>, shared: seq<Library>, early: nat, debug: bool, debug': bool, r: Outcome, r': Outcome)
    requires Means(executable, sources, shared, early, debug, r) && Means(executable, sources, shared, early, debug', r') && (r.Failed? || r'.Failed?)
    ensures r == r'
  {
    hide Linkable, LinksTo, Assembles, Assembler.AssembleFate, Assembler.ListedRelocs;
    if r.Failed? && r'.Failed? {
      assert r.k == r'.k;
    } else if r.Failed? {
      BuiltIsAssembled(executable, sources, shared, early, debug', r');
    } else {
      BuiltIsAssembled(executable, sources, shared, early, debug, r);
    }
  }

  lemma BuiltIsAssembled(executable: bool, sources: seq<Program>, shared: seq<Library>, early: nat, debug: bool, r: Outcome)
    requires Means(executable, sources, shared, early, debug, r) && !r.Failed?
    ensures forall k :: 0 <= k < |sources| ==> Assembler.AssembleFate(sources[k]) == Assembler.Ok
  {
    hide Linkable, LinksTo, Assembles, Assembler.AssembleFate, Assembler.ListedRelocs;
    var objs :| ObjectsOf(executable, sources, objs) && Linkable(objs) && AllIndicesGood(objs) && LinksTo(objs, shared, early, debug, r);
    forall k | 0 <= k < |sources| ensures Assembler.AssembleFate(sources[k]) == Assembler.Ok {
      assert ObjectOf(sources[k], objs[|StartUp(executable)| + k]);
    }
  }

  /**
   * Building without any debug symbols, and building with some at either stage: the same failure, or the same code,
   * relocations and dynamic entries; only the linker's own debug symbols can fill a table instead.
   */
  method BuildBothWays(executable: bool, sources: seq<Program>, shared: seq<Library>, early: nat, debug: seq<bool>, linkDebug: bool)
    returns (plain: Outcome, r: Outcome)
    requires Buildable(sources) && |debug| == |sources| && early <= |shared|
    ensures Means(executable, sources, shared, early, false, plain)
    ensures r == plain || (linkDebug && r == NotLinked(Linker.TooMany))
  {
    hide Means;
    plain := Build(executable, sources, shared, early, seq(|sources|, _ => false), false);
    r := Build(executable, sources, shared, early, debug, linkDebug);
    DebugCanOnlyFill(executable, sources, shared, early, linkDebug, plain, r);
  }
}
