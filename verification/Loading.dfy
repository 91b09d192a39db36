/** Loading a linked executable: rebasing its relocations, and jumps that land. */
module Loading {
  import opened Words
  import opened ObjectFiles
  import opened Linking
  import opened LinkingCorrect

  /** The relocations with a base address added to their words. */
  function Rebased(rs: seq<Reloc>, base: Word): (r: seq<Reloc>)
    ensures |r| == |rs|
  {
    seq(|rs|, i requires 0 <= i < |rs| => Reloc(rs[i].where, Wrap(rs[i].what + base)))
  }

  /** Static relocations against the start, the library's against its base. */
  function Loaded(code: seq<Byte>, relocs: seq<Reloc>, shared: seq<Reloc>, start: Word, library: Word): seq<Byte>
    requires InRange(relocs, |code|) && InRange(shared, |code|)
  {
    PatchAll(PatchAll(code, Rebased(relocs, start)), Rebased(shared, library))
  }

  /** The name the linker gives the standard library. */
  const STDLIB := [1 as char]

  /** The reference loader: one dynamic entry, for the standard library. */
  method ExeReloc(code: array<Byte>, relocs: seq<Reloc>, dynamics: seq<Dynamic>, start: Word, library: Word) returns (ok: bool)
    requires InRange(relocs, code.Length)
    requires forall d :: 0 <= d < |dynamics| ==> InRange(dynamics[d].relocs, code.Length)
    modifies code
    ensures ok <==> |dynamics| == 1 && dynamics[0].file == [1 as char]
    ensures ok ==> code[..] == Loaded(old(code[..]), relocs, dynamics[0].relocs, start, library)
    ensures !ok ==> code[..] == old(code[..])
  {
    if |dynamics| != 1 || dynamics[0].file != STDLIB {
      return false;
    }
    RelocateCode(code, relocs, start);
    RelocateCode(code, dynamics[0].relocs, library);
    return true;
  }

  /** The relocation loop of both loaders. */
  method RelocateCode(code: array<Byte>, relocs: seq<Reloc>, base: Word)
    requires InRange(relocs, code.Length)
    modifies code
    ensures code[..] == PatchAll(old(code[..]), Rebased(relocs, base))
  {
    ghost var rs := Rebased(relocs, base);
    for i := 0 to |relocs|
      invariant code[..] == PatchAll(old(code[..]), rs[..i])
    {
      assert rs[..i + 1][..i] == rs[..i];
      PatchWord(code, Reloc(relocs[i].where, Wrap(relocs[i].what + base)));
    }
    assert rs[..|relocs|] == rs;
  }

  // ---------- loading a linked program ----------

  lemma RebasedCoherent(rs: seq<Reloc>, base: Word, size: nat)
    requires InRange(rs, size) && Coherent(rs)
    ensures InRange(Rebased(rs, base), size) && Coherent(Rebased(rs, base))
  {
    hide Wrap;
    forall i, j | 0 <= i < |rs| && 0 <= j < |rs| ensures Compatible(Rebased(rs, base)[i], Rebased(rs, base)[j]) {
      assert Compatible(rs[i], rs[j]);
    }
  }

  predicate AllApart(rs: seq<Reloc>, ss: seq<Reloc>) {
    forall i, j :: 0 <= i < |rs| && 0 <= j < |ss| ==> Apart(rs[i].where, ss[j].where)
  }

  /** Loading over patched code leaves every site with its word plus the base of its kind. */
  lemma LoadedWords(code: seq<Byte>, rs: seq<Reloc>, ss: seq<Reloc>, start: Word, library: Word)
    requires InRange(rs, |code|) && Coherent(rs) && InRange(ss, |code|) && Coherent(ss) && AllApart(rs, ss)
    ensures |Loaded(code, rs, ss, start, library)| == |code|
    ensures forall i :: 0 <= i < |rs| ==> WordAt(Loaded(code, rs, ss, start, library), rs[i].where) == Wrap(rs[i].what + start)
    ensures forall j :: 0 <= j < |ss| ==> WordAt(Loaded(code, rs, ss, start, library), ss[j].where) == Wrap(ss[j].what + library)
  {
    hide PatchAll, WordAt, Wrap, Coherent;
    var rs', ss' := Rebased(rs, start), Rebased(ss, library);
    RebasedCoherent(rs, start, |code|);
    RebasedCoherent(ss, library, |code|);
    var middle := PatchAll(code, rs');
    PatchedWords(code, rs');
    PatchedWords(middle, ss');
    forall i | 0 <= i < |rs| ensures WordAt(PatchAll(middle, ss'), rs[i].where) == Wrap(rs[i].what + start) {
      assert rs'[i].what == Wrap(rs[i].what + start);
      forall j | 0 <= j < |ss'| ensures ss'[j].where + 2 <= rs[i].where || rs[i].where + 2 <= ss'[j].where {
        assert Apart(rs[i].where, ss[j].where);
      }
      UnpatchedWord(middle, ss', rs[i].where);
    }
    forall j | 0 <= j < |ss| ensures WordAt(PatchAll(middle, ss'), ss[j].where) == Wrap(ss[j].what + library) {
      assert ss'[j].what == Wrap(ss[j].what + library);
    }
  }

  /** Bytes away from every site are loaded as linked. */
  lemma LoadedByte(code: seq<Byte>, rs: seq<Reloc>, ss: seq<Reloc>, start: Word, library: Word, a: nat)
    requires InRange(rs, |code|) && InRange(ss, |code|) && a < |code|
    requires forall i :: 0 <= i < |rs| ==> !Covers(rs[i], a)
    requires forall j :: 0 <= j < |ss| ==> !Covers(ss[j], a)
    ensures |Loaded(code, rs, ss, start, library)| == |code| && Loaded(code, rs, ss, start, library)[a] == code[a]
  {
    hide PatchAll, Wrap;
    assert forall i :: 0 <= i < |rs| ==> !Covers(Rebased(rs, start)[i], a) by {
      forall i | 0 <= i < |rs| ensures !Covers(Rebased(rs, start)[i], a) { assert !Covers(rs[i], a); }
    }
    assert forall j :: 0 <= j < |ss| ==> !Covers(Rebased(ss, library)[j], a) by {
      forall j | 0 <= j < |ss| ensures !Covers(Rebased(ss, library)[j], a) { assert !Covers(ss[j], a); }
    }
    UnpatchedByte(code, Rebased(rs, start), a);
    UnpatchedByte(PatchAll(code, Rebased(rs, start)), Rebased(ss, library), a);
  }

  // ---------- executables of a linked program ----------

  /** Everything is linked, and whatever is not static comes from the one library that is used. */
  ghost predicate Executable(objs: seq<Obj>, libs: seq<Library>, shared: seq<Reloc>) {
    && Linkable(objs) && AllIndicesGood(objs) && DefinedOnce(Events(objs))
    && Dynamics(Events(objs), libs, |libs|) == [Dynamic(STDLIB, shared)]
  }

  /** Sites left to libraries fit the image, never clash, and keep away from the static ones. */
  lemma SharedSites(objs: seq<Obj>, libs: seq<Library>, shared: seq<Reloc>)
    requires Executable(objs, libs, shared)
    ensures InRange(AllRelocs(objs), |LinkedCode(objs)|) && Coherent(AllRelocs(objs))
    ensures InRange(shared, |LinkedCode(objs)|) && Coherent(shared) && AllApart(AllRelocs(objs), shared)
  {
    hide Linkable, DefinedOnce, AllRelocs, LinkedCode, Located, SiteOf, WordOf, Agree, Events, PosOf, Dynamics, AllIndicesGood, Image;
    hide ProvidedBy, ExportPos;
    RelocsAreCoherent(objs);
    LinkedSize(objs);
    forall j | 0 <= j < |shared| ensures shared[j].where + 2 <= |LinkedCode(objs)| {
      var k, e, x, i, _ := SharedSiteOnly(objs, libs, 0, shared[j]);
      OriginInside(objs, Outer(k, e, x));
    }
    forall i, j | 0 <= i < |shared| && 0 <= j < |shared| ensures Compatible(shared[i], shared[j]) {
      SharedCompatible(objs, libs, shared, i, j);
    }
    forall i, j | 0 <= i < |AllRelocs(objs)| && 0 <= j < |shared| ensures Apart(AllRelocs(objs)[i].where, shared[j].where) {
      StaticSharedApart(objs, libs, shared, i, j);
    }
  }

  lemma LinkedSize(objs: seq<Obj>)
    requires Linkable(objs) && AllIndicesGood(objs) && DefinedOnce(Events(objs))
    ensures |LinkedCode(objs)| == |Image(objs)|
  {
  }

  lemma SharedCompatible(objs: seq<Obj>, libs: seq<Library>, shared: seq<Reloc>, i: nat, j: nat)
    requires Executable(objs, libs, shared) && i < |shared| && j < |shared|
    ensures Compatible(shared[i], shared[j])
  {
    hide Linkable, DefinedOnce, SiteOf, Events, PosOf, Dynamics, AllIndicesGood, ExportPos;
    var k, e, x, l, _ := SharedSiteOnly(objs, libs, 0, shared[i]);
    var k', e', x', l', _ := SharedSiteOnly(objs, libs, 0, shared[j]);
    OriginsCompatible(objs, Outer(k, e, x), Outer(k', e', x'));
  }

  lemma StaticSharedApart(objs: seq<Obj>, libs: seq<Library>, shared: seq<Reloc>, i: nat, j: nat)
    requires Executable(objs, libs, shared) && i < |AllRelocs(objs)| && j < |shared|
    ensures Apart(AllRelocs(objs)[i].where, shared[j].where)
  {
    hide Linkable, DefinedOnce, AllRelocs, SiteOf, WordOf, Events, PosOf, Dynamics, AllIndicesGood, ExportPos;
    var o := OriginFrom(objs, AllRelocs(objs)[i]);
    var k, e, x, l, _ := SharedSiteOnly(objs, libs, 0, shared[j]);
    OriginsCompatible(objs, o, Outer(k, e, x));
  }

  /** What the loader leaves in memory. */
  ghost function LoadedProgram(objs: seq<Obj>, libs: seq<Library>, shared: seq<Reloc>, start: Word, library: Word): (code: seq<Byte>)
    requires Executable(objs, libs, shared)
  {
    SharedSites(objs, libs, shared);
    Loaded(LinkedCode(objs), AllRelocs(objs), shared, start, library)
  }

  /** Every static site holds its word plus the start address. */
  lemma SettledLoaded(objs: seq<Obj>, libs: seq<Library>, shared: seq<Reloc>, start: Word, library: Word, o: Origin)
    requires Executable(objs, libs, shared) && Settled(objs, o)
    ensures |LoadedProgram(objs, libs, shared, start, library)| == |LinkedCode(objs)|
    ensures SiteOf(objs, o) + 2 <= |LinkedCode(objs)|
    ensures WordAt(LoadedProgram(objs, libs, shared, start, library), SiteOf(objs, o)) == Wrap(WordOf(objs, o) + start)
  {
    hide Linkable, DefinedOnce, AllRelocs, SiteOf, WordOf, Events, PosOf, Dynamics, AllIndicesGood, WordAt, Wrap, Loaded, LinkedCode,
      Coherent, AllApart;
    SharedSites(objs, libs, shared);
    LoadedWords(LinkedCode(objs), AllRelocs(objs), shared, start, library);
    OriginInside(objs, o);
    LinkedSize(objs);
    OriginIn(objs, o);
    var i :| 0 <= i < |AllRelocs(objs)| && AllRelocs(objs)[i] == Reloc(SiteOf(objs, o), WordOf(objs, o));
  }

  /** Every site left to the library holds the position of the library's first export of the name plus the library's address. */
  lemma SharedLoaded(objs: seq<Obj>, libs: seq<Library>, shared: seq<Reloc>, start: Word, library: Word,
                     k: nat, e: nat, j: nat, i: nat) returns (y: nat)
    requires Executable(objs, libs, shared) && Located(objs, Outer(k, e, j)) && LeftTo(objs, libs, ExternOf(objs[k], e).image, i)
    ensures SiteOf(objs, Outer(k, e, j)) + 2 <= |LoadedProgram(objs, libs, shared, start, library)|
    ensures FirstNamed(libs[i].exports, ExternOf(objs[k], e).image, y) && y < |libs[i].exports|
    ensures WordAt(LoadedProgram(objs, libs, shared, start, library), SiteOf(objs, Outer(k, e, j)))
            == Wrap(libs[i].exports[y].pos as int + library)
    ensures libs[i].file == STDLIB
  {
    hide Linkable, DefinedOnce, AllRelocs, Events, PosOf, Dynamics, WordAt, Wrap, Loaded, LinkedCode, Coherent, AllApart,
      OffsetOf, ExportPos;
    SharedSites(objs, libs, shared);
    LoadedWords(LinkedCode(objs), AllRelocs(objs), shared, start, library);
    var x;
    x, y := SharedSiteListed(objs, libs, k, e, j, i);
    var r := Reloc(SiteOf(objs, Outer(k, e, j)), libs[i].exports[y].pos);
    var z :| 0 <= z < |shared| && shared[z] == r;
  }

  /** A byte that no site covers is loaded as linked. */
  lemma OtherLoaded(objs: seq<Obj>, libs: seq<Library>, shared: seq<Reloc>, start: Word, library: Word, a: nat)
    requires Executable(objs, libs, shared) && a < |LinkedCode(objs)|
    requires forall o :: Located(objs, o) ==> !(SiteOf(objs, o) <= a < SiteOf(objs, o) + 2)
    ensures |LoadedProgram(objs, libs, shared, start, library)| == |LinkedCode(objs)|
    ensures LoadedProgram(objs, libs, shared, start, library)[a] == LinkedCode(objs)[a]
  {
    hide Linkable, DefinedOnce, AllRelocs, Events, PosOf, Dynamics, AllIndicesGood, Loaded, LinkedCode, Coherent, AllApart, SiteOf,
      WordOf, ExportPos, Located;
    SharedSites(objs, libs, shared);
    forall i | 0 <= i < |AllRelocs(objs)| ensures !Covers(AllRelocs(objs)[i], a) {
      var o := OriginFrom(objs, AllRelocs(objs)[i]);
    }
    forall j | 0 <= j < |shared| ensures !Covers(shared[j], a) {
      var k, e, x, l, _ := SharedSiteOnly(objs, libs, 0, shared[j]);
    }
    LoadedByte(LinkedCode(objs), AllRelocs(objs), shared, start, library, a);
  }
}
