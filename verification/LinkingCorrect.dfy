/** Linking resolves every reference and touches nothing else. */
module LinkingCorrect {
  import opened Words
  import opened ObjectFiles
  import opened Linking

  // ---------- events and sites ----------

  lemma GoodIndices(objs: seq<Obj>)
    requires Linkable(objs)
    ensures AllIndicesGood(objs)
  {
  }

  lemma {:induction false} EventAt(objs: seq<Obj>, k: nat, x: nat) returns (e: nat)
    requires AllIndicesGood(objs) && k < |objs| && x < |EventsOf(objs[k], OffsetOf(objs, k))|
    ensures e < |Events(objs)| && Events(objs)[e] == EventsOf(objs[k], OffsetOf(objs, k))[x]
    decreases |objs|
  {
    hide EventsOf, IndicesGood;
    var last := |objs| - 1;
    OffsetOfPrefix(objs, last, if k < last then k else 0);
    if k == last {
      e := |Events(objs[..last])| + x;
    } else {
      e := EventAt(objs[..last], k, x);
    }
  }

  lemma {:induction false} EventFrom(objs: seq<Obj>, e: nat) returns (k: nat, x: nat)
    requires AllIndicesGood(objs) && e < |Events(objs)|
    ensures k < |objs| && x < |EventsOf(objs[k], OffsetOf(objs, k))|
    ensures Events(objs)[e] == EventsOf(objs[k], OffsetOf(objs, k))[x]
    decreases |objs|
  {
    hide EventsOf, IndicesGood;
    var last := |objs| - 1;
    if e < |Events(objs[..last])| {
      k, x := EventFrom(objs[..last], e);
      OffsetOfPrefix(objs, last, k);
    } else {
      k, x := last, e - |Events(objs[..last])|;
    }
  }

  lemma {:induction false} SiteIn(evs: seq<Event>, name: string, e: nat, s: Word)
    requires e < |evs| && evs[e].name == name && s in evs[e].sites
    ensures s in SitesOf(evs, name)
  {
    var last := |evs| - 1;
    if e < last { SiteIn(evs[..last], name, e, s); }
  }

  lemma {:induction false} SiteFrom(evs: seq<Event>, name: string, s: Word) returns (e: nat)
    requires s in SitesOf(evs, name)
    ensures e < |evs| && evs[e].name == name && s in evs[e].sites
  {
    var last := |evs| - 1;
    if s in SitesOf(evs[..last], name) { e := SiteFrom(evs[..last], name, s); } else { e := last; }
  }

  lemma {:induction false} NameIn(evs: seq<Event>, e: nat)
    requires e < |evs| && evs[e].Ref?
    ensures evs[e].name in ExternNames(evs)
  {
    var last := |evs| - 1;
    if e < last {
      NameIn(evs[..last], e);
    } else {
      assert ExternNames(evs)[|ExternNames(evs)| - 1] == evs[e].name;
    }
  }

  lemma {:induction false} StaticIn(evs: seq<Event>, j: nat, x: nat, s: Word)
    requires x < j <= |ExternNames(evs)| && PosOf(evs, ExternNames(evs)[x]) != UNSET
    requires s in SitesOf(evs, ExternNames(evs)[x])
    ensures Reloc(s, PosOf(evs, ExternNames(evs)[x])) in StaticRelocs(evs, j)
    decreases j
  {
    hide PosOf, SitesOf, ExternNames, Target;
    if x < j - 1 { StaticIn(evs, j - 1, x, s); } else { TargetIn(SitesOf(evs, ExternNames(evs)[x]), PosOf(evs, ExternNames(evs)[x]), s); }
  }

  lemma TargetIn(sites: seq<Word>, what: Word, s: Word)
    ensures s in sites ==> Reloc(s, what) in Target(sites, what)
    ensures forall r :: r in Target(sites, what) ==> r.where in sites && r.what == what
  {
    if s in sites {
      var i :| 0 <= i < |sites| && sites[i] == s;
      assert Target(sites, what)[i] == Reloc(s, what);
    }
  }

  lemma {:induction false} StaticFrom(evs: seq<Event>, j: nat, r: Reloc) returns (x: nat)
    requires j <= |ExternNames(evs)| && r in StaticRelocs(evs, j)
    ensures x < |ExternNames(evs)| && PosOf(evs, ExternNames(evs)[x]) != UNSET
    ensures r.what == PosOf(evs, ExternNames(evs)[x]) && r.where in SitesOf(evs, ExternNames(evs)[x])
    decreases j
  {
    hide PosOf, SitesOf, ExternNames, Target;
    var name := ExternNames(evs)[j - 1];
    if r in StaticRelocs(evs, j - 1) {
      x := StaticFrom(evs, j - 1, r);
    } else {
      x := j - 1;
      TargetIn(SitesOf(evs, name), PosOf(evs, name), r.where);
    }
  }

  lemma {:induction false} DynamicIn(evs: seq<Event>, libs: seq<Library>, i: nat, j: nat, x: nat, s: Word)
    requires i < |libs| && x < j <= |ExternNames(evs)| && ProvidedBy(evs, libs, ExternNames(evs)[x], i)
    requires s in SitesOf(evs, ExternNames(evs)[x])
    ensures Reloc(s, ExportPos(libs[i].exports, ExternNames(evs)[x])) in DynamicRelocs(evs, libs, i, j)
    decreases j
  {
    hide ProvidedBy, SitesOf, ExternNames, Target, ExportPos;
    if x < j - 1 {
      DynamicIn(evs, libs, i, j - 1, x, s);
    } else {
      TargetIn(SitesOf(evs, ExternNames(evs)[x]), ExportPos(libs[i].exports, ExternNames(evs)[x]), s);
    }
  }

  lemma {:induction false} DynamicFrom(evs: seq<Event>, libs: seq<Library>, i: nat, j: nat, r: Reloc) returns (x: nat)
    requires i < |libs| && j <= |ExternNames(evs)| && r in DynamicRelocs(evs, libs, i, j)
    ensures x < |ExternNames(evs)| && ProvidedBy(evs, libs, ExternNames(evs)[x], i)
    ensures r.what == ExportPos(libs[i].exports, ExternNames(evs)[x]) && r.where in SitesOf(evs, ExternNames(evs)[x])
    decreases j
  {
    hide ProvidedBy, SitesOf, ExternNames, Target, ExportPos;
    var name := ExternNames(evs)[j - 1];
    if r in DynamicRelocs(evs, libs, i, j - 1) {
      x := DynamicFrom(evs, libs, i, j - 1, r);
    } else {
      x := j - 1;
      TargetIn(SitesOf(evs, name), ExportPos(libs[i].exports, name), r.where);
    }
  }

  // ---------- definitions ----------

  /** Object k defines the name as its g-th global. */
  predicate Defines(objs: seq<Obj>, k: nat, g: nat, name: string)
    requires AllIndicesGood(objs)
  {
    k < |objs| && g < |objs[k].globals| && GlobalOf(objs[k], g).image == name
  }

  lemma {:induction false} PosOfFirst(evs: seq<Event>, e: nat)
    requires DefinedOnce(evs) && e < |evs| && evs[e].Def? && evs[e].pos != UNSET
    ensures PosOf(evs, evs[e].name) == evs[e].pos
    decreases |evs|
  {
    hide SitesOf;
    var last := |evs| - 1;
    var before := evs[..last];
    if e == last {
      assert PosOf(evs[..e], evs[e].name) == UNSET;
    } else {
      assert forall i :: 0 <= i < last ==> before[i] == evs[i] && before[..i] == evs[..i];
      PosOfFirst(before, e);
    }
  }

  lemma {:induction false} PosFrom(evs: seq<Event>, name: string) returns (e: nat)
    requires PosOf(evs, name) != UNSET
    ensures e < |evs| && evs[e].Def? && evs[e].name == name
  {
    var last := |evs| - 1;
    if PosOf(evs[..last], name) != UNSET { e := PosFrom(evs[..last], name); } else { e := last; }
  }

  lemma Within(objs: seq<Obj>, k: nat, x: nat)
    requires Linkable(objs) && k < |objs| && x <= |objs[k].code|
    ensures Wrap(x + OffsetOf(objs, k)) == OffsetOf(objs, k) + x < UNSET
    ensures OffsetOf(objs, k) + x <= |Image(objs)|
  {
    hide WellFormed;
    OffsetsGrow(objs, k, |objs|);
  }

  lemma GlobalInside(objs: seq<Obj>, k: nat, g: nat)
    requires Linkable(objs) && k < |objs| && g < |objs[k].globals|
    requires IndicesGood(objs[k])
    ensures Wrap(GlobalOf(objs[k], g).pos + OffsetOf(objs, k)) == OffsetOf(objs, k) + GlobalOf(objs[k], g).pos < UNSET
  {
    hide WellFormed, OffsetOf, Wrap;
    GlobalPosBound(objs[k], g);
    Within(objs, k, GlobalOf(objs[k], g).pos);
  }

  lemma GlobalPosBound(obj: Obj, g: nat)
    requires WellFormed(obj) && g < |obj.globals|
    ensures GlobalOf(obj, g).pos <= |obj.code|
  {
    hide ExternsGood, Coherent, InRange;
  }

  lemma DefinitionEvent(obj: Obj, offset: nat, g: nat)
    requires IndicesGood(obj) && g < |obj.globals|
    ensures EventsOf(obj, offset)[|obj.externs| + g] == DefEvent(obj, offset, g)
  {
  }

  /** A defined name gets the defining object's offset plus its position. */
  lemma DefinitionPos(objs: seq<Obj>, k: nat, g: nat)
    requires Linkable(objs) && AllIndicesGood(objs) && DefinedOnce(Events(objs))
    requires k < |objs| && g < |objs[k].globals|
    ensures PosOf(Events(objs), GlobalOf(objs[k], g).image) == OffsetOf(objs, k) + GlobalOf(objs[k], g).pos
  {
    hide DefinedOnce, PosOf, Events, Linkable, OffsetOf, EventsOf;
    GlobalInside(objs, k, g);
    DefinitionEvent(objs[k], OffsetOf(objs, k), g);
    var e := EventAt(objs, k, |objs[k].externs| + g);
    PosOfFirst(Events(objs), e);
  }

  /** A name with a position is defined by some object. */
  lemma DefinedBy(objs: seq<Obj>, name: string) returns (k: nat, g: nat)
    requires AllIndicesGood(objs) && PosOf(Events(objs), name) != UNSET
    ensures Defines(objs, k, g, name)
  {
    hide PosOf, Events;
    var e := PosFrom(Events(objs), name);
    var x;
    k, x := EventFrom(objs, e);
    g := x - |objs[k].externs|;
  }

  // ---------- where each relocation comes from ----------

  /** The i-th local relocation of object k, or the j-th site of its e-th extern. */
  datatype Origin = Local(k: nat, i: nat) | Outer(k: nat, e: nat, j: nat)

  predicate Located(objs: seq<Obj>, o: Origin)
    requires AllIndicesGood(objs)
  {
    o.k < |objs| &&
    match o
    case Local(k, i) => i < |objs[k].relocs|
    case Outer(k, e, j) => e < |objs[k].externs| && j < |ExternOf(objs[k], e).relocs|
  }

  function SiteOf(objs: seq<Obj>, o: Origin): nat
    requires AllIndicesGood(objs) && Located(objs, o)
  {
    match o
    case Local(k, i) => OffsetOf(objs, k) + objs[k].relocs[i].where
    case Outer(k, e, j) => OffsetOf(objs, k) + ExternOf(objs[k], e).relocs[j]
  }

  /** Two origins want the same word: they are local to the same target, or refer to the same name. */
  predicate Agree(objs: seq<Obj>, o: Origin, o': Origin)
    requires AllIndicesGood(objs) && Located(objs, o) && Located(objs, o')
  {
    o.k == o'.k &&
    match o
    case Local(k, i) => o'.Local? && objs[k].relocs[i].what == objs[k].relocs[o'.i].what
    case Outer(k, e, j) => o'.Outer? && ExternOf(objs[k], e).image == ExternOf(objs[k], o'.e).image
  }

  /** Local, or a reference to a name some object defines. */
  predicate Settled(objs: seq<Obj>, o: Origin)
    requires AllIndicesGood(objs)
  {
    Located(objs, o) && (o.Outer? ==> PosOf(Events(objs), ExternOf(objs[o.k], o.e).image) != UNSET)
  }

  function WordOf(objs: seq<Obj>, o: Origin): nat
    requires AllIndicesGood(objs) && Settled(objs, o)
  {
    match o
    case Local(k, i) => OffsetOf(objs, k) + objs[k].relocs[i].what
    case Outer(k, e, j) => PosOf(Events(objs), ExternOf(objs[k], e).image)
  }

  function AllRelocs(objs: seq<Obj>): seq<Reloc>
    requires AllIndicesGood(objs)
  {
    AllLocalRelocs(objs) + StaticRelocs(Events(objs), |ExternNames(Events(objs))|)
  }

  lemma {:induction false} LocalIn(objs: seq<Obj>, k: nat, i: nat)
    requires k < |objs| && i < |objs[k].relocs|
    ensures LocalRelocs(objs[k], OffsetOf(objs, k))[i] in AllLocalRelocs(objs)
    decreases |objs|
  {
    hide LocalRelocs;
    var last := |objs| - 1;
    OffsetOfPrefix(objs, last, if k < last then k else 0);
    if k < last { LocalIn(objs[..last], k, i); }
  }

  lemma {:induction false} LocalFrom(objs: seq<Obj>, r: Reloc) returns (k: nat, i: nat)
    requires r in AllLocalRelocs(objs)
    ensures k < |objs| && i < |objs[k].relocs| && r == LocalRelocs(objs[k], OffsetOf(objs, k))[i]
    decreases |objs|
  {
    hide LocalRelocs;
    var last := |objs| - 1;
    if r in AllLocalRelocs(objs[..last]) {
      k, i := LocalFrom(objs[..last], r);
      OffsetOfPrefix(objs, last, k);
    } else {
      k := last;
      i :| 0 <= i < |objs[k].relocs| && r == LocalRelocs(objs[k], OffsetOf(objs, k))[i];
    }
  }

  /** Every site lies in its object's part of the image, below the unset mark. */
  lemma OriginInside(objs: seq<Obj>, o: Origin)
    requires Linkable(objs) && AllIndicesGood(objs) && Located(objs, o)
    ensures OffsetOf(objs, o.k) <= SiteOf(objs, o) && SiteOf(objs, o) + 2 <= OffsetOf(objs, o.k) + |objs[o.k].code|
    ensures SiteOf(objs, o) + 2 <= |Image(objs)| < UNSET
  {
    hide OffsetOf, Coherent, GlobalsGood;
    assert WellFormed(objs[o.k]);
    Within(objs, o.k, |objs[o.k].code|);
  }

  /** The shifted sites and words do not wrap. */
  lemma OriginWraps(objs: seq<Obj>, o: Origin)
    requires Linkable(objs) && AllIndicesGood(objs) && Located(objs, o)
    ensures Wrap(SiteOf(objs, o)) == SiteOf(objs, o) < UNSET
    ensures Settled(objs, o) ==> Wrap(WordOf(objs, o)) == WordOf(objs, o) < UNSET
  {
    hide Linkable, Image, OffsetOf, Events, PosOf;
    OriginInside(objs, o);
    if o.Local? {
      LocalTarget(objs, o.k, o.i);
    }
  }

  lemma LocalTarget(objs: seq<Obj>, k: nat, i: nat)
    requires Linkable(objs) && k < |objs| && i < |objs[k].relocs|
    ensures OffsetOf(objs, k) + objs[k].relocs[i].what < UNSET
  {
    hide OffsetOf, Coherent, GlobalsGood, ExternsGood, InRange;
    assert WellFormed(objs[k]);
    Within(objs, k, objs[k].relocs[i].what);
  }

  /** Every settled origin has its relocation. */
  lemma OriginIn(objs: seq<Obj>, o: Origin)
    requires Linkable(objs) && AllIndicesGood(objs) && Settled(objs, o)
    ensures SiteOf(objs, o) < UNSET && WordOf(objs, o) < UNSET
    ensures Reloc(SiteOf(objs, o), WordOf(objs, o)) in AllRelocs(objs)
  {
    hide Events, PosOf, SitesOf, ExternNames, StaticRelocs, AllLocalRelocs, Linkable, Wrap, OffsetOf;
    OriginWraps(objs, o);
    match o
    case Local(k, i) =>
      LocalIn(objs, k, i);
    case Outer(k, e, j) =>
      var name := ExternOf(objs[k], e).image;
      var v := EventAt(objs, k, e);
      var s := Shifted(ExternOf(objs[k], e).relocs, OffsetOf(objs, k))[j];
      SiteIn(Events(objs), name, v, s);
      NameIn(Events(objs), v);
      var x :| 0 <= x < |ExternNames(Events(objs))| && ExternNames(Events(objs))[x] == name;
      StaticIn(Events(objs), |ExternNames(Events(objs))|, x, s);
  }

  /** Every relocation has a settled origin. */
  lemma OriginFrom(objs: seq<Obj>, r: Reloc) returns (o: Origin)
    requires Linkable(objs) && AllIndicesGood(objs) && DefinedOnce(Events(objs)) && r in AllRelocs(objs)
    ensures Settled(objs, o) && r.where == SiteOf(objs, o) && r.what == WordOf(objs, o)
  {
    hide Events, PosOf, SitesOf, ExternNames, StaticRelocs, AllLocalRelocs, DefinedOnce, Linkable, Wrap, OffsetOf;
    if r in AllLocalRelocs(objs) {
      var k, i := LocalFrom(objs, r);
      o := Local(k, i);
      OriginWraps(objs, o);
    } else {
      var evs := Events(objs);
      var x := StaticFrom(evs, |ExternNames(evs)|, r);
      var v := SiteFrom(evs, ExternNames(evs)[x], r.where);
      o := OriginOfEvent(objs, v, r.where);
    }
  }

  /** A site of an event is an extern's, or a local relocation to the event's own definition. */
  lemma OriginOfEvent(objs: seq<Obj>, v: nat, s: Word) returns (o: Origin)
    requires Linkable(objs) && AllIndicesGood(objs) && DefinedOnce(Events(objs))
    requires v < |Events(objs)| && s in Events(objs)[v].sites && PosOf(Events(objs), Events(objs)[v].name) != UNSET
    ensures Settled(objs, o) && s == SiteOf(objs, o) && WordOf(objs, o) == PosOf(Events(objs), Events(objs)[v].name)
  {
    hide Events, PosOf, DefinedOnce, Linkable, Wrap, OffsetOf;
    var k, x := EventFrom(objs, v);
    if x < |objs[k].externs| {
      var j :| 0 <= j < |ExternOf(objs[k], x).relocs| && s == Shifted(ExternOf(objs[k], x).relocs, OffsetOf(objs, k))[j];
      o := Outer(k, x, j);
    } else {
      var g := x - |objs[k].externs|;
      DefinitionPos(objs, k, g);
      var j :| 0 <= j < |GlobalOf(objs[k], g).relocs| && s == Shifted(GlobalOf(objs[k], g).relocs, OffsetOf(objs, k))[j];
      var i := OwnSite(objs, k, g, j);
      o := Local(k, i);
    }
    OriginWraps(objs, o);
  }

  /** A global's own site is one of its object's local relocations. */
  lemma OwnSite(objs: seq<Obj>, k: nat, g: nat, j: nat) returns (i: nat)
    requires Linkable(objs) && AllIndicesGood(objs) && k < |objs| && g < |objs[k].globals|
    requires j < |GlobalOf(objs[k], g).relocs|
    ensures i < |objs[k].relocs| && objs[k].relocs[i] == Reloc(GlobalOf(objs[k], g).relocs[j], GlobalOf(objs[k], g).pos)
  {
    hide ExternsGood, Coherent, InRange, OffsetOf;
    assert WellFormed(objs[k]);
    i :| 0 <= i < |objs[k].relocs| && objs[k].relocs[i] == Reloc(GlobalOf(objs[k], g).relocs[j], GlobalOf(objs[k], g).pos);
  }

  /** Within one object the sites are apart or agree. */
  lemma SameObject(objs: seq<Obj>, o: Origin, o': Origin)
    requires Linkable(objs) && AllIndicesGood(objs) && Located(objs, o) && Located(objs, o') && o.k == o'.k
    ensures Apart(SiteOf(objs, o), SiteOf(objs, o')) || (SiteOf(objs, o) == SiteOf(objs, o') && Agree(objs, o, o'))
  {
    hide OffsetOf, InRange, GlobalsGood;
    assert WellFormed(objs[o.k]);
    if o.Local? && o'.Local? {
      assert Compatible(objs[o.k].relocs[o.i], objs[o.k].relocs[o'.i]);
    }
  }

  /** Any two sites are apart, or the same site asking for the same word. */
  lemma OriginsCompatible(objs: seq<Obj>, o: Origin, o': Origin)
    requires Linkable(objs) && AllIndicesGood(objs) && Located(objs, o) && Located(objs, o')
    ensures Apart(SiteOf(objs, o), SiteOf(objs, o')) || (SiteOf(objs, o) == SiteOf(objs, o') && Agree(objs, o, o'))
  {
    hide Linkable, SiteOf, Agree, OffsetOf, EvenSize;
    OriginInside(objs, o);
    OriginInside(objs, o');
    if o.k == o'.k {
      SameObject(objs, o, o');
    } else {
      Separate(objs, o.k, o'.k);
    }
  }

  lemma Separate(objs: seq<Obj>, k: nat, k': nat)
    requires k < |objs| && k' < |objs| && k != k'
    ensures OffsetOf(objs, k) + |objs[k].code| <= OffsetOf(objs, k') || OffsetOf(objs, k') + |objs[k'].code| <= OffsetOf(objs, k)
  {
    if k < k' { OffsetsGrow(objs, k, k'); } else { OffsetsGrow(objs, k', k); }
  }

  lemma AgreeingWords(objs: seq<Obj>, o: Origin, o': Origin)
    requires AllIndicesGood(objs) && Settled(objs, o) && Settled(objs, o') && Agree(objs, o, o')
    ensures WordOf(objs, o) == WordOf(objs, o')
  {
  }

  /** Relocations fit the image and never clash. */
  lemma RelocsAreCoherent(objs: seq<Obj>)
    requires Linkable(objs) && AllIndicesGood(objs) && DefinedOnce(Events(objs))
    ensures InRange(AllRelocs(objs), |Image(objs)|) && Coherent(AllRelocs(objs))
  {
    hide Linkable, AllIndicesGood, DefinedOnce, AllRelocs, Image, Located, SiteOf, WordOf, Agree, Events, PosOf;
    var rs := AllRelocs(objs);
    forall i | 0 <= i < |rs| ensures rs[i].where + 2 <= |Image(objs)| {
      var o := OriginFrom(objs, rs[i]);
      OriginInside(objs, o);
    }
    forall i, j | 0 <= i < |rs| && 0 <= j < |rs| ensures Compatible(rs[i], rs[j]) {
      var o := OriginFrom(objs, rs[i]);
      var o' := OriginFrom(objs, rs[j]);
      OriginsCompatible(objs, o, o');
      if Agree(objs, o, o') { AgreeingWords(objs, o, o'); }
    }
  }

  // ---------- what linking achieves ----------

  /** The code the linker leaves in the executable. */
  function LinkedCode(objs: seq<Obj>): (code: seq<Byte>)
    requires Linkable(objs) && AllIndicesGood(objs) && DefinedOnce(Events(objs))
    ensures |code| == |Image(objs)|
  {
    RelocsAreCoherent(objs);
    PatchAll(Image(objs), AllRelocs(objs))
  }

  lemma SettledWord(objs: seq<Obj>, o: Origin)
    requires Linkable(objs) && AllIndicesGood(objs) && DefinedOnce(Events(objs)) && Settled(objs, o)
    ensures SiteOf(objs, o) + 2 <= |LinkedCode(objs)|
    ensures WordAt(LinkedCode(objs), SiteOf(objs, o)) == WordOf(objs, o)
  {
    hide Linkable, DefinedOnce, AllRelocs, Image, SiteOf, WordOf, PatchAll, WordAt, Located, Events, PosOf;
    RelocsAreCoherent(objs);
    OriginInside(objs, o);
    OriginIn(objs, o);
    PatchedWords(Image(objs), AllRelocs(objs));
    var i :| 0 <= i < |AllRelocs(objs)| && AllRelocs(objs)[i] == Reloc(SiteOf(objs, o), WordOf(objs, o));
  }

  /** Every local site holds its own object's offset plus its target. */
  lemma LocalSiteResolved(objs: seq<Obj>, k: nat, i: nat)
    requires Linkable(objs) && AllIndicesGood(objs) && DefinedOnce(Events(objs))
    requires k < |objs| && i < |objs[k].relocs|
    ensures OffsetOf(objs, k) + objs[k].relocs[i].where + 2 <= |LinkedCode(objs)|
    ensures WordAt(LinkedCode(objs), OffsetOf(objs, k) + objs[k].relocs[i].where) == OffsetOf(objs, k) + objs[k].relocs[i].what
  {
    hide Linkable, DefinedOnce, LinkedCode, WordAt, OffsetOf;
    SettledWord(objs, Local(k, i));
  }

  /**
   * Every site of an extern name that some object defines holds the defining object's offset plus the position
   * there, whatever the libraries offer.
   */
  lemma ExternSiteResolved(objs: seq<Obj>, k: nat, e: nat, j: nat, k': nat, g: nat)
    requires Linkable(objs) && AllIndicesGood(objs) && DefinedOnce(Events(objs))
    requires Located(objs, Outer(k, e, j)) && Defines(objs, k', g, ExternOf(objs[k], e).image)
    ensures OffsetOf(objs, k) + ExternOf(objs[k], e).relocs[j] + 2 <= |LinkedCode(objs)|
    ensures WordAt(LinkedCode(objs), OffsetOf(objs, k) + ExternOf(objs[k], e).relocs[j])
            == OffsetOf(objs, k') + GlobalOf(objs[k'], g).pos
  {
    hide Linkable, DefinedOnce, LinkedCode, WordAt, OffsetOf, PosOf, Events;
    DefinitionPos(objs, k', g);
    GlobalInside(objs, k', g);
    SettledWord(objs, Outer(k, e, j));
  }

  /** A byte of an object that no settled site covers is copied unchanged. */
  lemma OtherBytesUnchanged(objs: seq<Obj>, k: nat, a: nat)
    requires Linkable(objs) && AllIndicesGood(objs) && DefinedOnce(Events(objs))
    requires k < |objs| && a < |objs[k].code|
    requires forall o :: Settled(objs, o) ==> !(SiteOf(objs, o) <= OffsetOf(objs, k) + a < SiteOf(objs, o) + 2)
    ensures OffsetOf(objs, k) + a < |LinkedCode(objs)|
    ensures LinkedCode(objs)[OffsetOf(objs, k) + a] == objs[k].code[a]
  {
    hide Linkable, DefinedOnce, AllRelocs, Image, OffsetOf, EvenSize, PosOf, Events, PatchAll;
    var rs, at := AllRelocs(objs), OffsetOf(objs, k) + a;
    RelocsAreCoherent(objs);
    ImageAt(objs, k, a);
    forall i | 0 <= i < |rs| ensures !Covers(rs[i], at) {
      var o := OriginFrom(objs, rs[i]);
    }
    UnpatchedByte(Image(objs), rs, at);
  }

  // ---------- references left to libraries ----------

  /** No object defines the name, and library i is the first to offer it. */
  predicate LeftTo(objs: seq<Obj>, libs: seq<Library>, name: string, i: nat)
    requires AllIndicesGood(objs)
  {
    i < |libs| && ProvidedBy(Events(objs), libs, name, i)
  }

  /** Undefined names are those no object has among its globals. */
  lemma UndefinedExactly(objs: seq<Obj>, name: string)
    requires Linkable(objs) && AllIndicesGood(objs) && DefinedOnce(Events(objs))
    ensures PosOf(Events(objs), name) == UNSET <==> forall k, g :: !Defines(objs, k, g, name)
  {
    hide Linkable, DefinedOnce, PosOf, Events;
    if PosOf(Events(objs), name) != UNSET {
      var k, g := DefinedBy(objs, name);
    } else {
      forall k, g ensures !Defines(objs, k, g, name) {
        if Defines(objs, k, g, name) {
          GlobalInside(objs, k, g);
          DefinitionPos(objs, k, g);
        }
      }
    }
  }

  lemma {:induction false} DynamicsHave(evs: seq<Event>, libs: seq<Library>, i: nat, n: nat, name: string) returns (x: nat)
    requires i < n <= |libs| && name in ExternNames(evs) && ProvidedBy(evs, libs, name, i)
    ensures x < |Dynamics(evs, libs, n)|
    ensures Dynamics(evs, libs, n)[x] == Dynamic(libs[i].file, DynamicRelocs(evs, libs, i, |ExternNames(evs)|))
    decreases n
  {
    hide ProvidedBy, ExternNames, DynamicRelocs;
    if i < n - 1 {
      x := DynamicsHave(evs, libs, i, n - 1, name);
    } else {
      x := |Dynamics(evs, libs, n - 1)|;
      assert UsesLibrary(evs, libs, i, |ExternNames(evs)|);
    }
  }

  lemma {:induction false} DynamicsFrom(evs: seq<Event>, libs: seq<Library>, n: nat, x: nat) returns (i: nat)
    requires n <= |libs| && x < |Dynamics(evs, libs, n)|
    ensures i < n && Dynamics(evs, libs, n)[x] == Dynamic(libs[i].file, DynamicRelocs(evs, libs, i, |ExternNames(evs)|))
    decreases n
  {
    hide ProvidedBy, ExternNames, DynamicRelocs, UsesLibrary;
    if x < |Dynamics(evs, libs, n - 1)| { i := DynamicsFrom(evs, libs, n - 1, x); } else { i := n - 1; }
  }

  /** A library that is left a name exports it; what counts is its first export of that name. */
  lemma OfferedAt(objs: seq<Obj>, libs: seq<Library>, name: string, i: nat) returns (y: nat)
    requires AllIndicesGood(objs) && LeftTo(objs, libs, name, i)
    ensures FirstNamed(libs[i].exports, name, y) && y < |libs[i].exports| && libs[i].exports[y].pos == ExportPos(libs[i].exports, name)
  {
    hide Events, PosOf, ExportPos;
    y := ExportFound(libs[i].exports, name);
  }

  /** Every site of a name left to a library has an entry with that library's file and the position of its first export of the name. */
  lemma SharedSiteListed(objs: seq<Obj>, libs: seq<Library>, k: nat, e: nat, j: nat, i: nat)
    returns (x: nat, y: nat)
    requires Linkable(objs) && AllIndicesGood(objs) && Located(objs, Outer(k, e, j))
    requires LeftTo(objs, libs, ExternOf(objs[k], e).image, i)
    ensures x < |Dynamics(Events(objs), libs, |libs|)|
    ensures FirstNamed(libs[i].exports, ExternOf(objs[k], e).image, y) && y < |libs[i].exports|
    ensures var d := Dynamics(Events(objs), libs, |libs|)[x];
            && d.file == libs[i].file && OffsetOf(objs, k) + ExternOf(objs[k], e).relocs[j] < UNSET
            && Reloc(OffsetOf(objs, k) + ExternOf(objs[k], e).relocs[j], libs[i].exports[y].pos) in d.relocs
  {
    hide Linkable, Events, ExternNames, PosOf, SitesOf, ProvidedBy, DynamicRelocs, Dynamics, OffsetOf, Wrap, ExportPos;
    var evs, name := Events(objs), ExternOf(objs[k], e).image;
    OriginWraps(objs, Outer(k, e, j));
    var v := EventAt(objs, k, e);
    var s := Shifted(ExternOf(objs[k], e).relocs, OffsetOf(objs, k))[j];
    SiteIn(evs, name, v, s);
    NameIn(evs, v);
    x := DynamicsHave(evs, libs, i, |libs|, name);
    var z :| 0 <= z < |ExternNames(evs)| && ExternNames(evs)[z] == name;
    DynamicIn(evs, libs, i, |ExternNames(evs)|, z, s);
    y := OfferedAt(objs, libs, name, i);
  }

  /** And nothing else is listed there. */
  lemma SharedSiteOnly(objs: seq<Obj>, libs: seq<Library>, x: nat, r: Reloc) 
    returns (k: nat, e: nat, j: nat, i: nat, y: nat)
    requires Linkable(objs) && AllIndicesGood(objs) && DefinedOnce(Events(objs))
    requires x < |Dynamics(Events(objs), libs, |libs|)| && r in Dynamics(Events(objs), libs, |libs|)[x].relocs
    ensures Located(objs, Outer(k, e, j)) && LeftTo(objs, libs, ExternOf(objs[k], e).image, i)
    ensures r.where == SiteOf(objs, Outer(k, e, j)) && r.what == ExportPos(libs[i].exports, ExternOf(objs[k], e).image)
    ensures FirstNamed(libs[i].exports, ExternOf(objs[k], e).image, y) && y < |libs[i].exports| && r.what == libs[i].exports[y].pos
    ensures Dynamics(Events(objs), libs, |libs|)[x].file == libs[i].file
  {
    hide Linkable, Events, ExternNames, PosOf, SitesOf, DynamicRelocs, Dynamics, OffsetOf, Wrap, ExportPos, DefinedOnce, ProviderOf;
    var evs := Events(objs);
    i := DynamicsFrom(evs, libs, |libs|, x);
    var z := DynamicFrom(evs, libs, i, |ExternNames(evs)|, r);
    var v := SiteFrom(evs, ExternNames(evs)[z], r.where);
    k, e := EventFrom(objs, v);
    if e >= |objs[k].externs| {
      DefinitionPos(objs, k, e - |objs[k].externs|);
      GlobalInside(objs, k, e - |objs[k].externs|);
      assert false;
    }
    j :| 0 <= j < |ExternOf(objs[k], e).relocs| && r.where == Shifted(ExternOf(objs[k], e).relocs, OffsetOf(objs, k))[j];
    OriginWraps(objs, Outer(k, e, j));
    y := OfferedAt(objs, libs, ExternOf(objs[k], e).image, i);
  }
}
