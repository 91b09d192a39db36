/** What linking a list of objects means: images, definitions, references and the relocations they give rise to. */
module Linking {
  import opened Words
  import opened ObjectFiles

  // ---------- layout ----------

  /** Objects start at even positions. */
  function EvenSize(obj: Obj): nat {
    |obj.code| + |obj.code| % 2
  }

  function OffsetOf(objs: seq<Obj>, k: nat): nat
    requires k <= |objs|
  {
    if k == 0 then 0 else OffsetOf(objs, k - 1) + EvenSize(objs[k - 1])
  }

  function Padded(obj: Obj): (code: seq<Byte>)
    ensures |code| == EvenSize(obj)
  {
    if |obj.code| % 2 == 0 then obj.code else obj.code + [0]
  }

  function Image(objs: seq<Obj>): (code: seq<Byte>)
    ensures |code| == OffsetOf(objs, |objs|)
  {
    if objs == [] then [] else
      var last := |objs| - 1;
      ImageOffset(objs);
      Image(objs[..last]) + Padded(objs[last])
  }

  lemma ImageOffset(objs: seq<Obj>)
    requires objs != []
    ensures OffsetOf(objs[..|objs| - 1], |objs| - 1) == OffsetOf(objs, |objs| - 1)
  {
    OffsetOfPrefix(objs, |objs| - 1, |objs| - 1);
  }

  lemma {:induction false} OffsetOfPrefix(objs: seq<Obj>, n: nat, k: nat)
    requires k <= n <= |objs|
    ensures OffsetOf(objs[..n], k) == OffsetOf(objs, k)
  {
    if k > 0 { OffsetOfPrefix(objs, n, k - 1); }
  }

  lemma {:induction false} OffsetsGrow(objs: seq<Obj>, j: nat, k: nat)
    requires j < k <= |objs|
    ensures OffsetOf(objs, j) + EvenSize(objs[j]) <= OffsetOf(objs, k)
    decreases k
  {
    if j < k - 1 { OffsetsGrow(objs, j, k - 1); }
  }

  /** Every object's bytes appear in the image at its offset. */
  lemma {:induction false} ImageAt(objs: seq<Obj>, k: nat, a: nat)
    requires k < |objs| && a < |objs[k].code|
    ensures OffsetOf(objs, k) + a < |Image(objs)| && Image(objs)[OffsetOf(objs, k) + a] == objs[k].code[a]
    decreases |objs|
  {
    hide EvenSize, Padded;
    var last := |objs| - 1;
    OffsetOfPrefix(objs, last, k);
    ImageOffset(objs);
    PaddedAt(objs[k], a);
    if k < last {
      OffsetsGrow(objs, k, last);
      ImageAt(objs[..last], k, a);
    }
  }

  /** Objects follow each other closely, with one zero byte where the next would stand at an odd position. */
  lemma {:induction false} Packed(objs: seq<Obj>, k: nat)
    requires k < |objs|
    ensures var end := OffsetOf(objs, k) + |objs[k].code|;
            if |objs[k].code| % 2 == 0 then OffsetOf(objs, k + 1) == end
            else OffsetOf(objs, k + 1) == end + 1 && end < |Image(objs)| && Image(objs)[end] == 0
    decreases |objs|
  {
    hide Padded, EvenSize;
    var last := |objs| - 1;
    OffsetOfPrefix(objs, last, k);
    ImageOffset(objs);
    PaddedEnd(objs[k]);
    if k < last {
      OffsetOfPrefix(objs, last, k + 1);
      Packed(objs[..last], k);
    }
  }

  lemma PaddedEnd(obj: Obj)
    ensures EvenSize(obj) == if |obj.code| % 2 == 0 then |obj.code| else |obj.code| + 1
    ensures |obj.code| % 2 == 1 ==> Padded(obj)[|obj.code|] == 0
  {
  }

  lemma {:induction false} ImageEven(objs: seq<Obj>)
    ensures |Image(objs)| % 2 == 0
  {
    hide Padded;
    if objs != [] { ImageEven(objs[..|objs| - 1]); }
  }

  lemma PaddedAt(obj: Obj, a: nat)
    requires a < |obj.code|
    ensures a < EvenSize(obj) && Padded(obj)[a] == obj.code[a]
  {
  }

  // ---------- references and definitions, as the linker meets them ----------

  function Shifted(sites: seq<Word>, offset: nat): (r: seq<Word>)
    ensures |r| == |sites|
  {
    seq(|sites|, i requires 0 <= i < |sites| => Wrap(sites[i] + offset))
  }

  /** An extern symbol of some object with its sites, or a global one with its position and its own sites. */
  datatype Event = Ref(name: string, sites: seq<Word>) | Def(name: string, pos: Word, sites: seq<Word>)

  predicate IndicesGood(obj: Obj) {
    && (forall i :: 0 <= i < |obj.externs| ==> obj.externs[i] < |obj.symbols|)
    && (forall i :: 0 <= i < |obj.globals| ==> obj.globals[i] < |obj.symbols|)
  }

  function RefEvent(obj: Obj, offset: nat, i: nat): Event
    requires IndicesGood(obj) && i < |obj.externs|
  {
    var s := obj.symbols[obj.externs[i]];
    Ref(s.image, Shifted(s.relocs, offset))
  }

  function DefEvent(obj: Obj, offset: nat, i: nat): Event
    requires IndicesGood(obj) && i < |obj.globals|
  {
    var s := obj.symbols[obj.globals[i]];
    Def(s.image, Wrap(s.pos + offset), Shifted(s.relocs, offset))
  }

  function EventsOf(obj: Obj, offset: nat): (evs: seq<Event>)
    requires IndicesGood(obj)
    ensures |evs| == |obj.externs| + |obj.globals|
  {
    seq(|obj.externs|, i requires 0 <= i < |obj.externs| => RefEvent(obj, offset, i))
    + seq(|obj.globals|, i requires 0 <= i < |obj.globals| => DefEvent(obj, offset, i))
  }

  predicate AllIndicesGood(objs: seq<Obj>) {
    forall k :: 0 <= k < |objs| ==> IndicesGood(objs[k])
  }

  function Events(objs: seq<Obj>): seq<Event>
    requires AllIndicesGood(objs)
  {
    if objs == [] then [] else
      var last := |objs| - 1;
      Events(objs[..last]) + EventsOf(objs[last], OffsetOf(objs, last))
  }

  /** All sites recorded for a name, in order. */
  function SitesOf(evs: seq<Event>, name: string): seq<Word> {
    if evs == [] then [] else
      var last := |evs| - 1;
      SitesOf(evs[..last], name) + (if evs[last].name == name then evs[last].sites else [])
  }

  /** The position of the first definition of a name. */
  function PosOf(evs: seq<Event>, name: string): Word {
    if evs == [] then UNSET else
      var last := |evs| - 1;
      var before := PosOf(evs[..last], name);
      if before == UNSET && evs[last].Def? && evs[last].name == name then evs[last].pos else before
  }

  function ExternNames(evs: seq<Event>): seq<string> {
    if evs == [] then [] else
      var last := |evs| - 1;
      ExternNames(evs[..last]) + (if evs[last].Ref? then [evs[last].name] else [])
  }

  function GlobalNames(evs: seq<Event>): seq<string> {
    if evs == [] then [] else
      var last := |evs| - 1;
      GlobalNames(evs[..last]) + (if evs[last].Def? then [evs[last].name] else [])
  }

  /** No name is defined twice. */
  predicate DefinedOnce(evs: seq<Event>) {
    forall i :: 0 <= i < |evs| && evs[i].Def? ==> PosOf(evs[..i], evs[i].name) == UNSET
  }

  function LocalRelocs(obj: Obj, offset: nat): (rs: seq<Reloc>)
    ensures |rs| == |obj.relocs|
  {
    seq(|obj.relocs|, i requires 0 <= i < |obj.relocs| =>
      Reloc(Wrap(obj.relocs[i].where + offset), Wrap(obj.relocs[i].what + offset)))
  }

  function AllLocalRelocs(objs: seq<Obj>): seq<Reloc> {
    if objs == [] then [] else
      var last := |objs| - 1;
      AllLocalRelocs(objs[..last]) + LocalRelocs(objs[last], OffsetOf(objs, last))
  }

  function Target(sites: seq<Word>, what: Word): (rs: seq<Reloc>)
    ensures |rs| == |sites|
  {
    seq(|sites|, i requires 0 <= i < |sites| => Reloc(sites[i], what))
  }

  /** Relocations of the first j extern references that have a definition. */
  function StaticRelocs(evs: seq<Event>, j: nat): seq<Reloc>
    requires j <= |ExternNames(evs)|
  {
    if j == 0 then [] else
      var name := ExternNames(evs)[j - 1];
      StaticRelocs(evs, j - 1)
      + (if PosOf(evs, name) == UNSET then [] else Target(SitesOf(evs, name), PosOf(evs, name)))
  }

  // ---------- shared libraries ----------

  datatype Export = Export(image: string, pos: Word)
  datatype Library = Library(file: string, exports: seq<Export>)

  /** The first export of that name; UNSET when there is none. */
  function ExportPos(exports: seq<Export>, name: string): Word {
    if exports == [] then UNSET
    else if exports[0].image == name then exports[0].pos
    else ExportPos(exports[1..], name)
  }

  /** Export k is the first of that name; k is their number if there is none. */
  predicate FirstNamed(exports: seq<Export>, name: string, k: nat) {
    && k <= |exports| && (k < |exports| ==> exports[k].image == name)
    && forall j :: 0 <= j < k ==> exports[j].image != name
  }

  /** The position found is that of the first export of the name, and UNSET exactly for lack of one that has a position. */
  lemma {:induction false} ExportFound(exports: seq<Export>, name: string) returns (k: nat)
    ensures FirstNamed(exports, name, k)
    ensures ExportPos(exports, name) == if k < |exports| then exports[k].pos else UNSET
  {
    if exports == [] || exports[0].image == name { return 0; }
    var rest := exports[1..];
    k := ExportFound(rest, name);
    k := k + 1;
    assert forall j :: 1 <= j < |exports| ==> exports[j] == rest[j - 1];
  }

  lemma FirstIsUnique(exports: seq<Export>, name: string, k: nat, k': nat)
    requires FirstNamed(exports, name, k) && FirstNamed(exports, name, k')
    ensures k == k'
  {
  }

  /** The first library offering the name, or their number. */
  function ProviderOf(libs: seq<Library>, name: string): (i: nat)
    ensures i <= |libs|
    ensures i < |libs| ==> ExportPos(libs[i].exports, name) != UNSET
    ensures forall k :: 0 <= k < i ==> ExportPos(libs[k].exports, name) == UNSET
  {
    if libs == [] then 0
    else if ExportPos(libs[0].exports, name) != UNSET then 0
    else ProviderOf(libs[1..], name) + 1
  }

  /** The name is left to library i: nobody defines it statically and no earlier library offers it. */
  predicate ProvidedBy(evs: seq<Event>, libs: seq<Library>, name: string, i: nat) {
    PosOf(evs, name) == UNSET && ProviderOf(libs, name) == i
  }

  function DynamicRelocs(evs: seq<Event>, libs: seq<Library>, i: nat, j: nat): seq<Reloc>
    requires i < |libs| && j <= |ExternNames(evs)|
  {
    if j == 0 then [] else
      var name := ExternNames(evs)[j - 1];
      DynamicRelocs(evs, libs, i, j - 1)
      + (if ProvidedBy(evs, libs, name, i) then Target(SitesOf(evs, name), ExportPos(libs[i].exports, name)) else [])
  }

  predicate UsesLibrary(evs: seq<Event>, libs: seq<Library>, i: nat, j: nat)
    requires j <= |ExternNames(evs)|
  {
    exists k :: 0 <= k < j && ProvidedBy(evs, libs, ExternNames(evs)[k], i)
  }

  /** The dynamic entry of library i, if it is used. */
  function EntryOf(evs: seq<Event>, libs: seq<Library>, i: nat): seq<Dynamic>
    requires i < |libs|
  {
    var n := |ExternNames(evs)|;
    if UsesLibrary(evs, libs, i, n) then [Dynamic(libs[i].file, DynamicRelocs(evs, libs, i, n))] else []
  }

  /** One dynamic entry per library in use, in library order. */
  function Dynamics(evs: seq<Event>, libs: seq<Library>, i: nat): seq<Dynamic>
    requires i <= |libs|
  {
    if i == 0 then [] else Dynamics(evs, libs, i - 1) + EntryOf(evs, libs, i - 1)
  }

  /** Every extern name is defined or exported. */
  predicate AllResolved(evs: seq<Event>, libs: seq<Library>) {
    forall j :: 0 <= j < |ExternNames(evs)| ==>
      PosOf(evs, ExternNames(evs)[j]) != UNSET || ProviderOf(libs, ExternNames(evs)[j]) < |libs|
  }

  // ---------- well-formed objects ----------

  /** Debug symbols carry the object number before an `@`, which no source name contains. */
  predicate Plain(image: string) {
    '@' !in image
  }

  function ExternOf(obj: Obj, e: nat): Symbol
    requires IndicesGood(obj) && e < |obj.externs|
  {
    obj.symbols[obj.externs[e]]
  }

  function GlobalOf(obj: Obj, g: nat): Symbol
    requires IndicesGood(obj) && g < |obj.globals|
  {
    obj.symbols[obj.globals[g]]
  }

  predicate Apart(a: int, b: int) {
    a + 2 <= b || b + 2 <= a
  }

  /** Externs are unset; their sites lie in the code, away from local relocations and from those of other names. */
  predicate ExternsGood(obj: Obj)
    requires IndicesGood(obj)
  {
    && (forall e :: 0 <= e < |obj.externs| ==> Plain(ExternOf(obj, e).image) && ExternOf(obj, e).pos == UNSET)
    && (forall e, j :: 0 <= e < |obj.externs| && 0 <= j < |ExternOf(obj, e).relocs| ==>
          ExternOf(obj, e).relocs[j] + 2 <= |obj.code|)
    && (forall e, j, i :: 0 <= e < |obj.externs| && 0 <= j < |ExternOf(obj, e).relocs| && 0 <= i < |obj.relocs| ==>
          Apart(ExternOf(obj, e).relocs[j], obj.relocs[i].where))
    && (forall e, j, e', j' :: 0 <= e < |obj.externs| && 0 <= j < |ExternOf(obj, e).relocs|
                               && 0 <= e' < |obj.externs| && 0 <= j' < |ExternOf(obj, e').relocs| ==>
          || Apart(ExternOf(obj, e).relocs[j], ExternOf(obj, e').relocs[j'])
          || (ExternOf(obj, e).relocs[j] == ExternOf(obj, e').relocs[j'] && ExternOf(obj, e).image == ExternOf(obj, e').image))
  }

  /** Globals have a position, and their own sites are among the local relocations. */
  predicate GlobalsGood(obj: Obj)
    requires IndicesGood(obj)
  {
    && (forall g :: 0 <= g < |obj.globals| ==> Plain(GlobalOf(obj, g).image) && GlobalOf(obj, g).pos <= |obj.code|)
    && (forall g, s :: 0 <= g < |obj.globals| && s in GlobalOf(obj, g).relocs ==>
          Reloc(s, GlobalOf(obj, g).pos) in obj.relocs)
  }

  predicate WellFormed(obj: Obj) {
    && IndicesGood(obj) && ExternsGood(obj) && GlobalsGood(obj)
    && InRange(obj.relocs, |obj.code|) && Coherent(obj.relocs)
    && forall i :: 0 <= i < |obj.relocs| ==> obj.relocs[i].what <= |obj.code|
  }

  /** A program whose addresses all fit below the unset mark. */
  predicate Linkable(objs: seq<Obj>) {
    && (forall k :: 0 <= k < |objs| ==> WellFormed(objs[k]))
    && OffsetOf(objs, |objs|) < UNSET
  }
}
