/** The linker: growing the executable's tables object by object, then resolving and patching. */
module Linker {
  import opened Words
  import opened ObjectFiles
  import opened Linking
  import opened LinkingCorrect

  /** How linking ends; TooMany stands for the failed table-size assertions. */
  datatype Status = Linked | Redefinition | Unresolved | TooMany {
    predicate IsFailure() { !Linked? }
    function PropagateFailure(): Status { this }
  }

  /** Externs are unset and globals set, and positions stay clear of the unset mark when shifted. */
  predicate Definite(obj: Obj, offset: nat)
    requires IndicesGood(obj)
  {
    && (forall e :: 0 <= e < |obj.externs| ==> Plain(ExternOf(obj, e).image) && ExternOf(obj, e).pos == UNSET)
    && (forall g :: 0 <= g < |obj.globals| ==> Plain(GlobalOf(obj, g).image) && GlobalOf(obj, g).pos + offset < UNSET)
  }

  /** A plain symbol is unique and holds what the events say about its name. */
  predicate Records(symbols: seq<Symbol>, evs: seq<Event>) {
    && (forall i :: 0 <= i < |symbols| && Plain(symbols[i].image) ==>
          && symbols[i].pos == PosOf(evs, symbols[i].image)
          && symbols[i].relocs == SitesOf(evs, symbols[i].image))
    && (forall i, j :: 0 <= i < j < |symbols| && Plain(symbols[i].image) ==> symbols[i].image != symbols[j].image)
    && (forall e :: 0 <= e < |evs| ==> FindSymbol(symbols, evs[e].name) < |symbols|)
  }

  predicate Tables(symbols: seq<Symbol>, externs: seq<nat>, globals: seq<nat>, evs: seq<Event>) {
    && Records(symbols, evs)
    && Indexes(symbols, externs, ExternNames(evs))
    && Indexes(symbols, globals, GlobalNames(evs))
    && (forall e :: 0 <= e < |evs| ==> Plain(evs[e].name))
    && DefinedOnce(evs)
  }

  function ShiftSymbol(from: Symbol, offset: nat): Symbol {
    Symbol(from.image, if from.pos == UNSET then UNSET else Wrap(from.pos + offset),
           Shifted(from.relocs, offset), Shifted(from.relrelocs, offset))
  }

  predicate SitesFull(s: Symbol, from: Symbol, debug: bool) {
    || |s.relocs| + |from.relocs| >= INTERN_RELOC_MAX
    || (debug && |s.relrelocs| + |from.relrelocs| >= INTERN_RELOC_MAX)
  }

  // ---------- how linking ends ----------

  /** The names met so far, once each. */
  function NamesIn(evs: seq<Event>): seq<string> {
    if evs == [] then [] else
      var n := |evs| - 1;
      NamesIn(evs[..n]) + (if evs[n].name in NamesIn(evs[..n]) then [] else [evs[n].name])
  }

  /** What merging one more extern or global comes to, without debug symbols. */
  function EventFate(evs: seq<Event>, ev: Event): Status {
    if ev.Def? && PosOf(evs, ev.name) != UNSET then Redefinition
    else if ev.Ref? && |ExternNames(evs)| + 1 >= EXTERN_MAX then TooMany
    else if ev.Def? && |GlobalNames(evs)| + 1 >= GLOBAL_MAX then TooMany
    else if ev.name !in NamesIn(evs) then (if |NamesIn(evs)| + 1 >= SYMBOL_MAX then TooMany else Linked)
    else if |SitesOf(evs, ev.name)| + |ev.sites| >= INTERN_RELOC_MAX then TooMany
    else Linked
  }

  function EventsFate(evs: seq<Event>): Status {
    if evs == [] then Linked else
      var before := evs[..|evs| - 1];
      if EventsFate(before) != Linked then EventsFate(before) else EventFate(before, evs[|evs| - 1])
  }

  /** What linking the objects comes to: the relocations of each, then its externs and globals. */
  function ObjsFate(objs: seq<Obj>): Status
    requires AllIndicesGood(objs)
  {
    if objs == [] then Linked else
      var n := |objs| - 1;
      if ObjsFate(objs[..n]) != Linked then ObjsFate(objs[..n])
      else if |AllLocalRelocs(objs)| >= RELOC_MAX then TooMany
      else EventsFate(Events(objs))
  }

  /** What resolving the references comes to. */
  function ResolveFate(objs: seq<Obj>, libs: seq<Library>): Status
    requires AllIndicesGood(objs)
  {
    if !EntriesFit(Events(objs), libs) then TooMany
    else if !AllResolved(Events(objs), libs) then Unresolved
    else if |AllRelocs(objs)| >= RELOC_MAX then TooMany
    else Linked
  }

  /** How a whole linking run ends, the first `early` libraries being linked before the objects. */
  function LinkFate(program: seq<Obj>, shared: seq<Library>, early: nat): Status
    requires AllIndicesGood(program)
  {
    if early >= DYNAMIC_MAX then TooMany
    else if ObjsFate(program) != Linked then ObjsFate(program)
    else if |shared| >= DYNAMIC_MAX then TooMany
    else ResolveFate(program, shared)
  }

  /** As the fate says; debug symbols can fill a table as well. */
  predicate Ends(st: Status, fate: Status, debug: bool) {
    st == fate || (debug && st == TooMany)
  }

  /** There is one symbol for each name met, and with debug information perhaps others. */
  predicate Counted(symbols: seq<Symbol>, evs: seq<Event>, debug: bool) {
    && |NamesIn(evs)| <= |symbols| && (!debug ==> |symbols| == |NamesIn(evs)|)
    && forall i :: 0 <= i < |symbols| && Plain(symbols[i].image) ==> symbols[i].image in NamesIn(evs)
  }

  lemma NamesNext(evs: seq<Event>, ev: Event)
    ensures NamesIn(evs + [ev]) == if ev.name in NamesIn(evs) then NamesIn(evs) else NamesIn(evs) + [ev.name]
  {
    assert (evs + [ev])[..|evs|] == evs;
  }

  lemma {:induction false} NameMet(evs: seq<Event>, name: string)
    ensures name in NamesIn(evs) <==> exists e :: 0 <= e < |evs| && evs[e].name == name
  {
    if evs != [] {
      var n := |evs| - 1;
      NameMet(evs[..n], name);
      assert forall e :: 0 <= e < n ==> evs[..n][e] == evs[e];
    }
  }

  lemma Known(symbols: seq<Symbol>, evs: seq<Event>, debug: bool, name: string)
    requires Records(symbols, evs) && Counted(symbols, evs, debug) && Plain(name)
    ensures FindSymbol(symbols, name) < |symbols| <==> name in NamesIn(evs)
  {
    hide NamesIn, PosOf, SitesOf;
    NameMet(evs, name);
  }

  lemma CountedNew(symbols: seq<Symbol>, evs: seq<Event>, debug: bool, ev: Event, s: Symbol)
    requires Counted(symbols, evs, debug) && ev.name !in NamesIn(evs) && s.image == ev.name
    ensures Counted(symbols + [s], evs + [ev], debug)
  {
    hide NamesIn;
    NamesNext(evs, ev);
  }

  lemma CountedKnown(symbols: seq<Symbol>, evs: seq<Event>, debug: bool, ev: Event, i: nat, s: Symbol)
    requires Counted(symbols, evs, debug) && ev.name in NamesIn(evs) && i < |symbols| && s.image == symbols[i].image
    ensures Counted(symbols[i := s], evs + [ev], debug)
  {
    hide NamesIn;
    NamesNext(evs, ev);
  }

  lemma CountedDebug(symbols: seq<Symbol>, evs: seq<Event>, s: Symbol)
    requires Counted(symbols, evs, true) && !Plain(s.image)
    ensures Counted(symbols + [s], evs, true)
  {
    hide NamesIn;
  }

  lemma EventsFateNext(evs: seq<Event>, ev: Event)
    ensures EventsFate(evs + [ev]) == if EventsFate(evs) == Linked then EventFate(evs, ev) else EventsFate(evs)
  {
    hide EventFate;
    assert (evs + [ev])[..|evs|] == evs;
  }

  lemma {:induction false} EventsFateStays(evs: seq<Event>, more: seq<Event>)
    requires evs <= more && EventsFate(evs) != Linked
    ensures EventsFate(more) == EventsFate(evs)
  {
    hide EventFate;
    if |evs| < |more| {
      assert evs == more[..|more| - 1][..|evs|];
      EventsFateStays(evs, more[..|more| - 1]);
    } else {
      assert evs == more;
    }
  }

  lemma {:induction false} ObjsFateStays(objs: seq<Obj>, n: nat)
    requires AllIndicesGood(objs) && n <= |objs| && ObjsFate(objs[..n]) != Linked
    ensures ObjsFate(objs) == ObjsFate(objs[..n])
    decreases |objs|
  {
    hide EventsFate, AllLocalRelocs, Events, IndicesGood;
    var last := |objs| - 1;
    if n <= last {
      assert objs[..last][..n] == objs[..n];
      ObjsFateStays(objs[..last], n);
    } else {
      assert objs[..n] == objs;
    }
  }

  lemma ObjsFateNext(objs: seq<Obj>, obj: Obj)
    requires AllIndicesGood(objs) && IndicesGood(obj)
    ensures AllIndicesGood(objs + [obj])
    ensures ObjsFate(objs + [obj]) ==
            if ObjsFate(objs) != Linked then ObjsFate(objs)
            else if |AllLocalRelocs(objs)| + |obj.relocs| >= RELOC_MAX then TooMany
            else EventsFate(Events(objs + [obj]))
  {
    hide EventsFate, Events, IndicesGood;
    assert (objs + [obj])[..|objs|] == objs;
    OneMoreLocal(objs, obj);
  }

  // ---------- one event ----------

  lemma {:induction false} SitesOfUnknown(evs: seq<Event>, name: string)
    requires forall e :: 0 <= e < |evs| ==> evs[e].name != name
    ensures SitesOf(evs, name) == [] && PosOf(evs, name) == UNSET
  {
    if evs != [] {
      var last := |evs| - 1;
      assert forall e :: 0 <= e < last ==> evs[..last][e] == evs[e];
      SitesOfUnknown(evs[..last], name);
    }
  }

  lemma {:induction false} OneMore(evs: seq<Event>, ev: Event, name: string)
    ensures SitesOf(evs + [ev], name) == SitesOf(evs, name) + (if ev.name == name then ev.sites else [])
    ensures PosOf(evs + [ev], name) ==
            if PosOf(evs, name) == UNSET && ev.Def? && ev.name == name then ev.pos else PosOf(evs, name)
    ensures ExternNames(evs + [ev]) == ExternNames(evs) + (if ev.Ref? then [ev.name] else [])
    ensures GlobalNames(evs + [ev]) == GlobalNames(evs) + (if ev.Def? then [ev.name] else [])
  {
    assert (evs + [ev])[..|evs|] == evs;
  }

  /** A name not in the table gets a new symbol. */
  lemma {:induction false} RecordsNew(symbols: seq<Symbol>, evs: seq<Event>, ev: Event, s: Symbol)
    requires Records(symbols, evs) && Plain(ev.name) && FindSymbol(symbols, ev.name) == |symbols|
    requires s.image == ev.name && s.relocs == ev.sites && s.pos == (if ev.Def? then ev.pos else UNSET)
    ensures Records(symbols + [s], evs + [ev])
  {
    var symbols', evs' := symbols + [s], evs + [ev];
    forall e | 0 <= e < |evs'| ensures FindSymbol(symbols', evs'[e].name) < |symbols'| {
      if e < |evs| { FindAppended(symbols, s, evs[e].name); } else { FindAppended(symbols, s, ev.name); }
    }
    forall e | 0 <= e < |evs| ensures evs[e].name != ev.name {
      assert FindSymbol(symbols, evs[e].name) < |symbols|;
    }
    SitesOfUnknown(evs, ev.name);
    forall i | 0 <= i < |symbols'| && Plain(symbols'[i].image)
      ensures symbols'[i].pos == PosOf(evs', symbols'[i].image) && symbols'[i].relocs == SitesOf(evs', symbols'[i].image)
    {
      OneMore(evs, ev, symbols'[i].image);
    }
  }

  /** A known name has its symbol extended. */
  lemma {:induction false} RecordsKnown(symbols: seq<Symbol>, evs: seq<Event>, ev: Event, i: nat, s: Symbol)
    requires Records(symbols, evs) && Plain(ev.name) && i == FindSymbol(symbols, ev.name) < |symbols|
    requires s.image == ev.name && s.relocs == symbols[i].relocs + ev.sites
    requires ev.Def? ==> symbols[i].pos == UNSET && s.pos == ev.pos
    requires ev.Ref? ==> s.pos == symbols[i].pos
    ensures Records(symbols[i := s], evs + [ev])
  {
    var symbols', evs' := symbols[i := s], evs + [ev];
    forall e | 0 <= e < |evs'| ensures FindSymbol(symbols', evs'[e].name) < |symbols'| {
      var name := if e < |evs| then evs[e].name else ev.name;
      assert evs'[e].name == name;
      FindReplaced(symbols, i, s, name);
    }
    forall k | 0 <= k < |symbols'| && Plain(symbols'[k].image)
      ensures symbols'[k].pos == PosOf(evs', symbols'[k].image) && symbols'[k].relocs == SitesOf(evs', symbols'[k].image)
    {
      OneMore(evs, ev, symbols'[k].image);
    }
  }

  /** A debug symbol disturbs nothing. */
  lemma {:induction false} RecordsDebug(symbols: seq<Symbol>, evs: seq<Event>, s: Symbol)
    requires Records(symbols, evs) && !Plain(s.image)
    ensures Records(symbols + [s], evs)
  {
    forall e | 0 <= e < |evs| ensures FindSymbol(symbols + [s], evs[e].name) < |symbols + [s]| {
      FindAppended(symbols, s, evs[e].name);
    }
  }

  lemma TablesDebug(symbols: seq<Symbol>, externs: seq<nat>, globals: seq<nat>, evs: seq<Event>, s: Symbol)
    requires Tables(symbols, externs, globals, evs) && !Plain(s.image)
    ensures Tables(symbols + [s], externs, globals, evs)
  {
    hide Records, DefinedOnce, Plain;
    RecordsDebug(symbols, evs, s);
  }

  lemma TablesNext(symbols: seq<Symbol>, externs: seq<nat>, globals: seq<nat>, evs: seq<Event>, ev: Event,
                   symbols': seq<Symbol>, i: nat)
    requires Tables(symbols, externs, globals, evs) && Plain(ev.name) && Records(symbols', evs + [ev])
    requires |symbols| <= |symbols'| && forall k :: 0 <= k < |symbols| ==> symbols'[k].image == symbols[k].image
    requires i < |symbols'| && symbols'[i].image == ev.name
    requires ev.Def? ==> PosOf(evs, ev.name) == UNSET
    ensures ev.Ref? ==> Tables(symbols', externs + [i], globals, evs + [ev])
    ensures ev.Def? ==> Tables(symbols', externs, globals + [i], evs + [ev])
  {
    hide Records, DefinedOnce, SitesOf, PosOf, Plain;
    OneMore(evs, ev, ev.name);
    DefinedOnceMore(evs, ev);
  }

  lemma {:induction false} DefinedOnceMore(evs: seq<Event>, ev: Event)
    ensures DefinedOnce(evs + [ev]) <==> DefinedOnce(evs) && (ev.Def? ==> PosOf(evs, ev.name) == UNSET)
  {
    var evs' := evs + [ev];
    assert forall i :: 0 <= i <= |evs| ==> evs'[..i] == evs[..i];
    assert evs[..|evs|] == evs;
    if DefinedOnce(evs') {
      assert evs'[|evs|] == ev;
      forall i | 0 <= i < |evs| && evs[i].Def? ensures PosOf(evs[..i], evs[i].name) == UNSET {
        assert evs'[i] == evs[i];
      }
    }
  }

  lemma {:induction false} DefinedOncePrefix(evs: seq<Event>, more: seq<Event>)
    requires DefinedOnce(evs + more)
    ensures DefinedOnce(evs)
  {
    if more == [] {
      assert evs + more == evs;
    } else {
      var init := more[..|more| - 1];
      assert evs + more == (evs + init) + [more[|more| - 1]];
      DefinedOnceMore(evs + init, more[|more| - 1]);
      DefinedOncePrefix(evs, init);
    }
  }

  class Linker {
    var code: seq<Byte>
    var relocs: seq<Reloc>
    var symbols: seq<Symbol>
    var globals: seq<nat>
    var externs: seq<nat>
    var dynamics: seq<Dynamic>
    var libs: seq<Library>
    var objCount: nat
    ghost var objs: seq<Obj>

    /** The tables are those of the objects linked so far. */
    ghost predicate Valid()
      reads this
    {
      && Linkable(objs) && AllIndicesGood(objs)
      && code == Image(objs) && relocs == AllLocalRelocs(objs) && |relocs| < RELOC_MAX
      && Tables(symbols, externs, globals, Events(objs))
      && dynamics == []
    }

    /** Some table has no room for one more entry, or for the sites of one of these symbols. */
    ghost predicate Full(more: seq<Symbol>, debug: bool)
      reads this
    {
      || |symbols| + 1 >= SYMBOL_MAX || |externs| + 1 >= EXTERN_MAX || |globals| + 1 >= GLOBAL_MAX
      || exists i, j :: 0 <= i < |symbols| && 0 <= j < |more| && SitesFull(symbols[i], more[j], debug)
    }

    constructor ()
      ensures Valid() && objs == [] && libs == [] && objCount == 0 && symbols == []
    {
      code, relocs, symbols, globals, externs, dynamics, libs, objCount := [], [], [], [], [], [], [], 0;
      objs := [];
    }

    method AddSymbolOffset(from: Symbol, offset: nat) returns (st: Status)
      modifies this`symbols
      ensures st == if |old(symbols)| + 1 < SYMBOL_MAX then Linked else TooMany
      ensures symbols == if st == Linked then old(symbols) + [ShiftSymbol(from, offset)] else old(symbols)
      ensures st == Linked ==>
                var s := symbols[|symbols| - 1];
                && s.image == from.image && s.pos == (if from.pos == 0xFFFF then 0xFFFF else (from.pos + offset) % 0x1_0000)
                && |s.relocs| == |from.relocs| && |s.relrelocs| == |from.relrelocs|
                && (forall i :: 0 <= i < |s.relocs| ==> s.relocs[i] == (from.relocs[i] + offset) % 0x1_0000)
                && (forall i :: 0 <= i < |s.relrelocs| ==> s.relrelocs[i] == (from.relrelocs[i] + offset) % 0x1_0000)
    {
      if |symbols| + 1 >= SYMBOL_MAX {
        return TooMany;
      }
      symbols := symbols + [ShiftSymbol(from, offset)];
      return Linked;
    }

    /** The sites of a symbol met again; the relative ones only matter for debugging. */
    method ExtendSymbol(i: nat, pos: Word, from: Symbol, offset: nat, debug: bool) returns (st: Status)
      requires i < |symbols|
      modifies this`symbols
      ensures st == if SitesFull(old(symbols)[i], from, debug) then TooMany else Linked
      ensures st == TooMany ==> symbols == old(symbols)
      ensures st == Linked ==> exists rel ::
                symbols == old(symbols)[i := Symbol(old(symbols)[i].image, pos,
                                                   old(symbols)[i].relocs + Shifted(from.relocs, offset), rel)]
    {
      var s := symbols[i];
      if |s.relocs| + |from.relocs| >= INTERN_RELOC_MAX {
        return TooMany;
      }
      if debug && |s.relrelocs| + |from.relrelocs| >= INTERN_RELOC_MAX {
        return TooMany;
      }
      var rel := if debug then s.relrelocs + Shifted(from.relrelocs, offset) else s.relrelocs;
      symbols := symbols[i := Symbol(s.image, pos, s.relocs + Shifted(from.relocs, offset), rel)];
      return Linked;
    }

    method MergeExtern(from: Symbol, offset: nat, debug: bool, ghost evs: seq<Event>) returns (st: Status)
      requires Tables(symbols, externs, globals, evs) && Plain(from.image) && from.pos == UNSET && Counted(symbols, evs, debug)
      modifies this`symbols, this`externs
      ensures Ends(st, EventFate(evs, Ref(from.image, Shifted(from.relocs, offset))), debug)
      ensures st == Linked ==> Counted(symbols, evs + [Ref(from.image, Shifted(from.relocs, offset))], debug)
      ensures st == Linked ==> Tables(symbols, externs, globals, evs + [Ref(from.image, Shifted(from.relocs, offset))])
      ensures st != Linked ==> st == TooMany && Full([from], debug)
    {
      hide Tables, Records, Counted, NamesIn, SitesOf, PosOf, ExternNames, GlobalNames, Plain;
      ghost var ev := Ref(from.image, Shifted(from.relocs, offset));
      ghost var before := symbols;
      TablesRecord(symbols, externs, globals, evs);
      var index := FindSymbol(symbols, from.image);
      Sizes(symbols, externs, globals, evs, debug);
      Known(symbols, evs, debug, from.image);
      Recorded(symbols, evs, from.image);
      if |externs| + 1 >= EXTERN_MAX {
        return TooMany;
      }
      if index == |symbols| {
        :- AddSymbolOffset(from, offset);
        RecordsNew(before, evs, ev, ShiftSymbol(from, offset));
        CountedNew(before, evs, debug, ev, ShiftSymbol(from, offset));
      } else {
        assert [from][0] == from;
        :- ExtendSymbol(index, symbols[index].pos, from, offset, debug);
        RecordsKnown(before, evs, ev, index, symbols[index]);
        CountedKnown(before, evs, debug, ev, index, symbols[index]);
      }
      TablesNext(before, externs, globals, evs, ev, symbols, index);
      externs := externs + [index];
      return Linked;
    }

    method MergeGlobal(from: Symbol, offset: nat, debug: bool, ghost evs: seq<Event>) returns (st: Status)
      requires Tables(symbols, externs, globals, evs) && Plain(from.image) && from.pos + offset < UNSET
      requires Counted(symbols, evs, debug)
      modifies this`symbols, this`globals
      ensures Ends(st, EventFate(evs, Def(from.image, Wrap(from.pos + offset), Shifted(from.relocs, offset))), debug)
      ensures st == Linked ==>
                Counted(symbols, evs + [Def(from.image, Wrap(from.pos + offset), Shifted(from.relocs, offset))], debug)
      ensures st == Linked ==>
                && PosOf(evs, from.image) == UNSET
                && Tables(symbols, externs, globals, evs + [Def(from.image, Wrap(from.pos + offset), Shifted(from.relocs, offset))])
      ensures st == Redefinition ==> PosOf(evs, from.image) != UNSET
      ensures st == TooMany ==> Full([from], debug)
      ensures st != Unresolved
    {
      hide Tables, Records, Counted, NamesIn, SitesOf, PosOf, ExternNames, GlobalNames, Plain;
      ghost var ev := Def(from.image, Wrap(from.pos + offset), Shifted(from.relocs, offset));
      ghost var before := symbols;
      TablesRecord(symbols, externs, globals, evs);
      var index := FindSymbol(symbols, from.image);
      RecordedPos(symbols, evs, from.image);
      Sizes(symbols, externs, globals, evs, debug);
      Known(symbols, evs, debug, from.image);
      Recorded(symbols, evs, from.image);
      if index < |symbols| && symbols[index].pos != UNSET {
        return Redefinition;
      }
      if |globals| + 1 >= GLOBAL_MAX {
        return TooMany;
      }
      if index == |symbols| {
        :- AddSymbolOffset(from, offset);
        RecordsNew(before, evs, ev, ShiftSymbol(from, offset));
        CountedNew(before, evs, debug, ev, ShiftSymbol(from, offset));
      } else {
        assert [from][0] == from;
        :- ExtendSymbol(index, Wrap(from.pos + offset), from, offset, debug);
        RecordsKnown(before, evs, ev, index, symbols[index]);
        CountedKnown(before, evs, debug, ev, index, symbols[index]);
      }
      TablesNext(before, externs, globals, evs, ev, symbols, index);
      globals := globals + [index];
      return Linked;
    }

    method MergeExterns(obj: Obj, offset: nat, debug: bool, ghost evs: seq<Event>) returns (st: Status)
      requires IndicesGood(obj) && Definite(obj, offset)
      requires Tables(symbols, externs, globals, evs) && Counted(symbols, evs, debug) && EventsFate(evs) == Linked
      modifies this`symbols, this`externs
      ensures st == Linked ==> Tables(symbols, externs, globals, evs + EventsOf(obj, offset)[..|obj.externs|])
      ensures st == Linked ==> Counted(symbols, evs + EventsOf(obj, offset)[..|obj.externs|], debug)
      ensures st == Linked ==> EventsFate(evs + EventsOf(obj, offset)[..|obj.externs|]) == Linked
      ensures st != Linked ==> Ends(st, EventsFate(evs + EventsOf(obj, offset)), debug)
      ensures st != Linked ==> st == TooMany && Full(obj.symbols, debug)
    {
      hide Tables, Shifted, EventsOf, Full, Counted, EventFate, EventsFate;
      ghost var more := EventsOf(obj, offset);
      assert evs + more[..0] == evs;
      for i := 0 to |obj.externs|
        invariant Tables(symbols, externs, globals, evs + more[..i]) && Counted(symbols, evs + more[..i], debug)
        invariant EventsFate(evs + more[..i]) == Linked
      {
        NextEvent(evs, more, i);
        ExternEvent(obj, offset, i);
        FateOfPrefix(evs, more, i);
        st := MergeExtern(ExternOf(obj, i), offset, debug, evs + more[..i]);
        if st != Linked {
          FullFor(obj, obj.externs[i], debug);
          return;
        }
      }
      return Linked;
    }

    method MergeGlobals(obj: Obj, offset: nat, debug: bool, ghost evs: seq<Event>) returns (st: Status)
      requires IndicesGood(obj) && Definite(obj, offset)
      requires Tables(symbols, externs, globals, evs + EventsOf(obj, offset)[..|obj.externs|])
      requires Counted(symbols, evs + EventsOf(obj, offset)[..|obj.externs|], debug)
      requires EventsFate(evs + EventsOf(obj, offset)[..|obj.externs|]) == Linked
      modifies this`symbols, this`globals
      ensures st == Linked ==> Counted(symbols, evs + EventsOf(obj, offset), debug)
      ensures Ends(st, EventsFate(evs + EventsOf(obj, offset)), debug)
      ensures st == Linked ==> Tables(symbols, externs, globals, evs + EventsOf(obj, offset))
      ensures st == Redefinition ==> !DefinedOnce(evs + EventsOf(obj, offset))
      ensures st == TooMany ==> Full(obj.symbols, debug)
      ensures st != Unresolved
    {
      hide Tables, Shifted, DefinedOnce, EventsOf, Full, PosOf, Counted, EventFate, EventsFate;
      ghost var more := EventsOf(obj, offset);
      for i := 0 to |obj.globals|
        invariant Tables(symbols, externs, globals, evs + more[..|obj.externs| + i])
        invariant Counted(symbols, evs + more[..|obj.externs| + i], debug) && EventsFate(evs + more[..|obj.externs| + i]) == Linked
      {
        ghost var n := |obj.externs| + i;
        NextEvent(evs, more, n);
        FateOfPrefix(evs, more, n);
        DefinitionEvent(obj, offset, i);
        st := MergeGlobal(GlobalOf(obj, i), offset, debug, evs + more[..n]);
        if st == Redefinition { RedefinitionShows(evs, more, n); }
        if st == TooMany { FullFor(obj, obj.globals[i], debug); }
        if st != Linked { return; }
      }
      assert more[..|more|] == more;
      return Linked;
    }

    /** Copies an object behind the code linked so far and merges its tables. */
    method LinkObj(obj: Obj, debug: bool) returns (st: Status)
      requires Valid() && WellFormed(obj) && |code| + EvenSize(obj) < UNSET
      requires Counted(symbols, Events(objs), debug) && ObjsFate(objs) == Linked && EventsFate(Events(objs)) == Linked
      modifies this
      ensures st == Linked ==> Valid() && objs == old(objs) + [obj] && libs == old(libs)
      ensures st == Redefinition ==> AllIndicesGood(old(objs) + [obj]) && !DefinedOnce(Events(old(objs) + [obj]))
      ensures st == TooMany ==> |old(relocs)| + |obj.relocs| >= RELOC_MAX || Full(obj.symbols, debug)
      ensures st != Unresolved
      ensures AllIndicesGood(old(objs) + [obj]) && Ends(st, ObjsFate(old(objs) + [obj]), debug)
      ensures st == Linked ==> Counted(symbols, Events(objs), debug) && EventsFate(Events(objs)) == Linked
    {
      hide Tables, EvenSize, Padded, DefinedOnce, EventsOf, LocalRelocs, WellFormed, Linkable, Definite, IndicesGood,
        Counted, EventsFate, ObjsFate, OffsetOf, Image, Events, AllLocalRelocs, ShiftSymbol;
      var offset := |code|;
      OneMoreLinkable(objs, obj);
      ObjsFateNext(objs, obj);
      OneMoreObject(objs, obj);
      ImageEven(objs);
      PaddedCode(code, obj);
      code := code + obj.code;
      if |code| % 2 == 1 { code := code + [0]; }
      :- AddLocalRelocs(obj, offset);
      :- MergeExterns(obj, offset, debug, Events(objs));
      :- MergeGlobals(obj, offset, debug, Events(objs));
      if debug {
        var copied := set i | 0 <= i < |obj.symbols| && (i in obj.externs || i in obj.globals);
        :- AddDebugSymbols(obj, offset, copied, Events(objs + [obj]));
      }
      objCount := objCount + 1;
      objs := objs + [obj];
      return Linked;
    }

    lemma FullFor(obj: Obj, i: nat, debug: bool)
      requires i < |obj.symbols| && Full([obj.symbols[i]], debug)
      ensures Full(obj.symbols, debug)
    {
    }

    method AddLocalRelocs(obj: Obj, offset: nat) returns (st: Status)
      requires |relocs| < RELOC_MAX
      modifies this`relocs
      ensures st == if |old(relocs)| + |obj.relocs| < RELOC_MAX then Linked else TooMany
      ensures st == Linked ==> relocs == old(relocs) + LocalRelocs(obj, offset)
    {
      for i := 0 to |obj.relocs|
        invariant relocs == old(relocs) + LocalRelocs(obj, offset)[..i] && |relocs| < RELOC_MAX
      {
        if |relocs| + 1 >= RELOC_MAX {
          return TooMany;
        }
        relocs := relocs + [Reloc(Wrap(obj.relocs[i].where + offset), Wrap(obj.relocs[i].what + offset))];
      }
      return Linked;
    }

    /** With debug information every other symbol is kept under a name of its own. */
    method AddDebugSymbols(obj: Obj, offset: nat, copied: set<nat>, ghost evs: seq<Event>) returns (st: Status)
      requires Tables(symbols, externs, globals, evs) && Counted(symbols, evs, true)
      modifies this`symbols
      ensures st == Linked ==> Tables(symbols, externs, globals, evs) && Counted(symbols, evs, true)
      ensures st != Linked ==> st == TooMany && Full(obj.symbols, true)
    {
      hide Counted, Tables, Plain, Shifted;
      for i := 0 to |obj.symbols|
        invariant Tables(symbols, externs, globals, evs) && Counted(symbols, evs, true)
      {
        if i !in copied {
          var s := obj.symbols[i].(image := DebugName(objCount, obj.symbols[i].image));
          CountedDebug(symbols, evs, ShiftSymbol(s, offset));
          TablesDebug(symbols, externs, globals, evs, ShiftSymbol(s, offset));
          :- AddSymbolOffset(s, offset);
        }
      }
      return Linked;
    }

    /** Remembers what a library offers. */
    method LinkSo(lib: Library) returns (st: Status)
      requires Valid()
      modifies this`libs
      ensures Valid() && st == if old(libs) == [] then Linked else TooMany
      ensures libs == if st == Linked then old(libs) + [lib] else old(libs)
    {
      if |libs| + 1 >= DYNAMIC_MAX {
        return TooMany;
      }
      libs := libs + [lib];
      return Linked;
    }

    ghost function Evs(): seq<Event>
      requires AllIndicesGood(objs)
      reads this
    {
      Events(objs)
    }

    /** What CheckExe leaves alone until the final patching. */
    ghost predicate Resolving()
      reads this
    {
      AllIndicesGood(objs) && Tables(symbols, externs, globals, Evs())
    }

    /** The references of one library; `resolved` marks the extern entries already taken care of. */
    method LinkLibrary(i: nat, resolved: seq<bool>) returns (st: Status, resolved': seq<bool>)
      requires Resolving() && i < |libs| && Marks(resolved, Evs(), libs, i)
      modifies this`dynamics
      ensures st == Linked ==> Marks(resolved', Evs(), libs, i + 1)
      ensures st == Linked ==> dynamics == old(dynamics) + EntryOf(Evs(), libs, i)
      ensures st == if EntryFits(Evs(), libs, i) then Linked else TooMany
    {
      hide Tables, Records, SitesOf, PosOf, ExternNames, Target, ExportPos, Events;
      st, resolved' := Linked, resolved;
      ghost var evs, names := Evs(), ExternNames(Evs());
      TablesIndex(symbols, externs, globals, evs);
      var used, entry := false, [];
      for j := 0 to |externs|
        invariant |resolved'| == |externs| == |names| && st == Linked && dynamics == old(dynamics)
        invariant forall k :: 0 <= k < j ==> resolved'[k] == MarkedBefore(evs, libs, names[k], i + 1)
        invariant forall k :: j <= k < |names| ==> resolved'[k] == MarkedBefore(evs, libs, names[k], i)
        invariant used == UsesLibrary(evs, libs, i, j)
        invariant entry == DynamicRelocs(evs, libs, i, j) && |entry| < INTERN_RELOC_MAX
      {
        var s := symbols[externs[j]];
        SymbolOf(symbols, externs, globals, evs, j);
        UsesOneMore(evs, libs, i, j);
        if !resolved'[j] {
          var pos := FindExport(libs[i].exports, s.image);
          if s.pos == UNSET && pos != UNSET {
            resolved' := resolved'[j := true];
            used := true;
            if |entry| + |s.relocs| >= INTERN_RELOC_MAX {
              DynamicRelocsGrow(evs, libs, i, j + 1, |externs|);
              st := TooMany;
              return;
            }
            entry := entry + Target(s.relocs, pos);
          }
        }
      }
      if used {
        dynamics := dynamics + [Dynamic(libs[i].file, entry)];
      }
    }

    /** Looks for an export by its name, the first one counting. */
    method FindExport(exports: seq<Export>, name: string) returns (pos: Word)
      ensures pos == ExportPos(exports, name)
      ensures exists k: nat :: FirstNamed(exports, name, k) && pos == if k < |exports| then exports[k].pos else UNSET
    {
      ghost var first := ExportFound(exports, name);
      for k := 0 to |exports|
        invariant forall j :: 0 <= j < k ==> exports[j].image != name
      {
        if exports[k].image == name {
          FirstIsUnique(exports, name, first, k);
          return exports[k].pos;
        }
      }
      FirstIsUnique(exports, name, first, |exports|);
      return UNSET;
    }

    /** Every reference no library has taken needs a definition. */
    method CheckResolved(resolved: seq<bool>) returns (ok: bool)
      requires Resolving() && Marks(resolved, Evs(), libs, |libs|)
      ensures ok <==> AllResolved(Evs(), libs)
    {
      hide Tables, Records, SitesOf, PosOf, ExternNames, Events;
      ghost var evs, names := Evs(), ExternNames(Evs());
      TablesIndex(symbols, externs, globals, evs);
      for i := 0 to |externs|
        invariant forall k :: 0 <= k < i ==> PosOf(evs, names[k]) != UNSET || ProviderOf(libs, names[k]) < |libs|
      {
        GlobalPos(symbols, externs, globals, evs, i);
        if !resolved[i] && FindGlobal(symbols, globals, symbols[externs[i]].image) == UNSET {
          return false;
        }
      }
      return true;
    }

    /** Static definitions for the references that have one. */
    method LinkStatic() returns (st: Status)
      requires Resolving() && |relocs| < RELOC_MAX
      modifies this`relocs
      ensures st == Linked ==> relocs == old(relocs) + StaticRelocs(Evs(), |ExternNames(Evs())|)
      ensures st == if |old(relocs)| + |StaticRelocs(Evs(), |ExternNames(Evs())|)| < RELOC_MAX then Linked else TooMany
    {
      hide Tables, Records, SitesOf, PosOf, ExternNames, Target, Events;
      ghost var evs, names := Evs(), ExternNames(Evs());
      TablesIndex(symbols, externs, globals, evs);
      assert relocs + StaticRelocs(evs, 0) == relocs;
      for i := 0 to |externs|
        invariant relocs == old(relocs) + StaticRelocs(evs, i) && |relocs| < RELOC_MAX
      {
        var s := symbols[externs[i]];
        SymbolOf(symbols, externs, globals, evs, i);
        if s.pos != UNSET {
          if |relocs| + |s.relocs| >= RELOC_MAX {
            StaticRelocsGrow(evs, i + 1, |externs|);
            return TooMany;
          }
          relocs := relocs + Target(s.relocs, s.pos);
        }
      }
      return Linked;
    }

    method Patch()
      requires InRange(relocs, |code|)
      modifies this`code
      ensures code == PatchAll(old(code), relocs)
    {
      for i := 0 to |relocs|
        invariant code == PatchAll(old(code), relocs[..i])
      {
        assert relocs[..i + 1][..i] == relocs[..i];
        code := PutWord(code, relocs[i].where, relocs[i].what);
      }
      assert relocs[..|relocs|] == relocs;
    }

    /**
     * Resolves every extern reference, statically where a definition exists, otherwise through the first library
     * offering the name, and patches the code. It fails for good reason only: a missing name or a full table.
     */
    method CheckExe() returns (st: Status)
      requires Valid()
      modifies this`dynamics, this`relocs, this`code
      ensures DefinedOnce(Evs())
      ensures st == ResolveFate(objs, libs)
      ensures st == Linked ==> code == LinkedCode(objs) && relocs == AllRelocs(objs)
      ensures st == Linked ==> dynamics == Dynamics(Evs(), libs, |libs|)
      ensures st != Redefinition
    {
      hide Tables, Image, AllLocalRelocs, Events, PosOf, SitesOf, ExternNames, EntryOf, EntryFits, DefinedOnce, Linkable,
        StaticRelocs;
      TablesIndex(symbols, externs, globals, Evs());
      RelocsAreCoherent(objs);
      var resolved := seq(|externs|, _ => false);
      for i := 0 to |libs|
        invariant Marks(resolved, Evs(), libs, i) && dynamics == Dynamics(Evs(), libs, i)
        invariant relocs == old(relocs) && code == old(code)
        invariant forall k :: 0 <= k < i ==> EntryFits(Evs(), libs, k)
      {
        st, resolved := LinkLibrary(i, resolved);
        if st != Linked { return; }
      }
      var ok := CheckResolved(resolved);
      if !ok { return Unresolved; }
      :- LinkStatic();
      Patch();
      return Linked;
    }

    /** A whole linking run: the libraries named in the command, the objects in order, then the standard library. */
    method Link(program: seq<Obj>, shared: seq<Library>, early: nat, debug: bool) returns (st: Status)
      requires Valid() && objs == [] && libs == [] && symbols == [] && early <= |shared|
      requires Linkable(program)
      modifies this
      ensures AllIndicesGood(program) && Ends(st, LinkFate(program, shared, early), debug)
      ensures st == Linked ==>
                && AllIndicesGood(program) && DefinedOnce(Events(program)) && AllResolved(Events(program), shared)
                && code == LinkedCode(program) && relocs == AllRelocs(program)
                && dynamics == Dynamics(Events(program), shared, |shared|)
      ensures st == Redefinition ==> AllIndicesGood(program) && !DefinedOnce(Events(program))
      ensures st == Unresolved ==>
                AllIndicesGood(program) && DefinedOnce(Events(program)) && !AllResolved(Events(program), shared)
      ensures st == TooMany ==> AllIndicesGood(program) && Crowded(program, shared, debug)
    {
      hide Tables, Image, Events, DefinedOnce, WellFormed, OffsetOf, AllRelocs, Dynamics, LinkedCode, AllResolved, Full,
        EntriesFit, Valid, AllLocalRelocs, Counted, EventsFate, ObjsFate;
      GoodIndices(program);
      NothingLinked(debug);
      assert program[..0] == [] && shared[..0] == [];
      :- LinkLibraries(shared, 0, early);
      for i := 0 to |program|
        invariant Valid() && objs == program[..i] && libs == shared[..early]
        invariant AllIndicesGood(objs) && Counted(symbols, Events(objs), debug)
        invariant ObjsFate(objs) == Linked && EventsFate(Events(objs)) == Linked
      {
        assert program[..i + 1] == program[..i] + [program[i]];
        RoomForNext(program, i);
        TablesOf();
        OneMoreLocal(objs, program[i]);
        st := LinkObj(program[i], debug);
        if st == Redefinition { RedefinedInPrefix(program, i + 1); }
        if st == TooMany { EnoughLocal(program, i + 1); }
        if st != Linked {
          if ObjsFate(program[..i + 1]) != Linked { ObjsFateStays(program, i + 1); }
          return;
        }
      }
      assert program[..|program|] == program;
      :- LinkLibraries(shared, early, |shared|);
      assert shared[..|shared|] == shared;
      st := CheckExe();
    }

    /** Some more of the libraries. */
    method LinkLibraries(shared: seq<Library>, from: nat, to: nat) returns (st: Status)
      requires Valid() && from <= to <= |shared| && libs == shared[..from] && from < DYNAMIC_MAX
      modifies this`libs
      ensures Valid() && st == if to < DYNAMIC_MAX then Linked else TooMany
      ensures st == Linked ==> libs == shared[..to]
    {
      hide Valid;
      for i := from to to
        invariant Valid() && libs == shared[..i] && i < DYNAMIC_MAX
      {
        assert shared[..i + 1] == shared[..i] + [shared[i]];
        :- LinkSo(shared[i]);
      }
      return Linked;
    }

    lemma TablesOf()
      requires Valid()
      ensures |code| == OffsetOf(objs, |objs|) && relocs == AllLocalRelocs(objs)
    {
    }

    /** Some table is too small for the program. */
    ghost predicate Crowded(program: seq<Obj>, shared: seq<Library>, debug: bool)
      requires AllIndicesGood(program)
      reads this
    {
      || (exists i :: 0 <= i < |program| && Full(program[i].symbols, debug))
      || |shared| >= DYNAMIC_MAX
      || |AllRelocs(program)| >= RELOC_MAX
      || !EntriesFit(Events(program), shared)
    }
  }

  lemma OneMoreLinkable(objs: seq<Obj>, obj: Obj)
    requires Linkable(objs) && WellFormed(obj) && |Image(objs)| + EvenSize(obj) < UNSET
    ensures Linkable(objs + [obj])
    ensures IndicesGood(obj) && Definite(obj, |Image(objs)|)
  {
    hide ExternsGood, GlobalsGood, Coherent;
    OffsetOfPrefix(objs + [obj], |objs|, |objs|);
    assert (objs + [obj])[..|objs|] == objs;
    WellFormedIsDefinite(obj, |Image(objs)|);
  }

  lemma WellFormedIsDefinite(obj: Obj, offset: nat)
    requires WellFormed(obj) && offset + |obj.code| < UNSET
    ensures Definite(obj, offset)
  {
    hide Coherent;
    assert forall g :: 0 <= g < |obj.globals| ==> GlobalOf(obj, g).pos <= |obj.code|;
  }

  lemma RoomForNext(program: seq<Obj>, i: nat)
    requires Linkable(program) && i < |program|
    ensures WellFormed(program[i]) && OffsetOf(program[..i], i) + EvenSize(program[i]) < UNSET
  {
    hide WellFormed;
    OffsetOfPrefix(program, i, i);
    OffsetsGrow(program, i, |program|);
  }

  lemma PrefixOnce(evs: seq<Event>, more: seq<Event>)
    requires evs <= more
    ensures DefinedOnce(more) ==> DefinedOnce(evs)
  {
    hide DefinedOnce;
    assert more == evs + more[|evs|..];
    if DefinedOnce(more) { DefinedOncePrefix(evs, more[|evs|..]); }
  }

  lemma {:induction false} EventsPrefix(program: seq<Obj>, n: nat)
    requires AllIndicesGood(program) && n <= |program|
    ensures Events(program[..n]) <= Events(program)
    decreases |program|
  {
    hide EventsOf;
    var last := |program| - 1;
    if n <= last {
      assert program[..last][..n] == program[..n];
      EventsPrefix(program[..last], n);
    } else {
      assert program[..n] == program;
    }
  }

  lemma {:induction false} LocalRelocsGrow(program: seq<Obj>, n: nat)
    requires n <= |program|
    ensures |AllLocalRelocs(program[..n])| <= |AllLocalRelocs(program)|
    decreases |program|
  {
    var last := |program| - 1;
    if n <= last {
      assert program[..last][..n] == program[..n];
      LocalRelocsGrow(program[..last], n);
    } else {
      assert program[..n] == program;
    }
  }

  lemma EnoughLocal(program: seq<Obj>, n: nat)
    requires n <= |program| && AllIndicesGood(program)
    ensures |AllLocalRelocs(program[..n])| <= |AllRelocs(program)|
  {
    LocalRelocsGrow(program, n);
  }

  lemma OneMoreLocal(objs: seq<Obj>, obj: Obj)
    ensures |AllLocalRelocs(objs + [obj])| == |AllLocalRelocs(objs)| + |obj.relocs|
  {
    assert (objs + [obj])[..|objs|] == objs;
  }

  lemma RedefinedInPrefix(program: seq<Obj>, n: nat)
    requires AllIndicesGood(program) && n <= |program| && !DefinedOnce(Events(program[..n]))
    ensures !DefinedOnce(Events(program))
  {
    hide DefinedOnce, Events, IndicesGood;
    EventsPrefix(program, n);
    PrefixOnce(Events(program[..n]), Events(program));
  }

  /** The entry of library i has room for its relocations. */
  predicate EntryFits(evs: seq<Event>, libs: seq<Library>, i: nat)
    requires i < |libs|
  {
    |DynamicRelocs(evs, libs, i, |ExternNames(evs)|)| < INTERN_RELOC_MAX
  }

  predicate EntriesFit(evs: seq<Event>, libs: seq<Library>) {
    forall i :: 0 <= i < |libs| ==> EntryFits(evs, libs, i)
  }

  lemma {:induction false} DynamicRelocsGrow(evs: seq<Event>, libs: seq<Library>, i: nat, j: nat, n: nat)
    requires i < |libs| && j <= n <= |ExternNames(evs)|
    ensures |DynamicRelocs(evs, libs, i, j)| <= |DynamicRelocs(evs, libs, i, n)|
    decreases n
  {
    hide ExternNames, ProvidedBy, SitesOf, ExportPos;
    if j < n { DynamicRelocsGrow(evs, libs, i, j, n - 1); }
  }

  lemma {:induction false} StaticRelocsGrow(evs: seq<Event>, j: nat, n: nat)
    requires j <= n <= |ExternNames(evs)|
    ensures |StaticRelocs(evs, j)| <= |StaticRelocs(evs, n)|
    decreases n
  {
    hide ExternNames, SitesOf, PosOf;
    if j < n { StaticRelocsGrow(evs, j, n - 1); }
  }

  lemma UsesOneMore(evs: seq<Event>, libs: seq<Library>, i: nat, j: nat)
    requires i < |libs| && j < |ExternNames(evs)|
    ensures UsesLibrary(evs, libs, i, j + 1) <==>
            UsesLibrary(evs, libs, i, j) || ProvidedBy(evs, libs, ExternNames(evs)[j], i)
    ensures ProvidedBy(evs, libs, ExternNames(evs)[j], i) <==>
            && !MarkedBefore(evs, libs, ExternNames(evs)[j], i)
            && PosOf(evs, ExternNames(evs)[j]) == UNSET
            && ExportPos(libs[i].exports, ExternNames(evs)[j]) != UNSET
  {
    hide PosOf, ExternNames, ExportPos;
    if ProvidedBy(evs, libs, ExternNames(evs)[j], i) { assert 0 <= j < j + 1; }
  }

  lemma NextEvent(evs: seq<Event>, more: seq<Event>, n: nat)
    requires n < |more|
    ensures evs + more[..n + 1] == evs + more[..n] + [more[n]]
  {
  }

  lemma ExternEvent(obj: Obj, offset: nat, e: nat)
    requires IndicesGood(obj) && e < |obj.externs|
    ensures EventsOf(obj, offset)[e] == RefEvent(obj, offset, e)
  {
  }

  lemma TablesRecord(symbols: seq<Symbol>, externs: seq<nat>, globals: seq<nat>, evs: seq<Event>)
    requires Tables(symbols, externs, globals, evs)
    ensures Records(symbols, evs)
  {
  }

  /** The position the table gives a name is the one of the events. */
  lemma {:induction false} RecordedPos(symbols: seq<Symbol>, evs: seq<Event>, name: string)
    requires Records(symbols, evs) && Plain(name)
    ensures var i := FindSymbol(symbols, name);
            PosOf(evs, name) == if i < |symbols| then symbols[i].pos else UNSET
  {
    if FindSymbol(symbols, name) == |symbols| {
      forall e | 0 <= e < |evs| ensures evs[e].name != name {
        assert FindSymbol(symbols, evs[e].name) < |symbols|;
      }
      SitesOfUnknown(evs, name);
    }
  }

  function Digits(n: nat): string {
    if n < 10 then ['0' + n as char] else Digits(n / 10) + ['0' + (n % 10) as char]
  }

  function DebugName(k: nat, image: string): (name: string)
    ensures !Plain(name)
  {
    var name := Digits(k) + ['@'] + image;
    assert name[|Digits(k)|] == '@';
    name
  }

  lemma OneMoreObject(objs: seq<Obj>, obj: Obj)
    requires AllIndicesGood(objs) && IndicesGood(obj)
    ensures AllIndicesGood(objs + [obj])
    ensures OffsetOf(objs + [obj], |objs|) == |Image(objs)|
    ensures Events(objs + [obj]) == Events(objs) + EventsOf(obj, |Image(objs)|)
    ensures Image(objs + [obj]) == Image(objs) + Padded(obj)
    ensures AllLocalRelocs(objs + [obj]) == AllLocalRelocs(objs) + LocalRelocs(obj, |Image(objs)|)
  {
    assert (objs + [obj])[..|objs|] == objs;
    OffsetOfPrefix(objs + [obj], |objs|, |objs|);
  }

  lemma RedefinitionShows(evs: seq<Event>, more: seq<Event>, n: nat)
    requires n < |more| && more[n].Def? && PosOf(evs + more[..n], more[n].name) != UNSET
    ensures !DefinedOnce(evs + more)
  {
    hide DefinedOnce;
    DefinedOnceMore(evs + more[..n], more[n]);
    assert evs + more == (evs + more[..n] + [more[n]]) + more[n + 1..];
    if DefinedOnce(evs + more) { DefinedOncePrefix(evs + more[..n] + [more[n]], more[n + 1..]); }
  }

  lemma PaddedCode(code: seq<Byte>, obj: Obj)
    requires |code| % 2 == 0
    ensures (if |code + obj.code| % 2 == 1 then code + obj.code + [0] else code + obj.code) == code + Padded(obj)
  {
  }

  // ---------- resolving ----------

  /** The position of the first global of that name. */
  function FindGlobal(symbols: seq<Symbol>, globals: seq<nat>, name: string): Word
    requires forall j :: 0 <= j < |globals| ==> globals[j] < |symbols|
  {
    if globals == [] then UNSET
    else if symbols[globals[0]].image == name then symbols[globals[0]].pos
    else FindGlobal(symbols, globals[1..], name)
  }

  /** An unset name is marked once a library before i has offered it. */
  predicate MarkedBefore(evs: seq<Event>, libs: seq<Library>, name: string, i: nat) {
    PosOf(evs, name) == UNSET && ProviderOf(libs, name) < i && ProviderOf(libs, name) < |libs|
  }

  predicate Marks(resolved: seq<bool>, evs: seq<Event>, libs: seq<Library>, i: nat) {
    && |resolved| == |ExternNames(evs)|
    && forall k :: 0 <= k < |resolved| ==> resolved[k] == MarkedBefore(evs, libs, ExternNames(evs)[k], i)
  }

  lemma TablesIndex(symbols: seq<Symbol>, externs: seq<nat>, globals: seq<nat>, evs: seq<Event>)
    requires Tables(symbols, externs, globals, evs)
    ensures Indexes(symbols, externs, ExternNames(evs)) && Indexes(symbols, globals, GlobalNames(evs)) && DefinedOnce(evs)
  {
  }

  lemma {:induction false} NamesArePlain(evs: seq<Event>)
    requires forall e :: 0 <= e < |evs| ==> Plain(evs[e].name)
    ensures forall j :: 0 <= j < |ExternNames(evs)| ==> Plain(ExternNames(evs)[j])
    ensures forall j :: 0 <= j < |GlobalNames(evs)| ==> Plain(GlobalNames(evs)[j])
  {
    if evs != [] {
      var last := |evs| - 1;
      assert forall e :: 0 <= e < last ==> evs[..last][e] == evs[e];
      NamesArePlain(evs[..last]);
    }
  }

  /** The symbol of an extern entry holds the name's position and sites. */
  lemma SymbolOf(symbols: seq<Symbol>, externs: seq<nat>, globals: seq<nat>, evs: seq<Event>, j: nat)
    requires Tables(symbols, externs, globals, evs) && j < |externs|
    ensures externs[j] < |symbols| && j < |ExternNames(evs)|
    ensures var s, name := symbols[externs[j]], ExternNames(evs)[j];
            s.image == name && s.pos == PosOf(evs, name) && s.relocs == SitesOf(evs, name)
  {
    NamesArePlain(evs);
  }

  /** A defined name is among the globals. */
  lemma {:induction false} DefinedIsGlobal(evs: seq<Event>, name: string)
    requires PosOf(evs, name) != UNSET
    ensures name in GlobalNames(evs)
  {
    var last := |evs| - 1;
    if PosOf(evs[..last], name) != UNSET {
      DefinedIsGlobal(evs[..last], name);
    } else {
      assert GlobalNames(evs)[|GlobalNames(evs)| - 1] == name;
    }
  }

  lemma {:induction false} FindGlobalFinds(symbols: seq<Symbol>, globals: seq<nat>, name: string)
    requires forall j :: 0 <= j < |globals| ==> globals[j] < |symbols|
    ensures (exists j :: 0 <= j < |globals| && symbols[globals[j]].image == name
                         && symbols[globals[j]].pos == FindGlobal(symbols, globals, name))
            || (FindGlobal(symbols, globals, name) == UNSET
                && forall j :: 0 <= j < |globals| ==> symbols[globals[j]].image != name)
  {
    if globals != [] && symbols[globals[0]].image != name {
      FindGlobalFinds(symbols, globals[1..], name);
      if j :| 0 <= j < |globals[1..]| && symbols[globals[1..][j]].image == name
              && symbols[globals[1..][j]].pos == FindGlobal(symbols, globals[1..], name) {
        assert globals[1..][j] == globals[j + 1];
      } else {
        forall j | 0 <= j < |globals| ensures symbols[globals[j]].image != name {
          if j > 0 { assert globals[1..][j - 1] == globals[j]; }
        }
      }
    }
  }

  /** Looking a name up among the globals gives its definition. */
  lemma GlobalPos(symbols: seq<Symbol>, externs: seq<nat>, globals: seq<nat>, evs: seq<Event>, i: nat)
    requires Tables(symbols, externs, globals, evs) && i < |externs|
    ensures externs[i] < |symbols| && forall j :: 0 <= j < |globals| ==> globals[j] < |symbols|
    ensures i < |ExternNames(evs)|
    ensures FindGlobal(symbols, globals, symbols[externs[i]].image) == PosOf(evs, ExternNames(evs)[i])
  {
    SymbolOf(symbols, externs, globals, evs, i);
    var name := ExternNames(evs)[i];
    FindGlobalFinds(symbols, globals, name);
    NamesArePlain(evs);
    if PosOf(evs, name) != UNSET {
      DefinedIsGlobal(evs, name);
      var g :| 0 <= g < |GlobalNames(evs)| && GlobalNames(evs)[g] == name;
      assert symbols[globals[g]].image == name;
    }
  }

  lemma NothingLinked(debug: bool)
    ensures AllIndicesGood([]) && Counted([], Events([]), debug) && ObjsFate([]) == Linked && EventsFate(Events([])) == Linked
  {
  }

  /** The fate of one more event is that of all, once it is a failure. */
  lemma FateOfPrefix(evs: seq<Event>, more: seq<Event>, n: nat)
    requires n < |more| && EventsFate(evs + more[..n]) == Linked
    ensures EventsFate(evs + more[..n + 1]) == EventFate(evs + more[..n], more[n])
    ensures EventFate(evs + more[..n], more[n]) != Linked ==> EventsFate(evs + more) == EventFate(evs + more[..n], more[n])
  {
    hide EventFate, EventsFate;
    NextEvent(evs, more, n);
    EventsFateNext(evs + more[..n], more[n]);
    if EventFate(evs + more[..n], more[n]) != Linked {
      assert evs + more[..n + 1] <= evs + more;
      EventsFateStays(evs + more[..n + 1], evs + more);
    }
  }

  lemma Sizes(symbols: seq<Symbol>, externs: seq<nat>, globals: seq<nat>, evs: seq<Event>, debug: bool)
    requires Tables(symbols, externs, globals, evs) && Counted(symbols, evs, debug)
    ensures |externs| == |ExternNames(evs)| && |globals| == |GlobalNames(evs)|
    ensures |NamesIn(evs)| <= |symbols| && (!debug ==> |symbols| == |NamesIn(evs)|)
  {
    hide Records, NamesIn, ExternNames, GlobalNames, DefinedOnce;
  }

  lemma Recorded(symbols: seq<Symbol>, evs: seq<Event>, name: string)
    requires Records(symbols, evs) && Plain(name)
    ensures var i := FindSymbol(symbols, name);
            i < |symbols| ==> symbols[i].relocs == SitesOf(evs, name) && symbols[i].pos == PosOf(evs, name)
  {
    hide SitesOf, PosOf, Plain;
  }
}
