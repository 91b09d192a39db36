/** The encodings field by field: which byte of a file holds what. */
module FormatLayout {
  import opened Words
  import opened ObjectFiles
  import opened Formats

  predicate Part(b: seq<Byte>, at: nat, part: seq<Byte>) {
    at + |part| <= |b| && forall i :: 0 <= i < |part| ==> b[at + i] == part[i]
  }

  lemma SplitPart(b: seq<Byte>, at: nat, x: seq<Byte>, y: seq<Byte>)
    requires Part(b, at, x + y)
    ensures Part(b, at, x) && Part(b, at + |x|, y)
  {
    forall i | 0 <= i < |x| ensures b[at + i] == x[i] { assert (x + y)[i] == x[i]; }
    forall i | 0 <= i < |y| ensures b[at + |x| + i] == y[i] { assert (x + y)[|x| + i] == y[i]; }
  }

  predicate Remains(b: seq<Byte>, at: nat, rest: seq<Byte>) {
    at <= |b| && b[at..] == rest
  }

  lemma RemainingPart(b: seq<Byte>, at: nat, rest: seq<Byte>)
    requires Remains(b, at, rest)
    ensures Part(b, at, rest) && |b| == at + |rest|
  {
  }

  lemma SplitRest(b: seq<Byte>, at: nat, x: seq<Byte>, rest: seq<Byte>)
    requires Remains(b, at, x + rest)
    ensures Part(b, at, x) && Remains(b, at + |x|, rest)
  {
    forall i | 0 <= i < |x| ensures b[at + i] == x[i] { assert b[at..][i] == (x + rest)[i]; }
    assert b[at + |x|..] == b[at..][|x|..] == (x + rest)[|x|..] == rest;
  }

  // ---------- fields ----------

  /** A byte. */
  predicate Holds8(b: seq<Byte>, at: nat, n: int) {
    at < |b| && b[at] == n
  }

  /** A word, low byte first. */
  predicate Holds16(b: seq<Byte>, at: nat, w: int) {
    at + 1 < |b| && b[at] as int + 0x100 * (b[at + 1] as int) == w
  }

  predicate HoldsWords(b: seq<Byte>, at: nat, ws: seq<Word>) {
    at + 2 * |ws| <= |b| && forall i :: 0 <= i < |ws| ==> Holds16(b, at + 2 * i, ws[i])
  }

  /** Each relocation its place, then its word. */
  predicate HoldsRelocs(b: seq<Byte>, at: nat, rs: seq<Reloc>) {
    && at + 4 * |rs| <= |b|
    && forall i :: 0 <= i < |rs| ==> Holds16(b, at + 4 * i, rs[i].where) && Holds16(b, at + 4 * i + 2, rs[i].what)
  }

  /** The length, then the characters. */
  predicate HoldsName(b: seq<Byte>, at: nat, name: string) {
    Holds8(b, at, |name|) && at + 1 + |name| <= |b| && forall i :: 0 <= i < |name| ==> b[at + 1 + i] == name[i] as int
  }

  /** Name, position, and the absolute and the relative sites behind their numbers. */
  predicate HoldsSymbol(b: seq<Byte>, at: nat, s: Symbol) {
    var p := at + 1 + |s.image|;
    var q := p + 3 + 2 * |s.relocs|;
    && HoldsName(b, at, s.image) && Holds16(b, p, s.pos)
    && Holds8(b, p + 2, |s.relocs|) && HoldsWords(b, p + 3, s.relocs)
    && Holds8(b, q, |s.relrelocs|) && HoldsWords(b, q + 1, s.relrelocs)
  }

  function SymbolSize(s: Symbol): nat {
    5 + |s.image| + 2 * |s.relocs| + 2 * |s.relrelocs|
  }

  /** Where symbol i begins among its fellows. */
  function SymbolOffset(ss: seq<Symbol>, i: nat): nat
    requires i <= |ss|
    decreases i
  {
    if i == 0 then 0 else SymbolSize(ss[0]) + SymbolOffset(ss[1..], i - 1)
  }

  /** The number of symbols, then the symbols, and then the end. */
  predicate HoldsSymbols(b: seq<Byte>, at: nat, ss: seq<Symbol>) {
    && Holds16(b, at, |ss|) && |b| == at + 2 + SymbolOffset(ss, |ss|)
    && forall i :: 0 <= i < |ss| ==> HoldsSymbol(b, at + 2 + SymbolOffset(ss, i), ss[i])
  }

  /** File, number of relocations, and these. */
  predicate HoldsDynamic(b: seq<Byte>, at: nat, d: Dynamic) {
    && HoldsName(b, at, d.file) && Holds8(b, at + 1 + |d.file|, |d.relocs|) && HoldsRelocs(b, at + 2 + |d.file|, d.relocs)
  }

  function DynamicSize(d: Dynamic): nat {
    2 + |d.file| + 4 * |d.relocs|
  }

  function DynamicOffset(ds: seq<Dynamic>, i: nat): nat
    requires i <= |ds|
    decreases i
  {
    if i == 0 then 0 else DynamicSize(ds[0]) + DynamicOffset(ds[1..], i - 1)
  }

  /** Code and relocations, each behind its size. */
  predicate HoldsBody(b: seq<Byte>, at: nat, code: seq<Byte>, rs: seq<Reloc>) {
    && Holds16(b, at, |code|) && Part(b, at + 2, code)
    && Holds16(b, at + 2 + |code|, |rs|) && HoldsRelocs(b, at + 4 + |code|, rs)
  }

  // ---------- the encodings ----------

  lemma WordThere(b: seq<Byte>, at: nat, w: Word)
    requires Part(b, at, U16(w))
    ensures Holds16(b, at, w)
  {
    assert b[at + 0] == U16(w)[0] && b[at + 1] == U16(w)[1];
  }

  lemma ByteThere(b: seq<Byte>, at: nat, n: Byte)
    requires Part(b, at, [n])
    ensures Holds8(b, at, n)
  {
    assert b[at + 0] == [n][0];
  }

  lemma {:induction false} WordsThere(b: seq<Byte>, at: nat, ws: seq<Word>)
    requires Part(b, at, WordBytes(ws))
    ensures |WordBytes(ws)| == 2 * |ws| && HoldsWords(b, at, ws)
    decreases |ws|
  {
    hide Holds16;
    if ws != [] {
      SplitPart(b, at, U16(ws[0]), WordBytes(ws[1..]));
      WordThere(b, at, ws[0]);
      WordsThere(b, at + 2, ws[1..]);
      forall i | 0 <= i < |ws| ensures Holds16(b, at + 2 * i, ws[i]) {
        if i > 0 { assert Holds16(b, at + 2 + 2 * (i - 1), ws[1..][i - 1]); }
      }
    }
  }

  lemma {:induction false} RelocsThere(b: seq<Byte>, at: nat, rs: seq<Reloc>)
    requires Part(b, at, RelocBytes(rs))
    ensures |RelocBytes(rs)| == 4 * |rs| && HoldsRelocs(b, at, rs)
    decreases |rs|
  {
    hide Holds16;
    if rs != [] {
      SplitPart(b, at, U16(rs[0].where), U16(rs[0].what) + RelocBytes(rs[1..]));
      SplitPart(b, at + 2, U16(rs[0].what), RelocBytes(rs[1..]));
      WordThere(b, at, rs[0].where);
      WordThere(b, at + 2, rs[0].what);
      RelocsThere(b, at + 4, rs[1..]);
      forall i | 0 <= i < |rs| ensures Holds16(b, at + 4 * i, rs[i].where) && Holds16(b, at + 4 * i + 2, rs[i].what) {
        if i > 0 {
          var j := at + 4 + 4 * (i - 1);
          assert Holds16(b, j, rs[1..][i - 1].where) && Holds16(b, j + 2, rs[1..][i - 1].what);
        }
      }
    }
  }

  lemma NameThere(b: seq<Byte>, at: nat, name: string)
    requires GoodName(name) && Part(b, at, NameBytes(name))
    ensures |NameBytes(name)| == 1 + |name| && HoldsName(b, at, name)
  {
    SplitPart(b, at, [|name|], TextBytes(name));
    ByteThere(b, at, |name|);
    forall i | 0 <= i < |name| ensures b[at + 1 + i] == name[i] as int { assert TextBytes(name)[i] == name[i] as int; }
  }

  lemma SymbolThere(b: seq<Byte>, at: nat, s: Symbol)
    requires GoodSymbol(s) && Part(b, at, SymbolBytes(s))
    ensures |SymbolBytes(s)| == SymbolSize(s) && HoldsSymbol(b, at, s)
  {
    hide Part, HoldsName, Holds16, Holds8, HoldsWords, NameBytes, WordBytes;
    var relative := [|s.relrelocs|] + WordBytes(s.relrelocs);
    var absolute := [|s.relocs|] + (WordBytes(s.relocs) + relative);
    var p := at + 1 + |s.image|;
    SplitPart(b, at, NameBytes(s.image), U16(s.pos) + absolute);
    NameThere(b, at, s.image);
    SplitPart(b, p, U16(s.pos), absolute);
    WordThere(b, p, s.pos);
    SplitPart(b, p + 2, [|s.relocs|], WordBytes(s.relocs) + relative);
    ByteThere(b, p + 2, |s.relocs|);
    SplitPart(b, p + 3, WordBytes(s.relocs), relative);
    WordsThere(b, p + 3, s.relocs);
    var q := p + 3 + 2 * |s.relocs|;
    SplitPart(b, q, [|s.relrelocs|], WordBytes(s.relrelocs));
    ByteThere(b, q, |s.relrelocs|);
    WordsThere(b, q + 1, s.relrelocs);
  }

  lemma {:induction false} SymbolsThere(b: seq<Byte>, at: nat, ss: seq<Symbol>)
    requires GoodSymbols(ss) && Part(b, at, SymbolsBytes(ss))
    ensures |SymbolsBytes(ss)| == SymbolOffset(ss, |ss|)
    ensures forall i :: 0 <= i < |ss| ==> HoldsSymbol(b, at + SymbolOffset(ss, i), ss[i])
    decreases |ss|
  {
    hide Part, HoldsSymbol, SymbolBytes, SymbolSize, GoodSymbol;
    if ss != [] {
      SplitPart(b, at, SymbolBytes(ss[0]), SymbolsBytes(ss[1..]));
      SymbolThere(b, at, ss[0]);
      SymbolsThere(b, at + SymbolSize(ss[0]), ss[1..]);
      forall i | 0 <= i < |ss| ensures HoldsSymbol(b, at + SymbolOffset(ss, i), ss[i]) {
        if i > 0 { assert HoldsSymbol(b, at + SymbolSize(ss[0]) + SymbolOffset(ss[1..], i - 1), ss[1..][i - 1]); }
      }
    }
  }

  lemma DynamicThere(b: seq<Byte>, at: nat, d: Dynamic)
    requires GoodDynamic(d) && Part(b, at, DynamicBytes(d))
    ensures |DynamicBytes(d)| == DynamicSize(d) && HoldsDynamic(b, at, d)
  {
    hide Part, HoldsName, Holds8, HoldsRelocs, NameBytes, RelocBytes;
    SplitPart(b, at, NameBytes(d.file), [|d.relocs|] + RelocBytes(d.relocs));
    NameThere(b, at, d.file);
    SplitPart(b, at + 1 + |d.file|, [|d.relocs|], RelocBytes(d.relocs));
    ByteThere(b, at + 1 + |d.file|, |d.relocs|);
    RelocsThere(b, at + 2 + |d.file|, d.relocs);
  }

  lemma {:induction false} DynamicsThere(b: seq<Byte>, at: nat, ds: seq<Dynamic>)
    requires GoodDynamics(ds) && Part(b, at, DynamicsBytes(ds))
    ensures |DynamicsBytes(ds)| == DynamicOffset(ds, |ds|)
    ensures forall i :: 0 <= i < |ds| ==> HoldsDynamic(b, at + DynamicOffset(ds, i), ds[i])
    decreases |ds|
  {
    hide Part, HoldsDynamic, DynamicBytes, DynamicSize, GoodDynamic;
    if ds != [] {
      SplitPart(b, at, DynamicBytes(ds[0]), DynamicsBytes(ds[1..]));
      DynamicThere(b, at, ds[0]);
      DynamicsThere(b, at + DynamicSize(ds[0]), ds[1..]);
      forall i | 0 <= i < |ds| ensures HoldsDynamic(b, at + DynamicOffset(ds, i), ds[i]) {
        if i > 0 { assert HoldsDynamic(b, at + DynamicSize(ds[0]) + DynamicOffset(ds[1..], i - 1), ds[1..][i - 1]); }
      }
    }
  }

  lemma BodyThere(b: seq<Byte>, at: nat, code: seq<Byte>, rs: seq<Reloc>)
    requires GoodBody(code, rs) && Part(b, at, BodyBytes(code, rs))
    ensures |BodyBytes(code, rs)| == 4 + |code| + 4 * |rs| && HoldsBody(b, at, code, rs)
  {
    hide Part, Holds16, HoldsRelocs, RelocBytes;
    SplitPart(b, at, U16(|code|), code + (U16(|rs|) + RelocBytes(rs)));
    WordThere(b, at, |code|);
    SplitPart(b, at + 2, code, U16(|rs|) + RelocBytes(rs));
    SplitPart(b, at + 2 + |code|, U16(|rs|), RelocBytes(rs));
    WordThere(b, at + 2 + |code|, |rs|);
    RelocsThere(b, at + 4 + |code|, rs);
  }

  lemma CountedWordsThere(b: seq<Byte>, at: nat, ws: seq<Word>)
    requires |ws| < 0x100 && Part(b, at, CountedWords(ws))
    ensures |CountedWords(ws)| == 1 + 2 * |ws| && Holds8(b, at, |ws|) && HoldsWords(b, at + 1, ws)
  {
    hide Part, Holds8, HoldsWords, WordBytes;
    SplitPart(b, at, [|ws|], WordBytes(ws));
    ByteThere(b, at, |ws|);
    WordsThere(b, at + 1, ws);
  }

  // ---------- sections in front of the rest ----------

  lemma BodyFirst(b: seq<Byte>, at: nat, code: seq<Byte>, rs: seq<Reloc>, rest: seq<Byte>)
    requires GoodBody(code, rs) && Remains(b, at, BodyBytes(code, rs) + rest)
    ensures HoldsBody(b, at, code, rs) && Remains(b, at + 4 + |code| + 4 * |rs|, rest)
  {
    hide Part, Remains, HoldsBody, BodyBytes;
    SplitRest(b, at, BodyBytes(code, rs), rest);
    BodyThere(b, at, code, rs);
  }

  lemma WordFirst(b: seq<Byte>, at: nat, w: Word, rest: seq<Byte>)
    requires Remains(b, at, U16(w) + rest)
    ensures Holds16(b, at, w) && Remains(b, at + 2, rest)
  {
    hide Part, Remains, Holds16;
    SplitRest(b, at, U16(w), rest);
    WordThere(b, at, w);
  }

  lemma DynamicsFirst(b: seq<Byte>, at: nat, ds: seq<Dynamic>, rest: seq<Byte>)
    requires GoodDynamics(ds) && Remains(b, at, DynamicsBytes(ds) + rest)
    ensures forall i :: 0 <= i < |ds| ==> HoldsDynamic(b, at + DynamicOffset(ds, i), ds[i])
    ensures Remains(b, at + DynamicOffset(ds, |ds|), rest)
  {
    hide Part, Remains, HoldsDynamic, DynamicsBytes, DynamicOffset;
    SplitRest(b, at, DynamicsBytes(ds), rest);
    DynamicsThere(b, at, ds);
  }

  lemma CountedWordsFirst(b: seq<Byte>, at: nat, ws: seq<Word>, rest: seq<Byte>)
    requires |ws| < 0x100 && Remains(b, at, CountedWords(ws) + rest)
    ensures Holds8(b, at, |ws|) && HoldsWords(b, at + 1, ws) && Remains(b, at + 1 + 2 * |ws|, rest)
  {
    hide Part, Remains, Holds8, HoldsWords, CountedWords;
    SplitRest(b, at, CountedWords(ws), rest);
    CountedWordsThere(b, at, ws);
  }

  lemma CountedThere(b: seq<Byte>, at: nat, ss: seq<Symbol>)
    requires GoodSymbols(ss) && |ss| < SYMBOL_MAX && Remains(b, at, CountedSymbols(ss))
    ensures HoldsSymbols(b, at, ss)
  {
    hide Part, Remains, Holds16, U16, HoldsSymbol, SymbolsBytes, SymbolOffset, GoodSymbols;
    WordFirst(b, at, |ss|, SymbolsBytes(ss));
    RemainingPart(b, at + 2, SymbolsBytes(ss));
    SymbolsThere(b, at + 2, ss);
  }

  lemma Whole(b: seq<Byte>)
    ensures Remains(b, 0, b)
  {
  }

  // ---------- files ----------

  /** An executable: `EXE`, the code, the relocations, the dynamic entries, the symbols. */
  lemma ExeLayout(exe: Exe)
    requires GoodExe(exe)
    ensures var b, at := ExeBytes(exe), 7 + |exe.code| + 4 * |exe.relocs|;
            && Part(b, 0, ['E' as int, 'X' as int, 'E' as int]) && HoldsBody(b, 3, exe.code, exe.relocs)
            && Holds16(b, at, |exe.dynamics|)
            && (forall i :: 0 <= i < |exe.dynamics| ==> HoldsDynamic(b, at + 2 + DynamicOffset(exe.dynamics, i), exe.dynamics[i]))
            && HoldsSymbols(b, at + 2 + DynamicOffset(exe.dynamics, |exe.dynamics|), exe.symbols)
  {
    hide Part, Remains, Holds16, HoldsBody, HoldsDynamic, HoldsSymbols, BodyBytes, DynamicsBytes, CountedSymbols, GoodBody,
      GoodDynamics, GoodSymbols, DynamicOffset, U16;
    var b, at := ExeBytes(exe), 7 + |exe.code| + 4 * |exe.relocs|;
    var symbols := CountedSymbols(exe.symbols);
    var dynamics := DynamicsBytes(exe.dynamics) + symbols;
    var counted := U16(|exe.dynamics|) + dynamics;
    Whole(b);
    SplitRest(b, 0, EXE_MAGIC, BodyBytes(exe.code, exe.relocs) + counted);
    BodyFirst(b, 3, exe.code, exe.relocs, counted);
    WordFirst(b, at, |exe.dynamics|, dynamics);
    DynamicsFirst(b, at + 2, exe.dynamics, symbols);
    CountedThere(b, at + 2 + DynamicOffset(exe.dynamics, |exe.dynamics|), exe.symbols);
  }

  /** An object: `OBJ`, the code, the relocations, the globals and the externs behind their numbers, the symbols. */
  lemma ObjLayout(obj: StoredObj)
    requires GoodObj(obj)
    ensures var b, at, m, n := ObjBytes(obj), 7 + |obj.code| + 4 * |obj.relocs|, 2 * |obj.globals|, 2 * |obj.externs|;
            && Part(b, 0, ['O' as int, 'B' as int, 'J' as int]) && HoldsBody(b, 3, obj.code, obj.relocs)
            && Holds8(b, at, |obj.globals|) && HoldsWords(b, at + 1, obj.globals)
            && Holds8(b, at + 1 + m, |obj.externs|) && HoldsWords(b, at + 2 + m, obj.externs)
            && HoldsSymbols(b, at + 2 + m + n, obj.symbols)
  {
    hide Part, Remains, Holds8, HoldsBody, HoldsWords, HoldsSymbols, BodyBytes, CountedWords, CountedSymbols, GoodBody, GoodSymbols;
    var b, at := ObjBytes(obj), 7 + |obj.code| + 4 * |obj.relocs|;
    var symbols := CountedSymbols(obj.symbols);
    var externs := CountedWords(obj.externs) + symbols;
    var globals := CountedWords(obj.globals) + externs;
    Whole(b);
    SplitRest(b, 0, OBJ_MAGIC, BodyBytes(obj.code, obj.relocs) + globals);
    BodyFirst(b, 3, obj.code, obj.relocs, globals);
    CountedWordsFirst(b, at, obj.globals, externs);
    CountedWordsFirst(b, at + 1 + 2 * |obj.globals|, obj.externs, symbols);
    CountedThere(b, at + 2 + 2 * |obj.globals| + 2 * |obj.externs|, obj.symbols);
  }

  /** A shared object: `SO`, the code, the relocations, the globals, the symbols. */
  lemma SoLayout(so: So)
    requires GoodSo(so)
    ensures var b, at := SoBytes(so), 6 + |so.code| + 4 * |so.relocs|;
            && Part(b, 0, ['S' as int, 'O' as int]) && HoldsBody(b, 2, so.code, so.relocs)
            && Holds8(b, at, |so.globals|) && HoldsWords(b, at + 1, so.globals)
            && HoldsSymbols(b, at + 1 + 2 * |so.globals|, so.symbols)
  {
    hide Part, Remains, Holds8, HoldsBody, HoldsWords, HoldsSymbols, BodyBytes, CountedWords, CountedSymbols, GoodBody, GoodSymbols;
    var b, at := SoBytes(so), 6 + |so.code| + 4 * |so.relocs|;
    var symbols := CountedSymbols(so.symbols);
    var globals := CountedWords(so.globals) + symbols;
    Whole(b);
    SplitRest(b, 0, SO_MAGIC, BodyBytes(so.code, so.relocs) + globals);
    BodyFirst(b, 2, so.code, so.relocs, globals);
    CountedWordsFirst(b, at, so.globals, symbols);
    CountedThere(b, at + 1 + 2 * |so.globals|, so.symbols);
  }
}
