/** The byte formats of objects, executables and shared objects: encodings and the parsers that undo them. */
module Formats {
  import opened Words
  import opened ObjectFiles

  /** A shared object. */
  datatype So = So(code: seq<Byte>, relocs: seq<Reloc>, globals: seq<Word>, symbols: seq<Symbol>)

  /** Objects as stored, with word-sized indices. */
  datatype StoredObj = StoredObj(code: seq<Byte>, relocs: seq<Reloc>, globals: seq<Word>, externs: seq<Word>, symbols: seq<Symbol>)

  // ---------- encodings ----------

  function U16(w: Word): seq<Byte> {
    [LowByte(w), HighByte(w)]
  }

  predicate Chars(text: string) {
    forall i :: 0 <= i < |text| ==> text[i] as int < 0x100
  }

  function TextBytes(text: string): (bytes: seq<Byte>)
    requires Chars(text)
    ensures |bytes| == |text|
  {
    seq(|text|, i requires 0 <= i < |text| => text[i] as int)
  }

  /** Names are stored behind a length byte. */
  predicate GoodName(name: string) {
    0 < |name| < 0x100 && Chars(name)
  }

  function NameBytes(name: string): seq<Byte>
    requires GoodName(name)
  {
    [|name|] + TextBytes(name)
  }

  function WordBytes(ws: seq<Word>): seq<Byte> {
    if ws == [] then [] else U16(ws[0]) + WordBytes(ws[1..])
  }

  function RelocBytes(rs: seq<Reloc>): seq<Byte> {
    if rs == [] then [] else U16(rs[0].where) + (U16(rs[0].what) + RelocBytes(rs[1..]))
  }

  predicate GoodSymbol(s: Symbol) {
    GoodName(s.image) && |s.relocs| < 0x100 && |s.relrelocs| < 0x100
  }

  function SymbolBytes(s: Symbol): seq<Byte>
    requires GoodSymbol(s)
  {
    NameBytes(s.image) + (U16(s.pos) + ([|s.relocs|] + (WordBytes(s.relocs) + ([|s.relrelocs|] + WordBytes(s.relrelocs)))))
  }

  predicate GoodSymbols(ss: seq<Symbol>) {
    forall i :: 0 <= i < |ss| ==> GoodSymbol(ss[i])
  }

  function SymbolsBytes(ss: seq<Symbol>): seq<Byte>
    requires GoodSymbols(ss)
  {
    if ss == [] then [] else SymbolBytes(ss[0]) + SymbolsBytes(ss[1..])
  }

  predicate GoodDynamic(d: Dynamic) {
    GoodName(d.file) && |d.relocs| < 0x100
  }

  function DynamicBytes(d: Dynamic): seq<Byte>
    requires GoodDynamic(d)
  {
    NameBytes(d.file) + ([|d.relocs|] + RelocBytes(d.relocs))
  }

  predicate GoodDynamics(ds: seq<Dynamic>) {
    forall i :: 0 <= i < |ds| ==> GoodDynamic(ds[i])
  }

  function DynamicsBytes(ds: seq<Dynamic>): seq<Byte>
    requires GoodDynamics(ds)
  {
    if ds == [] then [] else DynamicBytes(ds[0]) + DynamicsBytes(ds[1..])
  }

  /** Code and relocations, each behind its size. */
  predicate GoodBody(code: seq<Byte>, rs: seq<Reloc>) {
    |code| < 0x1_0000 && |rs| < 0x1_0000
  }

  function BodyBytes(code: seq<Byte>, rs: seq<Reloc>): seq<Byte>
    requires GoodBody(code, rs)
  {
    U16(|code|) + (code + (U16(|rs|) + RelocBytes(rs)))
  }

  function CountedWords(ws: seq<Word>): seq<Byte>
    requires |ws| < 0x100
  {
    [|ws|] + WordBytes(ws)
  }

  function CountedSymbols(ss: seq<Symbol>): seq<Byte>
    requires GoodSymbols(ss) && |ss| < SYMBOL_MAX
  {
    U16(|ss|) + SymbolsBytes(ss)
  }

  const EXE_MAGIC: seq<Byte> := [0x45, 0x58, 0x45]
  const OBJ_MAGIC: seq<Byte> := [0x4F, 0x42, 0x4A]
  const SO_MAGIC: seq<Byte> := [0x53, 0x4F]

  predicate GoodExe(exe: Exe) {
    && GoodBody(exe.code, exe.relocs) && |exe.dynamics| < 0x1_0000 && GoodDynamics(exe.dynamics)
    && |exe.symbols| < SYMBOL_MAX && GoodSymbols(exe.symbols)
  }

  function ExeBytes(exe: Exe): seq<Byte>
    requires GoodExe(exe)
  {
    EXE_MAGIC + (BodyBytes(exe.code, exe.relocs)
                 + (U16(|exe.dynamics|) + (DynamicsBytes(exe.dynamics) + CountedSymbols(exe.symbols))))
  }

  predicate GoodObj(obj: StoredObj) {
    && GoodBody(obj.code, obj.relocs) && |obj.globals| < 0x100 && |obj.externs| < 0x100
    && |obj.symbols| < SYMBOL_MAX && GoodSymbols(obj.symbols)
  }

  function ObjBytes(obj: StoredObj): seq<Byte>
    requires GoodObj(obj)
  {
    OBJ_MAGIC + (BodyBytes(obj.code, obj.relocs)
                 + (CountedWords(obj.globals) + (CountedWords(obj.externs) + CountedSymbols(obj.symbols))))
  }

  predicate GoodSo(so: So) {
    && GoodBody(so.code, so.relocs) && |so.globals| < 0x100 && |so.symbols| < SYMBOL_MAX && GoodSymbols(so.symbols)
  }

  function SoBytes(so: So): seq<Byte>
    requires GoodSo(so)
  {
    SO_MAGIC + (BodyBytes(so.code, so.relocs) + (CountedWords(so.globals) + CountedSymbols(so.symbols)))
  }

  // ---------- parsers ----------

  /** What a parser finds at the front of its input, and what it leaves. */
  datatype Parsed<T> = Bad | Good(value: T, rest: seq<Byte>)

  function ParseU8(s: seq<Byte>): Parsed<Byte> {
    if s == [] then Bad else Good(s[0], s[1..])
  }

  function ParseU16(s: seq<Byte>): Parsed<Word> {
    if |s| < 2 then Bad else Good(FromBytes(s[0], s[1]), s[2..])
  }

  function ParseBytes(s: seq<Byte>, n: nat): Parsed<seq<Byte>> {
    if |s| < n then Bad else Good(s[..n], s[n..])
  }

  function Text(bytes: seq<Byte>): (text: string)
    ensures |text| == |bytes|
  {
    seq(|bytes|, i requires 0 <= i < |bytes| => bytes[i] as char)
  }

  /** A name must not be empty. */
  function ParseName(s: seq<Byte>): Parsed<string> {
    var len := ParseU8(s);
    if len.Bad? || len.value == 0 then Bad else
      var bytes := ParseBytes(len.rest, len.value);
      if bytes.Bad? then Bad else Good(Text(bytes.value), bytes.rest)
  }

  function ParseWords(s: seq<Byte>, n: nat): Parsed<seq<Word>>
    decreases n
  {
    if n == 0 then Good([], s) else
      var head := ParseU16(s);
      if head.Bad? then Bad else
        var tail := ParseWords(head.rest, n - 1);
        if tail.Bad? then Bad else Good([head.value] + tail.value, tail.rest)
  }

  function ParseReloc(s: seq<Byte>): Parsed<Reloc> {
    var where := ParseU16(s);
    if where.Bad? then Bad else
      var what := ParseU16(where.rest);
      if what.Bad? then Bad else Good(Reloc(where.value, what.value), what.rest)
  }

  function ParseRelocs(s: seq<Byte>, n: nat): Parsed<seq<Reloc>>
    decreases n
  {
    if n == 0 then Good([], s) else
      var head := ParseReloc(s);
      if head.Bad? then Bad else
        var tail := ParseRelocs(head.rest, n - 1);
        if tail.Bad? then Bad else Good([head.value] + tail.value, tail.rest)
  }

  function ParseCountedWords(s: seq<Byte>): Parsed<seq<Word>> {
    var count := ParseU8(s);
    if count.Bad? then Bad else ParseWords(count.rest, count.value)
  }

  function ParseSymbol(s: seq<Byte>): Parsed<Symbol> {
    var name := ParseName(s);
    if name.Bad? then Bad else
      var pos := ParseU16(name.rest);
      if pos.Bad? then Bad else
        var relocs := ParseCountedWords(pos.rest);
        if relocs.Bad? then Bad else
          var relrelocs := ParseCountedWords(relocs.rest);
          if relrelocs.Bad? then Bad else
            Good(Symbol(name.value, pos.value, relocs.value, relrelocs.value), relrelocs.rest)
  }

  function ParseSymbols(s: seq<Byte>, n: nat): Parsed<seq<Symbol>>
    decreases n
  {
    if n == 0 then Good([], s) else
      var head := ParseSymbol(s);
      if head.Bad? then Bad else
        var tail := ParseSymbols(head.rest, n - 1);
        if tail.Bad? then Bad else Good([head.value] + tail.value, tail.rest)
  }

  /** There must be room for all symbols. */
  function ParseCountedSymbols(s: seq<Byte>): Parsed<seq<Symbol>> {
    var count := ParseU16(s);
    if count.Bad? || count.value >= SYMBOL_MAX then Bad else ParseSymbols(count.rest, count.value)
  }

  function ParseDynamic(s: seq<Byte>): Parsed<Dynamic> {
    var name := ParseName(s);
    if name.Bad? then Bad else
      var count := ParseU8(name.rest);
      if count.Bad? then Bad else
        var relocs := ParseRelocs(count.rest, count.value);
        if relocs.Bad? then Bad else Good(Dynamic(name.value, relocs.value), relocs.rest)
  }

  function ParseDynamics(s: seq<Byte>, n: nat): Parsed<seq<Dynamic>>
    decreases n
  {
    if n == 0 then Good([], s) else
      var head := ParseDynamic(s);
      if head.Bad? then Bad else
        var tail := ParseDynamics(head.rest, n - 1);
        if tail.Bad? then Bad else Good([head.value] + tail.value, tail.rest)
  }

  function ParseBody(s: seq<Byte>): Parsed<(seq<Byte>, seq<Reloc>)> {
    var size := ParseU16(s);
    if size.Bad? then Bad else
      var code := ParseBytes(size.rest, size.value);
      if code.Bad? then Bad else
        var count := ParseU16(code.rest);
        if count.Bad? then Bad else
          var relocs := ParseRelocs(count.rest, count.value);
          if relocs.Bad? then Bad else Good((code.value, relocs.value), relocs.rest)
  }

  function ParseExe(s: seq<Byte>): Parsed<Exe> {
    if |s| < 3 || s[..3] != EXE_MAGIC then Bad else
      var body := ParseBody(s[3..]);
      if body.Bad? then Bad else
        var count := ParseU16(body.rest);
        if count.Bad? then Bad else
          var dynamics := ParseDynamics(count.rest, count.value);
          if dynamics.Bad? then Bad else
            var symbols := ParseCountedSymbols(dynamics.rest);
            if symbols.Bad? then Bad else
              Good(Exe(body.value.0, body.value.1, dynamics.value, symbols.value), symbols.rest)
  }

  function ParseObj(s: seq<Byte>): Parsed<StoredObj> {
    if |s| < 3 || s[..3] != OBJ_MAGIC then Bad else
      var body := ParseBody(s[3..]);
      if body.Bad? then Bad else
        var globals := ParseCountedWords(body.rest);
        if globals.Bad? then Bad else
          var externs := ParseCountedWords(globals.rest);
          if externs.Bad? then Bad else
            var symbols := ParseCountedSymbols(externs.rest);
            if symbols.Bad? then Bad else
              Good(StoredObj(body.value.0, body.value.1, globals.value, externs.value, symbols.value), symbols.rest)
  }

  function ParseSo(s: seq<Byte>): Parsed<So> {
    if |s| < 2 || s[..2] != SO_MAGIC then Bad else
      var body := ParseBody(s[2..]);
      if body.Bad? then Bad else
        var globals := ParseCountedWords(body.rest);
        if globals.Bad? then Bad else
          var symbols := ParseCountedSymbols(globals.rest);
          if symbols.Bad? then Bad else
            Good(So(body.value.0, body.value.1, globals.value, symbols.value), symbols.rest)
  }

  // ---------- parsing undoes encoding ----------

  lemma Again(a: seq<Byte>, b: seq<Byte>, t: seq<Byte>)
    ensures (a + b) + t == a + (b + t)
  {
  }

  lemma FrontU16(w: Word, t: seq<Byte>)
    ensures ParseU16(U16(w) + t) == Good(w, t)
  {
    assert (U16(w) + t)[2..] == t;
    BytesRoundTrip(w);
  }

  lemma FrontU8(b: Byte, t: seq<Byte>)
    ensures ParseU8([b] + t) == Good(b, t)
  {
  }

  lemma FrontBytes(a: seq<Byte>, t: seq<Byte>)
    ensures ParseBytes(a + t, |a|) == Good(a, t)
  {
    assert (a + t)[..|a|] == a && (a + t)[|a|..] == t;
  }

  lemma FrontName(name: string, t: seq<Byte>)
    requires GoodName(name)
    ensures ParseName(NameBytes(name) + t) == Good(name, t)
  {
    Again([|name|], TextBytes(name), t);
    FrontU8(|name|, TextBytes(name) + t);
    FrontBytes(TextBytes(name), t);
    assert Text(TextBytes(name)) == name;
  }

  lemma {:induction false} FrontWords(ws: seq<Word>, t: seq<Byte>)
    ensures ParseWords(WordBytes(ws) + t, |ws|) == Good(ws, t)
  {
    if ws == [] {
      assert WordBytes(ws) + t == t;
    } else {
      Again(U16(ws[0]), WordBytes(ws[1..]), t);
      FrontU16(ws[0], WordBytes(ws[1..]) + t);
      FrontWords(ws[1..], t);
      assert [ws[0]] + ws[1..] == ws;
    }
  }

  lemma {:induction false} FrontRelocs(rs: seq<Reloc>, t: seq<Byte>)
    ensures ParseRelocs(RelocBytes(rs) + t, |rs|) == Good(rs, t)
  {
    if rs == [] {
      assert RelocBytes(rs) + t == t;
    } else {
      var tail := RelocBytes(rs[1..]);
      Again(U16(rs[0].where), U16(rs[0].what) + tail, t);
      Again(U16(rs[0].what), tail, t);
      FrontU16(rs[0].where, U16(rs[0].what) + (tail + t));
      FrontU16(rs[0].what, tail + t);
      FrontRelocs(rs[1..], t);
      assert [rs[0]] + rs[1..] == rs;
    }
  }

  lemma FrontCountedWords(ws: seq<Word>, t: seq<Byte>)
    requires |ws| < 0x100
    ensures ParseCountedWords(CountedWords(ws) + t) == Good(ws, t)
  {
    Again([|ws|], WordBytes(ws), t);
    FrontU8(|ws|, WordBytes(ws) + t);
    FrontWords(ws, t);
  }

  lemma FrontSymbol(s: Symbol, t: seq<Byte>)
    requires GoodSymbol(s)
    ensures ParseSymbol(SymbolBytes(s) + t) == Good(s, t)
  {
    hide ParseName, ParseU16, ParseCountedWords, NameBytes, WordBytes, U16;
    var name, pos, relocs, relrelocs := NameBytes(s.image), U16(s.pos), CountedWords(s.relocs), CountedWords(s.relrelocs);
    assert SymbolBytes(s) + t == name + (pos + (relocs + (relrelocs + t)));
    FrontName(s.image, pos + (relocs + (relrelocs + t)));
    FrontU16(s.pos, relocs + (relrelocs + t));
    FrontCountedWords(s.relocs, relrelocs + t);
    FrontCountedWords(s.relrelocs, t);
  }

  lemma {:induction false} FrontSymbols(ss: seq<Symbol>, t: seq<Byte>)
    requires GoodSymbols(ss)
    ensures ParseSymbols(SymbolsBytes(ss) + t, |ss|) == Good(ss, t)
  {
    hide ParseSymbol, SymbolBytes;
    if ss == [] {
      assert SymbolsBytes(ss) + t == t;
    } else {
      Again(SymbolBytes(ss[0]), SymbolsBytes(ss[1..]), t);
      FrontSymbol(ss[0], SymbolsBytes(ss[1..]) + t);
      FrontSymbols(ss[1..], t);
      assert [ss[0]] + ss[1..] == ss;
    }
  }

  lemma FrontCountedSymbols(ss: seq<Symbol>, t: seq<Byte>)
    requires GoodSymbols(ss) && |ss| < SYMBOL_MAX
    ensures ParseCountedSymbols(CountedSymbols(ss) + t) == Good(ss, t)
  {
    hide ParseU16, U16, ParseSymbols, SymbolsBytes;
    Again(U16(|ss|), SymbolsBytes(ss), t);
    FrontU16(|ss|, SymbolsBytes(ss) + t);
    FrontSymbols(ss, t);
  }

  lemma FrontDynamic(d: Dynamic, t: seq<Byte>)
    requires GoodDynamic(d)
    ensures ParseDynamic(DynamicBytes(d) + t) == Good(d, t)
  {
    hide ParseName, NameBytes, ParseRelocs, RelocBytes;
    var name, count, relocs := NameBytes(d.file), [|d.relocs|], RelocBytes(d.relocs);
    assert DynamicBytes(d) + t == name + (count + (relocs + t));
    FrontName(d.file, count + (relocs + t));
    FrontU8(|d.relocs|, relocs + t);
    FrontRelocs(d.relocs, t);
  }

  lemma {:induction false} FrontDynamics(ds: seq<Dynamic>, t: seq<Byte>)
    requires GoodDynamics(ds)
    ensures ParseDynamics(DynamicsBytes(ds) + t, |ds|) == Good(ds, t)
  {
    hide ParseDynamic, DynamicBytes;
    if ds == [] {
      assert DynamicsBytes(ds) + t == t;
    } else {
      Again(DynamicBytes(ds[0]), DynamicsBytes(ds[1..]), t);
      FrontDynamic(ds[0], DynamicsBytes(ds[1..]) + t);
      FrontDynamics(ds[1..], t);
      assert [ds[0]] + ds[1..] == ds;
    }
  }

  lemma FrontBody(code: seq<Byte>, rs: seq<Reloc>, t: seq<Byte>)
    requires GoodBody(code, rs)
    ensures ParseBody(BodyBytes(code, rs) + t) == Good((code, rs), t)
  {
    hide ParseU16, U16, ParseBytes, ParseRelocs, RelocBytes;
    var size, count, relocs := U16(|code|), U16(|rs|), RelocBytes(rs);
    assert BodyBytes(code, rs) + t == size + (code + (count + (relocs + t)));
    FrontU16(|code|, code + (count + (relocs + t)));
    FrontBytes(code, count + (relocs + t));
    FrontU16(|rs|, relocs + t);
    FrontRelocs(rs, t);
  }

  /** Decoding an encoded executable returns it and leaves trailing bytes unread. */
  lemma ExeRoundTrip(exe: Exe, t: seq<Byte>)
    requires GoodExe(exe)
    ensures ParseExe(ExeBytes(exe) + t) == Good(exe, t)
  {
    hide ParseU16, U16, ParseBody, BodyBytes, ParseDynamics, DynamicsBytes, ParseCountedSymbols, CountedSymbols;
    var body, count := BodyBytes(exe.code, exe.relocs), U16(|exe.dynamics|);
    var dynamics, symbols := DynamicsBytes(exe.dynamics), CountedSymbols(exe.symbols);
    assert ExeBytes(exe) + t == EXE_MAGIC + (body + (count + (dynamics + (symbols + t))));
    FrontBytes(EXE_MAGIC, body + (count + (dynamics + (symbols + t))));
    FrontBody(exe.code, exe.relocs, count + (dynamics + (symbols + t)));
    FrontU16(|exe.dynamics|, dynamics + (symbols + t));
    FrontDynamics(exe.dynamics, symbols + t);
    FrontCountedSymbols(exe.symbols, t);
  }

  lemma ObjRoundTrip(obj: StoredObj, t: seq<Byte>)
    requires GoodObj(obj)
    ensures ParseObj(ObjBytes(obj) + t) == Good(obj, t)
  {
    hide ParseBody, BodyBytes, ParseCountedWords, CountedWords, ParseCountedSymbols, CountedSymbols;
    var body, globals, externs := BodyBytes(obj.code, obj.relocs), CountedWords(obj.globals), CountedWords(obj.externs);
    var symbols := CountedSymbols(obj.symbols);
    assert ObjBytes(obj) + t == OBJ_MAGIC + (body + (globals + (externs + (symbols + t))));
    FrontBytes(OBJ_MAGIC, body + (globals + (externs + (symbols + t))));
    FrontBody(obj.code, obj.relocs, globals + (externs + (symbols + t)));
    FrontCountedWords(obj.globals, externs + (symbols + t));
    FrontCountedWords(obj.externs, symbols + t);
    FrontCountedSymbols(obj.symbols, t);
  }

  lemma SoRoundTrip(so: So, t: seq<Byte>)
    requires GoodSo(so)
    ensures ParseSo(SoBytes(so) + t) == Good(so, t)
  {
    hide ParseBody, BodyBytes, ParseCountedWords, CountedWords, ParseCountedSymbols, CountedSymbols;
    var body, globals, symbols := BodyBytes(so.code, so.relocs), CountedWords(so.globals), CountedSymbols(so.symbols);
    assert SoBytes(so) + t == SO_MAGIC + (body + (globals + (symbols + t)));
    FrontBytes(SO_MAGIC, body + (globals + (symbols + t)));
    FrontBody(so.code, so.relocs, globals + (symbols + t));
    FrontCountedWords(so.globals, symbols + t);
    FrontCountedSymbols(so.symbols, t);
  }
}
