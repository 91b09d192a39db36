/** Reading and writing the formats through a file position, checked against the encodings and parsers. */
module FormatFiles {
  import opened Words
  import opened ObjectFiles
  import opened Formats
  import opened FormatsExact

  /** More items in front of what a parser finds. */
  function Before<T>(items: seq<T>, p: Parsed<seq<T>>): Parsed<seq<T>> {
    if p.Bad? then Bad else Good(items + p.value, p.rest)
  }

  lemma BeforeNothing<T>(p: Parsed<seq<T>>)
    ensures Before([], p) == p
  {
    assert p.Good? ==> [] + p.value == p.value;
  }

  lemma BeforeMore<T>(items: seq<T>, x: T, p: Parsed<seq<T>>)
    ensures Before(items, Before([x], p)) == Before(items + [x], p)
  {
    if p.Good? { assert items + ([x] + p.value) == items + [x] + p.value; }
  }

  /** A file being written. */
  class Output {
    var bytes: seq<Byte>

    constructor ()
      ensures bytes == []
    {
      bytes := [];
    }

    method Put(more: seq<Byte>)
      modifies this
      ensures bytes == old(bytes) + more
    {
      bytes := bytes + more;
    }

    method PutWords(ws: seq<Word>)
      modifies this
      ensures bytes == old(bytes) + WordBytes(ws)
    {
      for i := 0 to |ws|
        invariant bytes + WordBytes(ws[i..]) == old(bytes) + WordBytes(ws)
      {
        assert ws[i..][1..] == ws[i + 1..];
        Again(bytes, U16(ws[i]), WordBytes(ws[i + 1..]));
        Put(U16(ws[i]));
      }
      assert bytes + [] == bytes;
    }

    method PutRelocs(rs: seq<Reloc>)
      modifies this
      ensures bytes == old(bytes) + RelocBytes(rs)
    {
      for i := 0 to |rs|
        invariant bytes + RelocBytes(rs[i..]) == old(bytes) + RelocBytes(rs)
      {
        ghost var tail := RelocBytes(rs[i + 1..]);
        assert rs[i..][1..] == rs[i + 1..];
        Again(bytes, U16(rs[i].where), U16(rs[i].what) + tail);
        Again(bytes + U16(rs[i].where), U16(rs[i].what), tail);
        Put(U16(rs[i].where));
        Put(U16(rs[i].what));
      }
      assert bytes + [] == bytes;
    }

    method PutSymbols(ss: seq<Symbol>)
      requires GoodSymbols(ss) && |ss| < SYMBOL_MAX
      modifies this
      ensures bytes == old(bytes) + CountedSymbols(ss)
    {
      hide SymbolBytes, U16, GoodSymbol;
      Put(U16(|ss|));
      ghost var start := bytes;
      for i := 0 to |ss|
        invariant bytes + SymbolsBytes(ss[i..]) == start + SymbolsBytes(ss)
      {
        assert ss[i..][1..] == ss[i + 1..];
        Again(bytes, SymbolBytes(ss[i]), SymbolsBytes(ss[i + 1..]));
        PutSymbol(ss[i]);
      }
      assert bytes + [] == bytes;
    }

    method PutSymbol(s: Symbol)
      requires GoodSymbol(s)
      modifies this
      ensures bytes == old(bytes) + SymbolBytes(s)
    {
      hide WordBytes, TextBytes, U16;
      Put([|s.image|]);
      Put(TextBytes(s.image));
      Put(U16(s.pos));
      Put([|s.relocs|]);
      PutWords(s.relocs);
      Put([|s.relrelocs|]);
      PutWords(s.relrelocs);
    }

    method PutDynamics(ds: seq<Dynamic>)
      requires GoodDynamics(ds)
      modifies this
      ensures bytes == old(bytes) + DynamicsBytes(ds)
    {
      hide GoodDynamic, TextBytes, RelocBytes;
      for i := 0 to |ds|
        invariant bytes + DynamicsBytes(ds[i..]) == old(bytes) + DynamicsBytes(ds)
      {
        assert ds[i..][1..] == ds[i + 1..];
        Again(bytes, DynamicBytes(ds[i]), DynamicsBytes(ds[i + 1..]));
        PutDynamic(ds[i]);
      }
      assert bytes + [] == bytes;
    }

    method PutDynamic(d: Dynamic)
      requires GoodDynamic(d)
      modifies this
      ensures bytes == old(bytes) + DynamicBytes(d)
    {
      hide TextBytes, RelocBytes;
      Put([|d.file|]);
      Put(TextBytes(d.file));
      Put([|d.relocs|]);
      PutRelocs(d.relocs);
    }

    method PutBody(code: seq<Byte>, rs: seq<Reloc>)
      requires GoodBody(code, rs)
      modifies this
      ensures bytes == old(bytes) + BodyBytes(code, rs)
    {
      hide RelocBytes, U16;
      Put(U16(|code|));
      Put(code);
      Put(U16(|rs|));
      PutRelocs(rs);
    }

    method EncodeExe(exe: Exe)
      requires GoodExe(exe)
      modifies this
      ensures bytes == old(bytes) + ExeBytes(exe)
    {
      hide BodyBytes, DynamicsBytes, CountedSymbols, U16;
      Put(EXE_MAGIC);
      PutBody(exe.code, exe.relocs);
      Put(U16(|exe.dynamics|));
      PutDynamics(exe.dynamics);
      PutSymbols(exe.symbols);
    }

    method EncodeObj(obj: StoredObj)
      requires GoodObj(obj)
      modifies this
      ensures bytes == old(bytes) + ObjBytes(obj)
    {
      hide BodyBytes, CountedSymbols, WordBytes;
      Put(OBJ_MAGIC);
      PutBody(obj.code, obj.relocs);
      Put([|obj.globals|]);
      PutWords(obj.globals);
      Put([|obj.externs|]);
      PutWords(obj.externs);
      PutSymbols(obj.symbols);
    }

    method EncodeSo(so: So)
      requires GoodSo(so)
      modifies this
      ensures bytes == old(bytes) + SoBytes(so)
    {
      hide BodyBytes, CountedSymbols, WordBytes;
      Put(SO_MAGIC);
      PutBody(so.code, so.relocs);
      Put([|so.globals|]);
      PutWords(so.globals);
      PutSymbols(so.symbols);
    }
  }

  /** A file being read; every read reports whether the bytes were there. */
  class Input {
    const bytes: seq<Byte>
    var pos: nat

    ghost predicate Valid()
      reads this
    {
      pos <= |bytes|
    }

    /** What is still unread. */
    ghost function Rest(): seq<Byte>
      requires Valid()
      reads this
    {
      bytes[pos..]
    }

    constructor (bytes: seq<Byte>)
      ensures Valid() && Rest() == bytes
    {
      this.bytes := bytes;
      pos := 0;
    }

    /** The outcome of a read is the parser's. */
    ghost predicate Reads<T>(r: Parsed<T>, p: Parsed<T>)
      reads this
    {
      Valid() && r == p && (p.Good? ==> Rest() == p.rest)
    }

    method Get(n: nat) returns (r: Parsed<seq<Byte>>)
      requires Valid()
      modifies this
      ensures Reads(r, ParseBytes(old(Rest()), n))
    {
      if pos + n > |bytes| { return Bad; }
      assert bytes[pos..][..n] == bytes[pos..pos + n] && bytes[pos..][n..] == bytes[pos + n..];
      r := Good(bytes[pos..pos + n], bytes[pos + n..]);
      pos := pos + n;
    }

    method GetU8() returns (r: Parsed<Byte>)
      requires Valid()
      modifies this
      ensures Reads(r, ParseU8(old(Rest())))
    {
      var b := Get(1);
      if b.Bad? { return Bad; }
      r := Good(b.value[0], b.rest);
    }

    method GetU16() returns (r: Parsed<Word>)
      requires Valid()
      modifies this
      ensures Reads(r, ParseU16(old(Rest())))
    {
      var b := Get(2);
      if b.Bad? { return Bad; }
      r := Good(FromBytes(b.value[0], b.value[1]), b.rest);
    }

    method GetName() returns (r: Parsed<string>)
      requires Valid()
      modifies this
      ensures Reads(r, ParseName(old(Rest())))
    {
      hide Text;
      var len := GetU8();
      if len.Bad? || len.value == 0 { return Bad; }
      var b := Get(len.value);
      if b.Bad? { return Bad; }
      r := Good(Text(b.value), b.rest);
    }

    method GetWords(n: nat) returns (r: Parsed<seq<Word>>)
      requires Valid()
      modifies this
      ensures Reads(r, ParseWords(old(Rest()), n))
    {
      var ws := [];
      BeforeNothing(ParseWords(Rest(), n));
      for i := 0 to n
        invariant Valid() && ParseWords(old(Rest()), n) == Before(ws, ParseWords(Rest(), n - i))
      {
        var w := GetU16();
        if w.Bad? { return Bad; }
        BeforeMore(ws, w.value, ParseWords(w.rest, n - i - 1));
        ws := ws + [w.value];
      }
      assert ws + [] == ws;
      r := Good(ws, bytes[pos..]);
    }

    method GetRelocs(n: nat) returns (r: Parsed<seq<Reloc>>)
      requires Valid()
      modifies this
      ensures Reads(r, ParseRelocs(old(Rest()), n))
    {
      var rs := [];
      BeforeNothing(ParseRelocs(Rest(), n));
      for i := 0 to n
        invariant Valid() && ParseRelocs(old(Rest()), n) == Before(rs, ParseRelocs(Rest(), n - i))
      {
        var where := GetU16();
        if where.Bad? { return Bad; }
        var what := GetU16();
        if what.Bad? { return Bad; }
        BeforeMore(rs, Reloc(where.value, what.value), ParseRelocs(what.rest, n - i - 1));
        rs := rs + [Reloc(where.value, what.value)];
      }
      assert rs + [] == rs;
      r := Good(rs, bytes[pos..]);
    }

    method GetCountedWords() returns (r: Parsed<seq<Word>>)
      requires Valid()
      modifies this
      ensures Reads(r, ParseCountedWords(old(Rest())))
    {
      var count := GetU8();
      if count.Bad? { return Bad; }
      r := GetWords(count.value);
    }

    method GetSymbol() returns (r: Parsed<Symbol>)
      requires Valid()
      modifies this
      ensures Reads(r, ParseSymbol(old(Rest())))
    {
      hide ParseName, ParseU16, ParseCountedWords;
      var name := GetName();
      if name.Bad? { return Bad; }
      var position := GetU16();
      if position.Bad? { return Bad; }
      var relocs := GetCountedWords();
      if relocs.Bad? { return Bad; }
      var relrelocs := GetCountedWords();
      if relrelocs.Bad? { return Bad; }
      r := Good(Symbol(name.value, position.value, relocs.value, relrelocs.value), relrelocs.rest);
    }

    method GetSymbols() returns (r: Parsed<seq<Symbol>>)
      requires Valid()
      modifies this
      ensures Reads(r, ParseCountedSymbols(old(Rest())))
    {
      hide ParseSymbol, ParseU16;
      var count := GetU16();
      if count.Bad? || count.value >= SYMBOL_MAX { return Bad; }
      var ss := [];
      var n := count.value;
      ghost var start := Rest();
      BeforeNothing(ParseSymbols(start, n));
      for i := 0 to n
        invariant Valid() && ParseSymbols(start, n) == Before(ss, ParseSymbols(Rest(), n - i))
      {
        var s := GetSymbol();
        if s.Bad? { return Bad; }
        BeforeMore(ss, s.value, ParseSymbols(s.rest, n - i - 1));
        ss := ss + [s.value];
      }
      assert ss + [] == ss;
      r := Good(ss, bytes[pos..]);
    }

    method GetDynamics(n: nat) returns (r: Parsed<seq<Dynamic>>)
      requires Valid()
      modifies this
      ensures Reads(r, ParseDynamics(old(Rest()), n))
    {
      hide ParseDynamic;
      var ds := [];
      BeforeNothing(ParseDynamics(Rest(), n));
      for i := 0 to n
        invariant Valid() && ParseDynamics(old(Rest()), n) == Before(ds, ParseDynamics(Rest(), n - i))
      {
        var d := GetDynamic();
        if d.Bad? { return Bad; }
        BeforeMore(ds, d.value, ParseDynamics(d.rest, n - i - 1));
        ds := ds + [d.value];
      }
      assert ds + [] == ds;
      r := Good(ds, bytes[pos..]);
    }

    method GetDynamic() returns (r: Parsed<Dynamic>)
      requires Valid()
      modifies this
      ensures Reads(r, ParseDynamic(old(Rest())))
    {
      hide ParseName, ParseRelocs;
      var name := GetName();
      if name.Bad? { return Bad; }
      var count := GetU8();
      if count.Bad? { return Bad; }
      var relocs := GetRelocs(count.value);
      if relocs.Bad? { return Bad; }
      r := Good(Dynamic(name.value, relocs.value), relocs.rest);
    }

    method GetBody() returns (r: Parsed<(seq<Byte>, seq<Reloc>)>)
      requires Valid()
      modifies this
      ensures Reads(r, ParseBody(old(Rest())))
    {
      hide ParseU16, ParseRelocs, ParseBytes;
      var size := GetU16();
      if size.Bad? { return Bad; }
      var code := Get(size.value);
      if code.Bad? { return Bad; }
      var count := GetU16();
      if count.Bad? { return Bad; }
      var relocs := GetRelocs(count.value);
      if relocs.Bad? { return Bad; }
      r := Good((code.value, relocs.value), relocs.rest);
    }

    /** Decoding succeeds exactly in front of an encoding, which it returns and leaves behind. */
    method DecodeExe() returns (r: Parsed<Exe>)
      requires Valid()
      modifies this
      ensures Reads(r, ParseExe(old(Rest())))
      ensures r.Good? ==> GoodExe(r.value) && old(Rest()) == ExeBytes(r.value) + Rest()
      ensures r.Bad? ==> forall e, t | GoodExe(e) :: old(Rest()) != ExeBytes(e) + t
    {
      ghost var s := Rest();
      SplitExe(s);
      forall e, t | GoodExe(e) && s == ExeBytes(e) + t ensures ParseExe(s).Good? {
        ExeExactly(s, e, t);
      }
      hide ParseBody, ParseU16, ParseDynamics, ParseCountedSymbols;
      var magic := Get(3);
      if magic.Bad? || magic.value != EXE_MAGIC { return Bad; }
      var body := GetBody();
      if body.Bad? { return Bad; }
      var count := GetU16();
      if count.Bad? { return Bad; }
      var dynamics := GetDynamics(count.value);
      if dynamics.Bad? { return Bad; }
      var symbols := GetSymbols();
      if symbols.Bad? { return Bad; }
      r := Good(Exe(body.value.0, body.value.1, dynamics.value, symbols.value), symbols.rest);
    }

    method DecodeObj() returns (r: Parsed<StoredObj>)
      requires Valid()
      modifies this
      ensures Reads(r, ParseObj(old(Rest())))
      ensures r.Good? ==> GoodObj(r.value) && old(Rest()) == ObjBytes(r.value) + Rest()
      ensures r.Bad? ==> forall o, t | GoodObj(o) :: old(Rest()) != ObjBytes(o) + t
    {
      ghost var s := Rest();
      SplitObj(s);
      forall o, t | GoodObj(o) && s == ObjBytes(o) + t ensures ParseObj(s).Good? {
        ObjExactly(s, o, t);
      }
      hide ParseBody, ParseCountedWords, ParseCountedSymbols;
      var magic := Get(3);
      if magic.Bad? || magic.value != OBJ_MAGIC { return Bad; }
      var body := GetBody();
      if body.Bad? { return Bad; }
      var globals := GetCountedWords();
      if globals.Bad? { return Bad; }
      var externs := GetCountedWords();
      if externs.Bad? { return Bad; }
      var symbols := GetSymbols();
      if symbols.Bad? { return Bad; }
      r := Good(StoredObj(body.value.0, body.value.1, globals.value, externs.value, symbols.value), symbols.rest);
    }

    method DecodeSo() returns (r: Parsed<So>)
      requires Valid()
      modifies this
      ensures Reads(r, ParseSo(old(Rest())))
      ensures r.Good? ==> GoodSo(r.value) && old(Rest()) == SoBytes(r.value) + Rest()
      ensures r.Bad? ==> forall so, t | GoodSo(so) :: old(Rest()) != SoBytes(so) + t
    {
      ghost var s := Rest();
      SplitSo(s);
      forall so, t | GoodSo(so) && s == SoBytes(so) + t ensures ParseSo(s).Good? {
        SoExactly(s, so, t);
      }
      hide ParseBody, ParseCountedWords, ParseCountedSymbols;
      var magic := Get(2);
      if magic.Bad? || magic.value != SO_MAGIC { return Bad; }
      var body := GetBody();
      if body.Bad? { return Bad; }
      var globals := GetCountedWords();
      if globals.Bad? { return Bad; }
      var symbols := GetSymbols();
      if symbols.Bad? { return Bad; }
      r := Good(So(body.value.0, body.value.1, globals.value, symbols.value), symbols.rest);
    }
  }
}
