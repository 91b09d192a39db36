/** What is decoded is an encoding: the decoders accept exactly the bytes the encoders write. */
module FormatsExact {
  import opened Words
  import opened ObjectFiles
  import opened Formats

  lemma SplitU8(s: seq<Byte>)
    ensures ParseU8(s).Good? ==> s == [ParseU8(s).value] + ParseU8(s).rest
  {
  }

  lemma SplitU16(s: seq<Byte>)
    ensures ParseU16(s).Good? ==> s == U16(ParseU16(s).value) + ParseU16(s).rest
  {
    if |s| >= 2 { assert s == [s[0], s[1]] + s[2..]; }
  }

  lemma SplitBytes(s: seq<Byte>, n: nat)
    ensures var p := ParseBytes(s, n); p.Good? ==> |p.value| == n && s == p.value + p.rest
  {
  }

  lemma SplitName(s: seq<Byte>)
    ensures var p := ParseName(s); p.Good? ==> GoodName(p.value) && s == NameBytes(p.value) + p.rest
  {
    hide ParseU8, ParseBytes;
    var len := ParseU8(s);
    SplitU8(s);
    if len.Good? && len.value != 0 {
      var bytes := ParseBytes(len.rest, len.value);
      SplitBytes(len.rest, len.value);
      if bytes.Good? {
        assert TextBytes(Text(bytes.value)) == bytes.value;
        Again([len.value], bytes.value, bytes.rest);
      }
    }
  }

  lemma {:induction false} SplitWords(s: seq<Byte>, n: nat)
    ensures var p := ParseWords(s, n); p.Good? ==> |p.value| == n && s == WordBytes(p.value) + p.rest
    decreases n
  {
    hide ParseU16, U16;
    if n == 0 {
      assert s == [] + s;
    } else {
      var head := ParseU16(s);
      SplitU16(s);
      if head.Good? {
        SplitWords(head.rest, n - 1);
        var tail := ParseWords(head.rest, n - 1);
        if tail.Good? { Again(U16(head.value), WordBytes(tail.value), tail.rest); }
      }
    }
  }

  lemma SplitReloc(s: seq<Byte>)
    ensures var p := ParseReloc(s); p.Good? ==> s == U16(p.value.where) + (U16(p.value.what) + p.rest)
  {
    hide ParseU16, U16;
    SplitU16(s);
    if ParseU16(s).Good? { SplitU16(ParseU16(s).rest); }
  }

  predicate Spells(e: seq<Byte>, rs: seq<Reloc>) {
    e == RelocBytes(rs)
  }

  lemma {:induction false} SplitRelocs(s: seq<Byte>, n: nat)
    ensures var p := ParseRelocs(s, n);
            p.Good? ==> |p.value| == n && exists e :: Spells(e, p.value) && s == e + p.rest
    decreases n
  {
    hide ParseReloc, U16;
    var p := ParseRelocs(s, n);
    if p.Good? { assert Spells(RelocBytes(p.value), p.value); }
    if n == 0 {
      assert s == [] + s;
    } else {
      var head := ParseReloc(s);
      SplitReloc(s);
      if head.Good? {
        SplitRelocs(head.rest, n - 1);
        var tail := ParseRelocs(head.rest, n - 1);
        if tail.Good? {
          var where, what := U16(head.value.where), U16(head.value.what);
          Again(what, RelocBytes(tail.value), tail.rest);
          Again(where, what + RelocBytes(tail.value), tail.rest);
        }
      }
    }
  }

  lemma SplitCountedWords(s: seq<Byte>)
    ensures var p := ParseCountedWords(s); p.Good? ==> |p.value| < 0x100 && s == CountedWords(p.value) + p.rest
  {
    hide ParseU8, ParseWords, WordBytes;
    var count := ParseU8(s);
    SplitU8(s);
    if count.Good? {
      SplitWords(count.rest, count.value);
      var p := ParseWords(count.rest, count.value);
      if p.Good? { Again([count.value], WordBytes(p.value), p.rest); }
    }
  }

  lemma SplitSymbol(s: seq<Byte>)
    ensures var p := ParseSymbol(s); p.Good? ==> GoodSymbol(p.value) && s == SymbolBytes(p.value) + p.rest
  {
    hide ParseName, ParseU16, ParseCountedWords, NameBytes, WordBytes, U16, GoodName;
    var name := ParseName(s);
    SplitName(s);
    if name.Good? {
      var pos := ParseU16(name.rest);
      SplitU16(name.rest);
      if pos.Good? {
        var relocs := ParseCountedWords(pos.rest);
        SplitCountedWords(pos.rest);
        if relocs.Good? {
          var relrelocs := ParseCountedWords(relocs.rest);
          SplitCountedWords(relocs.rest);
          if relrelocs.Good? {
            SymbolGlued(Symbol(name.value, pos.value, relocs.value, relrelocs.value), relrelocs.rest);
          }
        }
      }
    }
  }

  lemma SymbolGlued(s: Symbol, t: seq<Byte>)
    requires GoodSymbol(s)
    ensures SymbolBytes(s) + t ==
            NameBytes(s.image) + (U16(s.pos) + (CountedWords(s.relocs) + (CountedWords(s.relrelocs) + t)))
  {
    hide NameBytes, WordBytes, U16, GoodName;
    var name, pos, relocs, relrelocs := NameBytes(s.image), U16(s.pos), CountedWords(s.relocs), CountedWords(s.relrelocs);
    assert SymbolBytes(s) == name + (pos + (relocs + relrelocs));
  }

  lemma {:induction false} SplitSymbols(s: seq<Byte>, n: nat)
    ensures var p := ParseSymbols(s, n); p.Good? ==> |p.value| == n && GoodSymbols(p.value) && s == SymbolsBytes(p.value) + p.rest
    decreases n
  {
    hide ParseSymbol, SymbolBytes, GoodSymbol;
    if n == 0 {
      assert s == [] + s;
    } else {
      var head := ParseSymbol(s);
      SplitSymbol(s);
      if head.Good? {
        SplitSymbols(head.rest, n - 1);
        var tail := ParseSymbols(head.rest, n - 1);
        if tail.Good? {
          assert ([head.value] + tail.value)[1..] == tail.value;
          Again(SymbolBytes(head.value), SymbolsBytes(tail.value), tail.rest);
        }
      }
    }
  }

  lemma SplitCountedSymbols(s: seq<Byte>)
    ensures var p := ParseCountedSymbols(s);
            p.Good? ==> |p.value| < SYMBOL_MAX && GoodSymbols(p.value) && s == CountedSymbols(p.value) + p.rest
  {
    hide ParseU16, U16, ParseSymbols, SymbolsBytes;
    var count := ParseU16(s);
    SplitU16(s);
    if count.Good? {
      SplitSymbols(count.rest, count.value);
      var p := ParseSymbols(count.rest, count.value);
      if p.Good? { Again(U16(count.value), SymbolsBytes(p.value), p.rest); }
    }
  }

  lemma SplitDynamic(s: seq<Byte>)
    ensures var p := ParseDynamic(s); p.Good? ==> GoodDynamic(p.value) && s == DynamicBytes(p.value) + p.rest
  {
    hide ParseName, NameBytes, ParseU8, ParseRelocs, RelocBytes, GoodName;
    var name := ParseName(s);
    SplitName(s);
    if name.Good? {
      var count := ParseU8(name.rest);
      SplitU8(name.rest);
      if count.Good? {
        SplitRelocs(count.rest, count.value);
        var p := ParseRelocs(count.rest, count.value);
        if p.Good? {
          Again([count.value], RelocBytes(p.value), p.rest);
          Again(NameBytes(name.value), [count.value] + RelocBytes(p.value), p.rest);
        }
      }
    }
  }

  lemma {:induction false} SplitDynamics(s: seq<Byte>, n: nat)
    ensures var p := ParseDynamics(s, n); p.Good? ==> |p.value| == n && GoodDynamics(p.value) && s == DynamicsBytes(p.value) + p.rest
    decreases n
  {
    hide ParseDynamic, DynamicBytes, GoodDynamic;
    if n == 0 {
      assert s == [] + s;
    } else {
      var head := ParseDynamic(s);
      SplitDynamic(s);
      if head.Good? {
        SplitDynamics(head.rest, n - 1);
        var tail := ParseDynamics(head.rest, n - 1);
        if tail.Good? {
          assert ([head.value] + tail.value)[1..] == tail.value;
          Again(DynamicBytes(head.value), DynamicsBytes(tail.value), tail.rest);
        }
      }
    }
  }

  lemma SplitBody(s: seq<Byte>)
    ensures var p := ParseBody(s); p.Good? ==> GoodBody(p.value.0, p.value.1) && s == BodyBytes(p.value.0, p.value.1) + p.rest
  {
    hide ParseU16, U16, ParseBytes, ParseRelocs, RelocBytes;
    var size := ParseU16(s);
    SplitU16(s);
    if size.Good? {
      var code := ParseBytes(size.rest, size.value);
      SplitBytes(size.rest, size.value);
      if code.Good? {
        var count := ParseU16(code.rest);
        SplitU16(code.rest);
        if count.Good? {
          var relocs := ParseRelocs(count.rest, count.value);
          SplitRelocs(count.rest, count.value);
          if relocs.Good? {
            assert s == U16(size.value) + (code.value + (U16(count.value) + (RelocBytes(relocs.value) + relocs.rest)));
            assert s == (U16(size.value) + (code.value + (U16(count.value) + RelocBytes(relocs.value)))) + relocs.rest;
          }
        }
      }
    }
  }

  // ---------- whole files ----------

  lemma SplitExe(s: seq<Byte>)
    ensures var p := ParseExe(s); p.Good? ==> GoodExe(p.value) && s == ExeBytes(p.value) + p.rest
  {
    hide ParseU16, U16, ParseBody, BodyBytes, ParseDynamics, DynamicsBytes, ParseCountedSymbols, CountedSymbols,
      GoodBody, GoodDynamics, GoodSymbols;
    var p := ParseExe(s);
    if p.Good? {
      var body := ParseBody(s[3..]);
      SplitBody(s[3..]);
      var count := ParseU16(body.rest);
      SplitU16(body.rest);
      SplitDynamics(count.rest, count.value);
      SplitCountedSymbols(ParseDynamics(count.rest, count.value).rest);
      ExeGlued(p.value, p.rest);
      assert s == EXE_MAGIC + s[3..];
    }
  }

  lemma ExeGlued(e: Exe, t: seq<Byte>)
    requires GoodExe(e)
    ensures ExeBytes(e) + t ==
            EXE_MAGIC + (BodyBytes(e.code, e.relocs)
                         + (U16(|e.dynamics|) + (DynamicsBytes(e.dynamics) + (CountedSymbols(e.symbols) + t))))
  {
    hide U16, BodyBytes, DynamicsBytes, CountedSymbols, GoodBody, GoodDynamics, GoodSymbols;
  }

  lemma SplitObj(s: seq<Byte>)
    ensures var p := ParseObj(s); p.Good? ==> GoodObj(p.value) && s == ObjBytes(p.value) + p.rest
  {
    hide ParseBody, BodyBytes, ParseCountedWords, CountedWords, ParseCountedSymbols, CountedSymbols, GoodBody, GoodSymbols;
    var p := ParseObj(s);
    if p.Good? {
      var body := ParseBody(s[3..]);
      SplitBody(s[3..]);
      var globals := ParseCountedWords(body.rest);
      SplitCountedWords(body.rest);
      SplitCountedWords(globals.rest);
      SplitCountedSymbols(ParseCountedWords(globals.rest).rest);
      ObjGlued(p.value, p.rest);
      assert s == OBJ_MAGIC + s[3..];
    }
  }

  lemma ObjGlued(o: StoredObj, t: seq<Byte>)
    requires GoodObj(o)
    ensures ObjBytes(o) + t ==
            OBJ_MAGIC + (BodyBytes(o.code, o.relocs)
                         + (CountedWords(o.globals) + (CountedWords(o.externs) + (CountedSymbols(o.symbols) + t))))
  {
    hide BodyBytes, CountedWords, CountedSymbols, GoodBody, GoodSymbols;
  }

  lemma SplitSo(s: seq<Byte>)
    ensures var p := ParseSo(s); p.Good? ==> GoodSo(p.value) && s == SoBytes(p.value) + p.rest
  {
    hide ParseBody, BodyBytes, ParseCountedWords, CountedWords, ParseCountedSymbols, CountedSymbols, GoodBody, GoodSymbols;
    var p := ParseSo(s);
    if p.Good? {
      var body := ParseBody(s[2..]);
      SplitBody(s[2..]);
      SplitCountedWords(body.rest);
      SplitCountedSymbols(ParseCountedWords(body.rest).rest);
      SoGlued(p.value, p.rest);
      assert s == SO_MAGIC + s[2..];
    }
  }

  lemma SoGlued(so: So, t: seq<Byte>)
    requires GoodSo(so)
    ensures SoBytes(so) + t ==
            SO_MAGIC + (BodyBytes(so.code, so.relocs) + (CountedWords(so.globals) + (CountedSymbols(so.symbols) + t)))
  {
    hide BodyBytes, CountedWords, CountedSymbols, GoodBody, GoodSymbols;
  }

  /** An executable is decoded from exactly the bytes it is encoded to, whatever follows them. */
  lemma ExeExactly(s: seq<Byte>, e: Exe, t: seq<Byte>)
    ensures ParseExe(s) == Good(e, t) <==> GoodExe(e) && s == ExeBytes(e) + t
  {
    hide ParseExe, ExeBytes, GoodExe;
    SplitExe(s);
    if GoodExe(e) { ExeRoundTrip(e, t); }
  }

  lemma ObjExactly(s: seq<Byte>, o: StoredObj, t: seq<Byte>)
    ensures ParseObj(s) == Good(o, t) <==> GoodObj(o) && s == ObjBytes(o) + t
  {
    hide ParseObj, ObjBytes, GoodObj;
    SplitObj(s);
    if GoodObj(o) { ObjRoundTrip(o, t); }
  }

  lemma SoExactly(s: seq<Byte>, so: So, t: seq<Byte>)
    ensures ParseSo(s) == Good(so, t) <==> GoodSo(so) && s == SoBytes(so) + t
  {
    hide ParseSo, SoBytes, GoodSo;
    SplitSo(s);
    if GoodSo(so) { SoRoundTrip(so, t); }
  }

  /** No encoding is another one followed by something: each determines what it encodes. */
  lemma ExesArePrefixFree(a: Exe, b: Exe, t: seq<Byte>)
    requires GoodExe(a) && GoodExe(b)
    ensures ExeBytes(a) + t == ExeBytes(b) ==> a == b && t == []
  {
    hide ExeBytes, ParseExe, GoodExe;
    ExeExactly(ExeBytes(b), a, t);
    ExeExactly(ExeBytes(b), b, []);
    assert ExeBytes(b) + [] == ExeBytes(b);
  }

  lemma ObjsArePrefixFree(a: StoredObj, b: StoredObj, t: seq<Byte>)
    requires GoodObj(a) && GoodObj(b)
    ensures ObjBytes(a) + t == ObjBytes(b) ==> a == b && t == []
  {
    hide ObjBytes, ParseObj, GoodObj;
    ObjExactly(ObjBytes(b), a, t);
    ObjExactly(ObjBytes(b), b, []);
    assert ObjBytes(b) + [] == ObjBytes(b);
  }

  lemma SosArePrefixFree(a: So, b: So, t: seq<Byte>)
    requires GoodSo(a) && GoodSo(b)
    ensures SoBytes(a) + t == SoBytes(b) ==> a == b && t == []
  {
    hide SoBytes, ParseSo, GoodSo;
    SoExactly(SoBytes(b), a, t);
    SoExactly(SoBytes(b), b, []);
    assert SoBytes(b) + [] == SoBytes(b);
  }
}
