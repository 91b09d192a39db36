/** Objects, executables and the patching of words in their code. */
module ObjectFiles {
  import opened Words

  const UNSET: Word := 0xFFFF

  const SYMBOL_MAX := 128
  const EXTERN_MAX := 32
  const GLOBAL_MAX := 64
  const RELOC_MAX := 128
  /** Sites of one symbol. */
  const INTERN_RELOC_MAX := 128
  const DYNAMIC_MAX := 2

  /** Put the word `what` at `where`. */
  datatype Reloc = Reloc(where: Word, what: Word)

  /** A symbol with the sites that refer to it absolutely and relatively; its position is UNSET until defined. */
  datatype Symbol = Symbol(image: string, pos: Word, relocs: seq<Word>, relrelocs: seq<Word>)

  /** globals and externs are indices into the symbols. */
  datatype Obj = Obj(code: seq<Byte>, relocs: seq<Reloc>, globals: seq<nat>, externs: seq<nat>, symbols: seq<Symbol>)

  datatype Dynamic = Dynamic(file: string, relocs: seq<Reloc>)

  datatype Exe = Exe(code: seq<Byte>, relocs: seq<Reloc>, dynamics: seq<Dynamic>, symbols: seq<Symbol>)

  // ---------- symbol tables ----------

  /** The first symbol of that name, or their number. */
  function FindSymbol(symbols: seq<Symbol>, name: string): (i: nat)
    ensures i <= |symbols|
    ensures i < |symbols| ==> symbols[i].image == name
    ensures forall k :: 0 <= k < i ==> symbols[k].image != name
  {
    if symbols == [] then 0
    else if symbols[0].image == name then 0
    else FindSymbol(symbols[1..], name) + 1
  }

  /** The indices name the given symbols, in order. */
  predicate Indexes(symbols: seq<Symbol>, indices: seq<nat>, names: seq<string>) {
    && |indices| == |names|
    && forall j :: 0 <= j < |indices| ==> indices[j] < |symbols| && symbols[indices[j]].image == names[j]
  }

  lemma {:induction false} FindAppended(symbols: seq<Symbol>, s: Symbol, name: string)
    ensures FindSymbol(symbols + [s], name) ==
            if FindSymbol(symbols, name) < |symbols| then FindSymbol(symbols, name)
            else if s.image == name then |symbols| else |symbols| + 1
  {
    if symbols != [] && symbols[0].image != name {
      assert (symbols + [s])[1..] == symbols[1..] + [s];
      FindAppended(symbols[1..], s, name);
    }
  }

  lemma {:induction false} FindReplaced(symbols: seq<Symbol>, i: nat, s: Symbol, name: string)
    requires i < |symbols| && s.image == symbols[i].image
    ensures FindSymbol(symbols[i := s], name) == FindSymbol(symbols, name)
  {
    if i == 0 {
      assert symbols[0 := s][1..] == symbols[1..];
    } else if symbols[0].image != name {
      assert symbols[i := s][1..] == symbols[1..][i - 1 := s];
      FindReplaced(symbols[1..], i - 1, s, name);
    }
  }

  // ---------- patching ----------

  function WordAt(code: seq<Byte>, at: nat): Word
    requires at + 2 <= |code|
  {
    FromBytes(code[at], code[at + 1])
  }

  function PutWord(code: seq<Byte>, at: nat, w: Word): (r: seq<Byte>)
    requires at + 2 <= |code|
    ensures |r| == |code|
  {
    code[at := LowByte(w)][at + 1 := HighByte(w)]
  }

  predicate InRange(rs: seq<Reloc>, size: nat) {
    forall i :: 0 <= i < |rs| ==> rs[i].where + 2 <= size
  }

  /** Performing the relocations in order. */
  function PatchAll(code: seq<Byte>, rs: seq<Reloc>): (r: seq<Byte>)
    requires InRange(rs, |code|)
    ensures |r| == |code|
  {
    if rs == [] then code
    else
      var last := |rs| - 1;
      PutWord(PatchAll(code, rs[..last]), rs[last].where, rs[last].what)
  }

  /** Two relocations do not disturb each other. */
  predicate Compatible(a: Reloc, b: Reloc) {
    a == b || a.where + 2 <= b.where || b.where + 2 <= a.where
  }

  /** Sites are equal, with the same word, or disjoint; duplicates are harmless. */
  predicate Coherent(rs: seq<Reloc>) {
    forall i, j :: 0 <= i < |rs| && 0 <= j < |rs| ==> Compatible(rs[i], rs[j])
  }

  lemma PutThenRead(code: seq<Byte>, at: nat, w: Word, other: nat)
    requires at + 2 <= |code| && other + 2 <= |code|
    ensures WordAt(PutWord(code, at, w), at) == w
    ensures at + 2 <= other || other + 2 <= at ==> WordAt(PutWord(code, at, w), other) == WordAt(code, other)
  {
    BytesRoundTrip(w);
  }

  /** After coherent patching every site holds its word. */
  lemma {:induction false} PatchedWords(code: seq<Byte>, rs: seq<Reloc>)
    requires InRange(rs, |code|) && Coherent(rs)
    ensures forall i :: 0 <= i < |rs| ==> WordAt(PatchAll(code, rs), rs[i].where) == rs[i].what
  {
    if rs != [] {
      var last := |rs| - 1;
      var before := rs[..last];
      PatchedWords(code, before);
      forall i | 0 <= i < |rs| ensures WordAt(PatchAll(code, rs), rs[i].where) == rs[i].what {
        assert Compatible(rs[i], rs[last]);
        PutThenRead(PatchAll(code, before), rs[last].where, rs[last].what, rs[i].where);
        if i < last { assert before[i] == rs[i]; }
      }
    }
  }

  predicate Covers(r: Reloc, a: int) {
    r.where <= a < r.where + 2
  }

  /** Bytes outside the sites are untouched. */
  lemma {:induction false} UnpatchedByte(code: seq<Byte>, rs: seq<Reloc>, a: nat)
    requires InRange(rs, |code|) && a < |code|
    requires forall i :: 0 <= i < |rs| ==> !Covers(rs[i], a)
    ensures PatchAll(code, rs)[a] == code[a]
  {
    if rs != [] {
      var last := |rs| - 1;
      assert forall i :: 0 <= i < last ==> rs[..last][i] == rs[i];
      UnpatchedByte(code, rs[..last], a);
      assert !Covers(rs[last], a);
    }
  }

  lemma UnpatchedWord(code: seq<Byte>, rs: seq<Reloc>, at: nat)
    requires InRange(rs, |code|) && at + 2 <= |code|
    requires forall i :: 0 <= i < |rs| ==> rs[i].where + 2 <= at || at + 2 <= rs[i].where
    ensures WordAt(PatchAll(code, rs), at) == WordAt(code, at)
  {
    UnpatchedByte(code, rs, at);
    UnpatchedByte(code, rs, at + 1);
  }

  lemma {:induction false} PatchSplit(code: seq<Byte>, rs: seq<Reloc>, ss: seq<Reloc>)
    requires InRange(rs, |code|) && InRange(ss, |code|)
    ensures InRange(rs + ss, |code|) && PatchAll(code, rs + ss) == PatchAll(PatchAll(code, rs), ss)
  {
    if ss == [] {
      assert rs + ss == rs;
    } else {
      var last := |ss| - 1;
      assert (rs + ss)[..|rs + ss| - 1] == rs + ss[..last];
      PatchSplit(code, rs, ss[..last]);
    }
  }

  /** Patches one word of a buffer in place. */
  method PatchWord(code: array<Byte>, r: Reloc)
    requires r.where + 2 <= code.Length
    modifies code
    ensures code[..] == PutWord(old(code[..]), r.where, r.what)
  {
    code[r.where] := LowByte(r.what);
    code[r.where + 1] := HighByte(r.what);
  }

  /** The patching loop over a buffer. */
  method PatchCode(code: array<Byte>, rs: seq<Reloc>)
    requires InRange(rs, code.Length)
    modifies code
    ensures code[..] == PatchAll(old(code[..]), rs)
  {
    for i := 0 to |rs|
      invariant code[..] == PatchAll(old(code[..]), rs[..i])
    {
      assert rs[..i + 1][..i] == rs[..i];
      PatchWord(code, rs[i]);
    }
    assert rs[..|rs|] == rs;
  }
}
