/** The machine's own loader, and its agreement with the reference loader on every stored executable. */
module PageLoader {
  import opened Words
  import opened ObjectFiles
  import opened Loading
  import opened Formats
  import opened FormatFiles
  import opened Sectors
  import opened FileReader

  const STDLIB_PTR := 0xF800

  /** NotExe and NotStdlib stand for the halts with 0xFFFE and 0xFAFA. */
  datatype Status = Started | NotExe | NotStdlib

  /** Even non-empty code, relocations at even places inside it, one library entry with at least one relocation. */
  predicate Loadable(exe: Exe) {
    && GoodExe(exe) && |exe.code| > 0 && |exe.code| % 2 == 0
    && EvenSites(exe.relocs, |exe.code|) && |exe.dynamics| == 1
    && exe.dynamics[0].relocs != [] && EvenSites(exe.dynamics[0].relocs, |exe.code|)
  }

  predicate EvenSites(rs: seq<Reloc>, size: nat) {
    forall i :: 0 <= i < |rs| ==> rs[i].where % 2 == 0 && rs[i].where + 2 <= size
  }

  /** Memory has changed in the page only, and there it is this. */
  predicate PageHolds(before: seq<Byte>, after: seq<Byte>, start: Word, code: seq<Byte>) {
    && |before| == |after| && start + |code| <= |after| && after[start..start + |code|] == code
    && forall a :: 0 <= a < |after| && !(start <= a < start + |code|) ==> after[a] == before[a]
  }

  /** The word store of the machine. */
  method StoreWord(ram: array<Byte>, at: Word, w: Word)
    requires ram.Length == 0x1_0000
    modifies ram
    ensures ram[..] == PutWord(old(ram[..]), at / 2 * 2, w)
  {
    ram[at / 2 * 2] := LowByte(w);
    ram[at / 2 * 2 + 1] := HighByte(w);
  }

  /** Copies the code word by word; the count is tested at the end only. */
  method CopyCode(file: File, sectors: seq<Sector>, ram: array<Byte>, start: Word, codeSize: Word,
                  ghost code: seq<Byte>, ghost rest: seq<Byte>)
    requires ram.Length == 0x1_0000 && start % 2 == 0 && start + |code| <= 0x1_0000
    requires codeSize == |code| && |code| > 0 && |code| % 2 == 0
    requires Ahead(sectors, file.sec, file.ndx, code + rest)
    modifies file, ram
    ensures Ahead(sectors, file.sec, file.ndx, rest) && PageHolds(old(ram[..]), ram[..], start, code)
  {
    hide Ahead, PutWord, FromBytes;
    var size, at := codeSize, start as int;
    ghost var done := 0;
    while true
      invariant 0 <= done < |code| && done % 2 == 0 && size == |code| - done && at == start + done
      invariant Ahead(sectors, file.sec, file.ndx, code[done..] + rest)
      invariant ram[start..start + done] == code[..done]
      invariant forall a :: 0 <= a < ram.Length && !(start <= a < start + done) ==> ram[a] == old(ram[a])
      decreases |code| - done
    {
      ghost var before := ram[..];
      var w := file.ReadU16(sectors, code[done..] + rest);
      assert (code[done..] + rest)[2..] == code[done + 2..] + rest;
      EvenPlace(start, done);
      StoreWord(ram, at, w);
      PageGrows(before, start, code, done, w);
      done := done + 2;
      at := at + 2;
      size := size - 2;
      if size == 0 { break; }
    }
    assert code[done..] + rest == rest;
    assert code[..done] == code;
  }

  lemma EvenPlace(start: Word, done: nat)
    requires start % 2 == 0 && done % 2 == 0
    ensures (start + done) / 2 * 2 == start + done && (done + 2) % 2 == 0
  {
  }

  lemma PageGrows(before: seq<Byte>, start: Word, code: seq<Byte>, done: nat, w: Word)
    requires |before| == 0x1_0000 && done + 2 <= |code| && start + |code| <= 0x1_0000
    requires w == FromBytes(code[done], code[done + 1])
    requires before[start..start + done] == code[..done]
    ensures var after := PutWord(before, start + done, w);
            && after[start..start + (done + 2)] == code[..done + 2]
            && forall a :: 0 <= a < |after| && !(start + done <= a < start + done + 2) ==> after[a] == before[a]
  {
    var after := PutWord(before, start + done, w);
    assert LowByte(w) == code[done] && HighByte(w) == code[done + 1];
    forall i | 0 <= i < done + 2 ensures after[start..start + (done + 2)][i] == code[i] {
      if i < done { assert before[start..start + done][i] == code[..done][i]; }
    }
  }

  /** Reads relocations and stores their rebased words in the page; the count is tested at the end only. */
  method RelocatePage(file: File, sectors: seq<Sector>, ram: array<Byte>, start: Word, base: Word, count: Word,
                      ghost rs: seq<Reloc>, ghost code: seq<Byte>, ghost rest: seq<Byte>)
    requires ram.Length == 0x1_0000 && start % 2 == 0 && start + |code| <= 0x1_0000
    requires count == |rs| && rs != [] && EvenSites(rs, |code|)
    requires ram[start..start + |code|] == code
    requires Ahead(sectors, file.sec, file.ndx, RelocBytes(rs) + rest)
    modifies file, ram
    ensures Ahead(sectors, file.sec, file.ndx, rest)
    ensures PageHolds(old(ram[..]), ram[..], start, PatchAll(code, Rebased(rs, base)))
  {
    hide Ahead, PatchAll, U16, RelocBytes, Rebased, PutWord, Wrap, LowByte, HighByte, FromBytes;
    var left := count;
    ghost var done, page := 0, Rebased(rs, base);
    EvenRebased(rs, base, |code|);
    assert page[..0] == [];
    PatchNone(code);
    assert rs[0..] == rs;
    while true
      invariant 0 <= done < |rs| && left == |rs| - done
      invariant Ahead(sectors, file.sec, file.ndx, RelocBytes(rs[done..]) + rest)
      invariant ram[start..start + |code|] == PatchAll(code, page[..done])
      invariant forall a :: 0 <= a < ram.Length && !(start <= a < start + |code|) ==> ram[a] == old(ram[a])
      decreases |rs| - done
    {
      ghost var before := ram[..];
      NextReloc(rs, done, rest);
      var where := file.ReadU16(sectors, RelocBytes(rs[done..]) + rest);
      SitePlace(start, rs, done, |code|);
      where := Wrap(where + start);
      var what := file.ReadU16(sectors, U16(rs[done].what) + (RelocBytes(rs[done + 1..]) + rest));
      what := Wrap(what + base);
      StoreWord(ram, where, what);
      PageStored(before, start, PatchAll(code, page[..done]), page[done]);
      PatchNext(code, page, done);
      done := done + 1;
      left := left - 1;
      if left == 0 { break; }
    }
    assert page[..done] == page;
    NoneLeft(rs, rest);
  }

  /** An even site of the page is an even place in memory. */
  lemma SitePlace(start: Word, rs: seq<Reloc>, i: nat, size: nat)
    requires start % 2 == 0 && i < |rs| && EvenSites(rs, size) && start + size <= 0x1_0000
    ensures Wrap(rs[i].where + start) == start + rs[i].where && (start + rs[i].where) / 2 * 2 == start + rs[i].where
  {
  }

  lemma NoneLeft(rs: seq<Reloc>, rest: seq<Byte>)
    ensures RelocBytes(rs[|rs|..]) + rest == rest
  {
  }

  lemma PatchNone(code: seq<Byte>)
    ensures PatchAll(code, []) == code
  {
  }

  lemma NextReloc(rs: seq<Reloc>, i: nat, rest: seq<Byte>)
    requires i < |rs|
    ensures var tail := RelocBytes(rs[i + 1..]) + rest;
            var bytes := RelocBytes(rs[i..]) + rest;
            && bytes == U16(rs[i].where) + (U16(rs[i].what) + tail)
            && |bytes| >= 2 && |U16(rs[i].what) + tail| >= 2 && FromBytes(bytes[0], bytes[1]) == rs[i].where && bytes[2..] == U16(rs[i].what) + tail
            && FromBytes((U16(rs[i].what) + tail)[0], (U16(rs[i].what) + tail)[1]) == rs[i].what
            && (U16(rs[i].what) + tail)[2..] == tail
  {
    assert rs[i..][1..] == rs[i + 1..] && rs[i..][0] == rs[i];
    var tail := RelocBytes(rs[i + 1..]) + rest;
    Again(U16(rs[i].where), U16(rs[i].what) + RelocBytes(rs[i + 1..]), rest);
    Again(U16(rs[i].what), RelocBytes(rs[i + 1..]), rest);
    BytesRoundTrip(rs[i].where);
    BytesRoundTrip(rs[i].what);
    assert RelocBytes(rs[i..]) + rest == U16(rs[i].where) + (U16(rs[i].what) + tail);
  }

  /** Even sites are in range, and rebasing keeps them so. */
  lemma EvenRebased(rs: seq<Reloc>, base: Word, size: nat)
    requires EvenSites(rs, size)
    ensures InRange(rs, size) && InRange(Rebased(rs, base), size) && EvenSites(Rebased(rs, base), size)
    ensures forall i :: 0 <= i < |rs| ==> Rebased(rs, base)[i] == Reloc(rs[i].where, Wrap(rs[i].what + base))
  {
    hide Wrap;
  }

  lemma PatchNext(code: seq<Byte>, page: seq<Reloc>, i: nat)
    requires i < |page| && InRange(page, |code|)
    ensures PatchAll(code, page[..i + 1]) == PutWord(PatchAll(code, page[..i]), page[i].where, page[i].what)
  {
    assert page[..i + 1][..i] == page[..i] && page[..i + 1][i] == page[i];
  }

  /** A word stored in the page is a word put into its bytes. */
  lemma PageStored(before: seq<Byte>, start: Word, code: seq<Byte>, r: Reloc)
    requires |before| == 0x1_0000 && start + |code| <= 0x1_0000
    requires r.where + 2 <= |code| && before[start..start + |code|] == code
    ensures var after := PutWord(before, start + r.where, r.what);
            && after[start..start + |code|] == PutWord(code, r.where, r.what)
            && forall a :: 0 <= a < |after| && !(start <= a < start + |code|) ==> after[a] == before[a]
  {
    hide LowByte, HighByte;
    var after := PutWord(before, start + r.where, r.what);
    forall j | 0 <= j < |code| ensures after[start..start + |code|][j] == PutWord(code, r.where, r.what)[j] {
      assert before[start..start + |code|][j] == code[j];
    }
  }

  predicate HasMagic(bytes: seq<Byte>) {
    |bytes| >= 3 && bytes[..3] == EXE_MAGIC
  }

  /** The three bytes at the front. */
  method ReadMagic(file: File, sectors: seq<Sector>, ghost rest: seq<Byte>) returns (ok: bool)
    requires Ahead(sectors, file.sec, file.ndx, rest)
    modifies file
    ensures ok <==> HasMagic(rest)
    ensures ok ==> Ahead(sectors, file.sec, file.ndx, rest[3..])
  {
    hide Ahead;
    var w := file.ReadU16(sectors, rest);
    if w != 0x5845 { return false; }
    if |rest| > 2 { assert rest[2..][1..] == rest[3..]; }
    SectorInRange(sectors, file.sec, file.ndx, rest[2..]);
    w := file.ReadU8(sectors, rest[2..]);
    if w != 0x45 { return false; }
    assert |rest| >= 3 && rest[..3] == [rest[0], rest[1], rest[2]];
    return true;
  }

  /** The bytes of a loadable executable, in the order the loader meets them. */
  lemma ExeLayout(exe: Exe, tail: seq<Byte>)
    requires Loadable(exe)
    ensures GoodExe(exe) && GoodDynamics(exe.dynamics) && GoodDynamic(exe.dynamics[0])
    ensures var d := exe.dynamics[0];
            var shared := RelocBytes(d.relocs) + (CountedSymbols(exe.symbols) + tail);
            var dynamic := NameBytes(d.file) + ([|d.relocs|] + shared);
            && ExeBytes(exe) + tail == EXE_MAGIC + (U16(|exe.code|) + (exe.code
                                                    + (U16(|exe.relocs|) + (RelocBytes(exe.relocs) + (U16(1) + dynamic)))))
            && HasMagic(ExeBytes(exe) + tail)
  {
    hide U16, RelocBytes, NameBytes, CountedSymbols;
    var d := exe.dynamics[0];
    assert DynamicsBytes(exe.dynamics) == DynamicBytes(d) by {
      assert exe.dynamics == [d];
      assert DynamicsBytes(exe.dynamics[1..]) == [];
    }
    var shared := RelocBytes(d.relocs) + (CountedSymbols(exe.symbols) + tail);
    assert DynamicBytes(d) + (CountedSymbols(exe.symbols) + tail) == NameBytes(d.file) + ([|d.relocs|] + shared);
    assert (ExeBytes(exe) + tail)[..3] == EXE_MAGIC;
  }

  lemma WordInFront(w: Word, t: seq<Byte>)
    ensures |U16(w) + t| >= 2 && FromBytes((U16(w) + t)[0], (U16(w) + t)[1]) == w && (U16(w) + t)[2..] == t
  {
    BytesRoundTrip(w);
  }

  /** A name's length and first character are 1 and 1 for the standard library only. */
  lemma NameInFront(name: string, t: seq<Byte>)
    requires GoodName(name)
    ensures var bytes := NameBytes(name) + t;
            |bytes| >= 2 && (FromBytes(bytes[0], bytes[1]) == 0x0101 <==> name == STDLIB)
            && (name == STDLIB ==> bytes[2..] == t)
  {
    var bytes := NameBytes(name) + t;
    assert bytes[0] == |name| && bytes[1] == name[0] as int;
    if |name| == 1 && name[0] as int == 1 { assert name == STDLIB; }
  }

  /** The dynamic section: one entry, which must be the standard library's. */
  method LinkDynamic(file: File, sectors: seq<Sector>, ram: array<Byte>, start: Word,
                     ghost d: Dynamic, ghost page: seq<Byte>, ghost rest: seq<Byte>) returns (st: Status)
    requires ram.Length == 0x1_0000 && start % 2 == 0 && start + |page| <= STDLIB_PTR
    requires GoodDynamic(d) && d.relocs != [] && EvenSites(d.relocs, |page|)
    requires ram[start..start + |page|] == page
    requires Ahead(sectors, file.sec, file.ndx, U16(1) + (NameBytes(d.file) + ([|d.relocs|] + (RelocBytes(d.relocs) + rest))))
    modifies file, ram
    ensures st == if d.file == STDLIB then Started else NotStdlib
    ensures var library := FromBytes(old(ram[0xF800]), old(ram[0xF801]));
            st == Started ==>
              EvenRebasedFits(d.relocs, library, page)
              && PageHolds(old(ram[..]), ram[..], start, PatchAll(page, Rebased(d.relocs, library)))
  {
    hide Ahead, U16, RelocBytes, NameBytes, PatchAll, Rebased, EvenSites;
    ghost var counted := [|d.relocs|] + (RelocBytes(d.relocs) + rest);
    WordInFront(1, NameBytes(d.file) + counted);
    var left := file.ReadU16(sectors, U16(1) + (NameBytes(d.file) + counted));
    NameInFront(d.file, counted);
    var name := file.ReadU16(sectors, NameBytes(d.file) + counted);
    if name != 0x0101 { return NotStdlib; }
    var library := FromBytes(ram[STDLIB_PTR], ram[STDLIB_PTR + 1]);
    SectorInRange(sectors, file.sec, file.ndx, counted);
    var count := file.ReadU8(sectors, counted);
    assert counted[1..] == RelocBytes(d.relocs) + rest;
    EvenRebased(d.relocs, library, |page|);
    RelocatePage(file, sectors, ram, start, library, count, d.relocs, page, rest);
    assert left - 1 == 0;
    return Started;
  }

  predicate EvenRebasedFits(rs: seq<Reloc>, base: Word, page: seq<Byte>) {
    InRange(Rebased(rs, base), |page|)
  }

  /**
   * Loads an executable at the start of a page: its code, its relocations against the page, and the one dynamic
   * entry against the standard library's address found in memory.
   */
  method LoadPage(file: File, sectors: seq<Sector>, ram: array<Byte>, start: Word,
                  ghost rest: seq<Byte>, ghost exe: Exe, ghost tail: seq<Byte>) returns (st: Status)
    requires ram.Length == 0x1_0000 && start % 2 == 0
    requires Ahead(sectors, file.sec, file.ndx, rest)
    requires HasMagic(rest) ==> Loadable(exe) && rest == ExeBytes(exe) + tail && start + |exe.code| <= STDLIB_PTR
    modifies file, ram
    ensures st == NotExe <==> !HasMagic(rest)
    ensures st == NotExe ==> ram[..] == old(ram[..])
    ensures st == NotStdlib <==> HasMagic(rest) && exe.dynamics[0].file != STDLIB
    ensures st == Started ==>
              PageHolds(old(ram[..]), ram[..], start,
                        Loaded(exe.code, exe.relocs, exe.dynamics[0].relocs, start,
                               FromBytes(old(ram[0xF800]), old(ram[0xF801]))))
  {
    hide Ahead, U16, RelocBytes, NameBytes, CountedSymbols, ExeBytes, PatchAll, Rebased, EvenSites;
    var ok := ReadMagic(file, sectors, rest);
    if !ok { return NotExe; }
    ExeLayout(exe, tail);
    ghost var d := exe.dynamics[0];
    EvenRebased(exe.relocs, start, |exe.code|);
    EvenInRange(exe);
    ghost var symbols := CountedSymbols(exe.symbols) + tail;
    ghost var dynamic := U16(1) + (NameBytes(d.file) + ([|d.relocs|] + (RelocBytes(d.relocs) + symbols)));
    ghost var statics := U16(|exe.relocs|) + (RelocBytes(exe.relocs) + dynamic);

    WordInFront(|exe.code|, exe.code + statics);
    var size := file.ReadU16(sectors, U16(|exe.code|) + (exe.code + statics));
    CopyCode(file, sectors, ram, start, size, exe.code, statics);

    WordInFront(|exe.relocs|, RelocBytes(exe.relocs) + dynamic);
    var count := file.ReadU16(sectors, statics);
    RebasedNone(exe.code, exe.relocs, start, dynamic);
    if count != 0 {
      RelocatePage(file, sectors, ram, start, start, count, exe.relocs, exe.code, dynamic);
    }
    st := LinkDynamic(file, sectors, ram, start, d, PatchAll(exe.code, Rebased(exe.relocs, start)), symbols);
  }

  lemma RebasedNone(code: seq<Byte>, rs: seq<Reloc>, base: Word, t: seq<Byte>)
    ensures rs == [] ==> PatchAll(code, Rebased(rs, base)) == code && RelocBytes(rs) + t == t
  {
    if rs == [] { assert Rebased(rs, base) == []; }
  }

  /**
   * The two loaders agree: an executable written to disk and loaded by the machine leaves in the page what the
   * reference loader makes of its code, for the same start and library, and they refuse the same ones.
   */
  method StoreAndLoad(exe: Exe, disk: Disk, ram: array<Byte>, start: Word)
    returns (st: Status, ok: bool, reference: array<Byte>)
    requires Loadable(exe) && disk.Valid() && disk.next + SectorsFor(|ExeBytes(exe)|) <= SECTOR_COUNT
    requires ram.Length == 0x1_0000 && start % 2 == 0 && start + |exe.code| <= STDLIB_PTR
    modifies disk, ram
    ensures st == Started <==> ok
    ensures ok <==> exe.dynamics[0].file == STDLIB
    ensures reference.Length == |exe.code|
    ensures ok ==> PageHolds(old(ram[..]), ram[..], start, reference[..])
  {
    hide Ahead, Chain, ExeBytes, Loaded, GoodExe, EvenSites;
    EvenInRange(exe);
    var file := new Output();
    file.EncodeExe(exe);
    assert [] + ExeBytes(exe) == ExeBytes(exe);
    var bytes := file.bytes;
    var first := disk.EncodeFile(bytes, 0);
    assert bytes[0..] == bytes;
    ChainAhead(disk.sectors, first, bytes, disk.next);

    reference := new Byte[|exe.code|](i requires 0 <= i < |exe.code| => exe.code[i]);
    assert reference[..] == exe.code;
    var library := FromBytes(ram[STDLIB_PTR], ram[STDLIB_PTR + 1]);
    ok := ExeReloc(reference, exe.relocs, exe.dynamics, start, library);

    var stored := new File(first);
    assert bytes + [] == bytes;
    ExeLayout(exe, []);
    st := LoadPage(stored, disk.sectors, ram, start, bytes, exe, []);
  }

  lemma EvenInRange(exe: Exe)
    requires Loadable(exe)
    ensures InRange(exe.relocs, |exe.code|) && InRange(exe.dynamics[0].relocs, |exe.code|) && GoodExe(exe)
  {
  }
}
