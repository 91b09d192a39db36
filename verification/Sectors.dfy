/** The chained sectors of the disk image: the host writes files into them and reads them back. */
module Sectors {
  import opened Words

  const SECTOR_SIZE := 256
  const SECTOR_COUNT := 2048
  const DATA_START := 4
  const DATA_SIZE := 252
  const NO_SECTOR: Word := 0xFFFF

  type Sector = s: seq<Byte> | |s| == 256 witness seq(256, _ => 0)

  function NextOf(s: Sector): Word {
    FromBytes(s[1], s[2])
  }

  /**
   * A file's bytes fill sectors of 252; the one with fewer, possibly none, ends the chain. Byte 3 of a sector is the
   * index of its last byte of data. The chain stays below `bound`.
   */
  predicate Chain(sectors: seq<Sector>, s: int, content: seq<Byte>, bound: nat)
    decreases |content|
  {
    && 0 <= s < bound && s < |sectors|
    && if |content| < DATA_SIZE then
         NextOf(sectors[s]) == NO_SECTOR && sectors[s][3] == |content| + 3 && sectors[s][4..4 + |content|] == content
       else
         && NextOf(sectors[s]) != NO_SECTOR && sectors[s][3] == 0xFF && sectors[s][4..] == content[..DATA_SIZE]
         && Chain(sectors, NextOf(sectors[s]), content[DATA_SIZE..], bound)
  }

  /** A chain only depends on the sectors below its bound. */
  lemma {:induction false} ChainKept(sectors: seq<Sector>, sectors': seq<Sector>, s: int, content: seq<Byte>, bound: nat, bound': nat)
    requires Chain(sectors, s, content, bound) && bound <= bound' && bound <= |sectors| == |sectors'|
    requires forall t :: 0 <= t < bound ==> sectors'[t] == sectors[t]
    ensures Chain(sectors', s, content, bound')
    decreases |content|
  {
    if |content| >= DATA_SIZE {
      ChainKept(sectors, sectors', NextOf(sectors[s]), content[DATA_SIZE..], bound, bound');
    }
  }

  /** Following bytes 1 and 2 of each sector, low byte first, sector t is i links behind s. */
  predicate Linked(sectors: seq<Sector>, s: int, i: nat, t: int)
    decreases i
  {
    0 <= s < |sectors| &&
    if i == 0 then s == t else Linked(sectors, sectors[s][1] as int + 0x100 * (sectors[s][2] as int), i - 1, t)
  }

  /** Byte n of a file stands behind the four bytes of its header in the (n / 252)-th sector of its chain. */
  lemma {:induction false} ByteOnDisk(sectors: seq<Sector>, s: int, content: seq<Byte>, bound: nat, n: nat) returns (t: nat)
    requires Chain(sectors, s, content, bound) && n < |content|
    ensures Linked(sectors, s, n / 252, t) && t < |sectors| && sectors[t][4 + n % 252] == content[n]
    decreases |content|
  {
    if n < 252 {
      t := s;
      if |content| < 252 {
        assert sectors[s][4..4 + |content|][n] == content[n];
      } else {
        assert sectors[s][4..][n] == content[..252][n];
      }
    } else {
      t := ByteOnDisk(sectors, NextOf(sectors[s]), content[252..], bound, n - 252);
      assert n / 252 == (n - 252) / 252 + 1;
    }
  }

  /** The last sector has no successor and tells where its data end. */
  lemma {:induction false} ChainEnds(sectors: seq<Sector>, s: int, content: seq<Byte>, bound: nat) returns (t: nat)
    requires Chain(sectors, s, content, bound)
    ensures Linked(sectors, s, |content| / 252, t) && t < |sectors|
    ensures sectors[t][1] == 0xFF && sectors[t][2] == 0xFF && sectors[t][3] == 3 + |content| % 252
    decreases |content|
  {
    if |content| < 252 {
      t := s;
    } else {
      t := ChainEnds(sectors, NextOf(sectors[s]), content[252..], bound);
      assert |content| / 252 == (|content| - 252) / 252 + 1;
    }
  }

  /** The number of sectors a file takes. */
  function SectorsFor(size: nat): nat {
    size / DATA_SIZE + 1
  }

  lemma OneSectorLess(size: nat)
    requires size >= DATA_SIZE
    ensures SectorsFor(size) == SectorsFor(size - DATA_SIZE) + 1
  {
  }

  class Disk {
    var sectors: seq<Sector>
    var next: nat

    ghost predicate Valid()
      reads this
    {
      |sectors| == SECTOR_COUNT && 1 <= next <= SECTOR_COUNT
    }

    constructor ()
      ensures Valid() && next == 1
    {
      sectors := seq(SECTOR_COUNT, _ => seq(256, _ => 0));
      next := 1;
    }

    /** Writes the rest of a file from `offset` on into fresh sectors and returns the first. */
    method EncodeFile(file: seq<Byte>, offset: nat) returns (s: Word)
      requires Valid() && offset <= |file| && next + SectorsFor(|file| - offset) <= SECTOR_COUNT
      modifies this
      ensures Valid() && s == old(next) && next == old(next) + SectorsFor(|file| - offset)
      ensures Chain(sectors, s, file[offset..], next)
      ensures forall t :: 0 <= t < SECTOR_COUNT && !(old(next) <= t < next) ==> sectors[t] == old(sectors)[t]
      ensures forall t :: old(next) <= t < next ==> sectors[t][0] == 'F' as int
      ensures forall t :: old(next) <= t < next - 1 ==> NextOf(sectors[t]) == t + 1
      decreases |file| - offset
    {
      hide Chain, NextOf;
      var size := |file| - offset;
      s := next;
      next := next + 1;
      var sector := sectors[s][0 := 'F' as int];
      if size + 4 >= SECTOR_SIZE {
        OneSectorLess(size);
        sector := sector[..DATA_START] + file[offset..offset + DATA_SIZE];
        sectors := sectors[s := sector];
        ghost var before := sectors;
        var ptr := EncodeFile(file, offset + DATA_SIZE);
        sector := sector[1 := LowByte(ptr)][2 := HighByte(ptr)][3 := 0xFF];
        ghost var middle := sectors;
        sectors := sectors[s := sector];
        assert file[offset..][DATA_SIZE..] == file[offset + DATA_SIZE..];
        ChainElsewhere(middle, sectors, ptr, file[offset + DATA_SIZE..], s + 1, next);
        LinkedOn(sectors, s, file[offset..], next, ptr);
      } else {
        sector := sector[..DATA_START] + file[offset..] + sector[DATA_START + size..];
        sector := sector[1 := 0xFF][2 := 0xFF][3 := size + 3];
        sectors := sectors[s := sector];
        EndsHere(sectors, s, file[offset..], next);
      }
    }

    /** Writes several files, each leaving the earlier ones intact. */
    method EncodeFiles(files: seq<seq<Byte>>) returns (starts: seq<Word>)
      requires Valid() && next + TotalSectors(files) <= SECTOR_COUNT
      modifies this
      ensures Valid() && next == old(next) + TotalSectors(files) && |starts| == |files|
      ensures forall i :: 0 <= i < |files| ==> starts[i] == old(next) + TotalSectors(files[..i])
      ensures forall i :: 0 <= i < |files| ==> Chain(sectors, starts[i], files[i], next)
      ensures forall t :: 0 <= t < SECTOR_COUNT && !(old(next) <= t < next) ==> sectors[t] == old(sectors)[t]
    {
      hide Chain, SectorsFor, TotalSectors;
      starts := [];
      TotalEmpty(files);
      for i := 0 to |files|
        invariant Valid() && |starts| == i && next == old(next) + TotalSectors(files[..i])
        invariant forall k :: 0 <= k < i ==> starts[k] == old(next) + TotalSectors(files[..k])
        invariant forall k :: 0 <= k < i ==> Chain(sectors, starts[k], files[k], next)
        invariant forall t :: 0 <= t < SECTOR_COUNT && !(old(next) <= t < next) ==> sectors[t] == old(sectors)[t]
      {
        TotalNext(files, i);
        TotalGrows(files, i + 1);
        ghost var before, bound := sectors, next;
        assert files[i][0..] == files[i];
        var s := EncodeFile(files[i], 0);
        ChainsKept(before, sectors, starts, files[..i], bound, next);
        starts := starts + [s];
      }
      assert files[..|files|] == files;
    }

    /** Reads a file back by following its chain. */
    method DecodeFile(start: Word, ghost content: seq<Byte>) returns (out: seq<Byte>)
      requires Valid() && Chain(sectors, start, content, next)
      ensures out == content
    {
      var sec := start;
      out := [];
      ghost var rest := content;
      while true
        invariant Chain(sectors, sec, rest, next) && out + rest == content
        decreases |rest|
      {
        out := out + sectors[sec][DATA_START..DATA_START + (sectors[sec][3] - 3)];
        rest := if |rest| < DATA_SIZE then [] else rest[DATA_SIZE..];
        var following := NextOf(sectors[sec]);
        if following == NO_SECTOR { return; }
        sec := following;
      }
    }
  }

  /** A full sector in front of a chain. */
  lemma LinkedOn(sectors: seq<Sector>, s: int, content: seq<Byte>, bound: nat, ptr: Word)
    requires 0 <= s < bound && s < |sectors| && |content| >= DATA_SIZE && ptr != NO_SECTOR
    requires sectors[s][1] == LowByte(ptr) && sectors[s][2] == HighByte(ptr) && sectors[s][3] == 0xFF
    requires sectors[s][4..] == content[..DATA_SIZE] && Chain(sectors, ptr, content[DATA_SIZE..], bound)
    ensures Chain(sectors, s, content, bound) && NextOf(sectors[s]) == ptr
  {
    BytesRoundTrip(ptr);
  }

  /** The last sector of a chain. */
  lemma EndsHere(sectors: seq<Sector>, s: int, content: seq<Byte>, bound: nat)
    requires 0 <= s < bound && s < |sectors| && |content| < DATA_SIZE
    requires sectors[s][1] == 0xFF && sectors[s][2] == 0xFF && sectors[s][3] == |content| + 3
    requires sectors[s][4..4 + |content|] == content
    ensures Chain(sectors, s, content, bound)
  {
  }

  /** Sectors from `from` on carry a chain that does not mind changes below. */
  lemma {:induction false} ChainElsewhere(sectors: seq<Sector>, sectors': seq<Sector>, s: int, content: seq<Byte>, from: nat, bound: nat)
    requires Chain(sectors, s, content, bound) && bound <= |sectors| == |sectors'|
    requires s == from && forall t :: from <= t < bound ==> sectors'[t] == sectors[t]
    requires forall t :: from <= t < bound - 1 ==> NextOf(sectors[t]) == t + 1
    requires bound == from + SectorsFor(|content|)
    ensures Chain(sectors', s, content, bound)
    decreases |content|
  {
    if |content| >= DATA_SIZE {
      OneSectorLess(|content|);
      ChainElsewhere(sectors, sectors', s + 1, content[DATA_SIZE..], from + 1, bound);
    }
  }

  lemma ChainsKept(sectors: seq<Sector>, sectors': seq<Sector>, starts: seq<Word>, files: seq<seq<Byte>>, bound: nat, bound': nat)
    requires |starts| == |files| && forall k :: 0 <= k < |files| ==> Chain(sectors, starts[k], files[k], bound)
    requires bound <= bound' && bound <= |sectors| == |sectors'|
    requires forall t :: 0 <= t < bound ==> sectors'[t] == sectors[t]
    ensures forall k :: 0 <= k < |files| ==> Chain(sectors', starts[k], files[k], bound')
  {
    hide Chain;
    forall k | 0 <= k < |files| ensures Chain(sectors', starts[k], files[k], bound') {
      ChainKept(sectors, sectors', starts[k], files[k], bound, bound');
    }
  }

  lemma TotalEmpty(files: seq<seq<Byte>>)
    ensures TotalSectors(files[..0]) == 0
  {
  }

  lemma TotalNext(files: seq<seq<Byte>>, i: nat)
    requires i < |files|
    ensures TotalSectors(files[..i + 1]) == TotalSectors(files[..i]) + SectorsFor(|files[i]|)
  {
    assert files[..i + 1][..i] == files[..i];
  }

  function TotalSectors(files: seq<seq<Byte>>): nat {
    if files == [] then 0 else TotalSectors(files[..|files| - 1]) + SectorsFor(|files[|files| - 1]|)
  }

  lemma {:induction false} TotalGrows(files: seq<seq<Byte>>, n: nat)
    requires n <= |files|
    ensures TotalSectors(files[..n]) <= TotalSectors(files)
    decreases |files|
  {
    if n == |files| {
      assert files[..n] == files;
    } else {
      assert files[..|files| - 1][..n] == files[..n];
      TotalGrows(files[..|files| - 1], n);
    }
  }
}
