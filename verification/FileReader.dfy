/** Reading a chained file byte by byte and word by word, as the machine's own library does. */
module FileReader {
  import opened Words
  import opened Sectors

  const EOF: Word := 0xFFFF

  /** The bytes still to be read from index ndx of a sector on. */
  predicate Ahead(sectors: seq<Sector>, sec: Word, ndx: Byte, rest: seq<Byte>) {
    && sec < |sectors| <= 0x1000 && DATA_START <= ndx
    && if NextOf(sectors[sec]) == NO_SECTOR then
         && ndx as int <= sectors[sec][3] as int + 1 && sectors[sec][3] < 0xFF
         && rest == sectors[sec][ndx..sectors[sec][3] + 1]
       else
         && sectors[sec][3] == 0xFF
         && |rest| >= SECTOR_SIZE - ndx && rest[..SECTOR_SIZE - ndx] == sectors[sec][ndx..]
         && Chain(sectors, NextOf(sectors[sec]), rest[SECTOR_SIZE - ndx..], |sectors|)
  }

  /** At the start of a chain all of it is ahead. */
  lemma ChainAhead(sectors: seq<Sector>, s: Word, content: seq<Byte>, bound: nat)
    requires Chain(sectors, s, content, bound) && bound <= |sectors| <= 0x1000
    ensures Ahead(sectors, s, DATA_START, content)
  {
    ChainKept(sectors, sectors, s, content, bound, |sectors|);
    if |content| < DATA_SIZE {
      assert sectors[s][4..4 + |content|] == content;
    } else {
      assert sectors[s][4..] == content[..DATA_SIZE];
    }
  }

  /** The two cells of an open file. */
  class File {
    var sec: Word
    var ndx: Byte

    constructor (start: Word)
      ensures sec == start && ndx == DATA_START
    {
      sec, ndx := start, DATA_START;
    }

    /**
     * The next byte, or 0xFFFF for good once none is ahead. A last sector filled to its end, which the host never
     * writes, loses its last byte.
     */
    method ReadU8(sectors: seq<Sector>, ghost rest: seq<Byte>) returns (a: Word)
      requires sec % 0x1000 < |sectors|
      modifies this
      ensures old(Ahead(sectors, sec, ndx, rest)) && rest != [] ==> a == rest[0] && Ahead(sectors, sec, ndx, rest[1..])
      ensures old(Ahead(sectors, sec, ndx, rest)) && rest == [] ==> a == 0xFFFF && Ahead(sectors, sec, ndx, rest)
      ensures old(NextOf(sectors[sec % 0x1000])) == NO_SECTOR && old(ndx) == 0xFF && old(sectors[sec % 0x1000])[3] == 0xFF ==> a == 0xFFFF
    {
      var sector := sectors[sec % 0x1000];
      ghost var sec0, ndx0 := sec, ndx;
      var following := NextOf(sector);
      if Wrap(ndx - sector[3] - 1) == 0 {
        a := sector[ndx];
        if Wrap(following as int + 1) == 0 {
          return EOF;
        }
        sec, ndx := following % 0x1000, DATA_START;
        return;
      }
      a := sector[ndx];
      var n := ndx + 1;
      ndx := LowByte(n);
      if n == 0x100 {
        if Wrap(following as int + 1) == 0 {
          return EOF;
        }
        sec, ndx := following % 0x1000, DATA_START;
      }
      if Ahead(sectors, sec0, ndx0, rest) {
        OneByteOn(sectors, sec0, ndx0, rest, sec, ndx);
      }
    }

    /** The next word, low byte first; a single last byte comes alone. */
    method ReadU16(sectors: seq<Sector>, ghost rest: seq<Byte>) returns (a: Word)
      requires Ahead(sectors, sec, ndx, rest)
      modifies this
      ensures |rest| >= 2 ==> a == FromBytes(rest[0], rest[1]) && Ahead(sectors, sec, ndx, rest[2..])
      ensures |rest| == 1 ==> a == rest[0] && Ahead(sectors, sec, ndx, [])
      ensures |rest| == 0 ==> a == 0xFFFF && Ahead(sectors, sec, ndx, [])
    {
      hide Ahead, Chain;
      SectorInRange(sectors, sec, ndx, rest);
      var first := ReadU8(sectors, rest);
      if Wrap(first as int + 1) == 0 {
        return EOF;
      }
      SectorInRange(sectors, sec, ndx, rest[1..]);
      var second := ReadU8(sectors, rest[1..]);
      if Wrap(second as int + 1) == 0 {
        return first;
      }
      assert |rest| >= 2 ==> rest[1..][1..] == rest[2..];
      a := FromBytes(LowByte(first), LowByte(second));
    }
  }

  lemma SectorInRange(sectors: seq<Sector>, sec: Word, ndx: Byte, rest: seq<Byte>)
    requires Ahead(sectors, sec, ndx, rest)
    ensures sec % 0x1000 < |sectors|
  {
  }

  /** Past one byte the rest is ahead, in the same sector or at the start of the next. */
  lemma OneByteOn(sectors: seq<Sector>, sec: Word, ndx: Byte, rest: seq<Byte>, sec': Word, ndx': Byte)
    requires Ahead(sectors, sec, ndx, rest) && ndx as int != sectors[sec][3] as int + 1
    requires ndx < 0xFF ==> sec' == sec && ndx' == ndx + 1
    requires ndx == 0xFF ==> sec' == NextOf(sectors[sec]) % 0x1000 && ndx' == DATA_START
    ensures rest != [] && rest[0] == sectors[sec][ndx] && Ahead(sectors, sec', ndx', rest[1..])
  {
    var sector := sectors[sec];
    if NextOf(sector) == NO_SECTOR {
      assert rest[1..] == sector[ndx + 1..sector[3] + 1];
    } else {
      var room := SECTOR_SIZE - ndx;
      assert rest[..room][0] == sector[ndx..][0];
      if ndx == 0xFF {
        ChainAhead(sectors, sec', rest[1..], |sectors|);
      } else {
        assert rest[1..][room - 1..] == rest[room..];
        assert rest[1..][..room - 1] == rest[..room][1..];
        assert sector[ndx..][1..] == sector[ndx + 1..];
      }
    }
  }
}
