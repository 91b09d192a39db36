/** Path lookup over directory sectors: the byte-by-byte matcher against component-wise lookup. */
module PathLookup {
  import opened Words
  import opened Sectors

  const SLASH: Byte := 0x2F
  const DIR: Byte := 0x44
  const ENTRY_START := 3
  const ROOT: Word := 1

  datatype Entry = Entry(name: seq<Byte>, ptr: Word)

  /** Missing stands for the error 0xFFFF, NotDir for 0xFFFE. */
  datatype Result = Found(ptr: Word) | Missing | NotDir

  // ---------- directories ----------

  predicate GoodName(name: seq<Byte>) {
    name != [] && forall i :: 0 <= i < |name| ==> name[i] != 0
  }

  /** From index ndx on the sector holds these entries, ended by an empty name inside the sector. */
  predicate EntriesAt(s: Sector, ndx: nat, es: seq<Entry>)
    decreases |es|
  {
    if es == [] then ndx < SECTOR_SIZE && s[ndx] == 0
    else
      var n := |es[0].name|;
      && GoodName(es[0].name) && ndx + n + 3 < SECTOR_SIZE
      && s[ndx..ndx + n] == es[0].name && s[ndx + n] == 0 && FromBytes(s[ndx + n + 1], s[ndx + n + 2]) == es[0].ptr
      && EntriesAt(s, ndx + n + 3, es[1..])
  }

  /** A directory and its continuation sectors, each with some entry. */
  predicate DirChain(sectors: seq<Sector>, sec: Word, chain: seq<seq<Entry>>)
    decreases |chain|
  {
    && chain != [] && sec < |sectors| <= 0x1000
    && chain[0] != [] && EntriesAt(sectors[sec], ENTRY_START, chain[0])
    && if |chain| == 1 then NextOf(sectors[sec]) == NO_SECTOR
       else NextOf(sectors[sec]) != NO_SECTOR && DirChain(sectors, NextOf(sectors[sec]), chain[1..])
  }

  function AllEntries(chain: seq<seq<Entry>>): seq<Entry> {
    if chain == [] then [] else chain[0] + AllEntries(chain[1..])
  }

  /** The sector number an entry leads to; the machine's register has twelve bits. */
  function SectorOf(ptr: Word): Word {
    ptr % 0x1000
  }

  type Directories = map<Word, seq<seq<Entry>>>

  /** Every directory is well formed, and so is every directory its entries lead to. */
  predicate GoodTree(sectors: seq<Sector>, dirs: Directories) {
    && (forall sec :: sec in dirs ==> DirChain(sectors, sec, dirs[sec]))
    && (forall sec, i :: sec in dirs && 0 <= i < |AllEntries(dirs[sec])| ==>
          var to := SectorOf(AllEntries(dirs[sec])[i].ptr);
          to < |sectors| && (sectors[to][0] == DIR ==> to in dirs))
  }

  // ---------- component-wise lookup ----------

  /** The first entry of exactly that name, or their number. */
  function IndexOf(es: seq<Entry>, name: seq<Byte>): (i: nat)
    ensures i <= |es| && (i < |es| ==> es[i].name == name) && forall k :: 0 <= k < i ==> es[k].name != name
  {
    if es == [] then 0 else if es[0].name == name then 0 else IndexOf(es[1..], name) + 1
  }

  function FirstSlash(path: seq<Byte>): (i: nat)
    ensures i <= |path| && (i < |path| ==> path[i] == SLASH) && forall k :: 0 <= k < i ==> path[k] != SLASH
  {
    if path == [] || path[0] == SLASH then 0 else FirstSlash(path[1..]) + 1
  }

  /** The path split at every slash. */
  function Components(path: seq<Byte>): (names: seq<seq<Byte>>)
    ensures names != []
  {
    var i := FirstSlash(path);
    if i == |path| then [path] else [path[..i]] + Components(path[i + 1..])
  }

  /** One component after the other, each but the last leading to a directory. */
  function Lookup(sectors: seq<Sector>, dirs: Directories, sec: Word, names: seq<seq<Byte>>): Result
    requires GoodTree(sectors, dirs) && sec in dirs && names != []
    decreases |names|
  {
    var es := AllEntries(dirs[sec]);
    var i := IndexOf(es, names[0]);
    if i == |es| then Missing
    else if |names| == 1 then Found(es[i].ptr)
    else
      var to := SectorOf(es[i].ptr);
      if sectors[to][0] != DIR then NotDir else Lookup(sectors, dirs, to, names[1..])
  }

  // ---------- the matcher ----------

  /** The byte of the path at an index; a zero ends it. */
  function PathByte(path: seq<Byte>, i: nat): Byte {
    if i < |path| then path[i] else 0
  }

  /** The component that starts at an index of the path. */
  function ComponentAt(path: seq<Byte>, start: nat): seq<Byte>
    requires start <= |path|
  {
    path[start..start + FirstSlash(path[start..])]
  }

  lemma ComponentEnd(path: seq<Byte>, start: nat, i: nat)
    requires start <= i <= |path| && forall k :: 0 <= k < |path| ==> path[k] != 0
    requires forall k :: start <= k < i ==> path[k] != SLASH
    ensures var n := FirstSlash(path[start..]);
            && start + n >= i
            && (start + n == i <==> PathByte(path, i) == 0 || PathByte(path, i) == SLASH)
  {
    var n := FirstSlash(path[start..]);
    assert n < |path| - start ==> path[start..][n] == path[start + n];
    assert i < |path| ==> path[start..][i - start] == path[i];
  }

  /**
   * Compares the entry at ndx with the component at `start`. Equal or not, the index ends behind the entry's name;
   * if equal the path index is at the component's end.
   */
  method MatchEntry(s: Sector, ndx: nat, path: seq<Byte>, start: nat, ghost es: seq<Entry>) returns (equal: bool, at: nat, pathi: nat)
    requires forall k :: 0 <= k < |path| ==> path[k] != 0
    requires start <= |path| && es != [] && EntriesAt(s, ndx, es)
    ensures at == ndx + |es[0].name| + 1
    ensures equal <==> es[0].name == ComponentAt(path, start)
    ensures equal ==> pathi == start + FirstSlash(path[start..])
  {
    ghost var name, component := es[0].name, ComponentAt(path, start);
    at, pathi := ndx, start;
    while true
      invariant start <= pathi <= |path| && at == ndx + (pathi - start) && at - ndx <= |name| && at < SECTOR_SIZE
      invariant forall k :: start <= k < pathi ==> path[k] != SLASH
      invariant name[..at - ndx] == path[start..pathi]
      decreases |path| - pathi
    {
      ComponentEnd(path, start, pathi);
      NameByte(s, ndx, es, at - ndx);
      var c := PathByte(path, pathi);
      var m := s[at];
      at := at + 1;
      if c == 0 || c == SLASH {
        assert component == path[start..pathi];
        if m == 0 {
          return true, at, pathi;
        }
        assert |name| > |component|;
        break;
      }
      if m == 0 {
        assert |component| > |name|;
        return false, at, pathi;
      }
      if c != m {
        assert name[pathi - start] != component[pathi - start];
        break;
      }
      assert name[..at - ndx] == name[..at - ndx - 1] + [m];
      assert path[start..pathi + 1] == path[start..pathi] + [c];
      pathi := pathi + 1;
    }
    equal := false;
    while true
      invariant ndx < at <= ndx + |name|
      decreases ndx + |name| - at
    {
      NameByte(s, ndx, es, at - ndx);
      at := at + 1;
      if s[at - 1] == 0 { break; }
    }
  }

  /** The bytes of an entry's name, and the zero behind it. */
  lemma NameByte(s: Sector, ndx: nat, es: seq<Entry>, i: nat)
    requires es != [] && EntriesAt(s, ndx, es) && i <= |es[0].name|
    ensures ndx + i < SECTOR_SIZE
    ensures i < |es[0].name| ==> s[ndx + i] == es[0].name[i] != 0
    ensures i == |es[0].name| ==> s[ndx + i] == 0
  {
    if i < |es[0].name| { assert s[ndx..ndx + |es[0].name|][i] == s[ndx + i]; }
  }

  /** Searches a directory and its continuation sectors for the component at `start`. */
  method FindEntry(sectors: seq<Sector>, dir: Word, path: seq<Byte>, start: nat, ghost chain: seq<seq<Entry>>)
    returns (found: bool, ptr: Word, pathi: nat)
    requires forall k :: 0 <= k < |path| ==> path[k] != 0
    requires start <= |path| && DirChain(sectors, dir, chain)
    ensures var es := AllEntries(chain);
            var i := IndexOf(es, ComponentAt(path, start));
            (found <==> i < |es|) && (found ==> ptr == es[i].ptr && pathi == start + FirstSlash(path[start..]))
  {
    hide IndexOf, EntriesAt, AllEntries, FirstSlash, NextOf, FromBytes, DirChain, ComponentAt, Wrap;
    HeadSector(sectors, dir, chain);
    var sec: Word, ndx: nat := dir, ENTRY_START;
    ghost var name, all := ComponentAt(path, start), AllEntries(chain);
    ghost var rest, es, n := chain, chain[0], 0;
    AllOfChain(chain);
    ptr, pathi := 0, start;
    while true
      invariant sec < |sectors| && DirChain(sectors, sec, rest) && rest != [] && es != [] && EntriesAt(sectors[sec], ndx, es)
      invariant n <= |all| && all[n..] == es + AllEntries(rest[1..])
      invariant forall k :: 0 <= k < n ==> all[k].name != name
      decreases |rest|, |es|
    {
      OneFurther(all, n, es, AllEntries(rest[1..]));
      var equal, at;
      equal, at, pathi := MatchEntry(sectors[sec], ndx, path, start, es);
      EntryPointer(sectors[sec], ndx, es);
      if equal {
        IndexIs(all, name, n);
        return true, FromBytes(sectors[sec][at], sectors[sec][at + 1]), pathi;
      }
      ndx := at + 2;
      es, n := es[1..], n + 1;
      if sectors[sec][ndx] == 0 {
        NoMoreHere(sectors[sec], ndx, es);
        var following := NextOf(sectors[sec]);
        ChainEnd(sectors, sec, rest);
        if Wrap(following as int + 1) == 0 {
          AllOfChain(rest);
          IndexIs(all, name, n);
          return false, 0, pathi;
        }
        sec := following % 0x1000;
        ndx := ENTRY_START;
        rest := rest[1..];
        AllOfChain(rest);
        es := rest[0];
      } else {
        MoreHere(sectors[sec], ndx, es);
      }
    }
  }

  lemma OneFurther(all: seq<Entry>, n: nat, es: seq<Entry>, tail: seq<Entry>)
    requires n <= |all| && all[n..] == es + tail && es != []
    ensures n < |all| && all[n] == es[0] && all[n + 1..] == es[1..] + tail
  {
    assert all[n..][0] == all[n] && all[n + 1..] == all[n..][1..];
  }

  lemma HeadSector(sectors: seq<Sector>, sec: Word, chain: seq<seq<Entry>>)
    requires DirChain(sectors, sec, chain)
    ensures chain != [] && sec < |sectors| && chain[0] != [] && EntriesAt(sectors[sec], ENTRY_START, chain[0])
  {
    hide EntriesAt;
  }

  /** A chain ends, or goes on at the next sector. */
  lemma ChainEnd(sectors: seq<Sector>, sec: Word, chain: seq<seq<Entry>>)
    requires DirChain(sectors, sec, chain) && sec < |sectors|
    ensures Wrap(NextOf(sectors[sec]) as int + 1) == 0 <==> |chain| == 1
    ensures |chain| > 1 ==>
              var to := NextOf(sectors[sec]) % 0x1000;
              && DirChain(sectors, to, chain[1..]) && to < |sectors|
              && chain[1] != [] && EntriesAt(sectors[to], ENTRY_START, chain[1])
  {
    hide EntriesAt, NextOf, Wrap;
    var following := NextOf(sectors[sec]);
    EndMark(following);
    if |chain| > 1 {
      HeadSector(sectors, following, chain[1..]);
      assert |sectors| <= 0x1000;
    }
  }

  lemma EndMark(ptr: Word)
    ensures Wrap(ptr as int + 1) == 0 <==> ptr == NO_SECTOR
    ensures ptr < 0x1000 ==> ptr % 0x1000 == ptr
  {
  }

  /** The entries of a chain: the first sector's, then the others'. */
  lemma AllOfChain(chain: seq<seq<Entry>>)
    requires chain != []
    ensures AllEntries(chain)[0..] == AllEntries(chain) == chain[0] + AllEntries(chain[1..]) == [] + AllEntries(chain)
    ensures |chain| == 1 ==> AllEntries(chain[1..]) == []
  {
  }

  /** An index with the name and none before it is the one looked up; so is the end when no entry has the name. */
  lemma {:induction false} IndexIs(es: seq<Entry>, name: seq<Byte>, n: nat)
    requires n <= |es| && (n < |es| ==> es[n].name == name) && forall k :: 0 <= k < n ==> es[k].name != name
    ensures IndexOf(es, name) == n
  {
  }

  lemma EntryPointer(s: Sector, ndx: nat, es: seq<Entry>)
    requires es != [] && EntriesAt(s, ndx, es)
    ensures var n := |es[0].name|;
            && ndx + n + 3 < SECTOR_SIZE && FromBytes(s[ndx + n + 1], s[ndx + n + 2]) == es[0].ptr
            && EntriesAt(s, ndx + n + 3, es[1..])
  {
  }

  lemma NoMoreHere(s: Sector, ndx: nat, es: seq<Entry>)
    requires EntriesAt(s, ndx, es) && ndx < SECTOR_SIZE && s[ndx] == 0
    ensures es == []
  {
    if es != [] { NameByte(s, ndx, es, 0); }
  }

  lemma MoreHere(s: Sector, ndx: nat, es: seq<Entry>)
    requires EntriesAt(s, ndx, es) && ndx < SECTOR_SIZE && s[ndx] != 0
    ensures es != []
  {
  }

  /** The library's path matcher: from the root for a leading slash, from the working directory otherwise. */
  method SolvePath(sectors: seq<Sector>, path: seq<Byte>, cwd: Word, ghost dirs: Directories) returns (r: Result)
    requires GoodTree(sectors, dirs) && ROOT in dirs && SectorOf(cwd) in dirs
    requires forall k :: 0 <= k < |path| ==> path[k] != 0
    ensures r == if path != [] && path[0] == '/' as int then Lookup(sectors, dirs, 1, Components(path[1..]))
                 else Lookup(sectors, dirs, SectorOf(cwd), Components(path))
  {
    hide Lookup, IndexOf, Components, AllEntries, EntriesAt, FirstSlash, NextOf;
    var dir: Word, start: nat := SectorOf(cwd), 0;
    if PathByte(path, 0) == SLASH {
      dir, start := ROOT, 1;
    }
    assert path[0..] == path;
    ghost var goal := Lookup(sectors, dirs, dir, Components(path[start..]));
    while true
      invariant start <= |path| && dir in dirs && goal == Lookup(sectors, dirs, dir, Components(path[start..]))
      decreases |path| - start
    {
      FirstComponent(path, start);
      LookupStep(sectors, dirs, dir, Components(path[start..]));
      var found, ptr, pathi := FindEntry(sectors, dir, path, start, dirs[dir]);
      if !found {
        return Missing;
      }
      if PathByte(path, pathi) == 0 {
        return Found(ptr);
      }
      dir := SectorOf(ptr);
      if sectors[dir][0] != DIR {
        return NotDir;
      }
      start := pathi + 1;
    }
  }

  /** Looking up the first component. */
  lemma LookupStep(sectors: seq<Sector>, dirs: Directories, sec: Word, names: seq<seq<Byte>>)
    requires GoodTree(sectors, dirs) && sec in dirs && names != []
    ensures var es := AllEntries(dirs[sec]);
            var i := IndexOf(es, names[0]);
            if i == |es| then Lookup(sectors, dirs, sec, names) == Missing
            else
              var to := SectorOf(es[i].ptr);
              && to < |sectors| && (sectors[to][0] == DIR ==> to in dirs)
              && Lookup(sectors, dirs, sec, names) ==
                 if |names| == 1 then Found(es[i].ptr)
                 else if sectors[to][0] != DIR then NotDir
                 else Lookup(sectors, dirs, to, names[1..])
  {
    hide DirChain, AllEntries;
  }

  lemma FirstComponent(path: seq<Byte>, start: nat)
    requires start <= |path| && forall k :: 0 <= k < |path| ==> path[k] != 0
    ensures var rest := path[start..];
            var i := FirstSlash(rest);
            && Components(rest) != [] && Components(rest)[0] == ComponentAt(path, start)
            && (PathByte(path, start + i) == 0 <==> |Components(rest)| == 1)
            && (PathByte(path, start + i) != 0 ==> Components(rest)[1..] == Components(path[start + i + 1..]))
  {
    var rest := path[start..];
    var i := FirstSlash(rest);
    if i < |rest| {
      assert rest[i] == path[start + i];
      assert rest[i + 1..] == path[start + i + 1..];
    } else {
      assert rest[..i] == rest;
    }
  }
}
