/** What a path leads to, told by the characters of the path and the bytes of the directories. */
module Paths {
  import opened Words
  import opened Sectors
  import opened PathLookup

  // ---------- components ----------

  /** The components with a slash between any two. */
  function Joined(names: seq<seq<Byte>>): seq<Byte>
    requires names != []
  {
    if |names| == 1 then names[0] else names[0] + ['/' as int] + Joined(names[1..])
  }

  predicate NoSlash(name: seq<Byte>) {
    forall i :: 0 <= i < |name| ==> name[i] != '/' as int
  }

  lemma JoinedMore(name: seq<Byte>, names: seq<seq<Byte>>)
    requires names != []
    ensures Joined([name] + names) == name + ['/' as int] + Joined(names)
  {
    assert ([name] + names)[1..] == names;
  }

  lemma CutAt(path: seq<Byte>, i: nat)
    requires i < |path| && path[i] == '/' as int
    ensures path == path[..i] + ['/' as int] + path[i + 1..]
  {
  }

  lemma FirstCut(path: seq<Byte>)
    ensures var i := FirstSlash(path); NoSlash(path[..i]) && (i < |path| ==> path[i] == '/' as int)
  {
    hide Components;
    var i := FirstSlash(path);
    hide FirstSlash;
    assert forall k :: 0 <= k < i ==> path[..i][k] == path[k] != SLASH;
  }

  lemma LastComponent(path: seq<Byte>)
    requires FirstSlash(path) == |path|
    ensures Components(path) == [path]
  {
    hide FirstSlash;
  }

  lemma ComponentFirst(path: seq<Byte>)
    requires FirstSlash(path) < |path|
    ensures Components(path) == [path[..FirstSlash(path)]] + Components(path[FirstSlash(path) + 1..])
  {
    hide FirstSlash;
  }

  /** The components hold no slash and, joined by slashes, are the path. */
  lemma {:induction false} ComponentsJoin(path: seq<Byte>)
    ensures Joined(Components(path)) == path
    ensures forall i :: 0 <= i < |Components(path)| ==> NoSlash(Components(path)[i])
  {
    hide NoSlash, FirstSlash, Components;
    var i := FirstSlash(path);
    FirstCut(path);
    if i == |path| {
      LastComponent(path);
      assert path[..i] == path;
    } else {
      ComponentFirst(path);
      hide Joined;
      CutAt(path, i);
      ComponentsJoin(path[i + 1..]);
      JoinedMore(path[..i], Components(path[i + 1..]));
    }
  }

  // ---------- directories ----------

  /** The bytes of one entry: the name, a zero, and the pointer with its low byte first. */
  predicate EntryBytes(s: Sector, at: nat, e: Entry) {
    && at + |e.name| + 2 < 256 && (forall i :: 0 <= i < |e.name| ==> s[at + i] == e.name[i] != 0) && s[at + |e.name|] == 0
    && s[at + |e.name| + 1] as int + 0x100 * (s[at + |e.name| + 2] as int) == e.ptr
  }

  function EntryOffset(es: seq<Entry>, i: nat): nat
    requires i <= |es|
    decreases i
  {
    if i == 0 then 0 else |es[0].name| + 3 + EntryOffset(es[1..], i - 1)
  }

  lemma {:induction false} EntriesStand(s: Sector, ndx: nat, es: seq<Entry>)
    requires EntriesAt(s, ndx, es)
    ensures forall i :: 0 <= i < |es| ==> EntryBytes(s, ndx + EntryOffset(es, i), es[i])
    ensures ndx + EntryOffset(es, |es|) < 256 && s[ndx + EntryOffset(es, |es|)] == 0
    decreases |es|
  {
    hide EntryBytes, EntriesAt;
    if es == [] {
      LastByte(s, ndx);
    } else {
      var n := |es[0].name|;
      FirstStands(s, ndx, es);
      EntryPointer(s, ndx, es);
      EntriesStand(s, ndx + n + 3, es[1..]);
      forall i | 0 <= i < |es| ensures EntryBytes(s, ndx + EntryOffset(es, i), es[i]) {
        if i > 0 { assert EntryBytes(s, ndx + n + 3 + EntryOffset(es[1..], i - 1), es[1..][i - 1]); }
      }
    }
  }

  lemma LastByte(s: Sector, ndx: nat)
    requires EntriesAt(s, ndx, [])
    ensures ndx < 256 && s[ndx] == 0
  {
  }

  lemma FirstStands(s: Sector, ndx: nat, es: seq<Entry>)
    requires es != [] && EntriesAt(s, ndx, es)
    ensures EntryBytes(s, ndx, es[0])
  {
    forall i | 0 <= i < |es[0].name| ensures s[ndx + i] == es[0].name[i] { NameByte(s, ndx, es, i); }
  }

  /** A directory's entries stand from byte 3 of its sector on, and bytes 1 and 2 tell where it goes on, or 0xFFFF. */
  lemma DirectoryBytes(sectors: seq<Sector>, sec: Word, chain: seq<seq<Entry>>)
    requires DirChain(sectors, sec, chain)
    ensures chain != [] && sec < |sectors|
    ensures forall i :: 0 <= i < |chain[0]| ==> EntryBytes(sectors[sec], 3 + EntryOffset(chain[0], i), chain[0][i])
    ensures var next := sectors[sec][1] as int + 0x100 * (sectors[sec][2] as int);
            if |chain| == 1 then next == 0xFFFF else next < 0x1_0000 && DirChain(sectors, next, chain[1..])
  {
    hide EntryBytes, EntriesAt, EntryOffset;
    EntriesStand(sectors[sec], 3, chain[0]);
  }

  // ---------- lookup ----------

  /** The first entry of that name points to p. */
  predicate PointsTo(es: seq<Entry>, name: seq<Byte>, p: Word) {
    exists k :: 0 <= k < |es| && es[k].name == name && es[k].ptr == p && forall j :: 0 <= j < k ==> es[j].name != name
  }

  predicate Absent(es: seq<Entry>, name: seq<Byte>) {
    forall k :: 0 <= k < |es| ==> es[k].name != name
  }

  /** From directory `from` the entry of that name leads to directory `to`. */
  predicate StepsTo(sectors: seq<Sector>, dirs: Directories, from: Word, name: seq<Byte>, to: Word) {
    && from in dirs && to < |sectors| && sectors[to][0] == 'D' as int
    && exists p: Word :: PointsTo(AllEntries(dirs[from]), name, p) && to == p % 0x1000
  }

  /** The directories gone through, one for each of the first components. */
  predicate Trail(sectors: seq<Sector>, dirs: Directories, sec: Word, names: seq<seq<Byte>>, trail: seq<Word>) {
    && 0 < |trail| <= |names| && trail[0] == sec && trail[|trail| - 1] in dirs
    && forall i :: 0 <= i < |trail| - 1 ==> StepsTo(sectors, dirs, trail[i], names[i], trail[i + 1])
  }

  /** How the lookup of a component in the last directory of a trail ends the search. */
  predicate EndsAt(sectors: seq<Sector>, es: seq<Entry>, name: seq<Byte>, last: bool, r: Result) {
    match r
    case Missing => Absent(es, name)
    case Found(p) => last && PointsTo(es, name, p)
    case NotDir => !last && exists p: Word :: PointsTo(es, name, p) && p % 0x1000 < |sectors| && sectors[p % 0x1000][0] != 'D' as int
  }

  lemma FirstPoints(es: seq<Entry>, name: seq<Byte>)
    ensures IndexOf(es, name) == |es| ==> Absent(es, name)
    ensures IndexOf(es, name) < |es| ==> PointsTo(es, name, es[IndexOf(es, name)].ptr)
  {
  }

  /**
   * Every lookup goes through a trail of directories, each entered through the first entry of its component's name,
   * and ends at the first component that is missing, is no directory though more follow, or is the last.
   */
  lemma {:induction false} LookupFollows(sectors: seq<Sector>, dirs: Directories, sec: Word, names: seq<seq<Byte>>) returns (trail: seq<Word>)
    requires GoodTree(sectors, dirs) && sec in dirs && names != []
    ensures Trail(sectors, dirs, sec, names, trail)
    ensures var n := |trail|;
            EndsAt(sectors, AllEntries(dirs[trail[n - 1]]), names[n - 1], n == |names|, Lookup(sectors, dirs, sec, names))
    decreases |names|
  {
    hide GoodTree, AllEntries, IndexOf, PointsTo, Lookup;
    var es := AllEntries(dirs[sec]);
    var i := IndexOf(es, names[0]);
    FirstPoints(es, names[0]);
    LookupStep(sectors, dirs, sec, names);
    if i == |es| || |names| == 1 || sectors[SectorOf(es[i].ptr)][0] != DIR {
      trail := [sec];
    } else {
      var to := SectorOf(es[i].ptr);
      trail := LookupFollows(sectors, dirs, to, names[1..]);
      assert StepsTo(sectors, dirs, sec, names[0], to);
      trail := [sec] + trail;
      hide StepsTo;
      forall j | 0 <= j < |trail| - 1 ensures StepsTo(sectors, dirs, trail[j], names[j], trail[j + 1]) {
        if j > 0 { assert names[1..][j - 1] == names[j]; }
      }
    }
  }
}
