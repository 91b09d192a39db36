/** The operating system's process and page bookkeeping under nested execute and exit. */
module Processes {
  import opened Words
  import opened Division
  import opened Bitmaps
  import opened Isa

  const TABLE_START := 0xF820
  const STRUCT_SIZE := 16
  const PAGE_SIZE := 0x800
  const NO_PARENT: Word := 0xFFFF
  /** What exit has pushed when it computes the page from SP. */
  const EXIT_ROOM := 4
  /** The operating system's stack is in the last page, which the page map does not cover. */
  const OS_PAGE := 31

  datatype Process = Process(parent: Word, cwd: Word, sp: Word, stdout: Word, stdin: Word)

  function StructOf(slot: nat): Word
    requires slot < 16
  {
    TABLE_START + slot * STRUCT_SIZE
  }

  function SlotOf(ptr: Word): nat {
    (if ptr >= TABLE_START then ptr - TABLE_START else 0) / STRUCT_SIZE
  }

  lemma SlotBack(slot: nat)
    requires slot < 16
    ensures SlotOf(StructOf(slot)) == slot && Wrap(TABLE_START + slot * STRUCT_SIZE) == StructOf(slot)
  {
  }

  predicate InPage(sp: Word, page: nat) {
    sp / PAGE_SIZE == page
  }

  // ---------- what the maps and structs mean ----------

  /** Exactly the live process structs. */
  function ProcessBits(live: seq<nat>): (bits: seq<bool>)
    ensures |bits| == 16
  {
    seq(16, k => k in live)
  }

  /** Exactly the reserved pages and those of the live processes. */
  function PageBits(reserved: set<nat>, pages: seq<nat>): (bits: seq<bool>)
    ensures |bits| == 16
  {
    seq(16, k => k in reserved || k in pages)
  }

  predicate Distinct(s: seq<nat>) {
    forall i, j :: 0 <= i < j < |s| ==> s[i] != s[j]
  }

  /** The live processes, oldest first, have distinct structs and distinct pages of their own. */
  predicate Owned(live: seq<nat>, pages: seq<nat>, reserved: set<nat>) {
    && |live| == |pages| > 0 && live[0] == 0 && pages[0] == OS_PAGE && 0 in reserved
    && (forall i :: 0 <= i < |live| ==> live[i] < 16) && Distinct(live)
    && (forall i :: 1 <= i < |pages| ==> 1 <= pages[i] < 16 && pages[i] !in reserved) && Distinct(pages)
  }

  /** Every process but the operating system has the one before it as parent, and waits with its SP in its page. */
  predicate Linked(live: seq<nat>, pages: seq<nat>, table: seq<Process>) {
    && |table| == 16 && |live| == |pages| && (forall i :: 0 <= i < |live| ==> live[i] < 16)
    && (forall i :: 1 <= i < |live| ==> table[live[i]].parent == StructOf(live[i - 1]))
    && table[0].parent == NO_PARENT
    && (forall i :: 0 <= i < |live| - 1 ==> InPage(table[live[i]].sp, pages[i]))
  }

  /** Following parent pointers n times. */
  function Ancestor(table: seq<Process>, ptr: Word, n: nat): Word
    requires |table| == 16
    decreases n
  {
    if n == 0 || SlotOf(ptr) >= 16 then ptr else Ancestor(table, table[SlotOf(ptr)].parent, n - 1)
  }

  /** From the newest process the parent chain reaches the operating system after all others, and then ends. */
  lemma {:induction false} ChainReachesOs(live: seq<nat>, pages: seq<nat>, table: seq<Process>, n: nat)
    requires Linked(live, pages, table) && n < |live| && live[0] == 0
    ensures Ancestor(table, StructOf(live[n]), n) == StructOf(0)
    ensures table[SlotOf(StructOf(0))].parent == 0xFFFF
    decreases n
  {
    SlotBack(live[n]);
    SlotBack(0);
    if n > 0 { ChainReachesOs(live, pages, table, n - 1); }
  }

  // ---------- stacks ----------

  /** A byte written at an offset into a process's page. */
  datatype Poke = Poke(offset: nat, b: Byte)

  predicate Within(pokes: seq<Poke>, limit: nat) {
    forall i :: 0 <= i < |pokes| ==> pokes[i].offset < limit
  }

  /** The stacks differ at most below an offset into one page. */
  predicate SameBut(stacks: Ram, after: Ram, page: nat, limit: nat) {
    forall i :: 0 <= i < 0x1_0000 && (i / PAGE_SIZE != page || i % PAGE_SIZE >= limit) ==> after[i] == stacks[i]
  }

  /** The word a waiting process's call of execute has pushed, where the SP saved for it says. */
  function PushedWord(stacks: Ram, sp: Word): Word {
    Read16(stacks, Wrap(sp + 2))
  }

  /** The return word lies in the page, just above the SP. */
  predicate CalledIn(sp: Word, page: nat) {
    InPage(sp, page) && sp + 2 < 0x1_0000 && InPage(sp + 2, page)
  }

  /** Every waiting process finds the return word of its call on its stack. */
  predicate Waiting(live: seq<nat>, pages: seq<nat>, table: seq<Process>, stacks: Ram, rets: seq<Word>) {
    && |live| == |pages| == |rets| + 1 && |table| == 16 && (forall i :: 0 <= i < |live| ==> live[i] < 16)
    && (forall i :: 0 <= i < |rets| ==> CalledIn(table[live[i]].sp, pages[i]))
    && (forall i :: 0 <= i < |rets| ==> PushedWord(stacks, table[live[i]].sp) == rets[i])
  }

  /** A word in one page is not changed by writes in another, or below it. */
  lemma WordKept(stacks: Ram, after: Ram, page: nat, limit: nat, at: Word)
    requires SameBut(stacks, after, page, limit) && (at / PAGE_SIZE != page || at % PAGE_SIZE / 2 * 2 >= limit)
    ensures Read16(after, at) == Read16(stacks, at)
  {
    assert at / 2 * 2 / PAGE_SIZE == at / PAGE_SIZE && (at / 2 * 2 + 1) / PAGE_SIZE == at / PAGE_SIZE;
    assert at / 2 * 2 % PAGE_SIZE == at % PAGE_SIZE / 2 * 2;
  }

  /** What the newest process writes in its own page leaves all return words. */
  lemma WaitingKept(live: seq<nat>, pages: seq<nat>, table: seq<Process>, stacks: Ram, rets: seq<Word>, after: Ram, page: nat)
    requires Waiting(live, pages, table, stacks, rets) && SameBut(stacks, after, page, PAGE_SIZE)
    requires forall i :: 0 <= i < |rets| ==> pages[i] != page
    ensures Waiting(live, pages, table, after, rets)
  {
    hide Read16;
    forall i | 0 <= i < |rets| ensures PushedWord(after, table[live[i]].sp) == rets[i] {
      WordKept(stacks, after, page, PAGE_SIZE, table[live[i]].sp + 2);
    }
  }

  // ---------- entering and leaving ----------

  lemma NewProcessBits(live: seq<nat>, slot: nat)
    requires slot < 16
    ensures ProcessBits(live + [slot]) == ProcessBits(live)[slot := true]
  {
  }

  lemma NewPageBits(reserved: set<nat>, pages: seq<nat>, page: nat)
    requires page < 16
    ensures PageBits(reserved, pages + [page]) == PageBits(reserved, pages)[page := true]
  {
  }

  function NewStruct(table: seq<Process>, caller: nat, me: nat, sp: Word): seq<Process>
    requires |table| == 16 && caller < 16 && me < 16
  {
    table[me := Process(StructOf(caller), table[caller].cwd, 0, table[caller].stdout, table[caller].stdin)]
         [caller := table[caller].(sp := sp)]
  }

  /** The new struct takes directory and redirections from its parent, the caller; of the caller's only the SP changes. */
  lemma Inherited(table: seq<Process>, caller: nat, me: nat, sp: Word)
    requires |table| == 16 && caller < 16 && me < 16 && caller != me
    ensures var after := NewStruct(table, caller, me, sp);
            && |after| == 16 && after[me].parent == StructOf(caller) == 0xF820 + 0x10 * caller && StructOf(me) == 0xF820 + 0x10 * me
            && after[me].cwd == table[caller].cwd && after[me].sp == 0
            && after[me].stdout == table[caller].stdout && after[me].stdin == table[caller].stdin
            && after[caller] == table[caller].(sp := sp)
            && forall i :: 0 <= i < 16 && i != me && i != caller ==> after[i] == table[i]
  {
  }

  lemma LiveStructs(live: seq<nat>, pages: seq<nat>, reserved: set<nat>)
    requires Owned(live, pages, reserved)
    ensures |live| == |pages| > 0 && live[|live| - 1] < 16 && live[|live| - 1] !in live[..|live| - 1]
    ensures |live| > 1 ==> live[|live| - 2] < 16 && live[|live| - 2] != live[|live| - 1]
  {
  }

  /** A free struct and a free page keep everything owned and linked. */
  lemma EnterKeeps(live: seq<nat>, pages: seq<nat>, reserved: set<nat>, table: seq<Process>, sp: Word, slot: nat, page: nat)
    requires Owned(live, pages, reserved) && Linked(live, pages, table) && InPage(sp, pages[|pages| - 1])
    requires FreeBit(ProcessBits(live), slot) && FreeBit(PageBits(reserved, pages), page)
    ensures slot < 16 && page < 16
    ensures Owned(live + [slot], pages + [page], reserved)
    ensures Linked(live + [slot], pages + [page], NewStruct(table, live[|live| - 1], slot, sp))
  {
    hide InPage, StructOf;
    var live', pages' := live + [slot], pages + [page];
    assert slot !in live && page !in pages && page !in reserved;
    var table' := NewStruct(table, live[|live| - 1], slot, sp);
    forall i | 0 <= i < |live| ensures live[i] != slot && (i < |live| - 1 ==> live[i] != live[|live| - 1]) {
    }
  }

  /** The newest process's parent is the one before it. */
  lemma ParentOf(live: seq<nat>, pages: seq<nat>, table: seq<Process>)
    requires Linked(live, pages, table) && |live| > 1
    ensures var n := |live| - 1;
            |table| == 16 && |pages| == |live| && live[n] < 16 && live[n - 1] < 16 && table[live[n]].parent == StructOf(live[n - 1])
  {
  }

  lemma LeaveKeeps(live: seq<nat>, pages: seq<nat>, reserved: set<nat>, table: seq<Process>)
    requires Owned(live, pages, reserved) && Linked(live, pages, table) && |live| > 1
    ensures var n := |live| - 1;
            && Owned(live[..n], pages[..n], reserved) && Linked(live[..n], pages[..n], table)
            && live[n] != 0 && InPage(table[live[n - 1]].sp, pages[n - 1])
            && ProcessBits(live[..n])[live[n] := true] == ProcessBits(live) && !ProcessBits(live[..n])[live[n]]
            && PageBits(reserved, pages[..n])[pages[n] := true] == PageBits(reserved, pages) && !PageBits(reserved, pages[..n])[pages[n]]
  {
    hide InPage, StructOf;
    var n := |live| - 1;
    assert live == live[..n] + [live[n]] && pages == pages[..n] + [pages[n]];
    NewProcessBits(live[..n], live[n]);
    NewPageBits(reserved, pages[..n], pages[n]);
    assert live[0] != live[n];
  }

  // ---------- room ----------

  function ElementsOf(s: seq<nat>): set<nat> {
    set x | x in s
  }

  lemma {:induction false} ElementsCount(s: seq<nat>)
    ensures |ElementsOf(s)| <= |s|
  {
    if s != [] {
      var last := |s| - 1;
      ElementsCount(s[..last]);
      assert s == s[..last] + [s[last]];
      assert ElementsOf(s) == ElementsOf(s[..last]) + {s[last]};
    }
  }

  function Below(n: nat): (s: set<nat>)
    ensures |s| == n && forall k :: k in s <==> 0 <= k < n
  {
    if n == 0 then {} else Below(n - 1) + {n - 1}
  }

  lemma SubsetCount(s: set<nat>, t: set<nat>)
    requires s <= t
    ensures |s| <= |t|
  {
    assert t == s + (t - s);
  }

  lemma TakenStruct(live: seq<nat>, k: nat)
    requires k < 16 && |live| > 0 && live[0] == 0 && (k == 0 || !FreeBit(ProcessBits(live), k))
    ensures k in ElementsOf(live)
  {
  }

  /** Fewer than sixteen live processes leave a struct free. */
  lemma RoomForProcess(live: seq<nat>)
    requires 0 < |live| < 16 && live[0] == 0
    ensures exists k :: FreeBit(ProcessBits(live), k)
  {
    hide ProcessBits, ElementsOf;
    if forall k :: !FreeBit(ProcessBits(live), k) {
      forall k | k in Below(16) ensures k in ElementsOf(live) {
        assert k == 0 || !FreeBit(ProcessBits(live), k);
        TakenStruct(live, k);
      }
      SubsetCount(Below(16), ElementsOf(live));
      ElementsCount(live);
    }
  }

  lemma TakenPage(reserved: set<nat>, pages: seq<nat>, k: nat)
    requires k < 16 && |pages| > 0 && pages[0] == OS_PAGE && 0 in reserved && (k == 0 || !FreeBit(PageBits(reserved, pages), k))
    ensures k in reserved + ElementsOf(pages[1..])
  {
    if k in pages {
      var i :| 0 <= i < |pages| && pages[i] == k;
      assert pages[1..][i - 1] == k;
    }
  }

  /** Fewer than sixteen pages taken leave one free. */
  lemma RoomForPage(reserved: set<nat>, pages: seq<nat>)
    requires 0 in reserved && |pages| > 0 && pages[0] == OS_PAGE && |reserved| + |pages| - 1 < 16
    ensures exists p :: FreeBit(PageBits(reserved, pages), p)
  {
    var taken := reserved + ElementsOf(pages[1..]);
    if forall p :: !FreeBit(PageBits(reserved, pages), p) {
      forall k | k in Below(16) ensures k in taken {
        assert k == 0 || !FreeBit(PageBits(reserved, pages), k);
        TakenPage(reserved, pages, k);
      }
      SubsetCount(Below(16), taken);
      ElementsCount(pages[1..]);
    }
  }

  /**
   * One call of execute. The caller has written its page as it likes and calls, at SP callAt, with the operand of its
   * CALL at `operand`; the loader uses the stack below. The child runs its own calls, writes its page, and exits.
   */
  datatype Call = Call(before: seq<Poke>, callAt: nat, operand: Word, scratch: seq<Poke>,
                       body: seq<Call>, after: seq<Poke>, exitAt: nat, code: Word)

  /** How deep calls nest. */
  function Depth(body: seq<Call>): nat {
    if body == [] then 0 else
      var first, rest := 1 + Depth(body[0].body), Depth(body[1..]);
      if first > rest then first else rest
  }

  /** The structs of the live processes are as before, but for the SP saved for the newest. */
  predicate StructsAsBefore(live: seq<nat>, table: seq<Process>, after: seq<Process>) {
    && |table| == |after| == 16 && |live| > 0 && (forall i :: 0 <= i < |live| ==> live[i] < 16)
    && (forall i :: 0 <= i < |live| - 1 ==> after[live[i]] == table[live[i]])
    && after[live[|live| - 1]].(sp := 0) == table[live[|live| - 1]].(sp := 0)
  }

  lemma StructsStill(live: seq<nat>, table: seq<Process>, between: seq<Process>, after: seq<Process>)
    requires StructsAsBefore(live, table, between) && StructsAsBefore(live, between, after)
    ensures StructsAsBefore(live, table, after)
  {
  }

  lemma StructsNow(live: seq<nat>, pages: seq<nat>, table: seq<Process>)
    requires Linked(live, pages, table) && |live| > 0
    ensures StructsAsBefore(live, table, table)
  {
  }

  /** Every SP and every write is in its process's page; the loader stays below the word the call has pushed. */
  predicate InPages(body: seq<Call>) {
    forall i :: 0 <= i < |body| ==> CallInPage(body[i]) && InPages(body[i].body)
  }

  predicate CallInPage(call: Call) {
    && 2 <= call.callAt < PAGE_SIZE && EXIT_ROOM <= call.exitAt < PAGE_SIZE
    && Within(call.before, PAGE_SIZE) && Within(call.after, PAGE_SIZE) && Within(call.scratch, call.callAt / 2 * 2)
  }

  lemma {:induction false} DepthOf(body: seq<Call>, i: nat)
    requires i < |body|
    ensures 1 + Depth(body[i].body) <= Depth(body)
  {
    if i > 0 {
      assert body[1..][i - 1] == body[i];
      DepthOf(body[1..], i - 1);
    }
  }

  /** Halted stands for the crash when the page map is full. */
  datatype Status = Done | Halted

  class Os {
    var processMap: Word
    var pageMap: Word
    var current: Word
    var table: seq<Process>
    var sp: Word
    var a: Word
    var ip: Word
    var stacks: Ram
    ghost var live: seq<nat>
    ghost var pages: seq<nat>
    ghost var reserved: set<nat>
    ghost var rets: seq<Word>

    /** The maps are those of the live processes, and the newest of them is running on its own page. */
    ghost predicate Consistent()
      reads this
    {
      && Owned(live, pages, reserved) && Linked(live, pages, table)
      && processMap == Value(ProcessBits(live)) && pageMap == Value(PageBits(reserved, pages))
      && current == StructOf(live[|live| - 1]) && InPage(sp, pages[|pages| - 1])
    }

    /** Every waiting process has its return word on its stack. */
    ghost predicate AllWaiting()
      reads this
    {
      Waiting(live, pages, table, stacks, rets)
    }

    /** The page allocator; a full map halts the machine. */
    method AllocatePage() returns (st: Status, start: Word, ghost k: nat)
      requires PageBits(reserved, pages)[0] && pageMap == Value(PageBits(reserved, pages))
      modifies this`pageMap
      ensures st == Halted <==> forall j :: !FreeBit(PageBits(reserved, pages), j)
      ensures st == Halted ==> pageMap == old(pageMap)
      ensures st == Done ==> FreeBit(PageBits(reserved, pages), k) && start == k * PAGE_SIZE
      ensures st == Done ==> pageMap == Value(PageBits(reserved, pages)[k := true])
    {
      hide Value, Pow2, PageBits;
      ghost var bits := PageBits(reserved, pages);
      start, k := 0, 0;
      FullExactly(bits);
      if pageMap == 0xFFFF {
        assert forall j :: !FreeBit(bits, j);
        return Halted, start, k;
      }
      var mask;
      start, mask, k := Search(pageMap, 0, PAGE_SIZE, bits);
      assert Wrap(0 + k * PAGE_SIZE) == k * PAGE_SIZE;
      MaskFits(bits, k);
      pageMap := pageMap + mask;
      st := Done;
      assert FreeBit(PageBits(reserved, pages), k);
    }

    /**
     * Enters a new process: a page and a struct of its own, the caller's SP saved, the argument at the page's end, the
     * new SP below it, and IP at the page's start. The caller is left waiting with the return word it has pushed.
     */
    method Execute(argv: Word, scratch: seq<Poke>) returns (st: Status)
      requires Consistent() && AllWaiting() && exists k :: FreeBit(ProcessBits(live), k)
      requires CalledIn(sp, pages[|pages| - 1]) && Within(scratch, (sp + 2) % PAGE_SIZE / 2 * 2)
      modifies this
      ensures st == Halted <==> forall p :: !FreeBit(PageBits(old(reserved), old(pages)), p)
      ensures st == Done ==> Consistent() && AllWaiting() && reserved == old(reserved)
      ensures st == Done ==> |live| == |old(live)| + 1 && live[..|old(live)|] == old(live) && pages[..|old(live)|] == old(pages)
      ensures st == Done ==> table == NewStruct(old(table), old(live)[|old(live)| - 1], live[|old(live)|], old(sp))
      ensures st == Done ==>
                var caller, me := old(live)[|old(live)| - 1], live[|old(live)|];
                && |table| == |old(table)| == 16 && caller < 16 && me < 16 && me !in old(live)
                && current == 0xF820 + 0x10 * me && table[me].parent == old(current) == 0xF820 + 0x10 * caller
                && table[me].cwd == old(table)[caller].cwd && table[me].sp == 0
                && table[me].stdout == old(table)[caller].stdout && table[me].stdin == old(table)[caller].stdin
                && table[caller] == old(table)[caller].(sp := old(sp))
                && forall i :: 0 <= i < 16 && i != me && i != caller ==> table[i] == old(table)[i]
      ensures st == Done ==> sp == pages[|old(live)|] * 0x800 + 0x7FC && ip == pages[|old(live)|] * 0x800
      ensures st == Done ==> rets == old(rets) + [PushedWord(old(stacks), old(sp))] && PushedWord(stacks, sp) == argv
      ensures st == Done ==> SameInPages(old(stacks), stacks, old(pages)[..|old(pages)| - 1])
    {
      hide Value, Pow2, PageBits, ProcessBits, Linked, StructOf, SlotOf, NewStruct, Waiting, Read16, SameBut, CalledIn,
        SameInPages, PushedWord, Distinct, InPage, Within, Read16;
      ghost var page;
      var start;
      OwnPage(live, pages, reserved);
      NewestOwnPage(live, pages, reserved);
      WriteOwn(scratch, (sp + 2) % PAGE_SIZE / 2 * 2);
      ReturnWordKept(old(stacks), stacks, pages[|pages| - 1], sp);
      OtherPages(old(stacks), stacks, pages, |pages| - 1);
      PageZeroTaken(reserved, pages);
      ghost var bits := PageBits(reserved, pages);
      assert bits == PageBits(old(reserved), old(pages));
      st, start, page := AllocatePage();
      if st == Halted {
        assert forall p :: !FreeBit(bits, p);
        return;
      }
      ghost var before := stacks;
      FreePage(reserved, pages, page);
      ghost var structs, caller := table, live[|live| - 1];
      TakeStruct(page);
      LiveStructs(live, pages, reserved);
      TableSize(live, pages, table);
      TableSize(old(live), old(pages), old(table));
      Inherited(structs, caller, live[|live| - 1], sp);
      StartProcess(start, argv);
      PagesTwice(old(stacks), before, stacks, old(pages), pages);
    }

    /** The maps are those of the live processes, and the newest of them is the current one. */
    ghost predicate Mapped()
      reads this
    {
      && Owned(live, pages, reserved) && Linked(live, pages, table) && AllWaiting()
      && processMap == Value(ProcessBits(live)) && pageMap == Value(PageBits(reserved, pages))
      && current == StructOf(live[|live| - 1])
    }

    /** The page has been allocated; a struct is taken for it, and the caller waits. */
    method TakeStruct(ghost page: nat)
      requires Owned(live, pages, reserved) && Linked(live, pages, table) && AllWaiting()
      requires processMap == Value(ProcessBits(live)) && exists k :: FreeBit(ProcessBits(live), k)
      requires FreeBit(PageBits(reserved, pages), page) && pageMap == Value(PageBits(reserved, pages)[page := true])
      requires current == StructOf(live[|live| - 1]) && CalledIn(sp, pages[|pages| - 1])
      modifies this`processMap, this`table, this`current, this`live, this`pages, this`rets
      ensures Mapped() && pages == old(pages) + [page] && rets == old(rets) + [PushedWord(stacks, sp)]
      ensures |live| == |old(live)| + 1 && live[..|old(live)|] == old(live)
      ensures table == NewStruct(old(table), old(live)[|old(live)| - 1], live[|old(live)|], sp)
    {
      hide Value, Pow2, PageBits, ProcessBits, Linked, StructOf, SlotOf, NewStruct, Waiting, Read16, CalledIn, PushedWord;
      var ptr, mask;
      ghost var slot;
      ptr, mask, slot := Search(processMap, TABLE_START, STRUCT_SIZE, ProcessBits(live));
      MaskFits(ProcessBits(live), slot);
      processMap := processMap + mask;
      SlotBack(live[|live| - 1]);
      SlotBack(slot);
      FreeSlot(live, slot);
      CalledInPage(sp, pages[|pages| - 1]);
      EnterKeeps(live, pages, reserved, table, sp, slot, page);
      EnterWaiting(live, pages, reserved, table, stacks, rets, sp, slot, page);
      NewProcessBits(live, slot);
      NewPageBits(reserved, pages, page);
      TableSize(live, pages, table);
      FillStruct(ptr);
      rets := rets + [PushedWord(stacks, sp)];
      live, pages := live + [slot], pages + [page];
    }

    /** The new process starts with its argument on its stack. */
    method StartProcess(start: Word, argv: Word)
      requires Mapped() && pages[|pages| - 1] < OS_PAGE && start == pages[|pages| - 1] * PAGE_SIZE
      modifies this`stacks, this`sp, this`ip
      ensures Consistent() && AllWaiting() && sp == start + PAGE_SIZE - 4 && ip == start && PushedWord(stacks, sp) == argv
      ensures SameInPages(old(stacks), stacks, pages[..|pages| - 1])
    {
      hide Value, Pow2, PageBits, ProcessBits, Linked, StructOf, SlotOf, Waiting, Read16, Write16, SameBut, SameInPages;
      ghost var page := pages[|pages| - 1];
      PushedArgument(stacks, page, argv);
      stacks := Write16(stacks, start + PAGE_SIZE - 2, argv);
      sp, ip := start + PAGE_SIZE - 4, start;
      NewestOwnPage(live, pages, reserved);
      OlderPages(live, pages, rets, table, old(stacks));
      WaitingKept(live, pages, table, old(stacks), rets, stacks, page);
      OtherPages(old(stacks), stacks, pages, |pages| - 1);
      InOwnPage(page, PAGE_SIZE - 4);
    }

    /** The running process writes below an offset into its own page. */
    method WriteOwn(pokes: seq<Poke>, limit: nat)
      requires Consistent() && AllWaiting() && Within(pokes, limit) && limit <= PAGE_SIZE
      modifies this`stacks
      ensures Consistent() && AllWaiting() && SameBut(old(stacks), stacks, pages[|pages| - 1], limit)
    {
      hide Value, PageBits, ProcessBits, Linked, StructOf, Waiting, InPage;
      ghost var page := pages[|pages| - 1];
      OwnPage(live, pages, reserved);
      var start := sp / PAGE_SIZE * PAGE_SIZE;
      PageStart(sp, page);
      for i := 0 to |pokes|
        invariant SameBut(old(stacks), stacks, page, limit)
      {
        InOwnPage(page, pokes[i].offset);
        stacks := stacks[start + pokes[i].offset := pokes[i].b];
      }
      NewestOwnPage(live, pages, reserved);
      OlderPages(live, pages, rets, table, old(stacks));
      Widened(old(stacks), stacks, page, limit);
      WaitingKept(live, pages, table, old(stacks), rets, stacks, page);
    }

    /** Makes the struct at `ptr` the current one: parent, directory and redirections come from the caller. */
    method FillStruct(ptr: Word)
      requires |table| == 16 && SlotOf(current) < 16 && SlotOf(ptr) < 16 && SlotOf(current) != SlotOf(ptr)
      requires current == StructOf(SlotOf(current))
      modifies this`table, this`current
      ensures current == ptr && table == NewStruct(old(table), SlotOf(old(current)), SlotOf(ptr), sp)
    {
      hide StructOf;
      var caller, me := SlotOf(current), SlotOf(ptr);
      table := table[me := table[me].(parent := current)];
      current := ptr;
      table := table[me := table[me].(cwd := table[caller].cwd)];
      table := table[me := table[me].(sp := 0)];
      table := table[me := table[me].(stdout := table[caller].stdout)];
      table := table[me := table[me].(stdin := table[caller].stdin)];
      table := table[caller := table[caller].(sp := sp)];
    }

    /**
     * Leaves the running process: its bits are cleared, and its parent goes on behind the call it has made, with the
     * SP it had before and the exit code. There must be room for the words exit pushes before it looks at the page.
     */
    method Exit(code: Word)
      requires Consistent() && AllWaiting() && |live| > 1 && sp % PAGE_SIZE >= EXIT_ROOM
      modifies this
      ensures Consistent() && AllWaiting() && a == code && table == old(table) && reserved == old(reserved)
      ensures live == old(live)[..|old(live)| - 1] && pages == old(pages)[..|old(live)| - 1]
      ensures rets == old(rets)[..|old(rets)| - 1] && ip == Wrap(old(rets)[|old(rets)| - 1] as int + 2)
      ensures sp == table[live[|live| - 1]].sp + 2 && SameInPages(old(stacks), stacks, pages)
    {
      hide Value, Pow2, PageBits, ProcessBits, Waiting, PushedWord, CalledIn, StructOf, SlotOf, Owned, Linked, InPage, Read16,
        SameInPages;
      ghost var n := |live| - 1;
      ParentOf(live, pages, table);
      LeaveKeeps(live, pages, reserved, table);
      SlotBack(live[n]);
      SlotBack(live[n - 1]);
      ClearBits(code);
      LeaveWaiting(live, pages, table, stacks, rets);
      CalledInPage(table[live[n - 1]].sp, pages[n - 1]);
      current := table[SlotOf(current)].parent;
      a := Read16(stacks, sp);
      sp := table[SlotOf(current)].sp;
      ip, sp := Wrap(PushedWord(stacks, sp) + 2), Wrap(sp + 2);
      live, pages, rets := live[..n], pages[..n], rets[..n - 1];
    }

    /**
     * The running process's bits leave the maps. The exit code, the process's bit and the page's bit are pushed; the
     * page is that of the SP below the first two. In the end the SP is back and the exit code on top.
     */
    method ClearBits(code: Word)
      requires Consistent() && AllWaiting() && |live| > 1 && sp % PAGE_SIZE >= EXIT_ROOM
      modifies this`processMap, this`pageMap, this`stacks, this`sp
      ensures processMap == Value(ProcessBits(live[..|live| - 1]))
      ensures pageMap == Value(PageBits(reserved, pages[..|pages| - 1]))
      ensures AllWaiting() && sp == old(sp) && Read16(stacks, sp) == code
      ensures SameInPages(old(stacks), stacks, pages[..|pages| - 1])
    {
      hide Value, Pow2, PageBits, ProcessBits, StructOf, SlotOf, Waiting, Read16, Write16, SameInPages, Linked, SameBut, Distinct;
      ghost var n := |live| - 1;
      LeaveKeeps(live, pages, reserved, table);
      ParentOf(live, pages, table);
      SlotBack(live[n]);
      OwnPage(live, pages, reserved);
      PageOfExit(sp, pages[n]);
      ghost var all, s0 := pages[..n], stacks;
      var processMask := MaskOf(SlotOf(current));
      PushOwn(code);
      ghost var s1 := stacks;
      PushOwn(processMask);
      ghost var s2 := stacks;
      var pageMask := MaskOf(sp / PAGE_SIZE);
      PushOwn(pageMask);
      SameStill(s0, s1, s2, all);
      SameStill(s0, s2, stacks, all);
      MaskFits(PageBits(reserved, pages[..n]), pages[n]);
      MaskFits(ProcessBits(live[..n]), live[n]);
      sp := sp + 2;
      pageMap := pageMap - Read16(stacks, sp);
      sp := sp + 2;
      processMap := processMap - Read16(stacks, sp);
      sp := sp + 2;
    }

    /** The running process pushes a word in its page. */
    method PushOwn(w: Word)
      requires Owned(live, pages, reserved) && AllWaiting() && InPage(sp, pages[|pages| - 1]) && sp >= 2
      modifies this`stacks, this`sp
      ensures AllWaiting() && sp == old(sp) - 2 && Read16(stacks, sp + 2) == w
      ensures SameInPages(old(stacks), stacks, pages[..|pages| - 1])
      ensures forall at: Word :: at / 2 != old(sp) / 2 ==> Read16(stacks, at) == Read16(old(stacks), at)
    {
      hide Waiting, Read16, Write16, SameInPages, SameBut;
      ghost var page := pages[|pages| - 1];
      WordWritten(stacks, sp, w);
      forall at: Word | at / 2 != sp / 2 ensures Read16(Write16(stacks, sp, w), at) == Read16(stacks, at) {
        OtherWord(stacks, sp, w, at);
      }
      stacks, sp := Write16(stacks, sp, w), sp - 2;
      NewestOwnPage(live, pages, reserved);
      OlderPages(live, pages, rets, table, old(stacks));
      WaitingKept(live, pages, table, old(stacks), rets, stacks, page);
      OtherPages(old(stacks), stacks, pages, |pages| - 1);
    }

    /**
     * Any nesting of processes: after a run of calls the maps, the live processes and their structs are as before, no
     * page of a waiting process has been written, and each call has come back to its caller: behind the operand of its
     * CALL, with the exit code in A and the SP it had before.
     */
    method Run(body: seq<Call>) returns (ghost log: seq<(Word, int, Word)>)
      requires Consistent() && AllWaiting() && InPages(body)
      requires |live| + Depth(body) <= 16 && |reserved| + |live| - 1 + Depth(body) <= 16
      modifies this
      ensures Consistent() && AllWaiting() && live == old(live) && pages == old(pages) && reserved == old(reserved)
      ensures rets == old(rets) && SameInPages(old(stacks), stacks, pages[..|pages| - 1])
      ensures processMap == old(processMap) && pageMap == old(pageMap) && current == old(current)
      ensures StructsAsBefore(live, old(table), table)
      ensures |log| == |body|
      ensures forall i :: 0 <= i < |body| ==>
                log[i] == (body[i].code, pages[|pages| - 1] * PAGE_SIZE + body[i].callAt, Wrap(body[i].operand + 2))
      decreases body
    {
      hide Waiting, SameInPages, CallInPage, StructsAsBefore, Linked, PageBits, ProcessBits, Value, Distinct, StructOf,
        InPage, Depth;
      log := [];
      StructsNow(live, pages, table);
      SameAsBefore(stacks, pages[..|pages| - 1]);
      for i := 0 to |body|
        invariant Consistent() && AllWaiting() && live == old(live) && pages == old(pages) && reserved == old(reserved)
        invariant rets == old(rets) && SameInPages(old(stacks), stacks, pages[..|pages| - 1])
        invariant StructsAsBefore(live, old(table), table)
        invariant |log| == i
        invariant forall k :: 0 <= k < i ==>
                    log[k] == (body[k].code, pages[|pages| - 1] * PAGE_SIZE + body[k].callAt, Wrap(body[k].operand + 2))
      {
        DepthOf(body, i);
        ghost var before, structs := stacks, table;
        RunOne(body[i]);
        StructsStill(live, old(table), structs, table);
        SameStill(old(stacks), before, stacks, pages[..|pages| - 1]);
        log := log + [(a, sp, ip)];
      }
    }

    /** One call, from the caller's SP at the call to its return. */
    method RunOne(call: Call)
      requires Consistent() && AllWaiting() && CallInPage(call) && InPages(call.body)
      requires |live| + 1 + Depth(call.body) <= 16 && |reserved| + |live| + Depth(call.body) <= 16
      modifies this
      ensures Consistent() && AllWaiting() && live == old(live) && pages == old(pages) && reserved == old(reserved)
      ensures rets == old(rets) && SameInPages(old(stacks), stacks, pages[..|pages| - 1])
      ensures StructsAsBefore(live, old(table), table)
      ensures a == call.code && sp == pages[|pages| - 1] * PAGE_SIZE + call.callAt && ip == Wrap(call.operand + 2)
      decreases call
    {
      hide Value, PageBits, ProcessBits, StructOf, InPage, Linked, Waiting, Read16, SameInPages, SameBut;
      ghost var n := |live|;
      TableSize(live, pages, table);
      OwnPage(live, pages, reserved);
      CallExecute(call);
      RoomForProcess(live);
      RoomForPage(reserved, pages);
      ghost var atCall, stacks1 := sp, stacks;
      var st := Execute(a, call.scratch);
      ghost var inner, stacks2 := live, stacks;
      Nested(inner, old(live), pages, old(pages));
      StructsKept(inner, old(table), atCall);
      var log := Run(call.body);
      ghost var stacks3 := stacks;
      WriteOwn(call.after, PAGE_SIZE);
      MoveStack(call.exitAt);
      ghost var all, stacks4 := pages, stacks;
      OtherPages(stacks3, stacks4, all, n);
      Exit(call.code);
      SameStill(stacks3, stacks4, stacks, all[..n]);
      PagesFour(old(stacks), stacks1, stacks2, stacks3, stacks, old(pages), all);
    }

    /** The caller writes its page, has its SP at callAt, and calls: the operand's address is pushed. */
    method CallExecute(call: Call)
      requires Consistent() && AllWaiting() && CallInPage(call)
      modifies this`stacks, this`sp
      ensures Consistent() && AllWaiting() && sp + 2 == pages[|pages| - 1] * PAGE_SIZE + call.callAt
      ensures CalledIn(sp, pages[|pages| - 1]) && Within(call.scratch, (sp + 2) % PAGE_SIZE / 2 * 2)
      ensures PushedWord(stacks, sp) == call.operand && SameInPages(old(stacks), stacks, pages[..|pages| - 1])
    {
      hide Value, PageBits, ProcessBits, StructOf, InPage, Linked, Waiting, Read16, Write16, SameInPages, SameBut, Within;
      ghost var page := pages[|pages| - 1];
      WriteOwn(call.before, PAGE_SIZE);
      MoveStack(call.callAt);
      OwnPage(live, pages, reserved);
      ghost var before := stacks;
      PushedInPage(stacks, page, call.callAt, call.operand);
      stacks, sp := Write16(stacks, sp, call.operand), sp - 2;
      NewestOwnPage(live, pages, reserved);
      OlderPages(live, pages, rets, table, before);
      WaitingKept(live, pages, table, before, rets, stacks, page);
      OtherPages(old(stacks), before, pages, |pages| - 1);
      OtherPages(before, stacks, pages, |pages| - 1);
      SameStill(old(stacks), before, stacks, pages[..|pages| - 1]);
    }

    /** The running process uses its stack, which stays in its page. */
    method MoveStack(offset: nat)
      requires Consistent() && offset < PAGE_SIZE
      modifies this`sp
      ensures Consistent() && sp == pages[|pages| - 1] * PAGE_SIZE + offset && sp % PAGE_SIZE == offset
    {
      hide Value, PageBits, ProcessBits, Linked, StructOf;
      OwnPage(live, pages, reserved);
      InItsPage(pages[|pages| - 1], offset);
      sp := sp / PAGE_SIZE * PAGE_SIZE + offset;
    }
  }

  lemma Nested(live: seq<nat>, live0: seq<nat>, pages: seq<nat>, pages0: seq<nat>)
    requires |live| == |pages| == |live0| + 1 == |pages0| + 1
    requires live[..|live0|] == live0 && pages[..|pages0|] == pages0
    ensures forall i :: 0 <= i < |live0| ==> live[i] == live0[i]
    ensures |pages0| > 0 ==> pages[|pages0| - 1] == pages0[|pages0| - 1]
  {
    forall i | 0 <= i < |live0| ensures live[i] == live0[i] { assert live[..|live0|][i] == live0[i]; }
    if |pages0| > 0 { assert pages[..|pages0|][|pages0| - 1] == pages0[|pages0| - 1]; }
  }

  /** Entering the last of the live processes changes its own struct and its caller's SP only. */
  lemma StructsKept(live: seq<nat>, table: seq<Process>, sp: Word)
    requires |table| == 16 && |live| > 1 && Distinct(live) && forall i :: 0 <= i < |live| ==> live[i] < 16
    ensures var n := |live| - 1;
            var after := NewStruct(table, live[n - 1], live[n], sp);
            && (forall i :: 0 <= i < n - 1 ==> after[live[i]] == table[live[i]])
            && after[live[n - 1]] == table[live[n - 1]].(sp := sp)
  {
    hide StructOf;
  }

  lemma PageZeroTaken(reserved: set<nat>, pages: seq<nat>)
    requires 0 in reserved
    ensures PageBits(reserved, pages)[0]
  {
  }

  lemma TableSize(live: seq<nat>, pages: seq<nat>, table: seq<Process>)
    requires Linked(live, pages, table)
    ensures |table| == 16
  {
  }

  lemma FreePage(reserved: set<nat>, pages: seq<nat>, page: nat)
    requires FreeBit(PageBits(reserved, pages), page)
    ensures page < 16
  {
  }

  lemma FreeSlot(live: seq<nat>, slot: nat)
    requires FreeBit(ProcessBits(live), slot) && |live| > 0
    ensures slot < 16 && slot !in live && slot != live[|live| - 1]
  {
  }

  lemma CalledInPage(sp: Word, page: nat)
    requires CalledIn(sp, page)
    ensures InPage(sp, page) && sp + 2 < 0x1_0000 && InPage(sp + 2, page)
  {
  }

  lemma LeaveWaiting(live: seq<nat>, pages: seq<nat>, table: seq<Process>, stacks: Ram, rets: seq<Word>)
    requires Waiting(live, pages, table, stacks, rets) && |live| > 1
    ensures var n := |live| - 1;
            && Waiting(live[..n], pages[..n], table, stacks, rets[..n - 1]) && |rets| == n && live[n - 1] < |table|
            && CalledIn(table[live[n - 1]].sp, pages[n - 1]) && PushedWord(stacks, table[live[n - 1]].sp) == rets[n - 1]
  {
    hide PushedWord, CalledIn;
  }

  lemma InItsPage(page: nat, offset: nat)
    requires page <= OS_PAGE && offset < PAGE_SIZE
    ensures page * PAGE_SIZE + offset < 0x1_0000 && InPage(page * PAGE_SIZE + offset, page)
    ensures (page * PAGE_SIZE + offset) % PAGE_SIZE == offset
  {
  }

  lemma OwnPage(live: seq<nat>, pages: seq<nat>, reserved: set<nat>)
    requires Owned(live, pages, reserved)
    ensures pages[|pages| - 1] <= OS_PAGE
  {
  }

  // ---------- pages apart ----------

  /** The pages listed are as they were. */
  predicate SameInPages(stacks: Ram, after: Ram, pages: seq<nat>) {
    forall i :: 0 <= i < 0x1_0000 && i / PAGE_SIZE in pages ==> after[i] == stacks[i]
  }

  lemma SameAsBefore(stacks: Ram, pages: seq<nat>)
    ensures SameInPages(stacks, stacks, pages)
  {
  }

  lemma SameStill(stacks: Ram, between: Ram, after: Ram, pages: seq<nat>)
    requires SameInPages(stacks, between, pages) && SameInPages(between, after, pages)
    ensures SameInPages(stacks, after, pages)
  {
  }

  lemma FewerPages(stacks: Ram, after: Ram, pages: seq<nat>, fewer: seq<nat>)
    requires SameInPages(stacks, after, pages) && forall p :: p in fewer ==> p in pages
    ensures SameInPages(stacks, after, fewer)
  {
  }

  /** Writes in the page at n leave the pages before it. */
  lemma OtherPages(stacks: Ram, after: Ram, pages: seq<nat>, n: nat)
    requires n < |pages| && Distinct(pages) && exists limit :: SameBut(stacks, after, pages[n], limit)
    ensures SameInPages(stacks, after, pages[..n])
  {
    var limit :| SameBut(stacks, after, pages[n], limit);
    forall i | 0 <= i < 0x1_0000 && i / PAGE_SIZE in pages[..n] ensures after[i] == stacks[i] {
      var k :| 0 <= k < n && pages[..n][k] == i / PAGE_SIZE;
      assert pages[k] != pages[n];
    }
  }

  lemma PagesTwice(stacks: Ram, between: Ram, after: Ram, pages: seq<nat>, all: seq<nat>)
    requires |all| == |pages| + 1 && all[..|pages|] == pages && |pages| > 0
    requires SameInPages(stacks, between, pages[..|pages| - 1]) && SameInPages(between, after, all[..|all| - 1])
    ensures SameInPages(stacks, after, pages[..|pages| - 1])
  {
    hide SameInPages;
    FewerPages(between, after, all[..|all| - 1], pages[..|pages| - 1]);
    SameStill(stacks, between, after, pages[..|pages| - 1]);
  }

  lemma PagesFour(s0: Ram, s1: Ram, s2: Ram, s3: Ram, s4: Ram, pages: seq<nat>, all: seq<nat>)
    requires |all| == |pages| + 1 && all[..|pages|] == pages && |pages| > 0
    requires SameInPages(s0, s1, pages[..|pages| - 1]) && SameInPages(s1, s2, pages[..|pages| - 1])
    requires SameInPages(s2, s3, all[..|all| - 1]) && SameInPages(s3, s4, all[..|pages|])
    ensures SameInPages(s0, s4, pages[..|pages| - 1])
  {
    hide SameInPages;
    var few := pages[..|pages| - 1];
    FewerPages(s2, s3, all[..|all| - 1], few);
    FewerPages(s3, s4, all[..|pages|], few);
    SameStill(s0, s1, s2, few);
    SameStill(s0, s2, s3, few);
    SameStill(s0, s3, s4, few);
  }

  lemma Widened(stacks: Ram, after: Ram, page: nat, limit: nat)
    requires SameBut(stacks, after, page, limit) && limit <= PAGE_SIZE
    ensures SameBut(stacks, after, page, PAGE_SIZE)
  {
  }

  lemma PageStart(sp: Word, page: nat)
    requires InPage(sp, page)
    ensures sp / PAGE_SIZE * PAGE_SIZE == page * PAGE_SIZE
  {
  }

  lemma InOwnPage(page: nat, offset: nat)
    requires page <= OS_PAGE && offset < PAGE_SIZE
    ensures page * PAGE_SIZE + offset < 0x1_0000
    ensures (page * PAGE_SIZE + offset) / PAGE_SIZE == page && (page * PAGE_SIZE + offset) % PAGE_SIZE == offset
  {
  }

  /** Nobody else owns the newest process's page. */
  lemma NewestOwnPage(live: seq<nat>, pages: seq<nat>, reserved: set<nat>)
    requires Owned(live, pages, reserved)
    ensures forall i :: 0 <= i < |pages| - 1 ==> pages[i] != pages[|pages| - 1]
    ensures Distinct(pages) && |live| == |pages| > 0
  {
  }

  lemma OlderPages(live: seq<nat>, pages: seq<nat>, rets: seq<Word>, table: seq<Process>, stacks: Ram)
    requires Waiting(live, pages, table, stacks, rets)
    ensures |rets| == |pages| - 1
  {
  }

  /** Writing a word into a page. */
  lemma WordWritten(stacks: Ram, at: Word, w: Word)
    ensures Read16(Write16(stacks, at, w), at) == w
    ensures SameBut(stacks, Write16(stacks, at, w), at / PAGE_SIZE, PAGE_SIZE)
  {
    BytesRoundTrip(w);
    assert at / 2 * 2 / PAGE_SIZE == at / PAGE_SIZE && (at / 2 * 2 + 1) / PAGE_SIZE == at / PAGE_SIZE;
  }

  lemma PushedInPage(stacks: Ram, page: nat, callAt: nat, w: Word)
    requires page <= OS_PAGE && 2 <= callAt < PAGE_SIZE
    ensures var at := page * PAGE_SIZE + callAt;
            && at < 0x1_0000 && CalledIn(at - 2, page) && at % PAGE_SIZE == callAt
            && PushedWord(Write16(stacks, at, w), at - 2) == w
            && SameBut(stacks, Write16(stacks, at, w), page, PAGE_SIZE)
  {
    hide Read16, Write16;
    InOwnPage(page, callAt);
    InOwnPage(page, callAt - 2);
    WordWritten(stacks, page * PAGE_SIZE + callAt, w);
  }

  lemma PushedArgument(stacks: Ram, page: nat, argv: Word)
    requires page <= OS_PAGE
    ensures var at := page * PAGE_SIZE + PAGE_SIZE - 2;
            && at < 0x1_0000 && PushedWord(Write16(stacks, at, argv), at - 2) == argv
            && SameBut(stacks, Write16(stacks, at, argv), page, PAGE_SIZE)
  {
    hide Read16, Write16;
    PushedInPage(stacks, page, PAGE_SIZE - 2, argv);
  }

  lemma OtherWord(stacks: Ram, at: Word, w: Word, other: Word)
    requires at / 2 != other / 2
    ensures Read16(Write16(stacks, at, w), other) == Read16(stacks, other)
  {
  }

  lemma PageOfExit(sp: Word, page: nat)
    requires InPage(sp, page) && sp % PAGE_SIZE >= EXIT_ROOM
    ensures sp >= 4 && InPage(sp - 2, page) && InPage(sp - 4, page)
  {
  }

  /**
   * Exit clears the bit of the process's own page exactly when the SP leaves room in the page for the two words pushed
   * before; otherwise it clears the bit of the page below.
   */
  lemma OwnBitClearedIff(sp: Word, page: nat)
    requires InPage(sp, page) && 2 <= page < 16
    ensures 1 <= Wrap(sp - 4) / 0x800 < 16
    ensures Pow2(15 - Wrap(sp - 4) / 0x800) == Pow2(15 - page) <==> sp % 0x800 >= 4
    ensures sp % 0x800 < 4 ==> Wrap(sp - 4) / 0x800 == page - 1
  {
    assert Pow2(15 - (page - 1)) == 2 * Pow2(15 - page);
  }

  /** At offset 2 of page 3 the bit of page 2 is cleared instead. */
  lemma WrongPageCleared(bits: seq<bool>)
    requires |bits| == 16 && bits[2] && bits[3]
    ensures Value(bits) - Pow2(15 - Wrap(3 * 0x800 + 2 - 4) / 0x800) == Value(bits[2 := false])
    ensures Value(bits[2 := false]) != Value(bits[3 := false])
  {
    hide Value, Pow2;
    assert bits[2 := false][2 := true] == bits && bits[3 := false][3 := true] == bits;
    MaskFits(bits[2 := false], 2);
    MaskFits(bits[3 := false], 3);
    OwnBitClearedIff(3 * PAGE_SIZE + 2, 3);
  }

  lemma ReturnWordKept(stacks: Ram, after: Ram, page: nat, sp: Word)
    requires CalledIn(sp, page) && SameBut(stacks, after, page, (sp + 2) % PAGE_SIZE / 2 * 2)
    ensures PushedWord(after, sp) == PushedWord(stacks, sp)
  {
    hide Read16;
    WordKept(stacks, after, page, (sp + 2) % PAGE_SIZE / 2 * 2, sp + 2);
  }

  /** The caller joins the waiting processes. */
  lemma EnterWaiting(live: seq<nat>, pages: seq<nat>, reserved: set<nat>, table: seq<Process>, stacks: Ram, rets: seq<Word>,
                     sp: Word, slot: nat, page: nat)
    requires Owned(live, pages, reserved) && Waiting(live, pages, table, stacks, rets)
    requires CalledIn(sp, pages[|pages| - 1]) && slot < 16 && slot !in live
    ensures Waiting(live + [slot], pages + [page], NewStruct(table, live[|live| - 1], slot, sp), stacks,
                    rets + [PushedWord(stacks, sp)])
  {
    hide PushedWord, CalledIn, StructOf;
    var caller := live[|live| - 1];
    var table' := NewStruct(table, caller, slot, sp);
    forall i | 0 <= i < |rets| ensures table'[live[i]].sp == table[live[i]].sp {
      assert live[i] != caller && live[i] != slot;
    }
  }
}
