/** The stack-depth analysis: a depth-first walk over the control flow of a program. */
module StackDepth {
  import opened Words
  import opened Assembly
  import opened Instructions

  const MAX_CODE_SIZE := 4096

  /** The program, its labels with their nodes, and the node at each code position (-1 where none starts). */
  datatype Context = Context(nodes: Program, labels: seq<string>, labelNodes: seq<int>, ipNodes: seq<int>)

  /** Label tables of one length, a full position table, and operands on every jump and call. */
  predicate Loaded(c: Context) {
    && |c.labels| == |c.labelNodes| && |c.ipNodes| == MAX_CODE_SIZE
    && forall i :: 0 <= i < |c.nodes| && IsInst(c.nodes[i]) && IsJumpOrCall(c.nodes[i].op) ==>
         c.nodes[i].InstHex2? || c.nodes[i].InstLabel? || c.nodes[i].InstRelLabel?
  }

  predicate IsInst(bc: Bytecode) {
    bc.Inst? || bc.InstHex? || bc.InstHex2? || bc.InstLabel? || bc.InstRelLabel?
  }

  predicate IsConditional(op: int) {
    op == JMPRZ || op == JMPRN || op == JMPRC || op == JMPRNZ || op == JMPRNN || op == JMPRNC
  }

  predicate IsCall(op: int) {
    op == CALL || op == CALLR
  }

  predicate IsJumpOrCall(op: int) {
    op == JMP || op == JMPR || IsConditional(op) || IsCall(op)
  }

  function SearchLabel(labels: seq<string>, labelNodes: seq<int>, name: string): int
    requires |labels| == |labelNodes|
  {
    if labels == [] then -1
    else if labels[0] == name then labelNodes[0]
    else SearchLabel(labels[1..], labelNodes[1..], name)
  }

  /** The first code position of a node, or -1. */
  function PositionOf(ipNodes: seq<int>, i: int): (j: int)
    ensures -1 <= j < |ipNodes|
  {
    if ipNodes == [] then -1
    else if ipNodes[0] == i then 0
    else
      var j := PositionOf(ipNodes[1..], i);
      if j == -1 then -1 else j + 1
  }

  /** The node found is that of the first label of the name, -1 for lack of one. */
  lemma {:induction false} SearchFinds(labels: seq<string>, labelNodes: seq<int>, name: string, k: nat)
    requires |labels| == |labelNodes| && k <= |labels| && (k < |labels| ==> labels[k] == name)
    requires forall j :: 0 <= j < k ==> labels[j] != name
    ensures SearchLabel(labels, labelNodes, name) == if k < |labels| then labelNodes[k] else -1
  {
    if k > 0 { SearchFinds(labels[1..], labelNodes[1..], name, k - 1); }
  }

  /** The position found is the first one the node starts at, -1 for lack of one. */
  lemma {:induction false} PositionFinds(ipNodes: seq<int>, i: int, k: nat)
    requires k <= |ipNodes| && (k < |ipNodes| ==> ipNodes[k] == i) && forall j :: 0 <= j < k ==> ipNodes[j] != i
    ensures PositionOf(ipNodes, i) == if k < |ipNodes| then k else -1
  {
    if k > 0 { PositionFinds(ipNodes[1..], i, k - 1); }
  }

  /** Where a jump or call goes; a numeric operand goes through the code positions, as the analyzer has them. */
  function JumpNode(c: Context, i: nat): int
    requires Loaded(c) && i < |c.nodes| && IsInst(c.nodes[i]) && IsJumpOrCall(c.nodes[i].op)
  {
    match c.nodes[i]
    case InstHex2(op, num) =>
      var at := PositionOf(c.ipNodes, i);
      var to := at + 1 + (if num >= 0x8000 then num - 0x1_0000 else num);
      if op != JMP && op != CALL && 0 <= to < MAX_CODE_SIZE then c.ipNodes[to] else at
    case InstLabel(_, name) => SearchLabel(c.labels, c.labelNodes, name)
    case InstRelLabel(_, name) => SearchLabel(c.labels, c.labelNodes, name)
  }

  /** Successors of a node (-1 for none), the words it pushes or pops in bytes, and whether its branch is a call. */
  datatype Flow = Flow(next: int, branch: int, change: int, call: bool)

  function FlowOf(c: Context, i: nat): Flow
    requires Loaded(c) && i < |c.nodes|
  {
    var bc := c.nodes[i];
    if bc.SetLabel? then Flow(i + 1, -1, 0, false)
    else if !IsInst(bc) then Flow(-1, -1, 0, false)
    else if bc.op == RET || bc.op == HLT || bc.op == JMPA || bc.op == JMPAR then Flow(-1, -1, 0, false)
    else if bc == InstLabel(CALL, "exit") then Flow(-1, -1, 0, false)
    else if IsConditional(bc.op) || IsCall(bc.op) then Flow(i + 1, JumpNode(c, i), 0, IsCall(bc.op))
    else if IsJumpOrCall(bc.op) then Flow(JumpNode(c, i), -1, 0, false)
    else if bc.op == PUSHA || bc.op == PUSHB || bc.op == DECSP then Flow(i + 1, -1, 2, false)
    else if bc.op == POPA || bc.op == POPB || bc.op == INCSP then Flow(i + 1, -1, -2, false)
    else if 59 <= bc.op < HLT then Flow(-1, -1, 0, false)
    else Flow(i + 1, -1, 0, false)
  }

  // ---------- walks ----------

  /** A node reached with a stack depth. */
  datatype Visit = Visit(node: int, depth: int)

  function AlongNext(c: Context, v: Visit): Visit
    requires Loaded(c) && 0 <= v.node < |c.nodes|
  {
    Visit(FlowOf(c, v.node).next, v.depth + FlowOf(c, v.node).change)
  }

  /** A callee starts at depth zero. */
  function AlongBranch(c: Context, v: Visit): Visit
    requires Loaded(c) && 0 <= v.node < |c.nodes|
  {
    var f := FlowOf(c, v.node);
    Visit(f.branch, if f.call then 0 else v.depth + f.change)
  }

  /** There is a walk of n edges over the program's nodes. */
  predicate Walk(c: Context, v: Visit, n: nat, w: Visit)
    requires Loaded(c)
    decreases n
  {
    0 <= v.node < |c.nodes| &&
    if n == 0 then v == w
    else Walk(c, AlongNext(c, v), n - 1, w) || Walk(c, AlongBranch(c, v), n - 1, w)
  }

  ghost predicate Reachable(c: Context, v: Visit, w: Visit)
    requires Loaded(c)
  {
    exists n: nat :: Walk(c, v, n, w)
  }

  lemma ReachableStart(c: Context, v: Visit)
    requires Loaded(c) && 0 <= v.node < |c.nodes|
    ensures Reachable(c, v, v)
  {
    assert Walk(c, v, 0, v);
  }

  lemma ReachableFirst(c: Context, v: Visit, w: Visit)
    requires Loaded(c) && 0 <= v.node < |c.nodes|
    requires Reachable(c, AlongNext(c, v), w) || Reachable(c, AlongBranch(c, v), w)
    ensures Reachable(c, v, w)
  {
    if Reachable(c, AlongNext(c, v), w) {
      var n: nat :| Walk(c, AlongNext(c, v), n, w);
      assert Walk(c, v, n + 1, w);
    } else {
      var n: nat :| Walk(c, AlongBranch(c, v), n, w);
      assert Walk(c, v, n + 1, w);
    }
  }

  // ---------- the analysis ----------

  datatype Warning = BadReturn(node: int) | BadPeek(node: int) | Stray(node: int) | Negative(node: int) | NoNode(node: int)

  predicate PeeksTooDeep(bc: Bytecode, depth: int) {
    IsInst(bc) &&
    ((bc.InstHex? && (bc.op == PEEKAR || bc.op == PUSHAR) && depth < bc.num)
     || ((bc.op == PEEKAR || bc.op == PUSHAR || bc.op == PEEKA || bc.op == PEEKB) && depth < 2))
  }

  /** The warnings due for going to a node with a depth. */
  function ArrivalWarnings(c: Context, v: Visit): set<Warning> {
    (if v.depth < 0 then {Negative(v.node)} else {}) + (if 0 <= v.node < |c.nodes| then {} else {NoNode(v.node)})
  }

  /** Those due for leaving a node recorded with a depth. */
  function DepartureWarnings(c: Context, v: Visit): set<Warning>
    requires Loaded(c) && 0 <= v.node < |c.nodes|
  {
    var f := FlowOf(c, v.node);
    (if f.next != -1 then ArrivalWarnings(c, AlongNext(c, v)) else {})
    + (if f.branch != -1 then ArrivalWarnings(c, AlongBranch(c, v)) else {})
  }

  predicate OnTheWay(w: Warning) {
    w.Negative? || w.NoNode?
  }

  /** Some node that is new has the warning due for leaving it. */
  predicate DueAfter(c: Context, w: Warning, visited: seq<bool>, visited': seq<bool>, depth: seq<int>)
    requires Loaded(c) && |visited| == |visited'| == |depth| == |c.nodes|
  {
    exists j :: 0 <= j < |c.nodes| && visited'[j] && !visited[j] && w in DepartureWarnings(c, Visit(j, depth[j]))
  }

  /** The warnings on the way are those before, those of some arrivals, and those of leaving the nodes that are new. */
  ghost predicate Noted(c: Context, before: set<Warning>, arrivals: set<Warning>, after: set<Warning>,
                        visited: seq<bool>, visited': seq<bool>, depth: seq<int>)
    requires Loaded(c) && |visited| == |visited'| == |depth| == |c.nodes|
  {
    forall w :: OnTheWay(w) ==>
      (w in after <==> w in before || w in arrivals || DueAfter(c, w, visited, visited', depth))
  }

  /** A warning due for starting at an entry point or leaving a visited node. */
  predicate Due(c: Context, entries: seq<int>, w: Warning, visited: seq<bool>, depth: seq<int>)
    requires Loaded(c) && |visited| == |depth| == |c.nodes|
  {
    || (exists e :: e in entries && w in ArrivalWarnings(c, Visit(e, 0)))
    || (exists j :: 0 <= j < |c.nodes| && visited[j] && w in DepartureWarnings(c, Visit(j, depth[j])))
  }

  class Analyzer {
    const c: Context
    var visited: seq<bool>
    var depth: seq<int>
    var warnings: set<Warning>

    ghost predicate Valid()
      reads this
    {
      Loaded(c) && |visited| == |depth| == |c.nodes|
    }

    constructor (c: Context)
      requires Loaded(c)
      ensures Valid() && this.c == c && warnings == {}
      ensures forall i :: 0 <= i < |visited| ==> !visited[i]
    {
      this.c := c;
      visited, depth, warnings := seq(|c.nodes|, _ => false), seq(|c.nodes|, _ => 0), {};
    }

    /** The warnings that depend on a visited node and its depth are exactly those that apply. */
    ghost predicate Warned()
      reads this
      requires Valid()
    {
      forall i :: 0 <= i < |c.nodes| ==>
        && (BadReturn(i) in warnings <==> visited[i] && IsInst(c.nodes[i]) && c.nodes[i].op == RET && depth[i] != 0)
        && (BadPeek(i) in warnings <==> visited[i] && PeeksTooDeep(c.nodes[i], depth[i]))
        && (Stray(i) in warnings <==> visited[i] && !IsInst(c.nodes[i]) && !c.nodes[i].SetLabel?)
    }

    /** Records a node with its depth and the warnings it deserves. */
    method Record(i: int, sp: int)
      requires Valid() && 0 <= i < |c.nodes| && !visited[i]
      modifies this
      ensures Valid() && visited == old(visited)[i := true] && depth == old(depth)[i := sp]
      ensures old(Warned()) ==> Warned()
      ensures forall w :: OnTheWay(w) ==> (w in warnings <==> w in old(warnings))
    {
      var bc := c.nodes[i];
      visited := visited[i := true];
      depth := depth[i := sp];
      if !IsInst(bc) {
        if !bc.SetLabel? { warnings := warnings + {Stray(i)}; }
      } else if bc.op == RET {
        if sp != 0 { warnings := warnings + {BadReturn(i)}; }
      } else if PeeksTooDeep(bc, sp) {
        warnings := warnings + {BadPeek(i)};
      }
    }

    /** The depth-first walk from a node with a depth. */
    method Path(i: int, sp: int)
      requires Valid()
      modifies this
      ensures Valid() && (old(Warned()) ==> Warned())
      ensures Extends(old(visited), old(depth), visited, depth)
      ensures 0 <= i < |visited| ==> visited[i]
      ensures AllReachable(c, Visit(i, sp), old(visited), visited, depth)
      ensures Closed(c, old(visited), visited)
      ensures Noted(c, old(warnings), ArrivalWarnings(c, Visit(i, sp)), warnings, old(visited), visited, depth)
      decreases |Unseen(visited)|
    {
      hide Warned, FlowOf, Loaded, Reachable, ArrivalWarnings, Noted, OnTheWay, Closed, AllReachable, DueAfter, Unseen, PeeksTooDeep,
        IsInst;
      Arrive(i, sp);
      NothingNew(c, Visit(i, sp), old(warnings), ArrivalWarnings(c, Visit(i, sp)), visited, depth);
      if !(0 <= i < |c.nodes|) || visited[i] { return; }
      ghost var warnings0, visited0, depth0 := warnings, visited, depth;
      Record(i, sp);
      FewerUnseen(visited0, visited, i);
      ReachableStart(c, Visit(i, sp));
      ghost var warnings1, visited1, depth1 := warnings, visited, depth;
      NothingNew(c, Visit(i, sp), warnings1, {}, visited, depth);
      var f := FlowOf(c, i);
      ghost var nexts := if f.next != -1 then ArrivalWarnings(c, AlongNext(c, Visit(i, sp))) else {};
      if f.next != -1 {
        Path(f.next, sp + f.change);
        ThroughNext(c, Visit(i, sp), visited1, visited, depth);
        NoMoreUnseen(visited1, visited);
      }
      ghost var warnings2, visited2, depth2 := warnings, visited, depth;
      NothingNew(c, Visit(i, sp), warnings2, {}, visited, depth);
      ghost var branches := if f.branch != -1 then ArrivalWarnings(c, AlongBranch(c, Visit(i, sp))) else {};
      if f.branch != -1 {
        BranchUnchanged(c, i);
        Path(f.branch, if f.call then 0 else sp);
        ThroughBranch(c, Visit(i, sp), visited2, visited, depth);
      }
      AllTogether(c, Visit(i, sp), visited0, depth0, visited1, depth1, visited2, depth2, visited, depth);
      AllNoted(c, Visit(i, sp), old(warnings), warnings0, warnings1, warnings2, warnings, nexts, branches,
               visited0, visited1, visited2, depth2, visited, depth);
    }

    /** The warnings due for going to a node. */
    method Arrive(i: int, sp: int)
      requires Valid()
      modifies this`warnings
      ensures Valid() && (old(Warned()) ==> Warned())
      ensures warnings == old(warnings) + ArrivalWarnings(c, Visit(i, sp))
    {
      if sp < 0 { warnings := warnings + {Negative(i)}; }
      if !(0 <= i < |c.nodes|) { warnings := warnings + {NoNode(i)}; }
    }

    /** The analysis: a walk from every entry point at depth zero. */
    method Connect(entries: seq<int>)
      requires Valid() && warnings == {} && forall i :: 0 <= i < |visited| ==> !visited[i]
      modifies this
      ensures Valid() && Warned() && Closed(c, old(visited), visited)
      ensures forall w :: OnTheWay(w) ==> (w in warnings <==> Due(c, entries, w, visited, depth))
      ensures forall e :: e in entries && 0 <= e < |c.nodes| ==> visited[e]
      ensures forall j :: 0 <= j < |c.nodes| ==> (visited[j] <==> exists e, d :: e in entries && Reachable(c, Visit(e, 0), Visit(j, d)))
      ensures forall j :: 0 <= j < |c.nodes| && visited[j] ==> exists e :: e in entries && Reachable(c, Visit(e, 0), Visit(j, depth[j]))
    {
      hide FlowOf, Loaded, Reachable, Due, Noted, OnTheWay, ArrivalWarnings;
      ghost var none := visited;
      ClosedStart(c, none);
      NoneDue(c, none, depth);
      assert entries[..0] == [];
      for k := 0 to |entries|
        invariant Valid() && Warned() && Closed(c, none, visited)
        invariant forall w :: OnTheWay(w) ==> (w in warnings <==> Due(c, entries[..k], w, visited, depth))
        invariant forall j :: 0 <= j < k && 0 <= entries[j] < |visited| ==> visited[entries[j]]
        invariant forall j :: 0 <= j < |c.nodes| && visited[j] ==> exists e :: e in entries && Reachable(c, Visit(e, 0), Visit(j, depth[j]))
      {
        ghost var before, depths, noted := visited, depth, warnings;
        Path(entries[k], 0);
        DueMore(c, entries, k, noted, warnings, before, depths, visited, depth);
        ClosedMore(c, none, before, visited);
        forall j | 0 <= j < |c.nodes| && visited[j]
          ensures exists e :: e in entries && Reachable(c, Visit(e, 0), Visit(j, depth[j]))
        {
          if !before[j] { assert entries[k] in entries; }
        }
      }
      assert entries[..|entries|] == entries;
      forall j, e, d | 0 <= j < |c.nodes| && e in entries && Reachable(c, Visit(e, 0), Visit(j, d)) ensures visited[j] {
        ClosedReaches(c, none, visited, Visit(e, 0), Visit(j, d));
      }
    }
  }

  // ---------- one walk ----------

  function Unseen(visited: seq<bool>): set<int> {
    set i | 0 <= i < |visited| && !visited[i]
  }

  predicate Extends(visited: seq<bool>, depth: seq<int>, visited': seq<bool>, depth': seq<int>)
    requires |visited| == |depth| && |visited'| == |depth'|
  {
    |visited'| == |visited| && forall j :: 0 <= j < |visited| && visited[j] ==> visited'[j] && depth'[j] == depth[j]
  }

  /** Every node that is new is reachable from v at its depth. */
  ghost predicate AllReachable(c: Context, v: Visit, visited: seq<bool>, visited': seq<bool>, depth: seq<int>)
    requires Loaded(c) && |visited| == |visited'| == |depth|
  {
    forall j :: 0 <= j < |visited| && visited'[j] && !visited[j] ==> Reachable(c, v, Visit(j, depth[j]))
  }

  /** The successors of every node that is new are visited. */
  predicate Closed(c: Context, visited: seq<bool>, visited': seq<bool>)
    requires Loaded(c) && |visited| == |visited'| == |c.nodes|
  {
    forall i :: 0 <= i < |c.nodes| && visited'[i] && !visited[i] ==> SuccessorsIn(c, i, visited')
  }

  predicate SuccessorsIn(c: Context, i: nat, visited: seq<bool>)
    requires Loaded(c) && i < |visited| == |c.nodes|
  {
    var f := FlowOf(c, i);
    (0 <= f.next < |c.nodes| ==> visited[f.next]) && (0 <= f.branch < |c.nodes| ==> visited[f.branch])
  }

  lemma FewerUnseen(visited: seq<bool>, visited': seq<bool>, i: nat)
    requires i < |visited| && !visited[i] && visited' == visited[i := true]
    ensures |Unseen(visited')| < |Unseen(visited)|
  {
    assert Unseen(visited) == Unseen(visited') + {i};
  }

  lemma NoMoreUnseen(visited: seq<bool>, visited': seq<bool>)
    requires |visited| == |visited'| && forall j :: 0 <= j < |visited| && visited[j] ==> visited'[j]
    ensures |Unseen(visited')| <= |Unseen(visited)|
  {
    assert Unseen(visited) == Unseen(visited') + (Unseen(visited) - Unseen(visited'));
  }

  lemma ThroughNext(c: Context, v: Visit, visited: seq<bool>, visited': seq<bool>, depth: seq<int>)
    requires Loaded(c) && |visited| == |visited'| == |depth| && 0 <= v.node < |c.nodes|
    requires AllReachable(c, AlongNext(c, v), visited, visited', depth)
    ensures AllReachable(c, v, visited, visited', depth)
  {
    hide Reachable, FlowOf;
    forall j | 0 <= j < |visited| && visited'[j] && !visited[j] ensures Reachable(c, v, Visit(j, depth[j])) {
      ReachableFirst(c, v, Visit(j, depth[j]));
    }
  }

  lemma ThroughBranch(c: Context, v: Visit, visited: seq<bool>, visited': seq<bool>, depth: seq<int>)
    requires Loaded(c) && |visited| == |visited'| == |depth| && 0 <= v.node < |c.nodes|
    requires AllReachable(c, AlongBranch(c, v), visited, visited', depth)
    ensures AllReachable(c, v, visited, visited', depth)
  {
    hide Reachable, FlowOf;
    forall j | 0 <= j < |visited| && visited'[j] && !visited[j] ensures Reachable(c, v, Visit(j, depth[j])) {
      ReachableFirst(c, v, Visit(j, depth[j]));
    }
  }

  /** Only pushes and pops change the depth, and they have no branch. */
  lemma BranchUnchanged(c: Context, i: nat)
    requires Loaded(c) && i < |c.nodes| && FlowOf(c, i).branch != -1
    ensures FlowOf(c, i).change == 0
  {
  }

  /** Recording a node and walking both ways makes one walk. */
  lemma AllTogether(c: Context, v: Visit, visited0: seq<bool>, depth0: seq<int>, visited1: seq<bool>, depth1: seq<int>,
                    visited2: seq<bool>, depth2: seq<int>, visited3: seq<bool>, depth3: seq<int>)
    requires Loaded(c) && 0 <= v.node < |c.nodes| == |visited0| == |depth0| && !visited0[v.node]
    requires visited1 == visited0[v.node := true] && depth1 == depth0[v.node := v.depth]
    requires |visited2| == |depth2| && |visited3| == |depth3|
    requires Extends(visited1, depth1, visited2, depth2) && Extends(visited2, depth2, visited3, depth3)
    requires Reachable(c, v, v)
    requires AllReachable(c, v, visited1, visited2, depth2) && AllReachable(c, v, visited2, visited3, depth3)
    requires Closed(c, visited1, visited2) && Closed(c, visited2, visited3) && SuccessorsIn(c, v.node, visited3)
    ensures Extends(visited0, depth0, visited3, depth3) && visited3[v.node]
    ensures AllReachable(c, v, visited0, visited3, depth3) && Closed(c, visited0, visited3)
  {
    hide Reachable, FlowOf, Loaded;
    forall j | 0 <= j < |visited0| && visited3[j] && !visited0[j] ensures Reachable(c, v, Visit(j, depth3[j])) {
      if j == v.node {
        assert depth3[j] == v.depth;
      } else if visited2[j] {
        assert depth3[j] == depth2[j];
      }
    }
    forall i | 0 <= i < |c.nodes| && visited3[i] && !visited0[i] ensures SuccessorsIn(c, i, visited3) {
      if i != v.node && visited2[i] { assert SuccessorsIn(c, i, visited2); }
    }
  }

  // ---------- warnings on the way ----------

  lemma NothingNew(c: Context, v: Visit, before: set<Warning>, arrivals: set<Warning>, visited: seq<bool>, depth: seq<int>)
    requires Loaded(c) && |visited| == |depth| == |c.nodes|
    ensures Noted(c, before, arrivals, before + arrivals, visited, visited, depth) && before + {} == before
    ensures Closed(c, visited, visited) && AllReachable(c, v, visited, visited, depth)
  {
    hide DepartureWarnings, FlowOf;
  }

  /** The nodes that are new are v and those of the two walks. */
  lemma DueParts(c: Context, v: Visit, w: Warning, visited0: seq<bool>, visited1: seq<bool>, visited2: seq<bool>, depth2: seq<int>,
                 visited3: seq<bool>, depth3: seq<int>)
    requires Loaded(c) && 0 <= v.node < |c.nodes| == |visited0| == |visited2| == |depth2| == |visited3| == |depth3|
    requires !visited0[v.node] && visited1 == visited0[v.node := true]
    requires forall j :: 0 <= j < |visited1| && visited1[j] ==> visited2[j]
    requires Extends(visited2, depth2, visited3, depth3) && depth3[v.node] == v.depth
    ensures DueAfter(c, w, visited0, visited3, depth3) <==>
            w in DepartureWarnings(c, v) || DueAfter(c, w, visited1, visited2, depth2) || DueAfter(c, w, visited2, visited3, depth3)
  {
    hide DepartureWarnings, FlowOf;
    if w in DepartureWarnings(c, v) {
      assert visited3[v.node] && !visited0[v.node] && Visit(v.node, depth3[v.node]) == v;
    }
    if j :| 0 <= j < |c.nodes| && visited2[j] && !visited1[j] && w in DepartureWarnings(c, Visit(j, depth2[j])) {
      assert visited3[j] && !visited0[j] && depth3[j] == depth2[j];
    }
    if j :| 0 <= j < |c.nodes| && visited3[j] && !visited2[j] && w in DepartureWarnings(c, Visit(j, depth3[j])) {
      assert visited3[j] && !visited0[j];
    }
    if j :| 0 <= j < |c.nodes| && visited3[j] && !visited0[j] && w in DepartureWarnings(c, Visit(j, depth3[j])) {
      if j != v.node && visited2[j] { assert visited2[j] && !visited1[j] && depth3[j] == depth2[j]; }
    }
  }

  lemma AllNoted(c: Context, v: Visit, before: set<Warning>, w0: set<Warning>, w1: set<Warning>, w2: set<Warning>, w3: set<Warning>,
                 nexts: set<Warning>, branches: set<Warning>, visited0: seq<bool>, visited1: seq<bool>,
                 visited2: seq<bool>, depth2: seq<int>, visited3: seq<bool>, depth3: seq<int>)
    requires Loaded(c) && 0 <= v.node < |c.nodes| == |visited0| == |visited2| == |depth2| == |visited3| == |depth3|
    requires !visited0[v.node] && visited1 == visited0[v.node := true]
    requires forall j :: 0 <= j < |visited1| && visited1[j] ==> visited2[j]
    requires Extends(visited2, depth2, visited3, depth3) && depth3[v.node] == v.depth
    requires w0 == before + ArrivalWarnings(c, v) && forall w :: OnTheWay(w) ==> (w in w1 <==> w in w0)
    requires DepartureWarnings(c, v) == nexts + branches
    requires Noted(c, w1, nexts, w2, visited1, visited2, depth2) && Noted(c, w2, branches, w3, visited2, visited3, depth3)
    ensures Noted(c, before, ArrivalWarnings(c, v), w3, visited0, visited3, depth3)
  {
    hide DepartureWarnings, ArrivalWarnings, FlowOf, DueAfter, Extends, OnTheWay;
    forall w | OnTheWay(w)
      ensures w in w3 <==> w in before || w in ArrivalWarnings(c, v) || DueAfter(c, w, visited0, visited3, depth3)
    {
      DueParts(c, v, w, visited0, visited1, visited2, depth2, visited3, depth3);
    }
  }

  lemma NoneDue(c: Context, none: seq<bool>, depth: seq<int>)
    requires Loaded(c) && |none| == |depth| == |c.nodes| && forall i :: 0 <= i < |none| ==> !none[i]
    ensures forall w :: !Due(c, [], w, none, depth)
  {
    hide ArrivalWarnings, DepartureWarnings;
  }

  lemma DueMore(c: Context, entries: seq<int>, k: nat, before: set<Warning>, after: set<Warning>,
                visited: seq<bool>, depth: seq<int>, visited': seq<bool>, depth': seq<int>)
    requires Loaded(c) && k < |entries| && |visited| == |depth| == |visited'| == |depth'| == |c.nodes|
    requires Extends(visited, depth, visited', depth')
    requires Noted(c, before, ArrivalWarnings(c, Visit(entries[k], 0)), after, visited, visited', depth')
    requires forall w :: OnTheWay(w) ==> (w in before <==> Due(c, entries[..k], w, visited, depth))
    ensures forall w :: OnTheWay(w) ==> (w in after <==> Due(c, entries[..k + 1], w, visited', depth'))
  {
    hide DueAfter, Due, ArrivalWarnings, Extends, OnTheWay;
    forall w | OnTheWay(w) ensures w in after <==> Due(c, entries[..k + 1], w, visited', depth') {
      DueNext(c, entries, k, w, visited, depth, visited', depth');
    }
  }

  lemma DueNext(c: Context, entries: seq<int>, k: nat, w: Warning,
                visited: seq<bool>, depth: seq<int>, visited': seq<bool>, depth': seq<int>)
    requires Loaded(c) && k < |entries| && |visited| == |depth| == |visited'| == |depth'| == |c.nodes|
    requires Extends(visited, depth, visited', depth')
    ensures Due(c, entries[..k + 1], w, visited', depth') <==>
            || Due(c, entries[..k], w, visited, depth)
            || w in ArrivalWarnings(c, Visit(entries[k], 0))
            || DueAfter(c, w, visited, visited', depth')
  {
    hide ArrivalWarnings, DepartureWarnings, FlowOf;
    assert entries[..k + 1] == entries[..k] + [entries[k]];
    if j :| 0 <= j < |c.nodes| && visited[j] && w in DepartureWarnings(c, Visit(j, depth[j])) {
      assert visited'[j] && depth'[j] == depth[j];
    }
    if j :| 0 <= j < |c.nodes| && visited'[j] && w in DepartureWarnings(c, Visit(j, depth'[j])) {
      if visited[j] { assert depth'[j] == depth[j]; }
    }
  }

  // ---------- all walks ----------

  lemma ClosedStart(c: Context, none: seq<bool>)
    requires Loaded(c) && |none| == |c.nodes|
    ensures Closed(c, none, none)
  {
  }

  lemma ClosedMore(c: Context, none: seq<bool>, visited: seq<bool>, visited': seq<bool>)
    requires Loaded(c) && |none| == |visited| == |visited'| == |c.nodes| && forall i :: 0 <= i < |none| ==> !none[i]
    requires Closed(c, none, visited) && Closed(c, visited, visited')
    requires forall j :: 0 <= j < |visited| && visited[j] ==> visited'[j]
    ensures Closed(c, none, visited')
  {
    hide FlowOf;
    forall i | 0 <= i < |c.nodes| && visited'[i] ensures SuccessorsIn(c, i, visited') {
      if visited[i] { assert SuccessorsIn(c, i, visited); }
    }
  }

  lemma {:induction false} ClosedWalk(c: Context, none: seq<bool>, visited: seq<bool>, v: Visit, n: nat, w: Visit)
    requires Loaded(c) && |none| == |visited| == |c.nodes| && forall i :: 0 <= i < |none| ==> !none[i]
    requires Closed(c, none, visited) && Walk(c, v, n, w) && 0 <= v.node < |c.nodes| && visited[v.node]
    ensures 0 <= w.node < |c.nodes| && visited[w.node]
    decreases n
  {
    hide FlowOf;
    if n > 0 {
      assert SuccessorsIn(c, v.node, visited);
      if Walk(c, AlongNext(c, v), n - 1, w) {
        ClosedWalk(c, none, visited, AlongNext(c, v), n - 1, w);
      } else {
        ClosedWalk(c, none, visited, AlongBranch(c, v), n - 1, w);
      }
    }
  }

  /** What is reachable from a visited node is visited, once all successors are. */
  lemma ClosedReaches(c: Context, none: seq<bool>, visited: seq<bool>, v: Visit, w: Visit)
    requires Loaded(c) && |none| == |visited| == |c.nodes| && forall i :: 0 <= i < |none| ==> !none[i]
    requires Closed(c, none, visited) && Reachable(c, v, w) && (0 <= v.node < |c.nodes| ==> visited[v.node])
    ensures 0 <= w.node < |c.nodes| && visited[w.node]
  {
    var n: nat :| Walk(c, v, n, w);
    ClosedWalk(c, none, visited, v, n, w);
  }

  // ---------- consistent depths ----------

  /** An assignment of depths that every edge out of these nodes respects. */
  predicate Consistent(c: Context, visited: seq<bool>, depths: seq<int>)
    requires Loaded(c) && |visited| == |depths| == |c.nodes|
  {
    forall i :: 0 <= i < |c.nodes| && visited[i] ==> Respects(c, depths, i)
  }

  predicate Respects(c: Context, depths: seq<int>, i: nat)
    requires Loaded(c) && |depths| == |c.nodes| && i < |c.nodes|
  {
    var v := Visit(i, depths[i]);
    && (0 <= AlongNext(c, v).node < |c.nodes| ==> AlongNext(c, v).depth == depths[AlongNext(c, v).node])
    && (0 <= AlongBranch(c, v).node < |c.nodes| ==> AlongBranch(c, v).depth == depths[AlongBranch(c, v).node])
  }

  lemma {:induction false} WalkRespects(c: Context, none: seq<bool>, visited: seq<bool>, depths: seq<int>, v: Visit, n: nat, w: Visit)
    requires Loaded(c) && |none| == |visited| == |depths| == |c.nodes| && forall i :: 0 <= i < |none| ==> !none[i]
    requires Closed(c, none, visited) && Consistent(c, visited, depths)
    requires Walk(c, v, n, w) && 0 <= v.node < |c.nodes| && visited[v.node] && v.depth == depths[v.node]
    ensures 0 <= w.node < |c.nodes| && w.depth == depths[w.node]
    decreases n
  {
    hide FlowOf;
    if n > 0 {
      assert Respects(c, depths, v.node) && SuccessorsIn(c, v.node, visited);
      if Walk(c, AlongNext(c, v), n - 1, w) {
        WalkStart(c, AlongNext(c, v), n - 1, w);
        WalkRespects(c, none, visited, depths, AlongNext(c, v), n - 1, w);
      } else {
        WalkStart(c, AlongBranch(c, v), n - 1, w);
        WalkRespects(c, none, visited, depths, AlongBranch(c, v), n - 1, w);
      }
    }
  }

  lemma WalkStart(c: Context, v: Visit, n: nat, w: Visit)
    requires Loaded(c) && Walk(c, v, n, w)
    ensures 0 <= v.node < |c.nodes|
  {
  }

  /**
   * Whenever depths can be assigned consistently with zero at the entry points, the analysis finds them, whatever
   * order it walks in, and its return warnings are exactly the reachable returns at a depth other than zero.
   */
  method Analyze(c: Context, entries: seq<int>, ghost depths: seq<int>) returns (analyzer: Analyzer)
    requires Loaded(c) && |depths| == |c.nodes|
    ensures analyzer.c == c && analyzer.Valid() && analyzer.Warned()
    ensures forall w :: OnTheWay(w) ==> (w in analyzer.warnings <==> Due(c, entries, w, analyzer.visited, analyzer.depth))
    ensures forall j :: 0 <= j < |c.nodes| ==>
              (analyzer.visited[j] <==> exists e, d :: e in entries && Reachable(c, Visit(e, 0), Visit(j, d)))
    ensures Consistent(c, analyzer.visited, depths) && (forall e :: e in entries && 0 <= e < |c.nodes| ==> depths[e] == 0) ==>
              && (forall j :: 0 <= j < |c.nodes| && analyzer.visited[j] ==> analyzer.depth[j] == depths[j])
              && (forall j :: 0 <= j < |c.nodes| && IsInst(c.nodes[j]) && c.nodes[j].op == RET ==>
                    (BadReturn(j) in analyzer.warnings <==>
                     depths[j] != 0 && exists e, d :: e in entries && Reachable(c, Visit(e, 0), Visit(j, d))))
  {
    hide FlowOf, Loaded, Reachable, Consistent;
    analyzer := new Analyzer(c);
    ghost var none := analyzer.visited;
    analyzer.Connect(entries);
    if Consistent(c, analyzer.visited, depths) && forall e :: e in entries && 0 <= e < |c.nodes| ==> depths[e] == 0 {
      forall j | 0 <= j < |c.nodes| && analyzer.visited[j] ensures analyzer.depth[j] == depths[j] {
        var e :| e in entries && Reachable(c, Visit(e, 0), Visit(j, analyzer.depth[j]));
        ReachableRespects(c, none, analyzer.visited, depths, Visit(e, 0), Visit(j, analyzer.depth[j]));
      }
    }
  }

  lemma ReachableRespects(c: Context, none: seq<bool>, visited: seq<bool>, depths: seq<int>, v: Visit, w: Visit)
    requires Loaded(c) && |none| == |visited| == |depths| == |c.nodes| && forall i :: 0 <= i < |none| ==> !none[i]
    requires Closed(c, none, visited) && Consistent(c, visited, depths)
    requires Reachable(c, v, w) && (0 <= v.node < |c.nodes| ==> visited[v.node] && v.depth == depths[v.node])
    ensures 0 <= w.node < |c.nodes| && w.depth == depths[w.node]
  {
    hide FlowOf;
    var n: nat :| Walk(c, v, n, w);
    WalkStart(c, v, n, w);
    WalkRespects(c, none, visited, depths, v, n, w);
  }
}
