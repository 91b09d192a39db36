/** Matching of loop brackets, shared by program texts and token lists. */
module Brackets {

  datatype Bracket = Open | Close | Plain

  /** Positions of the brackets still open after the first n items, innermost last. */
  function OpenStack(s: seq<Bracket>, n: nat): seq<nat>
    requires n <= |s|
  {
    if n == 0 then []
    else
      var before := OpenStack(s, n - 1);
      match s[n - 1]
      case Open => before + [n - 1]
      case Close => if before == [] then [] else before[..|before| - 1]
      case Plain => before
  }

  predicate Matched(s: seq<Bracket>, j: nat) {
    j < |s| && s[j].Close? && OpenStack(s, j) != []
  }

  /** Every closing bracket finds an open one and none stays open. */
  predicate Balanced(s: seq<Bracket>) {
    && (forall j :: 0 <= j < |s| && s[j].Close? ==> OpenStack(s, j) != [])
    && OpenStack(s, |s|) == []
  }

  /** The opening bracket of the closing bracket at j. */
  function OpenOf(s: seq<Bracket>, j: nat): (i: nat)
    requires Matched(s, j)
    ensures i < j && s[i].Open?
  {
    var stack := OpenStack(s, j);
    StackPointsAtOpens(s, j);
    stack[|stack| - 1]
  }

  /** The first closing bracket at or after j that closes i, or the end. */
  function CloseFrom(s: seq<Bracket>, i: nat, j: nat): (k: nat)
    requires j <= |s|
    ensures j <= k <= |s|
    ensures k < |s| ==> Matched(s, k) && OpenOf(s, k) == i
    decreases |s| - j
  {
    if j == |s| then j
    else if Matched(s, j) && OpenOf(s, j) == i then j
    else CloseFrom(s, i, j + 1)
  }

  function CloseOf(s: seq<Bracket>, i: nat): (k: nat)
    requires i < |s|
    ensures i < k <= |s|
    ensures k < |s| ==> Matched(s, k) && OpenOf(s, k) == i
  {
    CloseFrom(s, i, i + 1)
  }

  /** The open positions below n are opening brackets in increasing order. */
  predicate Ascending(s: seq<Bracket>, stack: seq<nat>, n: nat)
    requires n <= |s|
  {
    && (forall a :: 0 <= a < |stack| ==> stack[a] < n && s[stack[a]].Open?)
    && (forall a, b :: 0 <= a < b < |stack| ==> stack[a] < stack[b])
  }

  lemma {:induction false} StackPointsAtOpens(s: seq<Bracket>, n: nat)
    requires n <= |s|
    ensures Ascending(s, OpenStack(s, n), n)
  {
    if n > 0 {
      StackPointsAtOpens(s, n - 1);
      var before := OpenStack(s, n - 1);
      match s[n - 1]
      case Open => assert OpenStack(s, n) == before + [n - 1];
      case Close => assert before != [] ==> OpenStack(s, n) == before[..|before| - 1];
      case Plain => assert OpenStack(s, n) == before;
    }
  }

  /** The stack depends only on the items seen. */
  lemma {:induction false} StackOfPrefix(s: seq<Bracket>, t: seq<Bracket>, n: nat)
    requires n <= |s| && n <= |t| && s[..n] == t[..n]
    ensures OpenStack(s, n) == OpenStack(t, n)
  {
    if n > 0 {
      assert s[..n - 1] == s[..n][..n - 1] == t[..n - 1];
      assert s[n - 1] == s[..n][n - 1] == t[n - 1];
      StackOfPrefix(s, t, n - 1);
    }
  }

  /** A position leaves the stack for good. */
  lemma {:induction false} StaysClosed(s: seq<Bracket>, i: nat, m: nat, n: nat)
    requires i < m <= n <= |s| && i !in OpenStack(s, m)
    ensures i !in OpenStack(s, n)
    decreases n - m
  {
    if m < n { StaysClosed(s, i, m + 1, n); }
  }

  lemma PopRemoves(s: seq<Bracket>, j: nat)
    requires Matched(s, j)
    ensures OpenOf(s, j) !in OpenStack(s, j + 1)
  {
    StackPointsAtOpens(s, j);
  }

  /** An opening bracket has at most one closing bracket. */
  lemma CloseIsUnique(s: seq<Bracket>, j: nat, k: nat)
    requires Matched(s, j) && Matched(s, k) && OpenOf(s, j) == OpenOf(s, k)
    ensures j == k
  {
    if j < k {
      PopRemoves(s, j);
      StaysClosed(s, OpenOf(s, j), j + 1, k);
    } else if k < j {
      PopRemoves(s, k);
      StaysClosed(s, OpenOf(s, k), k + 1, j);
    }
  }

  lemma CloseOfOpenOf(s: seq<Bracket>, j: nat)
    requires Matched(s, j)
    ensures CloseOf(s, OpenOf(s, j)) == j
  {
    FoundFrom(s, OpenOf(s, j) + 1, j);
    CloseIsUnique(s, j, CloseOf(s, OpenOf(s, j)));
  }

  lemma {:induction false} FoundFrom(s: seq<Bracket>, from: nat, j: nat)
    requires Matched(s, j) && from <= j
    ensures CloseFrom(s, OpenOf(s, j), from) <= j
    decreases j - from
  {
    if from < j { FoundFrom(s, from + 1, j); }
  }

  lemma PushAdds(s: seq<Bracket>, i: nat)
    requires i < |s| && s[i].Open?
    ensures i in OpenStack(s, i + 1)
  {
    var stack := OpenStack(s, i + 1);
    assert stack[|stack| - 1] == i;
  }

  /** While a position is off the stack its closing bracket has been seen. */
  lemma {:induction false} ClosedBefore(s: seq<Bracket>, i: nat, n: nat)
    requires i < n <= |s| && s[i].Open? && i !in OpenStack(s, n)
    ensures CloseOf(s, i) < n
  {
    PushAdds(s, i);
    if i in OpenStack(s, n - 1) {
      RemovedByClose(s, i, n - 1);
      CloseOfOpenOf(s, n - 1);
    } else {
      ClosedBefore(s, i, n - 1);
    }
  }

  /** Only the closing bracket of i takes i off the stack. */
  lemma RemovedByClose(s: seq<Bracket>, i: nat, j: nat)
    requires j < |s| && i in OpenStack(s, j) && i !in OpenStack(s, j + 1)
    ensures Matched(s, j) && OpenOf(s, j) == i
  {
    var before, after := OpenStack(s, j), OpenStack(s, j + 1);
    var a :| 0 <= a < |before| && before[a] == i;
    assert forall b :: 0 <= b < |before| && b < |after| ==> after[b] == before[b];
  }

  lemma BalancedCloses(s: seq<Bracket>, i: nat)
    requires Balanced(s) && i < |s| && s[i].Open?
    ensures CloseOf(s, i) < |s|
  {
    ClosedBefore(s, i, |s|);
  }

  /** Conversely, a position on the final stack was never closed. */
  lemma NeverClosed(s: seq<Bracket>, i: nat)
    requires i < |s| && i in OpenStack(s, |s|)
    ensures CloseOf(s, i) == |s|
  {
    var j := CloseOf(s, i);
    if j < |s| {
      PopRemoves(s, j);
      StaysClosed(s, i, j + 1, |s|);
    }
  }
}
