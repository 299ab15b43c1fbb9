/** Cycle detection by depth-first search and removal of rotated duplicates
    (internal/engine/cycles.go). */
module Cycles {
  import opened Graph

  // What is reported
  // ---------------------------------------------------------------------------

  /** A closed path that visits no vertex twice, written with its first vertex repeated at the end. */
  ghost predicate IsSimpleCycle<N(!new)>(E: set<(N, N)>, c: seq<N>) {
    && |c| >= 2
    && c[0] == c[|c| - 1]
    && IsPath(E, c)
    && forall i, j :: 0 <= i < j < |c| - 1 ==> c[i] != c[j]
  }

  ghost predicate FromRoots<N(!new)>(E: set<(N, N)>, roots: seq<N>, x: N) {
    x in roots || exists r :: r in roots && Reaches(E, r, x)
  }

  ghost predicate CycleFromRoots<N(!new)>(E: set<(N, N)>, roots: seq<N>) {
    exists x :: FromRoots(E, roots, x) && Reaches(E, x, x)
  }

  lemma CycleWitness<N(!new)>(E: set<(N, N)>, roots: seq<N>) returns (x: N)
    requires CycleFromRoots(E, roots)
    ensures FromRoots(E, roots, x) && Reaches(E, x, x)
  {
    x :| FromRoots(E, roots, x) && Reaches(E, x, x);
  }

  lemma FromRootsStep<N(!new)>(E: set<(N, N)>, roots: seq<N>, x: N, y: N)
    requires FromRoots(E, roots, x) && (x, y) in E
    ensures FromRoots(E, roots, y)
  {
    EdgeReaches(E, x, y);
    if x !in roots {
      var r :| r in roots && Reaches(E, r, x);
      ReachesTransitive(E, r, x, y);
    }
  }

  /** The edge that closes a reported cycle. */
  ghost function ClosingEdge<N>(c: seq<N>): (N, N)
    requires |c| >= 2
  {
    (c[|c| - 2], c[|c| - 1])
  }

  ghost predicate IsClosing<N(!new)>(cycles: seq<seq<N>>, e: (N, N)) {
    exists d :: d in cycles && |d| >= 2 && e == ClosingEdge(d)
  }

  /** No two reports were closed by the same edge. */
  ghost predicate OncePerEdge<N(!new)>(cycles: seq<seq<N>>) {
    forall i, j :: 0 <= i < j < |cycles| && |cycles[i]| >= 2 && |cycles[j]| >= 2 ==>
      ClosingEdge(cycles[i]) != ClosingEdge(cycles[j])
  }

  lemma OneReportMore<N(!new)>(cycles: seq<seq<N>>, c: seq<N>)
    requires |c| >= 2
    ensures forall e :: IsClosing(cycles + [c], e) <==> IsClosing(cycles, e) || e == ClosingEdge(c)
    ensures OncePerEdge(cycles) && !IsClosing(cycles, ClosingEdge(c)) ==> OncePerEdge(cycles + [c])
  {
    assert c in cycles + [c];
    assert forall d :: d in cycles + [c] <==> d in cycles || d == c;
  }

  /** The edges that are left when every closing edge is cut. */
  ghost function Uncut<N(!new)>(E: set<(N, N)>, cycles: seq<seq<N>>): set<(N, N)> {
    set e | e in E && !IsClosing(cycles, e)
  }

  lemma CutMore<N(!new)>(E: set<(N, N)>, cycles: seq<seq<N>>, c: seq<N>)
    requires |c| >= 2
    ensures Uncut(E, cycles + [c]) == Uncut(E, cycles) - {ClosingEdge(c)}
  {
    OneReportMore(cycles, c);
  }

  lemma CutNone<N(!new)>(E: set<(N, N)>)
    ensures Uncut(E, []) == E
  {
  }

  lemma CutPrefix<N(!new)>(E: set<(N, N)>, cycles: seq<seq<N>>, longer: seq<seq<N>>)
    requires cycles <= longer
    ensures Uncut(E, longer) <= Uncut(E, cycles)
  {
    forall e | IsClosing(cycles, e) ensures IsClosing(longer, e) {
      var d :| d in cycles && |d| >= 2 && e == ClosingEdge(d);
      assert d in longer;
    }
  }

  ghost predicate IsClosedPath<N(!new)>(E: set<(N, N)>, c: seq<N>) {
    |c| >= 2 && c[0] == c[|c| - 1] && IsPath(E, c)
  }

  /** Some reported cycle has its closing edge on c. */
  ghost predicate Closes<N(!new)>(cycles: seq<seq<N>>, c: seq<N>) {
    exists e :: IsClosing(cycles, e) && HasEdge(c, e)
  }

  ghost predicate HasEdge<N(!new)>(c: seq<N>, e: (N, N)) {
    exists k :: 0 <= k < |c| - 1 && e == (c[k], c[k + 1])
  }

  /** A closed path without a closing edge is one of the uncut graph. */
  lemma ClosedPathUncut<N(!new)>(E: set<(N, N)>, cycles: seq<seq<N>>, c: seq<N>)
    requires IsClosedPath(E, c) && !Closes(cycles, c)
    ensures Reaches(Uncut(E, cycles), c[0], c[0])
  {
    forall k | 0 <= k < |c| - 1 ensures (c[k], c[k + 1]) in Uncut(E, cycles) {
      assert HasEdge(c, (c[k], c[k + 1]));
    }
    assert IsPath(Uncut(E, cycles), c);
  }

  lemma {:induction false} PathStays<N(!new)>(E: set<(N, N)>, S: set<N>, p: seq<N>)
    requires IsPath(E, p) && p[0] in S && forall x, y :: x in S && (x, y) in E ==> y in S
    ensures p[|p| - 1] in S
    decreases |p|
  {
    if |p| > 1 {
      assert (p[0], p[1]) in E;
      PathSuffix(E, p, 1);
      PathStays(E, S, p[1..]);
    }
  }

  lemma ReachedStays<N(!new)>(E: set<(N, N)>, S: set<N>, roots: seq<N>, x: N)
    requires FromRoots(E, roots, x)
    requires (forall r :: r in roots ==> r in S) && forall x, y :: x in S && (x, y) in E ==> y in S
    ensures x in S
  {
    if x !in roots {
      var r :| r in roots && Reaches(E, r, x);
      var q: seq<N> :| IsPath(E, q) && |q| >= 2 && q[0] == r && q[|q| - 1] == x;
      PathStays(E, S, q);
    }
  }

  // A finishing order is a certificate that there is no cycle
  // ---------------------------------------------------------------------------

  /** Every successor of a listed vertex is listed before it. */
  ghost predicate FinishOrder<N(!new)>(E: set<(N, N)>, order: seq<N>) {
    && (forall i, j :: 0 <= i < j < |order| ==> order[i] != order[j])
    && (forall i, y :: 0 <= i < |order| && (order[i], y) in E ==> y in order[..i])
  }

  lemma FinishOrderExtends<N(!new)>(E: set<(N, N)>, order: seq<N>, n: N)
    requires FinishOrder(E, order) && n !in order
    requires forall y :: (n, y) in E ==> y in order
    ensures FinishOrder(E, order + [n])
  {
    var longer := order + [n];
    forall i, y | 0 <= i < |longer| && (longer[i], y) in E ensures y in longer[..i] {
      assert longer[..i] == order[..i];
    }
  }

  lemma FinishOrderShrinks<N(!new)>(E: set<(N, N)>, F: set<(N, N)>, order: seq<N>)
    requires FinishOrder(E, order) && F <= E
    ensures FinishOrder(F, order)
  {
  }

  /** A path that starts at position i of a finishing order descends in it. */
  lemma {:induction false} PathDescends<N(!new)>(E: set<(N, N)>, order: seq<N>, p: seq<N>, i: nat) returns (j: nat)
    requires FinishOrder(E, order) && IsPath(E, p)
    requires i < |order| && order[i] == p[0]
    ensures j <= i && order[j] == p[|p| - 1] && (|p| >= 2 ==> j < i)
    decreases |p|
  {
    if |p| == 1 {
      j := i;
    } else {
      assert (p[0], p[1]) in E;
      var k :| 0 <= k < i && order[k] == p[1];
      PathSuffix(E, p, 1);
      j := PathDescends(E, order, p[1..], k);
    }
  }

  lemma FinishOrderExcludesCycles<N(!new)>(E: set<(N, N)>, order: seq<N>, roots: seq<N>)
    requires FinishOrder(E, order)
    requires forall r :: r in roots ==> r in order
    ensures !CycleFromRoots(E, roots)
  {
    forall x | FromRoots(E, roots, x) ensures !Reaches(E, x, x) {
      var i: nat;
      if x in roots {
        i :| 0 <= i < |order| && order[i] == x;
      } else {
        var r :| r in roots && Reaches(E, r, x);
        var q: seq<N> :| IsPath(E, q) && |q| >= 2 && q[0] == r && q[|q| - 1] == x;
        var k :| 0 <= k < |order| && order[k] == r;
        i := PathDescends(E, order, q, k);
      }
      if Reaches(E, x, x) {
        var p: seq<N> :| IsPath(E, p) && |p| >= 2 && p[0] == x && p[|p| - 1] == x;
        var j := PathDescends(E, order, p, i);
        assert false;
      }
    }
  }

  // The search
  // ---------------------------------------------------------------------------

  /** Each successor of n was visited, and if it is still on the stack, the edge to it was reported. */
  ghost predicate Explored<N(!new)>(visited: set<N>, onStack: set<N>, left: set<(N, N)>, n: N, ys: seq<N>) {
    forall y :: y in ys ==> y in visited && (y in onStack ==> (n, y) !in left)
  }

  /** Searching on forgets nothing. */
  lemma ExploredMore<N(!new)>(visited: set<N>, visited': set<N>, onStack: set<N>, left: set<(N, N)>,
                              left': set<(N, N)>, n: N, ys: seq<N>, y: N)
    requires Explored(visited, onStack, left, n, ys) && visited <= visited' && left' <= left
    requires y in visited' && (y in onStack ==> (n, y) !in left')
    ensures Explored(visited', onStack, left', n, ys + [y])
  {
  }

  class CycleSearch<N(==, !new)> {
    const neighbors: N -> seq<N>
    ghost const V: set<N>          // the finite universe the search stays in
    ghost const roots: seq<N>

    var visited: set<N>
    var onStack: set<N>
    var stack: seq<N>
    var cycles: seq<seq<N>>
    ghost var order: seq<N>        // visited vertices no longer on the stack, in finishing order

    ghost function Edges(): set<(N, N)> {
      set a, b | a in V && b in neighbors(a) :: (a, b)
    }

    ghost predicate Closed() {
      && (forall a, b :: a in V && b in neighbors(a) ==> b in V)
      && (forall r :: r in roots ==> r in V)
    }

    ghost predicate WithoutRepeats() {
      forall a :: a in V ==> NoDuplicates(neighbors(a))
    }

    ghost predicate StackOk()
      reads this
    {
      && (forall i, j :: 0 <= i < j < |stack| ==> stack[i] != stack[j])
      && onStack == (set x | x in stack)
      && (stack != [] ==> IsPath(Edges(), stack))
      && (forall x :: x in stack ==> FromRoots(Edges(), roots, x))
    }

    ghost predicate Valid()
      reads this
    {
      && Closed()
      && visited <= V
      && StackOk()
      && onStack <= visited
      && (forall x :: x in order ==> x in visited && x !in onStack)
      && (forall c :: c in cycles ==> IsSimpleCycle(Edges(), c) && FromRoots(Edges(), roots, c[0]))
      && FinishOrder(Left(), order)
      && (forall x :: x in visited && x !in onStack ==> x in order)
      && (forall x, y :: x in order && (x, y) in Edges() ==> y in visited)
      && (forall e :: IsClosing(cycles, e) ==> e.0 in visited)
      && (WithoutRepeats() ==> OncePerEdge(cycles))
    }

    constructor (neighbors: N -> seq<N>, ghost roots: seq<N>, ghost V: set<N>)
      requires forall a, b :: a in V && b in neighbors(a) ==> b in V
      requires forall r :: r in roots ==> r in V
      ensures Valid() && stack == [] && cycles == []
      ensures this.neighbors == neighbors && this.roots == roots && this.V == V
    {
      this.neighbors, this.roots, this.V := neighbors, roots, V;
      visited, onStack, stack, cycles, order := {}, {}, [], [], [];
    }

    ghost function Left(): set<(N, N)>
      reads this`cycles
    {
      Uncut(Edges(), cycles)
    }

    /** n is on the stack: the stack from n on, closed with n, is a cycle. */
    method ReportBackEdge(n: N)
      requires Valid() && n in onStack
      requires (stack[|stack| - 1], n) in Edges()
      requires WithoutRepeats() ==> !IsClosing(cycles, (stack[|stack| - 1], n))
      modifies this`cycles
      ensures Valid()
      ensures exists k :: 0 <= k < |stack| && stack[k] == n && cycles == old(cycles) + [stack[k..] + [n]]
      ensures forall e :: IsClosing(cycles, e) <==> IsClosing(old(cycles), e) || e == (stack[|stack| - 1], n)
    {
      hide NoDuplicates, OncePerEdge, IsClosing, IsPath, IsSimpleCycle, FromRoots, FinishOrder, Uncut;
      var i := |stack| - 1;
      while stack[i] != n
        invariant 0 <= i < |stack|
        invariant n in stack[..i + 1]
        decreases i
      {
        assert stack[..i + 1] == stack[..i] + [stack[i]];
        i := i - 1;
      }
      SuffixCloses(stack, i);
      CutMore(Edges(), cycles, stack[i..] + [n]);
      OneReportMore(cycles, stack[i..] + [n]);
      FinishOrderShrinks(Uncut(Edges(), cycles), Uncut(Edges(), cycles + [stack[i..] + [n]]), order);
      cycles := cycles + [stack[i..] + [n]];
      assert stack[i] == n && cycles == old(cycles) + [stack[i..] + [n]];
    }

    lemma SuffixCloses(stack: seq<N>, i: nat)
      requires i < |stack| && IsPath(Edges(), stack) && (stack[|stack| - 1], stack[i]) in Edges()
      requires forall j, k :: 0 <= j < k < |stack| ==> stack[j] != stack[k]
      requires FromRoots(Edges(), roots, stack[i])
      ensures var cycle := stack[i..] + [stack[i]];
        IsSimpleCycle(Edges(), cycle) && FromRoots(Edges(), roots, cycle[0])
    {
      hide FromRoots;
      PathSuffix(Edges(), stack, i);
      assert IsPath(Edges(), stack[i..]);
    }

    /** First visit of n. */
    method Enter(n: N)
      requires Valid() && n in V && n !in visited && n !in onStack
      requires if stack == [] then n in roots else (stack[|stack| - 1], n) in Edges()
      modifies this
      ensures Valid() && cycles == old(cycles)
      ensures visited == old(visited) + {n} && onStack == old(onStack) + {n} && stack == old(stack) + [n]
    {
      assert FromRoots(Edges(), roots, n) by {
        if stack != [] {
          FromRootsStep(Edges(), roots, stack[|stack| - 1], n);
        }
      }
      visited := visited + {n};
      onStack := onStack + {n};
      stack := stack + [n];
    }

    /** All successors of n are explored. */
    method Leave(n: N)
      requires Valid() && stack != [] && stack[|stack| - 1] == n
      requires Explored(visited, onStack, Left(), n, neighbors(n))
      modifies this
      ensures Valid() && cycles == old(cycles) && visited == old(visited)
      ensures onStack == old(onStack) - {n} && stack == old(stack[..|stack| - 1])
    {
      FinishOrderExtends(Left(), order, n);
      stack := stack[..|stack| - 1];
      onStack := onStack - {n};
      order := order + [n];
    }

    method Dfs(n: N)
      requires Valid() && n in V
      requires if stack == [] then n in roots else (stack[|stack| - 1], n) in Edges()
      requires WithoutRepeats() && stack != [] ==> !IsClosing(cycles, (stack[|stack| - 1], n))
      modifies this
      ensures Valid()
      ensures forall e :: IsClosing(cycles, e) && e.0 in old(visited) ==>
        IsClosing(old(cycles), e) || (stack != [] && e == (stack[|stack| - 1], n))
      ensures stack == old(stack) && onStack == old(onStack)
      ensures old(visited) <= visited && old(cycles) <= cycles
      ensures n in visited
      ensures n in onStack ==> stack != [] && (stack[|stack| - 1], n) !in Left()
      decreases V - visited
    {
      hide IsPath, FinishOrder, IsSimpleCycle, FromRoots, OncePerEdge, IsClosing;
      if n in onStack {
        ReportBackEdge(n);
        return;
      }
      if n in visited {
        return;
      }
      Enter(n);
      ghost var entered := stack;
      var next := neighbors(n);
      for k := 0 to |next|
        invariant Valid() && stack == entered && onStack == old(onStack) + {n}
        invariant old(visited) + {n} <= visited && old(cycles) <= cycles
        invariant Explored(visited, onStack, Left(), n, next[..k])
        invariant forall e :: IsClosing(cycles, e) && e.0 in old(visited) ==> IsClosing(old(cycles), e)
        invariant forall e :: IsClosing(cycles, e) && e.0 == n ==> e.1 in next[..k]
      {
        assert (n, next[k]) in Edges();
        ghost var seen, before := visited, cycles;
        Dfs(next[k]);
        CutPrefix(Edges(), before, cycles);
        ExploredMore(seen, visited, onStack, Uncut(Edges(), before), Left(), n, next[..k], next[k]);
        assert next[..k + 1] == next[..k] + [next[k]];
      }
      assert next[..|next|] == next;
      Leave(n);
    }
  }

  /** All cycles met from the roots. V is any finite vertex set that holds the roots and is closed
      under neighbors; the search does not use it. */
  method DetectCycles<N(==, !new)>(roots: seq<N>, neighbors: N -> seq<N>, ghost V: set<N>, ghost E: set<(N, N)>)
    returns (cycles: seq<seq<N>>)
    requires forall a, b :: a in V && b in neighbors(a) ==> b in V
    requires forall r :: r in roots ==> r in V
    requires E == set a, b | a in V && b in neighbors(a) :: (a, b)
    ensures forall c :: c in cycles ==> IsSimpleCycle(E, c) && FromRoots(E, roots, c[0])
    ensures cycles != [] <==> CycleFromRoots(E, roots)
    ensures forall c :: IsClosedPath(E, c) && FromRoots(E, roots, c[0]) ==> Closes(cycles, c)
    ensures (forall a :: a in V ==> NoDuplicates(neighbors(a))) ==> OncePerEdge(cycles)
  {
    var s := new CycleSearch(neighbors, roots, V);
    for i := 0 to |roots|
      invariant s.Valid() && s.stack == []
      invariant s.neighbors == neighbors && s.roots == roots && s.V == V
      invariant forall j :: 0 <= j < i ==> roots[j] in s.visited
    {
      if roots[i] !in s.visited {
        s.Dfs(roots[i]);
      }
    }
    cycles := s.cycles;
    assert s.Edges() == E;
    AllCyclesClosed(E, roots, s.visited, s.order, cycles);
    CutNone(E);
    if cycles != [] {
      var c := cycles[0];
      assert IsSimpleCycle(E, c);
      assert Reaches(E, c[0], c[0]);
    }
  }

  /** What a finished search has visited and ordered leaves no cycle uncut. */
  lemma AllCyclesClosed<N(!new)>(E: set<(N, N)>, roots: seq<N>, visited: set<N>, order: seq<N>, cycles: seq<seq<N>>)
    requires FinishOrder(Uncut(E, cycles), order)
    requires forall x :: x in visited ==> x in order
    requires forall x, y :: x in order && (x, y) in E ==> y in visited
    requires forall r :: r in roots ==> r in visited
    ensures forall c :: IsClosedPath(E, c) && FromRoots(E, roots, c[0]) ==> Closes(cycles, c)
    ensures cycles == [] ==> !CycleFromRoots(E, roots)
  {
    FinishOrderExcludesCycles(Uncut(E, cycles), order, order);
    forall c | IsClosedPath(E, c) && FromRoots(E, roots, c[0]) ensures Closes(cycles, c) {
      ReachedStays(E, visited, roots, c[0]);
      if !Closes(cycles, c) {
        ClosedPathUncut(E, cycles, c);
        assert FromRoots(Uncut(E, cycles), order, c[0]);
      }
    }
    if CycleFromRoots(E, roots) {
      var x := CycleWitness(E, roots);
      var c: seq<N> :| IsPath(E, c) && |c| >= 2 && c[0] == x && c[|c| - 1] == x;
      assert IsClosedPath(E, c);
    }
  }
}
