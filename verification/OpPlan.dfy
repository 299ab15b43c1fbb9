/** The op graph of one step (buildPlan in internal/engine/exec.go). Ops may list a dependency more
    than once, so the graph has parallel edges and every counter counts entries, not ops. */
module OpPlan {
  import opened Graph
  import Cycles

  /** Node i is the i-th op of the step; lists hold node positions. */
  datatype OpGraph = OpGraph(deps: seq<seq<nat>>, dependents: seq<seq<nat>>)

  /** The source panics in the three error cases. */
  datatype PlanResult = Planned(graph: OpGraph) | DuplicateOp | UnknownDependency | CyclicOps

  ghost predicate InRange(lists: seq<seq<nat>>, n: nat) {
    forall i, x :: 0 <= i < |lists| && x in lists[i] ==> x < n
  }

  /** Both directions list every dependency entry, with multiplicity. */
  ghost predicate GraphOk(g: OpGraph) {
    && |g.deps| == |g.dependents|
    && InRange(g.deps, |g.deps|)
    && InRange(g.dependents, |g.deps|)
    && forall i, j :: 0 <= i < |g.deps| && 0 <= j < |g.deps| ==>
         multiset(g.dependents[j])[i] == multiset(g.deps[i])[j]
  }

  /** (i, j): op i depends on op j. */
  ghost function DepEdges(deps: seq<seq<nat>>): set<(int, int)> {
    set i, k | 0 <= i < |deps| && 0 <= k < |deps[i]| :: (i, deps[i][k] as int)
  }

  // Counting dependency entries
  // ---------------------------------------------------------------------------

  /** How many entries of ds lie in S. */
  ghost function CountIn(ds: seq<nat>, S: set<nat>): nat {
    if ds == [] then 0 else (if ds[0] in S then 1 else 0) + CountIn(ds[1..], S)
  }

  lemma {:induction false} CountInRemove(ds: seq<nat>, S: set<nat>, n: nat)
    requires n in S
    ensures CountIn(ds, S - {n}) == CountIn(ds, S) - multiset(ds)[n]
    decreases |ds|
  {
    if ds != [] {
      CountInRemove(ds[1..], S, n);
      assert ds == [ds[0]] + ds[1..];
    }
  }

  lemma {:induction false} CountInZero(ds: seq<nat>, S: set<nat>)
    ensures CountIn(ds, S) == 0 <==> forall d :: d in ds ==> d !in S
    decreases |ds|
  {
    if ds != [] {
      CountInZero(ds[1..], S);
      assert forall d :: d in ds <==> d == ds[0] || d in ds[1..];
    }
  }

  lemma {:induction false} CountInAll(ds: seq<nat>, S: set<nat>)
    requires forall d :: d in ds ==> d in S
    ensures CountIn(ds, S) == |ds|
    decreases |ds|
  {
    if ds != [] {
      CountInAll(ds[1..], S);
    }
  }

  lemma MultisetStep(s: seq<nat>, k: nat)
    requires k < |s|
    ensures multiset(s[..k + 1]) == multiset(s[..k]) + multiset{s[k]}
  {
    assert s[..k + 1] == s[..k] + [s[k]];
  }

  // Draining the queue
  // ---------------------------------------------------------------------------

  function Below(n: nat): (s: set<nat>)
    ensures forall x: nat :: x in s <==> x < n
  {
    if n == 0 then {} else Below(n - 1) + {n - 1}
  }

  ghost function Taken(s: seq<nat>): set<nat> {
    set x | x in s
  }

  /** The state of the drain between two pops: done holds the popped nodes in order. */
  ghost predicate Draining(g: OpGraph, tmp: seq<int>, queue: seq<nat>, done: seq<nat>)
    requires GraphOk(g)
  {
    var n := |g.deps|;
    && |tmp| == n
    && (forall i :: 0 <= i < n ==> tmp[i] == CountIn(g.deps[i], Below(n) - Taken(done)))
    && (forall i :: i in done + queue <==> 0 <= i < n && tmp[i] == 0)
    && NoDuplicates(done + queue)
    && Cycles.FinishOrder(DepEdges(g.deps), Ints(done))
  }

  ghost function Ints(s: seq<nat>): (r: seq<int>)
    ensures |r| == |s| && forall i :: 0 <= i < |s| ==> r[i] == s[i]
  {
    seq(|s|, i requires 0 <= i < |s| => s[i] as int)
  }

  /** The inner loop: one counter down for each entry of ds; the ones that reach zero are queued. */
  method CountDown(ds: seq<nat>, tmp0: seq<int>) returns (tmp: seq<int>, freed: seq<nat>)
    requires forall d :: d in ds ==> d < |tmp0|
    requires forall d :: 0 <= d < |tmp0| ==> tmp0[d] >= multiset(ds)[d]
    ensures |tmp| == |tmp0|
    ensures forall d :: 0 <= d < |tmp0| ==> tmp[d] == tmp0[d] - multiset(ds)[d]
    ensures forall d :: d in freed <==> d in ds && d < |tmp0| && tmp[d] == 0
    ensures NoDuplicates(freed)
  {
    tmp, freed := tmp0, [];
    for k := 0 to |ds|
      invariant |tmp| == |tmp0|
      invariant forall d :: 0 <= d < |tmp0| ==> tmp[d] == tmp0[d] - multiset(ds[..k])[d]
      invariant forall d :: d in freed <==> d in ds[..k] && d < |tmp0| && tmp[d] == 0
      invariant forall a, b :: 0 <= a < b < |freed| ==> freed[a] != freed[b]
    {
      MultisetStep(ds, k);
      EntriesLeft(ds, k);
      var d := ds[k];
      assert d in ds;
      tmp := tmp[d := tmp[d] - 1];
      if tmp[d] == 0 {
        freed := freed + [d];
      }
    }
    assert ds[..|ds|] == ds;
  }

  lemma EntriesLeft(ds: seq<nat>, k: nat)
    requires k < |ds|
    ensures multiset(ds)[ds[k]] >= multiset(ds[..k])[ds[k]] + 1
    ensures forall d :: d in ds[..k + 1] <==> d in ds[..k] || d == ds[k]
  {
    assert ds == ds[..k] + [ds[k]] + ds[k + 1..];
  }

  lemma DrainStarts(g: OpGraph, tmp: seq<int>, queue: seq<nat>)
    requires GraphOk(g) && |tmp| == |g.deps|
    requires forall i :: 0 <= i < |tmp| ==> tmp[i] == |g.deps[i]|
    requires forall x: nat :: x in queue <==> x < |tmp| && tmp[x] == 0
    requires forall a, b :: 0 <= a < b < |queue| ==> queue[a] != queue[b]
    ensures Draining(g, tmp, queue, [])
  {
    assert [] + queue == queue;
    assert Below(|tmp|) - Taken([]) == Below(|tmp|);
    forall i | 0 <= i < |tmp| ensures tmp[i] == CountIn(g.deps[i], Below(|tmp|)) {
      CountInAll(g.deps[i], Below(|tmp|));
    }
  }

  /** The next node to pop has not been counted yet, so its entries are still in every counter. */
  lemma EntriesStillCounted(g: OpGraph, tmp: seq<int>, queue: seq<nat>, done: seq<nat>, d: nat)
    requires GraphOk(g) && Draining(g, tmp, queue, done) && queue != [] && queue[0] < |g.deps| && d < |tmp|
    ensures tmp[d] >= multiset(g.dependents[queue[0]])[d]
  {
    var x := queue[0];
    forall a | 0 <= a < |done| ensures done[a] != x {
      assert (done + queue)[a] == done[a] && (done + queue)[|done|] == x;
    }
    CountInRemove(g.deps[d], Below(|g.deps|) - Taken(done), x);
  }

  lemma {:induction false} DistinctFits(s: seq<nat>, S: set<nat>)
    requires forall a, b :: 0 <= a < b < |s| ==> s[a] != s[b]
    requires forall x :: x in s ==> x in S
    ensures |s| <= |S|
    ensures |s| == |S| ==> forall x :: x in S ==> x in s
    decreases |s|
  {
    if s != [] {
      var t := s[..|s| - 1];
      DistinctFits(t, S - {s[|s| - 1]});
      assert s == t + [s[|s| - 1]];
    }
  }

  lemma {:induction false} BelowSize(n: nat)
    ensures |Below(n)| == n
    decreases n
  {
    if n > 0 {
      BelowSize(n - 1);
    }
  }

  lemma DoneFits(g: OpGraph, tmp: seq<int>, queue: seq<nat>, done: seq<nat>)
    requires GraphOk(g) && Draining(g, tmp, queue, done)
    ensures |done| <= |g.deps|
    ensures |done| == |g.deps| ==> forall x: nat :: x < |g.deps| ==> x in done
  {
    forall a | 0 <= a < |done| ensures done[a] in Below(|g.deps|) {
      assert (done + queue)[a] == done[a];
      assert done[a] in done + queue;
    }
    forall a, b | 0 <= a < b < |done| ensures done[a] != done[b] {
      assert (done + queue)[a] != (done + queue)[b];
    }
    BelowSize(|g.deps|);
    DistinctFits(done, Below(|g.deps|));
  }

  /** When the queue is empty, the popped nodes are all of them if and only if there is no cycle. */
  lemma DrainVerdict(g: OpGraph, tmp: seq<int>, done: seq<nat>)
    requires GraphOk(g) && Draining(g, tmp, [], done)
    ensures |done| == |g.deps| <==> Acyclic(DepEdges(g.deps))
  {
    var n, E := |g.deps|, DepEdges(g.deps);
    assert done + [] == done;
    DoneFits(g, tmp, [], done);
    if |done| == n {
      forall a | Reaches(E, a, a) ensures Cycles.FromRoots(E, Ints(done), a) {
        var c := ReachesFirstEdge(E, a, a);
        assert a in done;
        var k :| 0 <= k < |done| && done[k] == a;
        assert Ints(done)[k] == a;
      }
      Cycles.FinishOrderExcludesCycles(E, Ints(done), Ints(done));
    } else if Acyclic(E) {
      LeftoverHasMinimal(g, tmp, done);
    }
  }

  /** In an acyclic graph a leftover node without leftover dependencies would have been popped. */
  lemma LeftoverHasMinimal(g: OpGraph, tmp: seq<int>, done: seq<nat>)
    requires GraphOk(g) && Draining(g, tmp, [], done) && Acyclic(DepEdges(g.deps))
    ensures |done| == |g.deps|
  {
    var n, E := |g.deps|, DepEdges(g.deps);
    assert done + [] == done;
    var W := set i: int | 0 <= i < n && i !in done;
    if W == {} {
      forall a, b | 0 <= a < b < |done| ensures done[a] != done[b] {
        assert (done + [])[a] != (done + [])[b];
      }
      BelowSize(n);
      CoverFits(Below(n), done);
      DoneFits(g, tmp, [], done);
    } else {
      var R := Reversed(E);
      ReversedAcyclic(E);
      var m := MinimalExists(R, W);
      var d := LeftoverBlocked(g, tmp, done, m);
    }
  }

  /** A node that was not popped depends on another one that was not. */
  lemma LeftoverBlocked(g: OpGraph, tmp: seq<int>, done: seq<nat>, m: nat) returns (d: nat)
    requires GraphOk(g) && Draining(g, tmp, [], done) && m < |g.deps| && m !in done
    ensures d < |g.deps| && d !in done
    ensures (d as int, m as int) in Reversed(DepEdges(g.deps))
  {
    assert done + [] == done;
    var open := Below(|g.deps|) - Taken(done);
    CountInZero(g.deps[m], open);
    d :| d in g.deps[m] && d in open;
    var k :| 0 <= k < |g.deps[m]| && g.deps[m][k] == d;
    assert (m as int, d as int) in DepEdges(g.deps);
  }

  lemma {:induction false} CoverFits(S: set<nat>, s: seq<nat>)
    requires forall x :: x in S ==> x in s
    ensures |S| <= |s|
    decreases |s|
  {
    if s != [] {
      CoverFits(S - {s[0]}, s[1..]);
    } else {
      assert S == {};
    }
  }

  /** Freed nodes are new to the queue. */
  lemma FreedAreNew(base: seq<nat>, freed: seq<nat>)
    requires NoDuplicates(base) && NoDuplicates(freed)
    requires forall x :: x in freed ==> x !in base
    ensures NoDuplicates(base + freed)
  {
    var all := base + freed;
    forall a, b | 0 <= a < b < |all| ensures all[a] != all[b] {
      if a < |base| <= b {
        assert base[a] in base && freed[b - |base|] in freed;
      }
    }
  }

  /** Counting down the dependents of x keeps the counters right. */
  lemma CountersAfterPop(g: OpGraph, tmp: seq<int>, done: seq<nat>, x: nat, tmp': seq<int>)
    requires GraphOk(g) && |tmp| == |tmp'| == |g.deps| && x < |g.deps| && x !in done
    requires forall i :: 0 <= i < |tmp| ==> tmp[i] == CountIn(g.deps[i], Below(|g.deps|) - Taken(done))
    requires forall d :: 0 <= d < |tmp| ==> tmp'[d] == tmp[d] - multiset(g.dependents[x])[d]
    ensures forall i :: 0 <= i < |tmp| ==> tmp'[i] == CountIn(g.deps[i], Below(|g.deps|) - Taken(done + [x]))
  {
    var open := Below(|g.deps|) - Taken(done);
    assert Below(|g.deps|) - Taken(done + [x]) == open - {x};
    forall i | 0 <= i < |tmp| ensures tmp'[i] == CountIn(g.deps[i], open - {x}) {
      CountInRemove(g.deps[i], open, x);
    }
  }

  /** A node whose counter is zero has all its dependencies popped, so it may finish next. */
  lemma PoppedMayFinish(g: OpGraph, done: seq<nat>, x: nat)
    requires GraphOk(g) && x < |g.deps| && x !in done
    requires CountIn(g.deps[x], Below(|g.deps|) - Taken(done)) == 0
    requires Cycles.FinishOrder(DepEdges(g.deps), Ints(done))
    ensures Cycles.FinishOrder(DepEdges(g.deps), Ints(done + [x]))
  {
    CountInZero(g.deps[x], Below(|g.deps|) - Taken(done));
    forall y | (x as int, y) in DepEdges(g.deps) ensures y in Ints(done) {
      var k :| 0 <= k < |g.deps[x]| && g.deps[x][k] as int == y;
      assert g.deps[x][k] in g.deps[x];
      assert g.deps[x][k] in Taken(done);
      var a :| 0 <= a < |done| && done[a] == g.deps[x][k];
      assert Ints(done)[a] == y;
    }
    Cycles.FinishOrderExtends(DepEdges(g.deps), Ints(done), x);
    assert Ints(done + [x]) == Ints(done) + [x];
  }

  /** Popping n and counting down its dependents keeps the drain invariant. */
  lemma PopKeepsDraining(g: OpGraph, tmp: seq<int>, queue: seq<nat>, done: seq<nat>, tmp': seq<int>, freed: seq<nat>)
    requires GraphOk(g) && Draining(g, tmp, queue, done) && queue != [] && queue[0] < |g.deps|
    requires |tmp'| == |tmp|
    requires forall d :: 0 <= d < |tmp| ==> tmp'[d] == tmp[d] - multiset(g.dependents[queue[0]])[d]
    requires forall d :: d in freed <==> d in g.dependents[queue[0]] && d < |tmp| && tmp'[d] == 0
    requires NoDuplicates(freed)
    ensures Draining(g, tmp', queue[1..] + freed, done + [queue[0]])
  {
    var n, x, base := |g.deps|, queue[0], done + queue;
    assert base[|done|] == x && x in base;
    forall a | 0 <= a < |done| ensures done[a] != x {
      assert base[a] == done[a];
    }
    assert done + [x] + (queue[1..] + freed) == base + freed;
    hide CountIn, Below, Taken, Cycles.FinishOrder;
    CountersAfterPop(g, tmp, done, x, tmp');
    PoppedMayFinish(g, done, x);
    forall i | i in freed ensures i !in base {
      assert multiset(g.dependents[x])[i] > 0;
    }
    FreedAreNew(base, freed);
    forall i ensures i in base + freed <==> 0 <= i < n && tmp'[i] == 0 {
      if 0 <= i < n {
        assert i in g.dependents[x] <==> multiset(g.dependents[x])[i] > 0;
      }
    }
  }

  /** The drain pops every node exactly when the dependency graph has no cycle. */
  method DrainQueue(g: OpGraph) returns (visited: nat)
    requires GraphOk(g)
    ensures visited <= |g.deps|
    ensures visited == |g.deps| <==> Acyclic(DepEdges(g.deps))
  {
    var n := |g.deps|;
    var tmp := seq(n, i requires 0 <= i < n => |g.deps[i]|);
    var queue: seq<nat> := [];
    for i := 0 to n
      invariant forall x: nat :: x in queue <==> x < i && tmp[x] == 0
      invariant forall a, b :: 0 <= a < b < |queue| ==> queue[a] != queue[b]
    {
      if tmp[i] == 0 {
        queue := queue + [i];
      }
    }
    visited := 0;
    ghost var done: seq<nat> := [];
    DrainStarts(g, tmp, queue);
    while |queue| > 0
      invariant Draining(g, tmp, queue, done) && visited == |done|
      invariant |done| <= n
      decreases n - |done|
    {
      var x := queue[0];
      assert x in done + queue;
      forall d | 0 <= d < n ensures tmp[d] as int >= multiset(g.dependents[x])[d] {
        EntriesStillCounted(g, tmp, queue, done, d);
      }
      var tmp', freed := CountDown(g.dependents[x], tmp);
      PopKeepsDraining(g, tmp, queue, done, tmp', freed);
      queue, tmp, visited := queue[1..] + freed, tmp', visited + 1;
      done := done + [x];
      DoneFits(g, tmp, queue, done);
    }
    DrainVerdict(g, tmp, done);
  }

  // Building the graph
  // ---------------------------------------------------------------------------

  ghost predicate AllKnown<Op(!new)>(ops: seq<Op>, dependsOn: Op -> seq<Op>) {
    forall op, d :: op in ops && d in dependsOn(op) ==> d in ops
  }

  ghost function PositionOf<Op(!new)>(ops: seq<Op>, op: Op): (i: nat)
    requires op in ops
    ensures i < |ops| && ops[i] == op
  {
    var i :| 0 <= i < |ops| && ops[i] == op;
    i
  }

  ghost function DepPositions<Op(!new)>(ops: seq<Op>, dependsOn: Op -> seq<Op>, op: Op): (ps: seq<nat>)
    requires AllKnown(ops, dependsOn) && op in ops
    ensures |ps| == |dependsOn(op)|
    ensures forall k :: 0 <= k < |ps| ==> ps[k] < |ops| && ops[ps[k]] == dependsOn(op)[k]
  {
    var ds := dependsOn(op);
    seq(|ds|, k requires 0 <= k < |ds| => PositionOf(ops, ds[k]))
  }

  /** The dependency lists of a step whose ops are distinct and all known, as node positions. */
  ghost function StepDeps<Op(!new)>(ops: seq<Op>, dependsOn: Op -> seq<Op>): (deps: seq<seq<nat>>)
    requires AllKnown(ops, dependsOn)
    ensures |deps| == |ops|
    ensures forall i :: 0 <= i < |ops| ==> deps[i] == DepPositions(ops, dependsOn, ops[i])
  {
    seq(|ops|, i requires 0 <= i < |ops| => DepPositions(ops, dependsOn, ops[i]))
  }

  /** One dependency entry, recorded in both directions. */
  function Link(g: OpGraph, i: nat, j: nat): OpGraph
    requires i < |g.deps| && j < |g.dependents|
  {
    OpGraph(g.deps[i := g.deps[i] + [j]], g.dependents[j := g.dependents[j] + [i]])
  }

  lemma LinkKeepsGraph(g: OpGraph, i: nat, j: nat)
    requires GraphOk(g) && i < |g.deps| && j < |g.deps|
    ensures GraphOk(Link(g, i, j))
  {
    var h := Link(g, i, j);
    forall a, x | 0 <= a < |h.deps| && x in h.deps[a] ensures x < |h.deps| {
      assert x in g.deps[a] || x == j;
    }
    forall a, x | 0 <= a < |h.dependents| && x in h.dependents[a] ensures x < |h.deps| {
      assert x in g.dependents[a] || x == i;
    }
  }

  /** The position index, unless an op is listed twice. */
  method IndexOps<Op(==, !new)>(ops: seq<Op>) returns (byOp: map<Op, nat>, dup: bool)
    ensures dup <==> !NoDuplicates(ops)
    ensures !dup ==> forall op :: op in byOp <==> op in ops
    ensures !dup ==> forall op :: op in byOp ==> byOp[op] < |ops| && ops[byOp[op]] == op
  {
    byOp := map[];
    for i := 0 to |ops|
      invariant forall op :: op in byOp <==> op in ops[..i]
      invariant forall op :: op in byOp ==> byOp[op] < i && ops[byOp[op]] == op
      invariant NoDuplicates(ops[..i])
    {
      if ops[i] in byOp {
        assert ops[byOp[ops[i]]] == ops[i];
        return byOp, true;
      }
      assert ops[..i + 1] == ops[..i] + [ops[i]];
      byOp := byOp[ops[i] := i];
    }
    assert ops[..|ops|] == ops;
    dup := false;
  }

  /** Links node i to its dependencies, unless one of them is not in the step. */
  method LinkDeps<Op(==, !new)>(g0: OpGraph, i: nat, ds: seq<Op>, byOp: map<Op, nat>)
    returns (g: OpGraph, unknown: bool)
    requires GraphOk(g0) && i < |g0.deps| && g0.deps[i] == []
    requires forall op :: op in byOp ==> byOp[op] < |g0.deps|
    ensures unknown <==> exists d :: d in ds && d !in byOp
    ensures !unknown ==> GraphOk(g) && |g.deps| == |g0.deps| && |g.deps[i]| == |ds|
    ensures !unknown ==> forall k :: 0 <= k < |ds| ==> ds[k] in byOp && g.deps[i][k] == byOp[ds[k]]
    ensures !unknown ==> forall a :: 0 <= a < |g.deps| && a != i ==> g.deps[a] == g0.deps[a]
  {
    g := g0;
    for k := 0 to |ds|
      invariant GraphOk(g) && |g.deps| == |g0.deps| && |g.deps[i]| == k
      invariant forall l :: 0 <= l < k ==> ds[l] in byOp && g.deps[i][l] == byOp[ds[l]]
      invariant forall a :: 0 <= a < |g.deps| && a != i ==> g.deps[a] == g0.deps[a]
    {
      if ds[k] !in byOp {
        return g, true;
      }
      LinkKeepsGraph(g, i, byOp[ds[k]]);
      g := Link(g, i, byOp[ds[k]]);
    }
    unknown := false;
  }

  method BuildPlan<Op(==, !new)>(ops: seq<Op>, dependsOn: Op -> seq<Op>) returns (r: PlanResult)
    ensures r.DuplicateOp? <==> !NoDuplicates(ops)
    ensures r.UnknownDependency? <==> NoDuplicates(ops) && !AllKnown(ops, dependsOn)
    ensures r.CyclicOps? <==>
      NoDuplicates(ops) && AllKnown(ops, dependsOn) && !Acyclic(DepEdges(StepDeps(ops, dependsOn)))
    ensures r.Planned? ==>
      && AllKnown(ops, dependsOn) && GraphOk(r.graph)
      && r.graph.deps == StepDeps(ops, dependsOn) && Acyclic(DepEdges(r.graph.deps))
  {
    var byOp, dup := IndexOps(ops);
    if dup {
      return DuplicateOp;
    }
    var g := OpGraph(seq(|ops|, i => []), seq(|ops|, i => []));
    for i := 0 to |ops|
      invariant GraphOk(g) && |g.deps| == |ops|
      invariant forall a :: i <= a < |ops| ==> g.deps[a] == []
      invariant forall a, d :: 0 <= a < i && d in dependsOn(ops[a]) ==> d in ops
      invariant forall a :: 0 <= a < i ==> |g.deps[a]| == |dependsOn(ops[a])|
      invariant forall a, k :: 0 <= a < i && 0 <= k < |g.deps[a]| ==>
        g.deps[a][k] < |ops| && ops[g.deps[a][k]] == dependsOn(ops[a])[k]
    {
      var g', unknown := LinkDeps(g, i, dependsOn(ops[i]), byOp);
      if unknown {
        return UnknownDependency;
      }
      g := g';
    }
    assert AllKnown(ops, dependsOn);
    SameDeps(ops, dependsOn, g.deps);
    var visited := DrainQueue(g);
    r := if visited != |ops| then CyclicOps else Planned(g);
  }

  lemma SameDeps<Op(!new)>(ops: seq<Op>, dependsOn: Op -> seq<Op>, deps: seq<seq<nat>>)
    requires NoDuplicates(ops) && AllKnown(ops, dependsOn) && |deps| == |ops|
    requires forall a :: 0 <= a < |ops| ==> |deps[a]| == |dependsOn(ops[a])|
    requires forall a, k :: 0 <= a < |ops| && 0 <= k < |deps[a]| ==>
      deps[a][k] < |ops| && ops[deps[a][k]] == dependsOn(ops[a])[k]
    ensures deps == StepDeps(ops, dependsOn)
  {
    forall a | 0 <= a < |ops| ensures deps[a] == StepDeps(ops, dependsOn)[a] {
      assert forall k :: 0 <= k < |deps[a]| ==> deps[a][k] == DepPositions(ops, dependsOn, ops[a])[k];
    }
  }
}
