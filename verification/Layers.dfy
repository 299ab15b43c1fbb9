/** Two layerings of a dependency graph: Kahn waves for rendering a plan (internal/render/dag/dag.go) and
    memoised depths for scheduling deploys (kahnLevels, depthOf in internal/engine/deploy_graph.go).
    Both put a node at the length of the longest dependency chain below it. */
module Layers {
  import opened Graph
  import opened Ordering
  import opened OpPlan
  import Cycles

  // Longest chains
  // ---------------------------------------------------------------------------

  /** A dependency chain of k edges that starts at i. */
  ghost predicate Chain(E: set<(int, int)>, i: int, p: seq<int>, k: nat) {
    IsPath(E, p) && p[0] == i && |p| == k + 1
  }

  /** The longest dependency chain below i has k edges. */
  ghost predicate ChainLength(E: set<(int, int)>, i: int, k: nat) {
    && (exists p :: Chain(E, i, p, k))
    && (forall p, m: nat :: Chain(E, i, p, m) ==> m <= k)
  }

  lemma ChainLengthUnique(E: set<(int, int)>, i: int, k: nat, m: nat)
    requires ChainLength(E, i, k) && ChainLength(E, i, m)
    ensures k == m
  {
    var p :| Chain(E, i, p, k);
    var q :| Chain(E, i, q, m);
  }

  /** The successor a chain goes through, and the rest of the chain. */
  lemma ChainTail(E: set<(int, int)>, i: int, p: seq<int>, k: nat)
    requires Chain(E, i, p, k) && k > 0
    ensures (i, p[1]) in E && Chain(E, p[1], p[1..], k - 1)
  {
    assert (p[0], p[1]) in E;
    PathSuffix(E, p, 1);
  }

  lemma ChainCons(E: set<(int, int)>, i: int, j: int, p: seq<int>, k: nat)
    requires (i, j) in E && Chain(E, j, p, k)
    ensures Chain(E, i, [i] + p, k + 1)
  {
    var q := [i] + p;
    forall a | 0 <= a < |q| - 1 ensures (q[a], q[a + 1]) in E {
      if a > 0 {
        assert q[a] == p[a - 1] && q[a + 1] == p[a];
        assert (p[a - 1], p[a - 1 + 1]) in E;
      }
    }
  }

  /** One more than the longest chain of the deepest successor; zero without successors. */
  lemma ChainLengthStep(E: set<(int, int)>, i: int, k: nat)
    requires forall j :: (i, j) in E ==> exists m: nat :: m < k && ChainLength(E, j, m)
    requires k > 0 ==> exists j :: (i, j) in E && ChainLength(E, j, k - 1)
    ensures ChainLength(E, i, k)
  {
    if k == 0 {
      assert Chain(E, i, [i], 0);
    } else {
      var j :| (i, j) in E && ChainLength(E, j, k - 1);
      var p :| Chain(E, j, p, k - 1);
      ChainCons(E, i, j, p, k - 1);
    }
    forall p, m: nat | Chain(E, i, p, m) ensures m <= k {
      if m > 0 {
        ChainTail(E, i, p, m);
        var n: nat :| n < k && ChainLength(E, p[1], n);
      }
    }
  }

  /** The nodes of a graph with n nodes at layer k. */
  ghost function LayerNodes(E: set<(int, int)>, n: nat, k: nat): (s: set<nat>)
    ensures forall i: nat :: i in s <==> i < n && ChainLength(E, i, k)
  {
    set i: nat | i in Below(n) && ChainLength(E, i, k)
  }

  /** The layering: layer k lists, in ascending order, the nodes whose longest chain has k edges. */
  ghost predicate Layered(E: set<(int, int)>, n: nat, layers: seq<seq<nat>>) {
    && (forall k: nat :: k < |layers| ==>
          Increasing(layers[k]) && forall i: nat :: i in layers[k] <==> i in LayerNodes(E, n, k))
    && (forall k: nat :: k < |layers| ==> layers[k] != [])
    && (forall i: nat, k: nat :: i < n && ChainLength(E, i, k) ==> k < |layers|)
  }

  /** There is only one such layering. */
  lemma LayeringUnique(E: set<(int, int)>, n: nat, a: seq<seq<nat>>, b: seq<seq<nat>>)
    requires Layered(E, n, a) && Layered(E, n, b)
    ensures a == b
  {
    LayeringNoLonger(E, n, a, b);
    LayeringNoLonger(E, n, b, a);
    forall k | 0 <= k < |a| ensures a[k] == b[k] {
      IncreasingUnique(a[k], b[k]);
    }
  }

  lemma LayeringNoLonger(E: set<(int, int)>, n: nat, a: seq<seq<nat>>, b: seq<seq<nat>>)
    requires Layered(E, n, a) && Layered(E, n, b)
    ensures |a| <= |b|
  {
    if |a| > 0 {
      var k := |a| - 1;
      assert a[k] != [];
      assert a[k][0] in a[k];
    }
  }

  // Kahn waves
  // ---------------------------------------------------------------------------

  /** The children lists of the source, next to the dependency lists. */
  method ChildLists(deps: seq<seq<nat>>) returns (g: OpGraph)
    requires InRange(deps, |deps|)
    ensures GraphOk(g) && g.deps == deps
  {
    g := OpGraph(seq(|deps|, i => []), seq(|deps|, i => []));
    for i := 0 to |deps|
      invariant GraphOk(g) && |g.deps| == |deps|
      invariant forall a :: 0 <= a < |deps| ==> g.deps[a] == if a < i then deps[a] else []
    {
      for k := 0 to |deps[i]|
        invariant GraphOk(g) && |g.deps| == |deps|
        invariant g.deps[i] == deps[i][..k]
        invariant forall a :: 0 <= a < |deps| && a != i ==> g.deps[a] == if a < i then deps[a] else []
      {
        assert deps[i][k] in deps[i];
        assert deps[i][..k + 1] == deps[i][..k] + [deps[i][k]];
        LinkKeepsGraph(g, i, deps[i][k]);
        g := Link(g, i, deps[i][k]);
      }
      assert deps[i][..|deps[i]|] == deps[i];
    }
  }

  /** Counters count the dependency entries that are not done. */
  ghost predicate Counts(g: OpGraph, inDegree: seq<int>, done: set<nat>)
    requires GraphOk(g)
  {
    && |inDegree| == |g.deps|
    && forall i :: 0 <= i < |inDegree| ==> inDegree[i] == CountIn(g.deps[i], Below(|g.deps|) - done)
  }

  /** One wave: every ready node releases its children; next holds those that reach zero. */
  method Wave(g: OpGraph, inDegree0: seq<int>, ready: seq<nat>, ghost done: set<nat>)
    returns (inDegree: seq<int>, next: seq<nat>)
    requires GraphOk(g) && Counts(g, inDegree0, done) && Increasing(ready)
    requires forall i :: i in ready ==> i < |g.deps| && i !in done
    ensures Counts(g, inDegree, done + Taken(ready))
    ensures forall d: nat :: d in next <==> d < |inDegree| && inDegree[d] == 0 && inDegree0[d] != 0
  {
    inDegree, next := inDegree0, [];
    assert done + Taken(ready[..0]) == done;
    for m := 0 to |ready|
      invariant Counts(g, inDegree, done + Taken(ready[..m]))
      invariant forall d :: 0 <= d < |inDegree| ==> inDegree[d] <= inDegree0[d]
      invariant forall d: nat :: d in next <==> d < |inDegree| && inDegree[d] == 0 && inDegree0[d] != 0
    {
      var x := ready[m];
      ghost var open := Below(|g.deps|) - (done + Taken(ready[..m]));
      assert x in ready && x in open;
      assert ready[..m + 1] == ready[..m] + [x];
      assert Below(|g.deps|) - (done + Taken(ready[..m + 1])) == open - {x};
      forall d | 0 <= d < |g.deps|
        ensures CountIn(g.deps[d], open - {x}) == inDegree[d] - multiset(g.dependents[x])[d]
      {
        CountInRemove(g.deps[d], open, x);
      }
      var before := inDegree;
      var freed: seq<nat>;
      inDegree, freed := CountDown(g.dependents[x], before);
      FreedThisTurn(g.dependents[x], before, inDegree, freed);
      next := next + freed;
    }
    assert ready[..|ready|] == ready;
  }

  lemma FreedThisTurn(ds: seq<nat>, before: seq<int>, now: seq<int>, freed: seq<nat>)
    requires |now| == |before| && forall d :: d in ds ==> d < |before|
    requires forall d :: 0 <= d < |before| ==> now[d] == before[d] - multiset(ds)[d] && now[d] >= 0
    requires forall d :: d in freed <==> d in ds && d < |before| && now[d] == 0
    ensures forall d: nat :: d < |before| ==> (d in freed <==> now[d] == 0 && before[d] != 0)
  {
    forall d: nat | d < |before| ensures d in freed <==> now[d] == 0 && before[d] != 0 {
      assert d in ds <==> multiset(ds)[d] > 0;
    }
  }

  /** Between waves: w layers are complete, and the ready nodes are exactly the next one. */
  ghost predicate Waving(g: OpGraph, inDegree: seq<int>, ready: seq<nat>, layers: seq<seq<nat>>, done: set<nat>)
    requires GraphOk(g)
  {
    var E, n := DepEdges(g.deps), |g.deps|;
    && Counts(g, inDegree, done)
    && Increasing(ready)
    && (forall i: nat :: i in ready <==> i in LayerNodes(E, n, |layers|))
    && (forall i: nat :: i in done <==> i < n && exists k: nat :: k < |layers| && ChainLength(E, i, k))
    && (forall k: nat :: k < |layers| ==>
          layers[k] != [] && Increasing(layers[k]) && forall i: nat :: i in layers[k] <==> i in LayerNodes(E, n, k))
  }

  lemma DepEntry(deps: seq<seq<nat>>, i: nat, j: int)
    requires i < |deps|
    ensures (i as int, j) in DepEdges(deps) <==> exists d :: d in deps[i] && d as int == j
  {
    if (i as int, j) in DepEdges(deps) {
      var k :| 0 <= k < |deps[i]| && deps[i][k] as int == j;
      assert deps[i][k] in deps[i];
    }
    if d :| d in deps[i] && d as int == j {
      var k :| 0 <= k < |deps[i]| && deps[i][k] == d;
    }
  }

  /** With w layers done, a node has chain length w exactly when all its dependencies are done and it
      is not. Counters say that as: zero now, but not done. */
  lemma NextLayer(g: OpGraph, w: nat, done: set<nat>, i: nat)
    requires GraphOk(g) && i < |g.deps|
    requires forall d: nat ::
      d in done <==> d < |g.deps| && exists k: nat :: k < w && ChainLength(DepEdges(g.deps), d, k)
    ensures ChainLength(DepEdges(g.deps), i, w) <==>
      i !in done && CountIn(g.deps[i], Below(|g.deps|) - done) == 0
  {
    var E := DepEdges(g.deps);
    CountInZero(g.deps[i], Below(|g.deps|) - done);
    if ChainLength(E, i, w) {
      forall k: nat | ChainLength(E, i, k) ensures k == w {
        ChainLengthUnique(E, i, k, w);
      }
      forall d | d in g.deps[i] ensures d in done {
        DepEntry(g.deps, i, d);
        DependencyIsShorter(g.deps, i, w, d);
      }
    }
    if i !in done && CountIn(g.deps[i], Below(|g.deps|) - done) == 0 {
      var node: int := i;
      forall j | (node, j) in E ensures exists m: nat :: m < w && ChainLength(E, j, m) {
        DepEntry(g.deps, i, j);
      }
      var last := w - 1;
      if w > 0 && !exists j :: (node, j) in E && ChainLength(E, j, last) {
        NotDoneIsDeep(E, node, w);
      }
      ChainLengthStep(E, node, w);
    }
  }

  /** If all successors are shorter than w, so short that w - 1 does not occur, then i is shorter than w. */
  lemma NotDoneIsDeep(E: set<(int, int)>, i: int, w: nat)
    requires forall j :: (i, j) in E ==> exists m: nat :: m < w && ChainLength(E, j, m)
    requires forall j :: (i, j) in E ==> !ChainLength(E, j, w - 1)
    requires w > 0
    ensures exists k: nat :: k < w && ChainLength(E, i, k)
    decreases w
  {
    if w == 1 || exists j :: (i, j) in E && ChainLength(E, j, w - 2) {
      ChainLengthStep(E, i, w - 1);
    } else {
      NotDoneIsDeep(E, i, w - 1);
    }
  }

  /** A successor of a node with chain length w has a chain length below w. */
  lemma SuccessorIsShorter(E: set<(int, int)>, i: int, j: int, w: nat)
    requires (i, j) in E && ChainLength(E, i, w)
    ensures exists k: nat :: k < w && ChainLength(E, j, k)
  {
    forall p, m: nat | Chain(E, j, p, m) ensures m < w {
      ChainCons(E, i, j, p, m);
    }
    BoundedHasLength(E, j, w);
  }

  lemma DependencyIsShorter(deps: seq<seq<nat>>, i: nat, w: nat, d: nat)
    requires InRange(deps, |deps|) && i < |deps| && d in deps[i]
    requires ChainLength(DepEdges(deps), i, w)
    ensures d < |deps| && exists k: nat :: k < w && ChainLength(DepEdges(deps), d, k)
  {
    DepEntry(deps, i, d);
    SuccessorIsShorter(DepEdges(deps), i, d, w);
  }

  /** Chains of bounded length have a longest one. */
  lemma BoundedHasLength(E: set<(int, int)>, i: int, w: nat)
    requires forall p, m: nat :: Chain(E, i, p, m) ==> m < w
    ensures exists k: nat :: k < w && ChainLength(E, i, k)
    decreases w
  {
    assert Chain(E, i, [i], 0);
    var last := w - 1;
    if p :| Chain(E, i, p, last) {
      assert ChainLength(E, i, last);
    } else {
      BoundedHasLength(E, i, w - 1);
    }
  }

  /** A node that sits deeper than every complete layer has a node of each smaller depth below it. */
  lemma {:induction false} EveryDepthOccurs(deps: seq<seq<nat>>, i: nat, k: nat, w: nat) returns (d: nat)
    requires InRange(deps, |deps|) && i < |deps| && w <= k
    requires ChainLength(DepEdges(deps), i, k)
    ensures d < |deps| && ChainLength(DepEdges(deps), d, w)
    decreases k
  {
    if k == w {
      d := i;
    } else {
      var E := DepEdges(deps);
      var p :| Chain(E, i, p, k);
      ChainTail(E, i, p, k);
      var e: nat :| e < |deps[i]| && deps[i][e] as int == p[1];
      assert deps[i][e] in deps[i];
      DependencyIsShorter(deps, i, k, deps[i][e]);
      var m: nat :| m < k && ChainLength(E, p[1], m);
      d := EveryDepthOccurs(deps, deps[i][e], k - 1, w);
    }
  }

  lemma WavesStart(g: OpGraph, inDegree: seq<int>, ready: seq<nat>)
    requires GraphOk(g) && |inDegree| == |g.deps|
    requires forall i :: 0 <= i < |inDegree| ==> inDegree[i] == |g.deps[i]|
    requires Increasing(ready) && forall i: nat :: i in ready <==> i < |inDegree| && inDegree[i] == 0
    ensures Waving(g, inDegree, ready, [], {})
  {
    var n := |g.deps|;
    assert Below(n) - {} == Below(n);
    forall i: nat | i < n
      ensures inDegree[i] == CountIn(g.deps[i], Below(n) - {})
      ensures i in ready <==> ChainLength(DepEdges(g.deps), i, 0)
    {
      CountInAll(g.deps[i], Below(n));
      NextLayer(g, 0, {}, i);
    }
  }

  /** The freed children of one layer are the next layer. */
  lemma WaveAdvances(g: OpGraph, inDegree: seq<int>, ready: seq<nat>, layers: seq<seq<nat>>, done: set<nat>,
                     inDegree': seq<int>, ready': seq<nat>)
    requires GraphOk(g) && Waving(g, inDegree, ready, layers, done) && ready != []
    requires Counts(g, inDegree', done + Taken(ready))
    requires Increasing(ready')
    requires forall d: nat :: d in ready' <==> d < |inDegree| && inDegree'[d] == 0 && inDegree[d] != 0
    ensures Waving(g, inDegree', ready', layers + [ready], done + Taken(ready))
  {
    var E, n, w := DepEdges(g.deps), |g.deps|, |layers|;
    var layers', done' := layers + [ready], done + Taken(ready);
    forall i: nat ensures i in done' <==> i < n && exists k: nat :: k < w + 1 && ChainLength(E, i, k) {
      if i in done {
        var k: nat :| k < w && ChainLength(E, i, k);
        assert k < w + 1;
      } else if i < n && exists k: nat :: k < w + 1 && ChainLength(E, i, k) {
        var k: nat :| k < w + 1 && ChainLength(E, i, k);
        assert k == w;
      }
    }
    forall i: nat | i < n ensures i in ready' <==> ChainLength(E, i, w + 1) {
      NextLayer(g, w, done, i);
      NextLayer(g, w + 1, done', i);
      if i in done {
        var k: nat :| k < w && ChainLength(E, i, k);
        DoneStaysZero(g, done, w, i);
      }
    }
  }

  /** The counter of a node of a complete layer is zero. */
  lemma DoneStaysZero(g: OpGraph, done: set<nat>, w: nat, i: nat)
    requires GraphOk(g) && i in done
    requires forall d: nat ::
      d in done <==> d < |g.deps| && exists k: nat :: k < w && ChainLength(DepEdges(g.deps), d, k)
    ensures CountIn(g.deps[i], Below(|g.deps|) - done) == 0
  {
    var k: nat :| k < w && ChainLength(DepEdges(g.deps), i, k);
    CountInZero(g.deps[i], Below(|g.deps|) - done);
    forall d | d in g.deps[i] ensures d in done {
      DependencyIsShorter(g.deps, i, k, d);
    }
  }

  lemma WavesEnd(g: OpGraph, inDegree: seq<int>, layers: seq<seq<nat>>, done: set<nat>)
    requires GraphOk(g) && Waving(g, inDegree, [], layers, done)
    ensures Layered(DepEdges(g.deps), |g.deps|, layers)
  {
    var E, n := DepEdges(g.deps), |g.deps|;
    forall d: nat | d < n ensures !ChainLength(E, d, |layers|) {
      assert d !in LayerNodes(E, n, |layers|);
    }
    forall i: nat, k: nat | i < n && ChainLength(E, i, k) ensures k < |layers| {
      if k >= |layers| {
        var d := EveryDepthOccurs(g.deps, i, k, |layers|);
      }
    }
  }

  /** topoLayersSteps and topoLayers: the waves are the layering. A node on or above a cycle is in none. */
  method TopoLayers(deps: seq<seq<nat>>) returns (layers: seq<seq<nat>>)
    requires InRange(deps, |deps|)
    ensures Layered(DepEdges(deps), |deps|, layers)
  {
    var g := ChildLists(deps);
    var n := |deps|;
    var inDegree: seq<int> := seq(n, i requires 0 <= i < n => |deps[i]|);
    var roots: set<nat> := {};
    for i := 0 to n
      invariant forall x: nat :: x in roots <==> x < i && inDegree[x] == 0
    {
      if inDegree[i] == 0 {
        roots := roots + {i};
      }
    }
    var ready := SortKeys(roots);
    layers := [];
    ghost var done: set<nat> := {};
    WavesStart(g, inDegree, ready);
    while |ready| > 0
      invariant Waving(g, inDegree, ready, layers, done)
      decreases Below(n) - done
    {
      WaveIsFresh(g, inDegree, ready, layers, done);
      var inDegree', next := Wave(g, inDegree, ready, done);
      var ready' := SortKeys(set x | x in next);
      WaveAdvances(g, inDegree, ready, layers, done, inDegree', ready');
      assert ready[0] in ready;
      layers, done := layers + [ready], done + Taken(ready);
      ready, inDegree := ready', inDegree';
    }
    WavesEnd(g, inDegree, layers, done);
  }

  lemma WaveIsFresh(g: OpGraph, inDegree: seq<int>, ready: seq<nat>, layers: seq<seq<nat>>, done: set<nat>)
    requires GraphOk(g) && Waving(g, inDegree, ready, layers, done)
    ensures forall i :: i in ready ==> i < |g.deps| && i !in done
  {
    var E := DepEdges(g.deps);
    forall i | i in ready ensures i < |g.deps| && i !in done {
      assert i in LayerNodes(E, |g.deps|, |layers|);
      if i in done {
        var k: nat :| k < |layers| && ChainLength(E, i, k);
        ChainLengthUnique(E, i, k, |layers|);
      }
    }
  }

  // Which nodes are layered at all
  // ---------------------------------------------------------------------------

  lemma {:induction false} ShorterAlongPath(E: set<(int, int)>, p: seq<int>, k: nat, end: int)
    requires IsPath(E, p) && |p| >= 2 && p[|p| - 1] == end && ChainLength(E, p[0], k)
    ensures exists m: nat :: m < k && ChainLength(E, end, m)
    decreases |p|
  {
    assert (p[0], p[0 + 1]) in E;
    SuccessorIsShorter(E, p[0], p[1], k);
    if |p| > 2 {
      var m: nat :| m < k && ChainLength(E, p[1], m);
      PathSuffix(E, p, 1);
      ShorterAlongPath(E, p[1..], m, end);
    }
  }

  /** Without a cycle below i a chain from i repeats no node, so it is shorter than the number of nodes. */
  lemma ChainIsShort(deps: seq<seq<nat>>, i: nat, p: seq<int>, k: nat)
    requires InRange(deps, |deps|) && i < |deps| && Chain(DepEdges(deps), i, p, k)
    requires !Cycles.CycleFromRoots(DepEdges(deps), [i as int])
    ensures k < |deps|
  {
    var E := DepEdges(deps);
    forall a | 0 <= a < |p| ensures 0 <= p[a] < |deps| {
      if a > 0 {
        assert (p[a - 1], p[a - 1 + 1]) in E;
        var x, e :| 0 <= x < |deps| && 0 <= e < |deps[x]| && p[a] == deps[x][e] as int;
        assert deps[x][e] in deps[x];
      }
    }
    var q: seq<nat> := seq(|p|, a requires 0 <= a < |p| => p[a]);
    forall a, b | 0 <= a < b < |q| ensures q[a] != q[b] {
      if q[a] == q[b] {
        RepeatIsCycle(E, p, a, b);
      }
    }
    BelowSize(|deps|);
    DistinctFits(q, Below(|deps|));
  }

  lemma RepeatIsCycle(E: set<(int, int)>, p: seq<int>, a: nat, b: nat)
    requires IsPath(E, p) && a < b < |p| && p[a] == p[b]
    ensures Cycles.CycleFromRoots(E, [p[0]])
  {
    var loop := p[a..b + 1];
    forall k | 0 <= k < |loop| - 1 ensures (loop[k], loop[k + 1]) in E {
      assert (p[a + k], p[a + k + 1]) in E;
    }
    assert IsPath(E, loop);
    assert Reaches(E, p[a], p[a]);
    if a > 0 {
      var stem := p[..a + 1];
      assert IsPath(E, stem);
      assert Reaches(E, p[0], p[a]);
    }
    assert p[0] in [p[0]];
    assert Cycles.FromRoots(E, [p[0]], p[a]);
  }

  /** A node has a layer exactly when no cycle can be reached from it. */
  lemma LayeredIffNoCycleBelow(deps: seq<seq<nat>>, i: nat)
    requires InRange(deps, |deps|) && i < |deps|
    ensures (exists k: nat :: ChainLength(DepEdges(deps), i, k)) <==> !Cycles.CycleFromRoots(DepEdges(deps), [i as int])
  {
    var E, roots := DepEdges(deps), [i as int];
    if !Cycles.CycleFromRoots(E, roots) {
      forall p, m: nat | Chain(E, i, p, m) ensures m < |deps| {
        ChainIsShort(deps, i, p, m);
      }
      BoundedHasLength(E, i, |deps|);
    } else if k: nat :| ChainLength(E, i, k) {
      var x := Cycles.CycleWitness(E, roots);
      var m: nat := k;
      if x != i {
        assert Reaches(E, i, x);
        var p: seq<int> :| IsPath(E, p) && |p| >= 2 && p[0] == i && p[|p| - 1] == x;
        ShorterAlongPath(E, p, k, x);
        m :| m < k && ChainLength(E, x, m);
      }
      var q: seq<int> :| IsPath(E, q) && |q| >= 2 && q[0] == x && q[|q| - 1] == x;
      forall l: nat | ChainLength(E, x, l) ensures l == m {
        ChainLengthUnique(E, x, l, m);
      }
      ShorterAlongPath(E, q, m, x);
    }
  }

  lemma AcyclicHasLength(deps: seq<seq<nat>>, i: nat)
    requires InRange(deps, |deps|) && i < |deps| && Acyclic(DepEdges(deps))
    ensures exists k: nat :: ChainLength(DepEdges(deps), i, k)
  {
    LayeredIffNoCycleBelow(deps, i);
  }

  /** What the layering of an acyclic graph is for: every node is in exactly one layer, its dependencies
      are all in earlier layers, and one of them is in the layer just before, so no node waits too long. */
  lemma LayersRespectDependencies(deps: seq<seq<nat>>, layers: seq<seq<nat>>, i: nat)
    requires InRange(deps, |deps|) && i < |deps| && Acyclic(DepEdges(deps))
    requires Layered(DepEdges(deps), |deps|, layers)
    ensures exists k: nat :: k < |layers| && i in layers[k]
    ensures forall k: nat, m: nat :: k < |layers| && m < |layers| && i in layers[k] && i in layers[m] ==> k == m
    ensures forall k: nat, d: nat :: k < |layers| && i in layers[k] && d in deps[i] ==>
      exists m: nat :: m < k && d in layers[m]
    ensures forall k: nat :: 0 < k < |layers| && i in layers[k] ==> exists d: nat :: d in deps[i] && d in layers[k - 1]
  {
    var E := DepEdges(deps);
    AcyclicHasLength(deps, i);
    var w: nat :| ChainLength(E, i, w);
    assert i in layers[w];
    forall k: nat | k < |layers| && i in layers[k] ensures k == w {
      ChainLengthUnique(E, i, k, w);
    }
    forall d | d in deps[i] ensures exists m: nat :: m < w && d in layers[m] {
      DependencyIsShorter(deps, i, w, d);
      var m: nat :| m < w && ChainLength(E, d, m);
      assert d in layers[m];
    }
    if w > 0 {
      var p :| Chain(E, i, p, w);
      ChainTail(E, i, p, w);
      var e: nat :| e < |deps[i]| && deps[i][e] as int == p[1];
      var d := deps[i][e];
      assert d in deps[i];
      DependencyIsShorter(deps, i, w, d);
      var m: nat :| m < w && ChainLength(E, d, m);
      assert m == w - 1;
      assert d in layers[w - 1];
    }
  }

  // Memoised depths
  // ---------------------------------------------------------------------------

  /** The longest chain below a node of an acyclic graph. */
  ghost function Depth(deps: seq<seq<nat>>, i: nat): (k: nat)
    requires InRange(deps, |deps|) && i < |deps| && Acyclic(DepEdges(deps))
    ensures ChainLength(DepEdges(deps), i, k)
  {
    AcyclicHasLength(deps, i);
    var k: nat :| ChainLength(DepEdges(deps), i, k);
    k
  }

  lemma DepthIs(deps: seq<seq<nat>>, i: nat, k: nat)
    requires InRange(deps, |deps|) && i < |deps| && Acyclic(DepEdges(deps))
    requires ChainLength(DepEdges(deps), i, k)
    ensures Depth(deps, i) == k
  {
    ChainLengthUnique(DepEdges(deps), i, k, Depth(deps, i));
  }

  lemma DepthDrops(deps: seq<seq<nat>>, i: nat, d: nat)
    requires InRange(deps, |deps|) && i < |deps| && Acyclic(DepEdges(deps)) && d in deps[i]
    ensures d < |deps| && Depth(deps, d) < Depth(deps, i)
  {
    DependencyIsShorter(deps, i, Depth(deps, i), d);
    var k: nat :| k < Depth(deps, i) && ChainLength(DepEdges(deps), d, k);
    DepthIs(deps, d, k);
  }

  /** One more than the deepest dependency: the recursion of the source computes the longest chain. */
  lemma DepthByMaximum(deps: seq<seq<nat>>, i: nat, k: nat)
    requires InRange(deps, |deps|) && i < |deps| && Acyclic(DepEdges(deps))
    requires forall d :: d in deps[i] ==> Depth(deps, d) + 1 <= k
    requires k > 0 ==> exists d :: d in deps[i] && Depth(deps, d) + 1 == k
    ensures Depth(deps, i) == k
  {
    var E := DepEdges(deps);
    var node: int := i;
    forall j | (node, j) in E ensures exists m: nat :: m < k && ChainLength(E, j, m) {
      DepEntry(deps, i, j);
      var m := Depth(deps, j);
    }
    if k > 0 {
      var d :| d in deps[i] && Depth(deps, d) + 1 == k;
      DepEntry(deps, i, d);
      assert (node, d as int) in E && ChainLength(E, d, k - 1);
    }
    ChainLengthStep(E, node, k);
    DepthIs(deps, i, k);
  }

  class DepthMemo {
    const deps: seq<seq<nat>>
    var memo: map<nat, nat>

    ghost predicate Valid()
      reads this
    {
      && InRange(deps, |deps|) && Acyclic(DepEdges(deps))
      && forall i :: i in memo ==> i < |deps| && memo[i] == Depth(deps, i)
    }

    constructor (deps: seq<seq<nat>>)
      requires InRange(deps, |deps|) && Acyclic(DepEdges(deps))
      ensures Valid() && this.deps == deps && memo == map[]
    {
      this.deps, memo := deps, map[];
    }

    method DepthOf(i: nat) returns (d: nat)
      requires Valid() && i < |deps|
      modifies this
      ensures Valid() && d == Depth(deps, i)
      ensures i in memo && forall x :: x in old(memo) ==> x in memo
      decreases Depth(deps, i)
    {
      if i in memo {
        return memo[i];
      }
      d := 0;
      for k := 0 to |deps[i]|
        invariant Valid()
        invariant forall x :: x in old(memo) ==> x in memo
        invariant forall j :: 0 <= j < k ==> deps[i][j] < |deps| && Depth(deps, deps[i][j]) + 1 <= d
        invariant d > 0 ==> exists x :: x in deps[i] && Depth(deps, x) + 1 == d
      {
        assert deps[i][k] in deps[i];
        DepthDrops(deps, i, deps[i][k]);
        var c := DepthOf(deps[i][k]);
        if c + 1 > d {
          d := c + 1;
        }
      }
      DepthByMaximum(deps, i, d);
      memo := memo[i := d];
    }
  }

  /** Levels of the deploy graph: the same layering as the waves. Without nodes there is one empty level. */
  method KahnLevels(deps: seq<seq<nat>>) returns (levels: seq<seq<nat>>)
    requires InRange(deps, |deps|) && Acyclic(DepEdges(deps))
    ensures if deps == [] then levels == [[]] else Layered(DepEdges(deps), |deps|, levels)
  {
    var depths := new DepthMemo(deps);
    var maxDepth := 0;
    for i := 0 to |deps|
      invariant depths.Valid() && depths.deps == deps
      invariant forall x: nat :: x < i ==> x in depths.memo && Depth(deps, x) <= maxDepth
      invariant maxDepth > 0 ==> exists x: nat :: x < |deps| && Depth(deps, x) == maxDepth
    {
      var d := depths.DepthOf(i);
      if d > maxDepth {
        maxDepth := d;
      }
    }
    var depth := depths.memo;
    levels := seq(maxDepth + 1, k => []);
    for i := 0 to |deps|
      invariant |levels| == maxDepth + 1
      invariant deps == [] ==> levels == [[]]
      invariant forall k: nat :: k < |levels| ==> Increasing(levels[k])
      invariant forall k: nat, x: nat {:trigger x in levels[k]} :: k < |levels| ==>
        (x in levels[k] <==> x < i && Depth(deps, x) == k)
    {
      var d := depth[i];
      IncreasingAppend(levels[d], [i]);
      levels := levels[d := levels[d] + [i]];
    }
    if deps != [] {
      LevelsAreLayers(deps, levels, maxDepth);
    }
  }

  lemma LevelsAreLayers(deps: seq<seq<nat>>, levels: seq<seq<nat>>, maxDepth: nat)
    requires InRange(deps, |deps|) && Acyclic(DepEdges(deps)) && deps != []
    requires |levels| == maxDepth + 1
    requires forall x: nat :: x < |deps| ==> Depth(deps, x) <= maxDepth
    requires maxDepth > 0 ==> exists x: nat :: x < |deps| && Depth(deps, x) == maxDepth
    requires forall k: nat :: k < |levels| ==> Increasing(levels[k])
    requires forall k: nat, x: nat {:trigger x in levels[k]} :: k < |levels| ==>
      (x in levels[k] <==> x < |deps| && Depth(deps, x) == k)
    ensures Layered(DepEdges(deps), |deps|, levels)
  {
    var E := DepEdges(deps);
    forall i: nat, k: nat | i < |deps| ensures ChainLength(E, i, k) <==> Depth(deps, i) == k {
      if ChainLength(E, i, k) {
        DepthIs(deps, i, k);
      }
    }
    var top: nat := 0;
    if maxDepth > 0 {
      top :| top < |deps| && Depth(deps, top) == maxDepth;
    }
    assert Depth(deps, top) == maxDepth;
    forall k: nat | k < |levels| ensures levels[k] != [] {
      var d := EveryDepthOccurs(deps, top, maxDepth, k);
      assert Depth(deps, d) == k;
      assert d in levels[k];
    }
  }

  // Stages: what a scheduler needs to know about levels
  // ---------------------------------------------------------------------------

  /** Every node below n is in exactly one level, in ascending order, and edges lead to earlier levels. */
  ghost predicate Staged(E: set<(int, int)>, n: nat, levels: seq<seq<nat>>) {
    && (forall k: nat :: k < |levels| ==> Increasing(levels[k]))
    && (forall k: nat, i: nat :: k < |levels| && i in levels[k] ==> i < n)
    && (forall i: nat :: i < n ==> InSomeLevel(levels, i, |levels|))
    && (forall k: nat, m: nat, i: nat :: k < |levels| && m < |levels| && i in levels[k] && i in levels[m] ==> k == m)
    && (forall k: nat, i: nat, j: int :: k < |levels| && i in levels[k] && (i as int, j) in E ==>
          0 <= j && InSomeLevel(levels, j, k))
  }

  /** i is in one of the first k levels. */
  ghost predicate InSomeLevel(levels: seq<seq<nat>>, i: nat, k: nat)
    requires k <= |levels|
  {
    exists m: nat :: m < k && i in levels[m]
  }

  lemma LayeredIsStaged(deps: seq<seq<nat>>, levels: seq<seq<nat>>)
    requires InRange(deps, |deps|) && Acyclic(DepEdges(deps))
    requires Layered(DepEdges(deps), |deps|, levels)
    ensures Staged(DepEdges(deps), |deps|, levels)
  {
    var E := DepEdges(deps);
    forall i: nat | i < |deps| ensures InSomeLevel(levels, i, |levels|) {
      LayersRespectDependencies(deps, levels, i);
    }
    forall k: nat, m: nat, i: nat | k < |levels| && m < |levels| && i in levels[k] && i in levels[m] ensures k == m {
      LayersRespectDependencies(deps, levels, i);
    }
    forall k: nat, i: nat, j: int | k < |levels| && i in levels[k] && (i as int, j) in E
      ensures 0 <= j && InSomeLevel(levels, j, k)
    {
      DepEntry(deps, i, j);
      LayersRespectDependencies(deps, levels, i);
      var d: nat := j;
      assert d in deps[i];
    }
  }

  /** Paths lead to earlier levels too. */
  lemma {:induction false} StagedPath(E: set<(int, int)>, n: nat, levels: seq<seq<nat>>, p: seq<int>, k: nat)
    requires Staged(E, n, levels) && IsPath(E, p) && |p| >= 2
    requires k < |levels| && 0 <= p[0] && p[0] in levels[k]
    ensures 0 <= p[|p| - 1] && InSomeLevel(levels, p[|p| - 1], k)
    decreases |p|
  {
    var i: nat := p[0];
    assert (p[0], p[0 + 1]) in E;
    var j: int := p[1];
    assert i in levels[k] && (i as int, j) in E;
    assert 0 <= j && InSomeLevel(levels, j, k);
    if |p| > 2 {
      var d: nat := j;
      var m: nat :| m < k && d in levels[m];
      PathSuffix(E, p, 1);
      StagedPath(E, n, levels, p[1..], m);
    }
  }
}
