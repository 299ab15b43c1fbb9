/** The step dependency graph of one deploy (internal/engine/step_graph.go): resource edges,
    parent-directory edges and the linear-cost fence edges around steps without resources. */
module StepGraph {
  import opened Graph

  // Steps and their resources
  // ---------------------------------------------------------------------------

  datatype ResourceKind = PathKind | UserKind | GroupKind | RefKind | LabelKind

  datatype Resource = Resource(kind: ResourceKind, name: string)

  /** A step that does not implement StepRequires or StepProvides has the empty list. */
  datatype Step = Step(needs: seq<Resource>, supplies: seq<Resource>)

  predicate HasResources(s: Step) {
    |s.needs| > 0 || |s.supplies| > 0
  }

  /** A step that neither needs nor supplies anything is a barrier. */
  ghost predicate Barrier(steps: seq<Step>, i: int)
    requires 0 <= i < |steps|
  {
    steps[i].needs == [] && steps[i].supplies == []
  }

  /** Is p a path resource naming a proper ancestor directory of the path resource q? */
  ghost predicate ParentOf(p: Resource, q: Resource) {
    p.kind == PathKind && q.kind == PathKind && p.name + "/" <= q.name
  }

  // What the edges mean
  // ---------------------------------------------------------------------------

  /** Step i is the one the graph takes as the provider of r: the last to declare it. */
  ghost predicate Provider(steps: seq<Step>, r: Resource, i: int) {
    && 0 <= i < |steps|
    && r in steps[i].supplies
    && forall k :: i < k < |steps| ==> r !in steps[k].supplies
  }

  ghost predicate NeedEdge(steps: seq<Step>, i: int, j: int) {
    && 0 <= j < |steps|
    && i != j
    && exists r :: r in steps[j].needs && Provider(steps, r, i)
  }

  ghost predicate ParentEdge(steps: seq<Step>, i: int, j: int) {
    && 0 <= j < |steps|
    && i != j
    && exists r, q :: q in steps[j].supplies && ParentOf(r, q) && Provider(steps, r, i)
  }

  /** No barrier stands strictly between i and j. */
  ghost predicate ClearBetween(steps: seq<Step>, i: int, j: int)
    requires 0 <= i && j <= |steps|
  {
    forall k :: i < k < j ==> !Barrier(steps, k)
  }

  /** One of i and j is a barrier and they are neighbours with respect to barriers. */
  ghost predicate FenceEdge(steps: seq<Step>, i: int, j: int) {
    && 0 <= i < j < |steps|
    && (Barrier(steps, i) || Barrier(steps, j))
    && ClearBetween(steps, i, j)
  }

  /** The quadratic reading of a barrier: every earlier and every later step is ordered against it. */
  ghost predicate FullFenceEdge(steps: seq<Step>, i: int, j: int) {
    0 <= i < j < |steps| && (Barrier(steps, i) || Barrier(steps, j))
  }

  ghost function ResourceEdges(steps: seq<Step>): set<(int, int)> {
    set i, j | 0 <= i < |steps| && 0 <= j < |steps| && (NeedEdge(steps, i, j) || ParentEdge(steps, i, j)) :: (i, j)
  }

  ghost function FenceEdges(steps: seq<Step>): set<(int, int)> {
    set i, j | 0 <= i < |steps| && 0 <= j < |steps| && FenceEdge(steps, i, j) :: (i, j)
  }

  ghost function FullFenceEdges(steps: seq<Step>): set<(int, int)> {
    set i, j | 0 <= i < |steps| && 0 <= j < |steps| && FullFenceEdge(steps, i, j) :: (i, j)
  }

  ghost function StepEdges(steps: seq<Step>): set<(int, int)> {
    ResourceEdges(steps) + FenceEdges(steps)
  }

  // The fences order exactly what the quadratic barriers order
  // ---------------------------------------------------------------------------

  /** The first barrier strictly between i and j, if there is one. */
  lemma FirstBarrierBetween(steps: seq<Step>, i: int, j: int) returns (k: int)
    requires 0 <= i < j < |steps| && !ClearBetween(steps, i, j)
    ensures i < k < j && Barrier(steps, k) && ClearBetween(steps, i, k)
  {
    k := i + 1;
    while !Barrier(steps, k)
      invariant i < k < j && ClearBetween(steps, i, k)
      decreases j - k
    {
      k := k + 1;
    }
  }

  /** Every quadratic barrier edge is a path of fence edges. */
  lemma {:induction false} FullFenceIsFencePath(steps: seq<Step>, i: int, j: int)
    requires FullFenceEdge(steps, i, j)
    ensures Reaches(FenceEdges(steps), i, j)
    decreases j - i
  {
    var F := FenceEdges(steps);
    if ClearBetween(steps, i, j) {
      assert (i, j) in F;
      EdgeReaches(F, i, j);
    } else {
      var k := FirstBarrierBetween(steps, i, j);
      assert (i, k) in F;
      EdgeReaches(F, i, k);
      FullFenceIsFencePath(steps, k, j);
      ReachesTransitive(F, i, k, j);
    }
  }

  /** Whatever the other edges are, fence edges order two steps exactly when joining each barrier
      to every earlier and every later step does. */
  lemma FencesOrderLikeFullBarriers(steps: seq<Step>, R: set<(int, int)>, a: int, b: int)
    ensures Reaches(R + FenceEdges(steps), a, b) <==> Reaches(R + FullFenceEdges(steps), a, b)
  {
    var F, Q := R + FenceEdges(steps), R + FullFenceEdges(steps);
    if Reaches(F, a, b) {
      ReachesMonotone(F, Q, a, b);
    }
    if Reaches(Q, a, b) {
      forall e | e in Q ensures Reaches(F, e.0, e.1) {
        if e in R {
          EdgeReaches(F, e.0, e.1);
        } else {
          FullFenceIsFencePath(steps, e.0, e.1);
          ReachesMonotone(FenceEdges(steps), F, e.0, e.1);
        }
      }
      ReachesLifts(Q, F, a, b);
    }
  }

  /** The plan-time cycle check therefore accepts the same plans under either reading. */
  lemma FencesCloseTheSameCycles(steps: seq<Step>)
    ensures Acyclic(StepEdges(steps)) <==> Acyclic(ResourceEdges(steps) + FullFenceEdges(steps))
  {
    forall a
      ensures Reaches(StepEdges(steps), a, a) <==> Reaches(ResourceEdges(steps) + FullFenceEdges(steps), a, a)
    {
      FencesOrderLikeFullBarriers(steps, ResourceEdges(steps), a, a);
    }
  }

  /** Nothing moves across a barrier: it is ordered against every other step. */
  lemma BarrierOrdersEverything(steps: seq<Step>, b: int, k: int)
    requires 0 <= b < |steps| && 0 <= k < |steps| && k != b && Barrier(steps, b)
    ensures k < b ==> Reaches(StepEdges(steps), k, b)
    ensures b < k ==> Reaches(StepEdges(steps), b, k)
  {
    var lo, hi := if k < b then k else b, if k < b then b else k;
    FullFenceIsFencePath(steps, lo, hi);
    ReachesMonotone(FenceEdges(steps), StepEdges(steps), lo, hi);
  }

  // The fence pass is linear
  // ---------------------------------------------------------------------------

  ghost function Coordinate(e: (int, int), second: bool): int {
    if second then e.1 else e.0
  }

  /** A set of pairs whose chosen coordinate lies below n and determines the pair has at most n members. */
  lemma {:induction false} CoordinateBound(S: set<(int, int)>, n: nat, second: bool)
    requires forall e :: e in S ==> 0 <= Coordinate(e, second) < n
    requires forall e, f :: e in S && f in S && Coordinate(e, second) == Coordinate(f, second) ==> e == f
    ensures |S| <= n
    decreases n
  {
    if n == 0 {
      assert S == {};
    } else if e :| e in S && Coordinate(e, second) == n - 1 {
      CoordinateBound(S - {e}, n - 1, second);
    } else {
      CoordinateBound(S, n - 1, second);
    }
  }

  /** At most two fence edges for each step. */
  lemma FencePassIsLinear(steps: seq<Step>)
    ensures |FenceEdges(steps)| <= 2 * |steps|
  {
    var F := FenceEdges(steps);
    var fanOut := set e | e in F && Barrier(steps, e.0);
    var fanIn := set e | e in F && !Barrier(steps, e.0);
    forall e, f | e in fanOut && f in fanOut && Coordinate(e, true) == Coordinate(f, true) ensures e == f {
      assert ClearBetween(steps, e.0, e.1) && ClearBetween(steps, f.0, f.1);
    }
    forall e, f | e in fanIn && f in fanIn && Coordinate(e, false) == Coordinate(f, false) ensures e == f {
      assert ClearBetween(steps, e.0, e.1) && ClearBetween(steps, f.0, f.1);
    }
    CoordinateBound(fanOut, |steps|, true);
    CoordinateBound(fanIn, |steps|, false);
    assert F == fanOut + fanIn;
  }

  // The linked graph the engine builds
  // ---------------------------------------------------------------------------

  class StepNode {
    const step: Step
    const idx: nat
    var prereqs: seq<StepNode>     // steps that must complete before this one
    var prereqSet: set<StepNode>   // the same steps, for the duplicate test
    var waiters: seq<StepNode>     // steps that wait for this one
    var pending: int               // runtime counter for scheduling

    constructor (step: Step, idx: nat)
      ensures this.step == step && this.idx == idx
      ensures prereqs == [] && prereqSet == {} && waiters == [] && pending == 0
    {
      this.step, this.idx := step, idx;
      prereqs, prereqSet, waiters, pending := [], {}, [], 0;
    }
  }

  /** One node for each step, in order. */
  ghost predicate Numbered(nodes: seq<StepNode>, steps: seq<Step>) {
    && |nodes| == |steps|
    && forall i :: 0 <= i < |nodes| ==> nodes[i].idx == i && nodes[i].step == steps[i]
  }

  /** The lists of node i record exactly the edges of E that enter or leave i, without duplicates. */
  ghost predicate NodeMirrors(nodes: seq<StepNode>, E: set<(int, int)>, i: int)
    requires 0 <= i < |nodes|
    reads nodes
  {
    var n := nodes[i];
    && NoDuplicates(n.prereqs)
    && NoDuplicates(n.waiters)
    && n.prereqSet == (set m | m in n.prereqs)
    && (forall m :: m in n.prereqs ==> m in nodes && (m.idx, i) in E)
    && (forall m :: m in n.waiters ==> m in nodes && (i, m.idx) in E)
    && (forall e :: e in E && e.1 == i ==> 0 <= e.0 < |nodes| && nodes[e.0] in n.prereqs)
    && (forall e :: e in E && e.0 == i ==> 0 <= e.1 < |nodes| && nodes[e.1] in n.waiters)
  }

  ghost predicate Mirrors(nodes: seq<StepNode>, E: set<(int, int)>)
    reads nodes
  {
    forall i {:trigger NodeMirrors(nodes, E, i)} :: 0 <= i < |nodes| ==> NodeMirrors(nodes, E, i)
  }

  /** Adds the edge unless it is there already. */
  method AddEdge(from: StepNode, to: StepNode, ghost nodes: seq<StepNode>, ghost steps: seq<Step>,
                 ghost E: set<(int, int)>)
    requires Numbered(nodes, steps) && Mirrors(nodes, E)
    requires from in nodes && to in nodes
    modifies from, to
    ensures Mirrors(nodes, E + {(from.idx, to.idx)})
  {
    assert NodeMirrors(nodes, E, from.idx) && NodeMirrors(nodes, E, to.idx);
    ghost var E' := E + {(from.idx, to.idx)};
    if from in to.prereqSet {
      assert E' == E;
      return;
    }
    assert (from.idx, to.idx) !in E;
    to.prereqSet := to.prereqSet + {from};
    to.prereqs := to.prereqs + [from];
    from.waiters := from.waiters + [to];
    forall i | 0 <= i < |nodes| ensures NodeMirrors(nodes, E', i) {
      assert old(NodeMirrors(nodes, E, i));
    }
  }

  method NewNodes(steps: seq<Step>) returns (nodes: seq<StepNode>)
    ensures Numbered(nodes, steps) && Mirrors(nodes, {})
    ensures fresh(nodes)
  {
    nodes := [];
    for i := 0 to |steps|
      invariant Numbered(nodes, steps[..i]) && fresh(nodes)
      invariant forall n :: n in nodes ==> n.prereqs == [] && n.prereqSet == {} && n.waiters == []
    {
      var n := new StepNode(steps[i], i);
      nodes := nodes + [n];
    }
  }

  /** The provider index: each declared resource maps to the node of its provider. */
  ghost predicate Indexes(producers: map<Resource, StepNode>, nodes: seq<StepNode>, steps: seq<Step>)
    requires Numbered(nodes, steps)
  {
    && (forall r :: r in producers ==> producers[r] in nodes && Provider(steps, r, producers[r].idx))
    && (forall r, i :: Provider(steps, r, i) ==> r in producers && producers[r].idx == i)
  }

  /** Later declarations replace earlier ones. */
  method RecordProvider(n: StepNode, before: map<Resource, StepNode>) returns (producers: map<Resource, StepNode>)
    ensures forall r :: r in producers <==> r in before || r in n.step.supplies
    ensures forall r :: r in producers ==> producers[r] == if r in n.step.supplies then n else before[r]
  {
    producers := before;
    var out := n.step.supplies;
    for k := 0 to |out|
      invariant forall r :: r in producers <==> r in before || r in out[..k]
      invariant forall r :: r in producers ==> producers[r] == if r in out[..k] then n else before[r]
    {
      producers := producers[out[k] := n];
    }
    assert out[..|out|] == out;
  }

  /** Among the first m steps, i is the last to declare r. */
  ghost predicate LastBelow(steps: seq<Step>, m: int, r: Resource, i: int)
    requires m <= |steps|
  {
    0 <= i < m && r in steps[i].supplies && forall k :: i < k < m ==> r !in steps[k].supplies
  }

  method IndexProviders(nodes: seq<StepNode>, ghost steps: seq<Step>) returns (producers: map<Resource, StepNode>)
    requires Numbered(nodes, steps)
    ensures Indexes(producers, nodes, steps)
  {
    producers := map[];
    for j := 0 to |nodes|
      invariant forall r :: r in producers ==> producers[r] in nodes && LastBelow(steps, j, r, producers[r].idx)
      invariant forall i, r :: 0 <= i < j && r in steps[i].supplies ==> r in producers
    {
      ghost var before := producers;
      producers := RecordProvider(nodes[j], producers);
      forall r | r in producers ensures LastBelow(steps, j + 1, r, producers[r].idx) {
        assert r in before ==> LastBelow(steps, j, r, before[r].idx);
      }
    }
    forall r | r in producers ensures Provider(steps, r, producers[r].idx) {
      assert LastBelow(steps, |nodes|, r, producers[r].idx);
    }
  }

  /** Edges from the providers of what node n needs. */
  method WireNeeds(nodes: seq<StepNode>, ghost steps: seq<Step>, producers: map<Resource, StepNode>, n: StepNode,
                   ghost E: set<(int, int)>)
    returns (ghost E': set<(int, int)>)
    requires Numbered(nodes, steps) && Mirrors(nodes, E) && n in nodes
    requires Indexes(producers, nodes, steps)
    modifies nodes
    ensures Mirrors(nodes, E')
    ensures forall e :: e in E' <==> e in E || (e.1 == n.idx && NeedEdge(steps, e.0, e.1))
  {
    E' := E;
    var ins := n.step.needs;
    for k := 0 to |ins|
      invariant Mirrors(nodes, E')
      invariant forall e :: e in E' <==>
        e in E || (e.1 == n.idx && e.0 != e.1 && exists r :: r in ins[..k] && Provider(steps, r, e.0))
    {
      assert forall r :: r in ins[..k + 1] <==> r in ins[..k] || r == ins[k];
      if ins[k] in producers && producers[ins[k]] != n {
        var p := producers[ins[k]];
        AddEdge(p, n, nodes, steps, E');
        E' := E' + {(p.idx, n.idx)};
      }
    }
    assert ins[..|ins|] == ins;
  }

  /** Edges from the providers of ancestor directories of the path q supplied by node n. */
  method WireParents(nodes: seq<StepNode>, ghost steps: seq<Step>, producers: map<Resource, StepNode>, n: StepNode,
                     q: Resource, ghost E: set<(int, int)>)
    returns (ghost E': set<(int, int)>)
    requires Numbered(nodes, steps) && Mirrors(nodes, E) && n in nodes
    requires Indexes(producers, nodes, steps)
    modifies nodes
    ensures Mirrors(nodes, E')
    ensures forall e :: e in E' <==>
      e in E || (e.1 == n.idx && e.0 != e.1 && exists r :: ParentOf(r, q) && Provider(steps, r, e.0))
  {
    E' := E;
    if q.kind != PathKind {
      return;
    }
    // The source ranges over a map here, in no particular order.
    var todo := producers.Keys;
    while todo != {}
      invariant todo <= producers.Keys
      invariant Mirrors(nodes, E')
      invariant forall e :: e in E' <==>
        e in E || (e.1 == n.idx && e.0 != e.1 &&
          exists r :: r in producers && r !in todo && ParentOf(r, q) && Provider(steps, r, e.0))
      decreases todo
    {
      var r :| r in todo;
      todo := todo - {r};
      var p := producers[r];
      if p != n && r.kind == PathKind && r.name + "/" <= q.name {
        assert ParentOf(r, q);
        AddEdge(p, n, nodes, steps, E');
        E' := E' + {(p.idx, n.idx)};
      }
    }
  }

  method WireResources(nodes: seq<StepNode>, ghost steps: seq<Step>) returns (ghost E: set<(int, int)>)
    requires Numbered(nodes, steps) && Mirrors(nodes, {})
    modifies nodes
    ensures E == ResourceEdges(steps)
    ensures Mirrors(nodes, E)
  {
    var producers := IndexProviders(nodes, steps);
    E := {};
    for j := 0 to |nodes|
      invariant Mirrors(nodes, E)
      invariant forall e :: e in E <==> e.1 < j && (NeedEdge(steps, e.0, e.1) || ParentEdge(steps, e.0, e.1))
    {
      var n := nodes[j];
      ghost var E0 := E;
      E := WireNeeds(nodes, steps, producers, n, E);
      ghost var E1 := E;
      var outs := n.step.supplies;
      for k := 0 to |outs|
        invariant Mirrors(nodes, E)
        invariant forall e :: e in E <==>
          e in E1 || (e.1 == j && e.0 != e.1 &&
            exists r, q :: q in outs[..k] && ParentOf(r, q) && Provider(steps, r, e.0))
      {
        assert forall q :: q in outs[..k + 1] <==> q in outs[..k] || q == outs[k];
        E := WireParents(nodes, steps, producers, n, outs[k], E);
      }
      assert outs[..|outs|] == outs;
    }
  }

  /** Edges from a run of consecutive nodes to n. */
  method LinkAll(run: seq<StepNode>, n: StepNode, nodes: seq<StepNode>, ghost steps: seq<Step>,
                 ghost E: set<(int, int)>, ghost lo: nat)
    returns (ghost E': set<(int, int)>)
    requires Numbered(nodes, steps) && Mirrors(nodes, E) && n in nodes
    requires lo + |run| <= |nodes| && run == nodes[lo..lo + |run|]
    modifies nodes
    ensures Mirrors(nodes, E')
    ensures forall e :: e in E' <==> e in E || (e.1 == n.idx && lo <= e.0 < lo + |run|)
  {
    E' := E;
    for k := 0 to |run|
      invariant Mirrors(nodes, E')
      invariant forall e :: e in E' <==> e in E || (e.1 == n.idx && lo <= e.0 < lo + k)
    {
      assert run[k] == nodes[lo + k];
      AddEdge(run[k], n, nodes, steps, E');
      E' := E' + {(lo + k, n.idx)};
    }
  }

  /** Which fence edges enter j, given where the last barrier before j stands (-1: nowhere). */
  lemma FenceEdgesInto(steps: seq<Step>, last: int, j: int)
    requires -1 <= last < j < |steps|
    requires last >= 0 ==> Barrier(steps, last)
    requires forall k :: last < k < j ==> !Barrier(steps, k)
    ensures forall i :: FenceEdge(steps, i, j) <==> (i == last >= 0) || (Barrier(steps, j) && last < i < j)
  {
  }

  /** The fence pass: barriers are chained and every other step hangs between its neighbouring barriers. */
  method WireFences(nodes: seq<StepNode>, ghost steps: seq<Step>, ghost E0: set<(int, int)>)
    returns (ghost E: set<(int, int)>)
    requires Numbered(nodes, steps) && Mirrors(nodes, E0)
    modifies nodes
    ensures E == E0 + FenceEdges(steps)
    ensures Mirrors(nodes, E)
  {
    E := E0;
    var lastBarrier: StepNode? := null;
    var since: seq<StepNode> := [];
    ghost var last := -1;
    for j := 0 to |nodes|
      invariant Mirrors(nodes, E)
      invariant forall e :: e in E <==> e in E0 || (e.1 < j && FenceEdge(steps, e.0, e.1))
      invariant -1 <= last < j && (last >= 0 ==> Barrier(steps, last))
      invariant lastBarrier == if last < 0 then null else nodes[last]
      invariant forall k :: last < k < j ==> !Barrier(steps, k)
      invariant since == nodes[last + 1..j]
    {
      var n := nodes[j];
      FenceEdgesInto(steps, last, j);
      if lastBarrier != null {
        AddEdge(lastBarrier, n, nodes, steps, E);
        E := E + {(last, j)};
      }
      if HasResources(n.step) {
        assert nodes[last + 1..j + 1] == nodes[last + 1..j] + [n];
        since := since + [n];
      } else {
        E := LinkAll(since, n, nodes, steps, E, last + 1);
        since, lastBarrier, last := [], n, j;
      }
    }
  }

  /** The graph of a plan: node i stands for step i, and its lists hold exactly the resource,
      parent-directory and fence edges of that step. */
  method BuildStepGraph(steps: seq<Step>) returns (nodes: seq<StepNode>)
    ensures Numbered(nodes, steps) && Mirrors(nodes, StepEdges(steps))
    ensures fresh(nodes)
  {
    nodes := NewNodes(steps);
    ghost var E := WireResources(nodes, steps);
    E := WireFences(nodes, steps, E);
  }

  /** Each counter starts at the number of distinct unmet requirements. */
  method InitStepPending(nodes: seq<StepNode>, ghost steps: seq<Step>, ghost E: set<(int, int)>)
    requires Numbered(nodes, steps) && Mirrors(nodes, E)
    modifies nodes
    ensures Mirrors(nodes, E)
    ensures forall i :: 0 <= i < |nodes| ==> nodes[i].pending == |set e | e in E && e.1 == i|
  {
    for i := 0 to |nodes|
      invariant forall n :: n in nodes ==> n.prereqs == old(n.prereqs) && n.prereqSet == old(n.prereqSet)
      invariant forall n :: n in nodes ==> n.waiters == old(n.waiters)
      invariant forall k :: 0 <= k < i ==> nodes[k].pending == |nodes[k].prereqs|
    {
      nodes[i].pending := |nodes[i].prereqs|;
    }
    forall i | 0 <= i < |nodes| ensures NodeMirrors(nodes, E, i) {
      assert old(NodeMirrors(nodes, E, i));
    }
    forall i | 0 <= i < |nodes| ensures nodes[i].pending == |set e | e in E && e.1 == i| {
      PrereqsCountEdges(nodes, steps, E, i);
    }
  }

  /** Without duplicates, the length of a prerequisite list is the number of edges into its node. */
  lemma PrereqsCountEdges(nodes: seq<StepNode>, steps: seq<Step>, E: set<(int, int)>, i: int)
    requires Numbered(nodes, steps) && Mirrors(nodes, E) && 0 <= i < |nodes|
    ensures |nodes[i].prereqs| == |set e | e in E && e.1 == i|
  {
    assert NodeMirrors(nodes, E, i);
    var into := set e | e in E && e.1 == i;
    var pre := nodes[i].prereqs;
    var pairs := seq(|pre|, k requires 0 <= k < |pre| => (pre[k].idx, i));
    forall e | e in into ensures e in pairs {
      assert nodes[e.0] in pre;
      var k :| 0 <= k < |pre| && pre[k] == nodes[e.0];
      assert pairs[k] == e;
    }
    forall a, b | 0 <= a < b < |pairs| ensures pairs[a] != pairs[b] {
      assert pre[a] in nodes && pre[b] in nodes;
    }
    NoDuplicatesSize(pairs, into);
  }

  lemma {:induction false} NoDuplicatesSize<T>(s: seq<T>, S: set<T>)
    requires NoDuplicates(s) && forall x :: x in s <==> x in S
    ensures |s| == |S|
    decreases |s|
  {
    if s == [] {
      assert S == {};
    } else {
      assert s == [s[0]] + s[1..];
      NoDuplicatesSize(s[1..], S - {s[0]});
    }
  }
}
