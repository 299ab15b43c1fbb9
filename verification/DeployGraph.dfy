/** The graph between the deploys of one run (buildDeployGraph and findCycle in
    internal/engine/deploy_graph.go): who provides what, who needs whom, and in which level each runs. */
module DeployGraph {
  import opened Graph
  import opened OpPlan
  import opened Layers
  import Cycles

  // Cycle search with three colours and an early return
  // ---------------------------------------------------------------------------

  datatype Colour = White | Gray | Black

  /** The stack is a path of the gray nodes; the black ones are in a finishing order. */
  ghost predicate Searching(deps: seq<seq<nat>>, colour: seq<Colour>, stack: seq<nat>, order: seq<int>) {
    && InRange(deps, |deps|) && |colour| == |deps|
    && StackIsGray(deps, colour, stack)
    && OrderIsBlack(colour, order)
    && Cycles.FinishOrder(DepEdges(deps), order)
  }

  ghost predicate OrderIsBlack(colour: seq<Colour>, order: seq<int>) {
    forall x :: x in order <==> 0 <= x < |colour| && colour[x] == Black
  }

  ghost predicate StackIsGray(deps: seq<seq<nat>>, colour: seq<Colour>, stack: seq<nat>)
    requires |colour| == |deps|
  {
    && NoDuplicates(stack)
    && (forall x: nat :: x in stack <==> x < |deps| && colour[x] == Gray)
    && (stack != [] ==> IsPath(DepEdges(deps), Ints(stack)))
  }

  lemma PushKeepsStack(deps: seq<seq<nat>>, colour: seq<Colour>, stack: seq<nat>, n: nat)
    requires |colour| == |deps| && StackIsGray(deps, colour, stack) && n < |deps| && colour[n] != Gray
    requires stack != [] ==> stack[|stack| - 1] < |deps| && n in deps[stack[|stack| - 1]]
    ensures StackIsGray(deps, colour[n := Gray], stack + [n])
  {
    if stack != [] {
      var top := stack[|stack| - 1];
      DepEntry(deps, top, n);
      PathConcat(DepEdges(deps), Ints(stack), [top as int, n]);
      assert Ints(stack + [n]) == Ints(stack) + [top as int, n][1..];
    }
    assert forall x: nat :: x in stack + [n] <==> x in stack || x == n;
  }

  lemma PopKeepsStack(deps: seq<seq<nat>>, colour: seq<Colour>, stack: seq<nat>, n: nat)
    requires |colour| == |deps| && StackIsGray(deps, colour, stack + [n]) && n < |deps|
    ensures StackIsGray(deps, colour[n := Black], stack)
  {
    var longer := stack + [n];
    assert longer[|stack|] == n && forall a :: 0 <= a < |stack| ==> longer[a] == stack[a];
    assert forall x: nat :: x in longer <==> x in stack || x == n;
    assert n !in stack;
    if stack != [] {
      PathPrefix(DepEdges(deps), Ints(longer), |stack|);
      assert Ints(stack) == Ints(longer)[..|stack|];
    }
  }

  /** A node all of whose dependencies are black turns black. */
  lemma BlackenKeepsOrder(deps: seq<seq<nat>>, colour: seq<Colour>, order: seq<int>, n: nat)
    requires InRange(deps, |deps|) && |colour| == |deps| && n < |deps| && colour[n] != Black
    requires OrderIsBlack(colour, order)
    requires Cycles.FinishOrder(DepEdges(deps), order)
    requires forall d :: d in deps[n] ==> d < |deps| && colour[d] == Black
    ensures OrderIsBlack(colour[n := Black], order + [n as int])
    ensures Cycles.FinishOrder(DepEdges(deps), order + [n as int])
  {
    forall y | (n as int, y) in DepEdges(deps) ensures y in order {
      DepEntry(deps, n, y);
    }
    Cycles.FinishOrderExtends(DepEdges(deps), order, n);
  }

  /** The stack from dep on, whose top depends on dep, is a cycle. */
  lemma StackCloses(deps: seq<seq<nat>>, stack: seq<nat>, start: nat, dep: nat)
    requires NoDuplicates(stack) && start < |stack| && stack[start] == dep
    requires IsPath(DepEdges(deps), Ints(stack))
    requires stack[|stack| - 1] < |deps| && dep in deps[stack[|stack| - 1]]
    ensures IsDeployCycle(deps, stack[start..])
  {
    var E, cycle, top := DepEdges(deps), stack[start..], stack[|stack| - 1];
    DepEntry(deps, top, dep);
    PathSuffix(E, Ints(stack), start);
    assert Ints(stack)[start..] == Ints(cycle);
    PathConcat(E, Ints(cycle), [top as int, dep]);
    assert Ints(cycle + [dep]) == Ints(cycle) + [top as int, dep][1..];
  }

  class ColourSearch {
    const deps: seq<seq<nat>>
    var colour: seq<Colour>
    var stack: seq<nat>
    ghost var order: seq<int>    // black nodes in finishing order

    ghost predicate Valid()
      reads this
    {
      Searching(deps, colour, stack, order)
    }

    constructor (deps: seq<seq<nat>>)
      requires InRange(deps, |deps|)
      ensures Valid() && this.deps == deps && stack == []
      ensures forall x :: 0 <= x < |deps| ==> colour[x] == White
    {
      this.deps := deps;
      colour := seq(|deps|, i => White);
      stack, order := [], [];
    }

    ghost function Whites(): set<nat>
      reads this
    {
      set x: nat | x < |colour| && colour[x] == White
    }

    ghost predicate TopNeeds(d: nat)
      requires stack != []
      reads this
    {
      stack[|stack| - 1] < |deps| && d in deps[stack[|stack| - 1]]
    }

    /** Nodes that had been met keep their colour. */
    ghost predicate Grown(before: seq<Colour>)
      reads this
    {
      |colour| == |before| && forall x :: 0 <= x < |before| ==>
        (before[x] != White ==> colour[x] == before[x])
    }

    method Enter(n: nat)
      requires Valid() && n < |deps| && colour[n] == White
      requires stack == [] || TopNeeds(n)
      modifies this
      ensures Valid() && stack == old(stack) + [n] && colour == old(colour)[n := Gray]
    {
      assert stack != [] ==> stack[|stack| - 1] in stack;
      PushKeepsStack(deps, colour, stack, n);
      colour := colour[n := Gray];
      stack := stack + [n];
    }

    method Leave(n: nat)
      requires Valid() && stack != [] && stack[|stack| - 1] == n && n < |deps|
      requires forall d :: d in deps[n] ==> d < |deps| && colour[d] == Black
      modifies this
      ensures Valid() && stack == old(stack[..|stack| - 1])
      ensures |old(colour)| == |deps| && colour == old(colour)[n := Black]
    {
      assert n in stack && stack == stack[..|stack| - 1] + [n];
      hide StackIsGray, Cycles.FinishOrder;
      PopKeepsStack(deps, colour, stack[..|stack| - 1], n);
      BlackenKeepsOrder(deps, colour, order, n);
      order := order + [n as int];
      colour := colour[n := Black];
      stack := stack[..|stack| - 1];
    }

    /** dep is on the stack: the stack from dep on closes up. */
    method CloseCycle(dep: nat) returns (cycle: seq<nat>)
      requires Valid() && stack != [] && dep < |deps| && colour[dep] == Gray && TopNeeds(dep)
      ensures IsDeployCycle(deps, cycle)
      ensures exists k :: 0 <= k < |stack| && stack[k] == dep && cycle == stack[k..]
    {
      var start := 0;
      while stack[start] != dep
        invariant 0 <= start < |stack| && dep in stack[start..]
        decreases |stack| - start
      {
        assert stack[start..] == [stack[start]] + stack[start + 1..];
        start := start + 1;
      }
      cycle := stack[start..];
      assert stack[|stack| - 1] in stack;
      StackCloses(deps, stack, start, dep);
    }

    /** An empty answer is the source's nil. */
    method Visit(n: nat) returns (cycle: seq<nat>)
      requires Valid() && n < |deps| && colour[n] == White
      requires stack == [] || TopNeeds(n)
      modifies this
      ensures cycle != [] ==> IsDeployCycle(deps, cycle)
      ensures cycle == [] ==> Valid() && stack == old(stack) && Grown(old(colour)) && colour[n] == Black
      decreases Whites()
    {
      Enter(n);
      ghost var entered, gray := stack, colour;
      for k := 0 to |deps[n]|
        invariant Valid() && stack == entered && Grown(gray)
        invariant forall j :: 0 <= j < k ==> deps[n][j] < |deps| && colour[deps[n][j]] == Black
      {
        var dep := deps[n][k];
        assert dep in deps[n];
        if colour[dep] == White {
          assert Whites() <= old(Whites()) && n in old(Whites()) && n !in Whites();
          var c := Visit(dep);
          if c != [] {
            return c;
          }
        } else if colour[dep] == Gray {
          cycle := CloseCycle(dep);
          return cycle;
        }
      }
      Leave(n);
      return [];
    }
  }

  /** A cycle as reported: distinct deploys, each depending on the next, the last on the first. */
  ghost predicate IsDeployCycle(deps: seq<seq<nat>>, cycle: seq<nat>) {
    cycle != [] && Cycles.IsSimpleCycle(DepEdges(deps), Ints(cycle + [cycle[0]]))
  }

  /** nil exactly when no deploy depends on itself, through however many others. */
  method FindCycle(deps: seq<seq<nat>>) returns (cycle: seq<nat>)
    requires InRange(deps, |deps|)
    ensures cycle == [] <==> Acyclic(DepEdges(deps))
    ensures cycle != [] ==> IsDeployCycle(deps, cycle)
  {
    ghost var E := DepEdges(deps);
    var s := new ColourSearch(deps);
    for i := 0 to |deps|
      invariant s.Valid() && s.deps == deps && s.stack == []
      invariant forall x :: 0 <= x < i ==> s.colour[x] == Black
    {
      if s.colour[i] == White {
        cycle := s.Visit(i);
        if cycle != [] {
          CycleIsReached(deps, cycle);
          return;
        }
      }
    }
    AllFinishedIsAcyclic(deps, s.order);
    return [];
  }

  lemma CycleIsReached(deps: seq<seq<nat>>, cycle: seq<nat>)
    requires IsDeployCycle(deps, cycle)
    ensures !Acyclic(DepEdges(deps))
  {
    assert Reaches(DepEdges(deps), cycle[0], cycle[0]) by {
      var p := Ints(cycle + [cycle[0]]);
      assert IsPath(DepEdges(deps), p) && |p| >= 2 && p[0] == cycle[0] && p[|p| - 1] == cycle[0];
    }
  }

  lemma AllFinishedIsAcyclic(deps: seq<seq<nat>>, order: seq<int>)
    requires InRange(deps, |deps|) && Cycles.FinishOrder(DepEdges(deps), order)
    requires forall x :: 0 <= x < |deps| ==> x in order
    ensures Acyclic(DepEdges(deps))
  {
    var E := DepEdges(deps);
    Cycles.FinishOrderExcludesCycles(E, order, order);
    forall a ensures !Reaches(E, a, a) {
      if Reaches(E, a, a) {
        var c := ReachesFirstEdge(E, a, a);
      }
    }
  }

  // Providers and requirers
  // ---------------------------------------------------------------------------

  datatype DeployPlan<R> =
    | Levels(levels: seq<seq<nat>>)
    | MultipleProviders(resource: R, deploys: seq<nat>)
    | DeployCycle(cycle: seq<nat>)

  ghost predicate Ambiguous<R(!new)>(supplies: seq<seq<R>>, r: R) {
    || (exists i, j :: 0 <= i < j < |supplies| && r in supplies[i] && r in supplies[j])
    || (exists i :: 0 <= i < |supplies| && multiset(supplies[i])[r] > 1)
  }

  ghost predicate Meets<R(!new)>(a: seq<R>, b: seq<R>) {
    exists r :: r in a && r in b
  }

  /** (i, j): deploy i needs a resource that deploy j provides. */
  ghost function NeedEdges<R(!new)>(supplies: seq<seq<R>>, needs: seq<seq<R>>): set<(int, int)> {
    set i: int, j: int | 0 <= i < |needs| && 0 <= j < |supplies| && Meets(needs[i], supplies[j]) :: (i, j)
  }

  /** Every provider of every resource, once per entry, in declaration order. */
  ghost predicate IsIndex<R(!new)>(supplies: seq<seq<R>>, producer: map<R, seq<nat>>) {
    && (forall r, i :: r in producer && i in producer[r] ==> i < |supplies|)
    && (forall r, i: nat :: r in producer && i < |supplies| ==> Counted(supplies, producer, r, i))
    && (forall i, r :: 0 <= i < |supplies| && r in supplies[i] ==> r in producer)
    && (forall r :: r in producer ==> producer[r] != [])
    && (forall r, a, b :: r in producer && 0 <= a < b < |producer[r]| ==> producer[r][a] <= producer[r][b])
  }

  ghost predicate Counted<R(!new)>(supplies: seq<seq<R>>, producer: map<R, seq<nat>>, r: R, i: nat)
    requires r in producer && i < |supplies|
  {
    multiset(producer[r])[i] == multiset(supplies[i])[r]
  }

  function WithProducer<R>(producer: map<R, seq<nat>>, r: R, i: nat): map<R, seq<nat>> {
    producer[r := (if r in producer then producer[r] else []) + [i]]
  }

  lemma IndexOpensRow<R(!new)>(supplies: seq<seq<R>>, producer: map<R, seq<nat>>)
    requires IsIndex(supplies, producer)
    ensures IsIndex(supplies + [[]], producer)
  {
    var longer := supplies + [[]];
    forall r, i: nat | r in producer && i < |longer| ensures Counted(longer, producer, r, i) {
      if i < |supplies| {
        assert Counted(supplies, producer, r, i);
        assert longer[i] == supplies[i];
      } else {
        assert i !in producer[r];
      }
    }
  }

  lemma CountGrows<R(!new)>(supplies: seq<seq<R>>, row: seq<R>, producer: map<R, seq<nat>>, p: R, r: R, i: nat)
    requires IsIndex(supplies + [row], producer)
    requires r in WithProducer(producer, p, |supplies|) && i <= |supplies|
    ensures Counted(supplies + [row + [p]], WithProducer(producer, p, |supplies|), r, i)
  {
    var before, after := supplies + [row], supplies + [row + [p]];
    assert i < |supplies| ==> after[i] == before[i];
    if r in producer {
      assert Counted(before, producer, r, i);
    } else {
      assert r !in before[i];
    }
  }

  lemma IndexGrows<R(!new)>(supplies: seq<seq<R>>, row: seq<R>, producer: map<R, seq<nat>>, p: R)
    requires IsIndex(supplies + [row], producer)
    ensures IsIndex(supplies + [row + [p]], WithProducer(producer, p, |supplies|))
  {
    var before, after, producer' := supplies + [row], supplies + [row + [p]], WithProducer(producer, p, |supplies|);
    forall r, i: nat | r in producer' && i < |after| ensures Counted(after, producer', r, i) {
      CountGrows(supplies, row, producer, p, r, i);
    }
    hide Counted;
    forall i, r | 0 <= i < |after| && r in after[i] ensures r in producer' {
      if r != p {
        assert r in before[i];
      }
    }
    forall r, a, b | r in producer' && 0 <= a < b < |producer'[r]| ensures producer'[r][a] <= producer'[r][b] {
      assert producer'[r][a] in producer'[r];
    }
  }

  method IndexProducers<R(==, !new)>(supplies: seq<seq<R>>) returns (producer: map<R, seq<nat>>)
    ensures IsIndex(supplies, producer)
  {
    producer := map[];
    for i := 0 to |supplies|
      invariant IsIndex(supplies[..i], producer)
    {
      IndexOpensRow(supplies[..i], producer);
      for k := 0 to |supplies[i]|
        invariant IsIndex(supplies[..i] + [supplies[i][..k]], producer)
      {
        hide IsIndex;
        var p := supplies[i][k];
        IndexGrows(supplies[..i], supplies[i][..k], producer, p);
        assert supplies[i][..k + 1] == supplies[i][..k] + [p];
        producer := WithProducer(producer, p, i);
      }
      assert supplies[i][..|supplies[i]|] == supplies[i];
      assert supplies[..i + 1] == supplies[..i] + [supplies[i]];
    }
    assert supplies[..|supplies|] == supplies;
  }

  lemma RepeatedProducerIsAmbiguous<R(!new)>(supplies: seq<seq<R>>, producer: map<R, seq<nat>>, r: R)
    requires IsIndex(supplies, producer) && r in producer
    ensures |producer[r]| > 1 <==> Ambiguous(supplies, r)
  {
    var ps := producer[r];
    if |ps| > 1 {
      var i, j := ps[0], ps[1];
      assert i in ps && j in ps;
      assert Counted(supplies, producer, r, i) && Counted(supplies, producer, r, j);
      if i == j {
        assert ps == [i, i] + ps[2..];
        assert multiset(ps)[i] >= 2;
      }
    } else {
      assert ps == [ps[0]];
      forall i: nat | i < |supplies| ensures multiset(supplies[i])[r] == if i == ps[0] then 1 else 0 {
        assert Counted(supplies, producer, r, i);
      }
    }
  }

  /** Without ambiguity the first producer is the only one. */
  lemma FirstProducerProvides<R(!new)>(supplies: seq<seq<R>>, producer: map<R, seq<nat>>, r: R, j: nat)
    requires IsIndex(supplies, producer) && r in producer && !Ambiguous(supplies, r) && j < |supplies|
    ensures producer[r] != [] && producer[r][0] < |supplies|
    ensures r in supplies[j] <==> j == producer[r][0]
  {
    RepeatedProducerIsAmbiguous(supplies, producer, r);
    assert producer[r] == [producer[r][0]] && producer[r][0] in producer[r];
    assert Counted(supplies, producer, r, j);
  }

  /** The wiring loop for one deploy. */
  method WireDeploy<R(==, !new)>(supplies: seq<seq<R>>, producer: map<R, seq<nat>>, needs: seq<R>)
    returns (deps: seq<nat>)
    requires IsIndex(supplies, producer) && forall r :: !Ambiguous(supplies, r)
    ensures forall j: nat :: j in deps <==> j < |supplies| && Meets(needs, supplies[j])
  {
    deps := [];
    for k := 0 to |needs|
      invariant forall j: nat :: j in deps <==> j < |supplies| && Meets(needs[..k], supplies[j])
    {
      var r := needs[k];
      assert needs[..k + 1] == needs[..k] + [r];
      forall j: nat | j < |supplies|
        ensures Meets(needs[..k + 1], supplies[j]) <==> Meets(needs[..k], supplies[j]) || r in supplies[j]
      {
        OneMoreNeed(needs[..k], r, supplies[j]);
      }
      if r in producer {
        forall j: nat | j < |supplies| ensures r in supplies[j] <==> j == producer[r][0] {
          FirstProducerProvides(supplies, producer, r, j);
        }
        assert producer[r][0] in producer[r];
        deps := deps + [producer[r][0]];
      }
    }
    assert needs[..|needs|] == needs;
  }

  lemma OneMoreNeed<R(!new)>(needs: seq<R>, r: R, supplied: seq<R>)
    ensures Meets(needs + [r], supplied) <==> Meets(needs, supplied) || r in supplied
  {
    if Meets(needs, supplied) {
      var q :| q in needs && q in supplied;
      assert q in needs + [r];
    }
    if r in supplied {
      assert r in needs + [r];
    }
  }

  lemma WiringIsNeedEdges<R(!new)>(supplies: seq<seq<R>>, needs: seq<seq<R>>, deps: seq<seq<nat>>)
    requires |deps| == |needs| == |supplies|
    requires forall i, j: nat {:trigger j in deps[i]} :: 0 <= i < |deps| ==>
      (j in deps[i] <==> j < |supplies| && Meets(needs[i], supplies[j]))
    ensures InRange(deps, |deps|) && DepEdges(deps) == NeedEdges(supplies, needs)
  {
    forall i, x: nat | 0 <= i < |deps| && x in deps[i] ensures x < |deps| {
    }
    forall e | e in DepEdges(deps) ensures e in NeedEdges(supplies, needs) {
      DepEntry(deps, e.0, e.1);
    }
    forall e | e in NeedEdges(supplies, needs) ensures e in DepEdges(deps) {
      var j: nat := e.1;
      assert j in deps[e.0];
      DepEntry(deps, e.0, j);
    }
  }

  /** Levels, or why there are none: an ambiguous resource with all its providers in declaration order, or a
      simple cycle of needs. */
  ghost predicate IsPlan<R(!new)>(supplies: seq<seq<R>>, needs: seq<seq<R>>, plan: DeployPlan<R>) {
    match plan
    case MultipleProviders(r, deploys) =>
      && Ambiguous(supplies, r) && |deploys| > 1
      && (forall i: nat :: multiset(deploys)[i] == if i < |supplies| then multiset(supplies[i])[r] else 0)
      && (forall a, b :: 0 <= a < b < |deploys| ==> deploys[a] <= deploys[b])
    case DeployCycle(cycle) =>
      && (forall r :: !Ambiguous(supplies, r))
      && cycle != [] && Cycles.IsSimpleCycle(NeedEdges(supplies, needs), Ints(cycle + [cycle[0]]))
    case Levels(levels) =>
      && (forall r :: !Ambiguous(supplies, r))
      && Staged(NeedEdges(supplies, needs), |supplies|, levels)
      && (if supplies == [] then levels == [[]] else Layered(NeedEdges(supplies, needs), |supplies|, levels))
  }

  /** A need that nobody in the run provides is external and adds no edge; a deploy that provides what it
      needs itself is a cycle. */
  method BuildDeployGraph<R(==, !new)>(supplies: seq<seq<R>>, needs: seq<seq<R>>) returns (plan: DeployPlan<R>)
    requires |supplies| == |needs|
    ensures IsPlan(supplies, needs, plan)
    ensures plan.MultipleProviders? <==> exists r :: Ambiguous(supplies, r)
    ensures plan.DeployCycle? <==> (forall r :: !Ambiguous(supplies, r)) && !Acyclic(NeedEdges(supplies, needs))
  {
    var producer := IndexProducers(supplies);
    var todo := producer.Keys;
    while todo != {}
      invariant todo <= producer.Keys
      invariant forall r :: r in producer && r !in todo ==> !Ambiguous(supplies, r)
      decreases todo
    {
      var r :| r in todo;
      RepeatedProducerIsAmbiguous(supplies, producer, r);
      if |producer[r]| > 1 {
        ProducerCounts(supplies, producer, r);
        return MultipleProviders(r, producer[r]);
      }
      todo := todo - {r};
    }
    NoneAmbiguous(supplies, producer);
    var deps: seq<seq<nat>> := [];
    for i := 0 to |needs|
      invariant |deps| == i
      invariant forall x, j: nat {:trigger j in deps[x]} :: 0 <= x < i ==>
        (j in deps[x] <==> j < |supplies| && Meets(needs[x], supplies[j]))
    {
      var ds := WireDeploy(supplies, producer, needs[i]);
      deps := deps + [ds];
    }
    WiringIsNeedEdges(supplies, needs, deps);
    var cycle := FindCycle(deps);
    if cycle != [] {
      return DeployCycle(cycle);
    }
    var levels := KahnLevels(deps);
    if deps != [] {
      LayeredIsStaged(deps, levels);
    }
    return Levels(levels);
  }

  lemma ProducerCounts<R(!new)>(supplies: seq<seq<R>>, producer: map<R, seq<nat>>, r: R)
    requires IsIndex(supplies, producer) && r in producer
    ensures forall i: nat :: multiset(producer[r])[i] == if i < |supplies| then multiset(supplies[i])[r] else 0
  {
    forall i: nat ensures multiset(producer[r])[i] == if i < |supplies| then multiset(supplies[i])[r] else 0 {
      if i < |supplies| {
        assert Counted(supplies, producer, r, i);
      } else {
        assert i !in producer[r];
      }
    }
  }

  lemma NoneAmbiguous<R(!new)>(supplies: seq<seq<R>>, producer: map<R, seq<nat>>)
    requires IsIndex(supplies, producer)
    requires forall r :: r in producer ==> !Ambiguous(supplies, r)
    ensures forall r :: !Ambiguous(supplies, r)
  {
    forall r ensures !Ambiguous(supplies, r) {
      if Ambiguous(supplies, r) && r !in producer {
        assert forall i :: 0 <= i < |supplies| ==> r !in supplies[i];
      }
    }
  }
}
