/** The plan-time cycle check of steps (DetectStepCycles in internal/engine/plan_cycles.go), and what it
    guarantees the schedulers. */
module PlanCycles {
  import opened Graph
  import opened StepGraph
  import opened StepRunner
  import opened Cycles
  import opened CycleDedup
  import opened Wrappers
  import S = StepScheduler

  /** What each node requires, as positions. */
  method PrereqPositions(nodes: seq<StepNode>, ghost steps: seq<Step>, ghost E: set<(int, int)>)
    returns (lists: seq<seq<int>>)
    requires Numbered(nodes, steps) && Mirrors(nodes, E)
    ensures |lists| == |nodes|
    ensures forall i, j :: 0 <= i < |lists| ==> (j in lists[i] <==> 0 <= j < |nodes| && (j, i) in E)
    ensures forall i :: 0 <= i < |lists| ==> NoDuplicates(lists[i])
  {
    lists := [];
    for i := 0 to |nodes|
      invariant |lists| == i
      invariant forall x, j {:trigger j in lists[x]} :: 0 <= x < i ==>
        (j in lists[x] <==> 0 <= j < |nodes| && (j, x) in E)
      invariant forall x :: 0 <= x < i ==> NoDuplicates(lists[x])
    {
      assert NodeMirrors(nodes, E, i);
      var row := [];
      for k := 0 to |nodes[i].prereqs|
        invariant |row| == k && forall a :: 0 <= a < k ==> row[a] == nodes[i].prereqs[a].idx
      {
        var m := nodes[i].prereqs[k];
        row := row + [m.idx];
      }
      lists := lists + [row];
    }
  }

  /** The search over the lists, from every node. */
  method SearchLists(lists: seq<seq<int>>, ghost E: set<(int, int)>) returns (raw: seq<seq<int>>)
    requires forall e :: e in E ==> 0 <= e.0 < |lists| && 0 <= e.1 < |lists|
    requires forall i, j :: 0 <= i < |lists| ==> (j in lists[i] <==> 0 <= j < |lists| && (j, i) in E)
    requires forall i :: 0 <= i < |lists| ==> NoDuplicates(lists[i])
    ensures raw == [] <==> Acyclic(E)
    ensures AllReported(Reversed(E), raw)
  {
    var roots: seq<int> := seq(|lists|, i => i);
    forall i | 0 <= i < |lists| ensures i in roots {
      assert roots[i] == i;
    }
    ghost var V := set i | i in roots;
    var neighbors := i => if 0 <= i < |lists| then lists[i] else [];
    NeighborsAreReversed(lists, E, roots, neighbors);
    hide IsSimpleCycle, CycleFromRoots, Acyclic, IsClosedPath, Closes, NoDuplicates, OncePerEdge;
    raw := DetectCycles(roots, neighbors, V, Reversed(E));
    CyclesFromEverywhere(E, |lists|, roots);
    forall c | IsClosedPath(Reversed(E), c) ensures Closes(raw, c) {
      StartsInside(E, |lists|, c);
      assert FromRoots(Reversed(E), roots, c[0]);
    }
  }

  /** What a search reports of E: simple cycles, one for each edge that closes one; and no closed path of E
      avoids all the closing edges. */
  ghost predicate AllReported(E: set<(int, int)>, raw: seq<seq<int>>) {
    && (forall c :: c in raw ==> IsSimpleCycle(E, c))
    && OncePerEdge(raw)
    && (forall c :: IsClosedPath(E, c) ==> Closes(raw, c))
  }

  lemma StartsInside(E: set<(int, int)>, n: nat, c: seq<int>)
    requires forall e :: e in E ==> 0 <= e.0 < n && 0 <= e.1 < n
    requires IsClosedPath(Reversed(E), c)
    ensures 0 <= c[0] < n
  {
    assert (c[0], c[1]) in Reversed(E);
  }

  lemma NeighborsAreReversed(lists: seq<seq<int>>, E: set<(int, int)>, roots: seq<int>, neighbors: int -> seq<int>)
    requires forall e :: e in E ==> 0 <= e.0 < |lists| && 0 <= e.1 < |lists|
    requires forall i, j :: 0 <= i < |lists| ==> (j in lists[i] <==> 0 <= j < |lists| && (j, i) in E)
    requires forall i :: i in roots <==> 0 <= i < |lists|
    requires forall i :: 0 <= i < |lists| ==> neighbors(i) == lists[i]
    ensures var V := set i | i in roots;
      && Reversed(E) == (set a, b | a in V && b in neighbors(a) :: (a, b))
      && forall a, b :: a in V && b in neighbors(a) ==> b in V
  {
  }

  /** The closed paths of the requires lists, each rotation class once; none exactly when the graph is acyclic.
      key is what a node's address prints as. */
  method DetectStepCycles(nodes: seq<StepNode>, ghost steps: seq<Step>, ghost E: set<(int, int)>, key: int -> string)
    returns (cycles: seq<seq<int>>, ghost raw: seq<seq<int>>)
    requires Numbered(nodes, steps) && Mirrors(nodes, E) && Separable(key)
    requires forall e :: e in E ==> 0 <= e.0 < |nodes| && 0 <= e.1 < |nodes|
    ensures cycles == [] <==> Acyclic(E)
    ensures forall c :: c in cycles ==> c in raw && IsSimpleCycle(Reversed(E), c)
    ensures Simple(cycles) && ClassesDiffer(cycles)
    ensures AllReported(Reversed(E), raw) && Simple(raw) && forall c :: c in raw ==> Seen(cycles, c)
    ensures forall c :: IsClosedPath(Reversed(E), c) ==> Meets(cycles, c)
  {
    var lists := PrereqPositions(nodes, steps, E);
    var found := SearchLists(lists, E);
    raw := found;
    SimpleCyclesAreSimple(Reversed(E), raw);
    hide IsSimpleCycle, Simple, ClassesDiffer, Separable, Acyclic, Seen, IsClosedPath, Closes, Meets;
    cycles := DedupCycles(found, key);
    DedupKeeps(raw);
    ClosedPathsMeet(Reversed(E), raw, cycles);
  }

  /** A rotation of some listed cycle is closed by an edge of c. */
  ghost predicate Meets(cycles: seq<seq<int>>, c: seq<int>) {
    exists d, r: seq<int> :: d in cycles && |d| >= 2 && |r| >= 2 && r[0] == r[|r| - 1] &&
      IsRotation(Body(d), Body(r)) && HasEdge(c, ClosingEdge(r))
  }

  lemma ClosedPathsMeet(E: set<(int, int)>, raw: seq<seq<int>>, cycles: seq<seq<int>>)
    requires AllReported(E, raw) && Simple(raw) && Simple(cycles) && forall c :: c in raw ==> Seen(cycles, c)
    ensures forall c :: IsClosedPath(E, c) ==> Meets(cycles, c)
  {
    hide IsClosedPath, IsRotation;
    forall c | IsClosedPath(E, c) ensures Meets(cycles, c) {
      assert Closes(raw, c);
      var e :| IsClosing(raw, e) && HasEdge(c, e);
      var r :| r in raw && |r| >= 2 && e == ClosingEdge(r);
      assert IsSimpleCycle(E, r) && Seen(cycles, r);
      var d :| d in cycles && IsRotation(Body(d), Body(r));
      assert |d| >= 2 && HasEdge(c, ClosingEdge(r));
    }
  }

  /** No cycle is a rotation of another. */
  ghost predicate ClassesDiffer(cycles: seq<seq<int>>)
    requires Simple(cycles)
  {
    forall i: nat, j: nat :: i < j < |cycles| ==>
      cycles[i] in cycles && cycles[j] in cycles && !IsRotation(Body(cycles[i]), Body(cycles[j]))
  }

  lemma DedupKeeps(raw: seq<seq<int>>)
    requires Simple(raw)
    ensures var out := FirstOfEachClass(raw);
      && (forall c :: c in out ==> c in raw)
      && (forall c :: c in raw ==> Seen(out, c))
      && (out == [] <==> raw == [])
      && Simple(out) && ClassesDiffer(out)
  {
    var out := FirstOfEachClass(raw);
    forall c | c in raw ensures Seen(out, c) {
      EveryClassRepresented(raw, c);
    }
    if raw != [] {
      assert raw[0] in raw && Seen(out, raw[0]);
    }
    forall i: nat, j: nat | i < j < |out|
      ensures out[i] in out && out[j] in out && !IsRotation(Body(out[i]), Body(out[j]))
    {
      RepresentativesDiffer(raw, i, j);
    }
  }

  lemma SimpleCyclesAreSimple(E: set<(int, int)>, raw: seq<seq<int>>)
    requires forall c :: c in raw ==> IsSimpleCycle(E, c)
    ensures Simple(raw)
  {
  }

  lemma OnCycleIsReached(E: set<(int, int)>, n: nat, roots: seq<int>, a: int)
    requires forall e :: e in E ==> 0 <= e.0 < n && 0 <= e.1 < n
    requires forall i :: 0 <= i < n ==> i in roots
    requires Reaches(Reversed(E), a, a)
    ensures CycleFromRoots(Reversed(E), roots)
  {
    var c := ReachesFirstEdge(Reversed(E), a, a);
    assert (c, a) in E;
    assert FromRoots(Reversed(E), roots, a);
  }

  /** With every node a root, every cycle is reachable. */
  lemma CyclesFromEverywhere(E: set<(int, int)>, n: nat, roots: seq<int>)
    requires forall e :: e in E ==> 0 <= e.0 < n && 0 <= e.1 < n
    requires forall i :: 0 <= i < n ==> i in roots
    ensures CycleFromRoots(Reversed(E), roots) <==> !Acyclic(E)
  {
    var R := Reversed(E);
    if CycleFromRoots(R, roots) {
      var x := CycleWitness(R, roots);
      if Acyclic(E) {
        ReversedAcyclic(E);
      }
    } else {
      forall a ensures !Reaches(R, a, a) {
        if Reaches(R, a, a) {
          OnCycleIsReached(E, n, roots, a);
        }
      }
      ReversedAcyclic(R);
      assert Reversed(R) == E;
    }
  }

  /** From the step list to the settled group. Exactly the plans with an acyclic graph are accepted. When an
      accepted plan has settled, the steps that never ran are those behind a failed or cancelled step; and if
      nothing failed and nothing was cancelled, every step has completed. */
  method PlanAndRun(steps: seq<Step>, checkOnly: bool, key: int -> string, work: (int, set<Resource>) -> S.Report)
    returns (cycles: seq<seq<int>>, run: StepRun?, ghost trace: seq<S.State>)
    requires Separable(key)
    ensures cycles == [] <==> Acyclic(StepEdges(steps))
    ensures forall c :: IsClosedPath(Reversed(StepEdges(steps)), c) ==> Meets(cycles, c)
    ensures cycles == [] <==> run != null
    ensures run != null ==>
      && run.plan == S.Plan(steps, StepEdges(steps)) && run.Valid()
      && S.IsRun(run.plan, trace) && trace[|trace| - 1] == run.Abs() && S.Settled(run.Abs())
      && S.Answered(run.plan, checkOnly, work, run.Abs())
      && |run.phase| == |steps|
      && (forall i :: 0 <= i < |steps| ==> (run.phase[i] == S.Waiting <==> S.BehindTrouble(run.plan, run.Abs(), i)))
      && (!run.cancelled && (forall i :: 0 <= i < |steps| ==> run.phase[i] != S.Failed) ==>
            forall i :: 0 <= i < |steps| ==> run.phase[i] == S.Done)
      && (run.groupErr.None? <==> forall i :: 0 <= i < |steps| ==> run.phase[i] == S.Done)
  {
    trace := [];
    var nodes := BuildStepGraph(steps);
    ghost var raw;
    cycles, raw := DetectStepCycles(nodes, steps, StepEdges(steps), key);
    if cycles != [] {
      return cycles, null, [];
    }
    run, trace := RunPlan(steps, checkOnly, work);
    Accounted(run.plan, trace);
    NoErrorMeansDone(run.plan, run.Abs(), run.groupErr);
  }

  lemma Accounted(p: S.Plan, trace: seq<S.State>)
    requires S.PlanOk(p) && Acyclic(p.E) && S.IsRun(p, trace) && S.Settled(trace[|trace| - 1])
    ensures var s := trace[|trace| - 1];
      && |s.phase| == |p.steps|
      && (forall i :: 0 <= i < |p.steps| ==> (s.phase[i] == S.Waiting <==> S.BehindTrouble(p, s, i)))
      && (!s.cancelled && (forall i :: 0 <= i < |p.steps| ==> s.phase[i] != S.Failed) ==>
            forall i :: 0 <= i < |p.steps| ==> s.phase[i] == S.Done)
  {
    var k := |trace| - 1;
    var s := trace[k];
    S.RunInv(p, trace, k);
    forall i | 0 <= i < |p.steps| ensures s.phase[i] == S.Waiting <==> S.BehindTrouble(p, s, i) {
      S.SettledStepsAccounted(p, trace, k, i);
    }
    if !s.cancelled && forall i :: 0 <= i < |p.steps| ==> s.phase[i] != S.Failed {
      S.UndisturbedRunCompletes(p, trace, k);
    }
  }

  /** A settled group that returns no error has completed every step. */
  lemma NoErrorMeansDone(p: S.Plan, s: S.State, err: Option<Cause>)
    requires CauseOk(s.phase, err) && S.Settled(s) && |s.phase| == |p.steps|
    requires forall i :: 0 <= i < |p.steps| ==> (s.phase[i] == S.Waiting <==> S.BehindTrouble(p, s, i))
    ensures err.None? <==> forall i :: 0 <= i < |p.steps| ==> s.phase[i] == S.Done
  {
    if err.None? {
      forall i | 0 <= i < |p.steps| ensures s.phase[i] == S.Done {
        assert !S.BehindTrouble(p, s, i);
      }
    }
  }
}
