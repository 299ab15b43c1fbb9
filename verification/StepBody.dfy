/** What the goroutine of a step does between the locked regions of the step scheduler (executePlan and
    checkPlan with runStep and runCheckStep in internal/engine/exec.go): the two schedulers joined. */
module StepBody {
  import opened Graph
  import opened OpPlan
  import opened OpRunner
  import opened StepRunner
  import opened Wrappers
  import OpScheduler
  import StepGraph
  import S = StepScheduler

  /** Some op of the step would change something. */
  ghost predicate WouldChange(nodes: seq<OpScheduler.Node>) {
    exists i :: 0 <= i < |nodes| && nodes[i].outcome == OpScheduler.WouldChange
  }

  /** What a step reports to its scheduler. */
  ghost function Reported(nodes: seq<OpScheduler.Node>, err: Option<OpScheduler.Error>): S.Report {
    if err.Some? then S.Broke else S.Finished(CountOutcome(nodes, OpScheduler.WouldChange))
  }

  /** A running step runs or checks its ops, in check mode against the snapshot it was scheduled with. An
      error fails the step; otherwise it finishes, and publishes its resources in check mode if some op
      would change something. Without a plan of its ops the source panics. */
  method RunBody<Op(==, !new)>(run: StepRun, n: nat, ops: seq<Op>, dependsOn: Op -> seq<Op>,
                               check: nat -> OpScheduler.CheckResult, execute: nat -> OpScheduler.Executed)
    returns (plan: PlanResult, nodes: seq<OpScheduler.Node>, err: Option<OpScheduler.Error>, raised: set<nat>)
    requires run.Valid() && n < |run.phase| == |run.snap| && run.phase[n] == S.Running
    modifies run, run.nodes
    ensures run.Valid()
    ensures plan.Planned? <==>
      NoDuplicates(ops) && AllKnown(ops, dependsOn) && Acyclic(DepEdges(StepDeps(ops, dependsOn)))
    ensures !plan.Planned? ==> run.Abs() == old(run.Abs())
    ensures plan.Planned? ==> |nodes| == |ops|
    ensures plan.Planned? && run.checkOnly ==> OpScheduler.CheckReport(old(run.snap[n]), check, nodes, err, raised)
    ensures plan.Planned? && !run.checkOnly ==> 
      OpScheduler.ApplyReport(StepDeps(ops, dependsOn), check, execute, nodes, err)
    ensures plan.Planned? && err.Some? ==> S.Fail(run.plan, old(run.Abs()), run.Abs(), n)
    ensures plan.Planned? && err.None? ==>
      S.Finish(run.plan, old(run.Abs()), run.Abs(), n, run.checkOnly && WouldChange(nodes))
    ensures plan.Planned? ==>
      S.Moves(run.plan, run.checkOnly, (i, snap) => Reported(nodes, err), old(run.Abs()), run.Abs(), n, false)
  {
    assert |run.nodes| == |run.phase|;
    hide S.Inv, S.Finish, S.Fail, S.Moves, OpScheduler.CheckReport, OpScheduler.ApplyReport, CauseOk, Reported,
         WouldChange, Sums;
    ghost var s := run.Abs();
    var snap := run.snap[n];
    plan, nodes, err, raised := RunOps(ops, dependsOn, run.checkOnly, snap, check, execute);
    if !plan.Planned? {
      return;
    }
    var node := run.nodes[n];
    if err.Some? {
      run.FailStep(node);
      FailureMoves(run.plan, run.checkOnly, nodes, err, s, run.Abs(), n);
    } else {
      AllValid(run.checkOnly, snap, StepDeps(ops, dependsOn), check, execute, nodes, err, raised);
      var sum := BuildStepReport(nodes);
      WouldChangeIsCounted(nodes, sum);
      run.FinishStep(node, sum.wouldChange);
      SuccessMoves(run.plan, run.checkOnly, nodes, s, run.Abs(), n);
    }
  }

  lemma WouldChangeIsCounted(nodes: seq<OpScheduler.Node>, sum: Summary)
    requires Sums(nodes, sum)
    ensures sum.wouldChange > 0 <==> WouldChange(nodes)
  {
    CountPositive(nodes, OpScheduler.WouldChange);
  }

  lemma FailureMoves(p: S.Plan, checkOnly: bool, nodes: seq<OpScheduler.Node>, err: Option<OpScheduler.Error>,
                     s: S.State, s': S.State, n: nat)
    requires S.Sized(p, s) && n < |s.phase| && s.phase[n] == S.Running && err.Some? && S.Fail(p, s, s', n)
    ensures S.Moves(p, checkOnly, (i, snap) => Reported(nodes, err), s, s', n, false)
  {
  }

  lemma SuccessMoves(p: S.Plan, checkOnly: bool, nodes: seq<OpScheduler.Node>, s: S.State, s': S.State, n: nat)
    requires S.Sized(p, s) && n < |s.phase| && s.phase[n] == S.Running
    requires S.Finish(p, s, s', n, checkOnly && WouldChange(nodes))
    ensures S.Moves(p, checkOnly, (i, snap) => Reported(nodes, None), s, s', n, false)
  {
    hide S.Finish;
    CountPositive(nodes, OpScheduler.WouldChange);
  }

  /** What a step reports does not depend on the order in which its ops ran: it is a function of the answers
      and, in check mode, of the snapshot, as the runs of the step scheduler take it to be. */
  lemma ReportIsDetermined(checkOnly: bool, provided: set<StepGraph.Resource>, deps: seq<seq<nat>>,
                           check: nat -> OpScheduler.CheckResult, execute: nat -> OpScheduler.Executed,
                           nodes: seq<OpScheduler.Node>, err: Option<OpScheduler.Error>, raised: set<nat>,
                           nodes': seq<OpScheduler.Node>, err': Option<OpScheduler.Error>, raised': set<nat>)
    requires InRange(deps, |deps|) && Acyclic(DepEdges(deps)) && |nodes| == |nodes'| == |deps|
    requires checkOnly ==>
      && OpScheduler.CheckReport(provided, check, nodes, err, raised)
      && OpScheduler.CheckReport(provided, check, nodes', err', raised')
    requires !checkOnly ==>
      && OpScheduler.ApplyReport(deps, check, execute, nodes, err)
      && OpScheduler.ApplyReport(deps, check, execute, nodes', err')
    ensures Reported(nodes, err) == Reported(nodes', err')
    ensures forall i :: 0 <= i < |nodes| ==> nodes[i].outcome == nodes'[i].outcome
    ensures checkOnly ==> raised == raised'
  {
    if checkOnly {
      SameChecksSameOutcomes(provided, check, nodes, err, raised, nodes', err', raised');
    } else {
      OpScheduler.OrderDoesNotMatter(deps, check, execute, nodes, err, nodes', err');
    }
    SameCounts(nodes, nodes', OpScheduler.WouldChange);
  }

  lemma SameChecksSameOutcomes(provided: set<StepGraph.Resource>, check: nat -> OpScheduler.CheckResult,
                               nodes: seq<OpScheduler.Node>, err: Option<OpScheduler.Error>, raised: set<nat>,
                               nodes': seq<OpScheduler.Node>, err': Option<OpScheduler.Error>, raised': set<nat>)
    requires |nodes| == |nodes'|
    requires OpScheduler.CheckReport(provided, check, nodes, err, raised)
    requires OpScheduler.CheckReport(provided, check, nodes', err', raised')
    ensures (err.Some? <==> err'.Some?) && raised == raised'
    ensures forall i :: 0 <= i < |nodes| ==> nodes[i].outcome == nodes'[i].outcome
  {
    hide OpScheduler.Classify, OpScheduler.Diagnosed, OpScheduler.ErrorOf;
    forall i: nat | i < |nodes| ensures nodes[i].outcome == nodes'[i].outcome {
      var a := OpScheduler.Classify(provided, check(i));
      assert nodes[i].outcome in {OpScheduler.WouldChange, OpScheduler.Skipped, OpScheduler.Aborted};
      assert nodes'[i].outcome in {OpScheduler.WouldChange, OpScheduler.Skipped, OpScheduler.Aborted};
    }
  }

  lemma {:induction false} SameCounts(nodes: seq<OpScheduler.Node>, nodes': seq<OpScheduler.Node>,
                                      o: OpScheduler.Outcome)
    requires |nodes| == |nodes'| && forall i :: 0 <= i < |nodes| ==> nodes[i].outcome == nodes'[i].outcome
    ensures CountOutcome(nodes, o) == CountOutcome(nodes', o)
    decreases |nodes|
  {
    if nodes != [] {
      SameCounts(nodes[..|nodes| - 1], nodes'[..|nodes| - 1], o);
    }
  }

  lemma AllValid(checkOnly: bool, provided: set<StepGraph.Resource>, deps: seq<seq<nat>>,
                 check: nat -> OpScheduler.CheckResult, execute: nat -> OpScheduler.Executed,
                 nodes: seq<OpScheduler.Node>, err: Option<OpScheduler.Error>, raised: set<nat>)
    requires checkOnly ==> OpScheduler.CheckReport(provided, check, nodes, err, raised)
    requires !checkOnly ==> OpScheduler.ApplyReport(deps, check, execute, nodes, err)
    ensures forall i :: 0 <= i < |nodes| ==> OpScheduler.ReportValid(nodes[i])
  {
  }

  /** A resource missing while a step is checked never aborts the check run when an upstream step that would
      change something supplies it, or supplies a path below it: in every run, whatever the interleaving, the
      op that misses it ends would-change, is not raised as a diagnostic, and contributes no error. */
  lemma UpstreamMissIsWouldChange(p: S.Plan, run: seq<S.State>, k: nat, i: int, j: int,
                                  q: StepGraph.Resource, missing: StepGraph.Resource,
                                  check: nat -> OpScheduler.CheckResult, nodes: seq<OpScheduler.Node>,
                                  err: Option<OpScheduler.Error>, raised: set<nat>, o: nat)
    requires S.PlanOk(p) && S.IsRun(p, run) && k < |run|
    requires 0 <= i < |run[k].phase| == |run[k].snap| && run[k].phase[i] == S.Running
    requires j in run[k].wouldChange && 0 <= j < |p.steps| && Reaches(p.E, j, i)
    requires q in p.steps[j].supplies && (q == missing || StepGraph.ParentOf(missing, q))
    requires OpScheduler.CheckReport(run[k].snap[i], check, nodes, err, raised) && o < |nodes|
    requires check(o).err.Some? && check(o).err.value.missing == Some(missing)
    ensures nodes[o].outcome == OpScheduler.WouldChange && o !in raised
    ensures OpScheduler.ErrorOf(OpScheduler.Classify(run[k].snap[i], check(o))) == None
    ensures (forall x: nat :: x < |nodes| && x != o ==>
              OpScheduler.ErrorOf(OpScheduler.Classify(run[k].snap[i], check(x))) == None) ==> err == None
  {
    S.UpstreamResourceIsDeferred(p, run, k, i, j, q, missing);
    OpScheduler.MissIsWouldChange(run[k].snap[i], check, nodes, err, raised, o);
  }
}
