/** The locked regions of executePlan and checkPlan (internal/engine/exec.go) over the linked step
    graph. Each method is one region; its contract is the matching transition of StepScheduler. */
module StepRunner {
  import opened Graph
  import opened StepGraph
  import opened StepScheduler
  import opened Wrappers

  /** Why a group returns an error: a step failed, or a goroutine found the context cancelled. */
  datatype Cause = StepFailed(idx: nat) | ContextDone

  /** The error is there exactly when some step failed or was cancelled, and it comes from one that did. */
  ghost predicate CauseOk(phase: seq<Phase>, err: Option<Cause>) {
    match err
    case None => forall i :: 0 <= i < |phase| ==> phase[i] != Failed && phase[i] != Cancelled
    case Some(StepFailed(n)) => n < |phase| && phase[n] == Failed
    case Some(ContextDone) => exists i :: 0 <= i < |phase| && phase[i] == Cancelled
  }

  /** Failed and cancelled steps stay so, and there are no new ones. */
  lemma CauseKept(phase: seq<Phase>, phase': seq<Phase>, err: Option<Cause>)
    requires CauseOk(phase, err) && |phase| == |phase'|
    requires forall i :: 0 <= i < |phase| && (phase[i] == Failed || phase[i] == Cancelled) ==> phase'[i] == phase[i]
    requires forall i :: 0 <= i < |phase| && (phase'[i] == Failed || phase'[i] == Cancelled) ==> phase'[i] == phase[i]
    ensures CauseOk(phase', err)
  {
    if err.Some? && err.value.ContextDone? {
      var i :| 0 <= i < |phase| && phase[i] == Cancelled;
      assert phase'[i] == Cancelled;
    }
  }

  lemma CauseKeptByFinish(p: Plan, s: State, s': State, n: int, changes: bool, err: Option<Cause>)
    requires Inv(p, s) && Finish(p, s, s', n, changes) && CauseOk(s.phase, err)
    ensures CauseOk(s'.phase, err)
  {
    hide CauseOk;
    assert Counted(p, s);
    CauseKept(s.phase, s'.phase, err);
  }

  lemma CauseOfFailure(phase: seq<Phase>, n: nat, end: Phase, err: Option<Cause>, cause: Cause)
    requires CauseOk(phase, err) && n < |phase| && phase[n] != Failed && phase[n] != Cancelled
    requires (end == Failed && cause == StepFailed(n)) || (end == Cancelled && cause == ContextDone)
    ensures CauseOk(phase[n := end], if err.None? then Some(cause) else err)
  {
    assert phase[n := end][n] == end;
    if err.Some? && err.value.ContextDone? {
      var i :| 0 <= i < |phase| && phase[i] == Cancelled;
      assert phase[n := end][i] == Cancelled;
    }
  }

  class StepRun {
    const nodes: seq<StepNode>
    const checkOnly: bool
    ghost const plan: Plan

    var phase: seq<Phase>
    var cancelled: bool
    var provided: set<Resource>
    var snap: seq<set<Resource>>
    var groupErr: Option<Cause>     // the first error returned in the group
    ghost var wouldChange: set<int>
    ghost var started: seq<int>

    ghost predicate Linked()
      reads nodes
    {
      Numbered(nodes, plan.steps) && Mirrors(nodes, plan.E) && PlanOk(plan)
    }

    ghost function Counters(): (c: seq<int>)
      reads nodes
      ensures |c| == |nodes| && forall i :: 0 <= i < |c| ==> c[i] == nodes[i].pending
    {
      seq(|nodes|, i requires 0 <= i < |nodes| reads nodes => nodes[i].pending)
    }

    ghost function Abs(): State
      reads this, nodes
    {
      State(phase, Counters(), cancelled, provided, snap, wouldChange, started)
    }

    ghost predicate Valid()
      reads this, nodes
    {
      Linked() && Inv(plan, Abs()) && CauseOk(phase, groupErr)
    }

    /** The first locked loop, on freshly initialised counters. */
    constructor (nodes: seq<StepNode>, ghost plan: Plan, checkOnly: bool)
      requires Numbered(nodes, plan.steps) && Mirrors(nodes, plan.E) && PlanOk(plan)
      requires forall i :: 0 <= i < |nodes| ==> nodes[i].pending == |Into(plan, i)|
      ensures this.nodes == nodes && this.plan == plan && this.checkOnly == checkOnly
      ensures Init(plan, Abs()) && Valid()
    {
      this.nodes, this.plan, this.checkOnly := nodes, plan, checkOnly;
      phase := seq(|nodes|, i => Waiting);
      snap := seq(|nodes|, i => {});
      cancelled, provided, wouldChange, started, groupErr := false, {}, {}, [], None;
      new;
      hide Inv, Mirrors, Into;
      for i := 0 to |nodes|
        invariant |phase| == |nodes|
        invariant forall k :: 0 <= k < |nodes| ==>
          phase[k] == if k < i && nodes[k].pending == 0 then Scheduled else Waiting
        invariant groupErr == None
        invariant snap == seq(|nodes|, i => {}) && !cancelled && provided == {} && wouldChange == {} && started == []
      {
        if nodes[i].pending == 0 {
          Schedule(nodes[i]);
        }
      }
      InitInv(plan, Abs());
    }

    /** scheduleNode: the step gets a goroutine and its own copy of the provided resources. */
    method Schedule(n: StepNode)
      requires n.idx < |phase| == |snap|
      modifies this`phase, this`snap
      ensures phase == old(phase)[n.idx := Scheduled]
      ensures snap == old(snap)[n.idx := provided]
    {
      phase := phase[n.idx := Scheduled];
      snap := snap[n.idx := provided];
    }

    /** A goroutine that finds the context live starts its step. */
    method BeginStep(n: StepNode)
      requires Valid() && n in nodes && phase[n.idx] == Scheduled && !cancelled
      modifies this`phase, this`started
      ensures Begin(plan, old(Abs()), Abs(), n.idx) && Valid()
    {
      hide CauseOk;
      CauseKept(phase, phase[n.idx := Running], groupErr);
      phase := phase[n.idx := Running];
      started := started + [n.idx];
      MinorStepInv(plan, old(Abs()), Abs(), n.idx);
    }

    /** A goroutine that finds the context cancelled returns its error. */
    method SkipStep(n: StepNode)
      requires Valid() && n in nodes && phase[n.idx] == Scheduled && cancelled
      modifies this`phase, this`groupErr
      ensures Skip(plan, old(Abs()), Abs(), n.idx) && Valid()
      ensures groupErr == if old(groupErr).None? then Some(ContextDone) else old(groupErr)
    {
      hide CauseOk;
      CauseOfFailure(phase, n.idx, Cancelled, groupErr, ContextDone);
      phase := phase[n.idx := Cancelled];
      if groupErr.None? {
        groupErr := Some(ContextDone);
      }
      MinorStepInv(plan, old(Abs()), Abs(), n.idx);
    }

    /** The locked region after a step that returned an error: nobody is unblocked. */
    method FailStep(n: StepNode)
      requires Valid() && n in nodes && phase[n.idx] == Running
      modifies this`phase, this`groupErr
      ensures Fail(plan, old(Abs()), Abs(), n.idx) && Valid()
      ensures groupErr == if old(groupErr).None? then Some(StepFailed(n.idx)) else old(groupErr)
    {
      hide CauseOk;
      CauseOfFailure(phase, n.idx, Failed, groupErr, StepFailed(n.idx));
      phase := phase[n.idx := Failed];
      if groupErr.None? {
        groupErr := Some(StepFailed(n.idx));
      }
      MinorStepInv(plan, old(Abs()), Abs(), n.idx);
    }

    method CancelGroup()
      requires Valid() && !cancelled
      modifies this`cancelled
      ensures Cancel(plan, old(Abs()), Abs()) && Valid()
    {
      cancelled := true;
      MinorStepInv(plan, old(Abs()), Abs(), 0);
    }

    /** One waiter's turn in the unblocking loop. */
    method Decrement(w: StepNode)
      requires w in nodes && Numbered(nodes, plan.steps) && |phase| == |snap| == |nodes|
      modifies this`phase, this`snap, w`pending
      ensures w.pending == old(w.pending) - 1
      ensures phase == if w.pending == 0 then old(phase)[w.idx := Scheduled] else old(phase)
      ensures snap == if w.pending == 0 then old(snap)[w.idx := provided] else old(snap)
    {
      w.pending := w.pending - 1;
      if w.pending == 0 {
        Schedule(w);
      }
    }

    /** The unblocking loop. */
    method Unblock(ws: seq<StepNode>, ghost targets: set<int>)
      requires Numbered(nodes, plan.steps) && |phase| == |snap| == |nodes|
      requires NoDuplicates(ws) && (forall w :: w in ws ==> w in nodes)
      requires forall i :: 0 <= i < |nodes| ==> (i in targets <==> nodes[i] in ws)
      modifies this`phase, this`snap, nodes`pending
      ensures |phase| == |snap| == |nodes|
      ensures forall i :: 0 <= i < |nodes| ==>
        nodes[i].pending == if i in targets then old(nodes[i].pending) - 1 else old(nodes[i].pending)
      ensures forall i :: 0 <= i < |nodes| ==>
        phase[i] == if i in targets && old(nodes[i].pending) == 1 then Scheduled else old(phase[i])
      ensures forall i :: 0 <= i < |nodes| ==>
        snap[i] == if i in targets && old(nodes[i].pending) == 1 then provided else old(snap[i])
    {
      ghost var done: set<int> := {};
      for k := 0 to |ws|
        invariant |phase| == |snap| == |nodes|
        invariant forall i :: 0 <= i < |nodes| ==> (i in done <==> nodes[i] in ws[..k])
        invariant forall i :: 0 <= i < |nodes| ==>
          nodes[i].pending == if i in done then old(nodes[i].pending) - 1 else old(nodes[i].pending)
        invariant forall i :: 0 <= i < |nodes| ==>
          phase[i] == if i in done && old(nodes[i].pending) == 1 then Scheduled else old(phase[i])
        invariant forall i :: 0 <= i < |nodes| ==>
          snap[i] == if i in done && old(nodes[i].pending) == 1 then provided else old(snap[i])
      {
        assert ws[..k + 1] == ws[..k] + [ws[k]];
        assert ws[k] in nodes && ws[k].idx !in done;
        Decrement(ws[k]);
        done := done + {ws[k].idx};
      }
      assert ws[..|ws|] == ws;
    }

    /** Counters may change freely: the links only concern the lists. */
    twostate lemma LinksKept()
      requires old(Linked())
      requires forall i :: 0 <= i < |nodes| ==>
        && nodes[i].prereqs == old(nodes[i].prereqs) && nodes[i].prereqSet == old(nodes[i].prereqSet)
        && nodes[i].waiters == old(nodes[i].waiters)
      ensures Linked()
    {
      forall i | 0 <= i < |nodes| ensures NodeMirrors(nodes, plan.E, i) {
        assert old(NodeMirrors(nodes, plan.E, i));
      }
    }

    /** The step is marked, its resources are published, its waiters are unblocked. */
    method MarkAndUnblock(n: StepNode, changes: bool)
      requires Linked() && |phase| == |snap| == |nodes| && n in nodes
      modifies this`phase, this`snap, this`provided, this`wouldChange, nodes`pending
      ensures Linked() && |phase| == |snap| == |nodes|
      ensures provided == if changes then old(provided) + Supplied(n.step) else old(provided)
      ensures wouldChange == if changes then old(wouldChange) + {n.idx} else old(wouldChange)
      ensures forall i :: 0 <= i < |nodes| ==>
        nodes[i].pending == old(nodes[i].pending) - (if i in Targets(plan, n.idx) then 1 else 0)
      ensures forall i :: 0 <= i < |nodes| ==>
        phase[i] == if i in Targets(plan, n.idx) && old(nodes[i].pending) == 1 then Scheduled
                    else if i == n.idx then Done else old(phase[i])
      ensures forall i :: 0 <= i < |nodes| ==>
        snap[i] == if i in Targets(plan, n.idx) && old(nodes[i].pending) == 1 then provided else old(snap[i])
    {
      assert NodeMirrors(nodes, plan.E, n.idx);
      phase := phase[n.idx := Done];
      if changes {
        provided := provided + Supplied(n.step);
        wouldChange := wouldChange + {n.idx};
      }
      Unblock(n.waiters, Targets(plan, n.idx));
      LinksKept();
    }

    /** The locked region after a step that returned no error. Only check mode publishes resources. */
    method FinishStep(n: StepNode, wouldChangeOps: nat)
      requires Valid() && n in nodes && phase[n.idx] == Running
      modifies this`phase, this`snap, this`provided, this`wouldChange, nodes`pending
      ensures Finish(plan, old(Abs()), Abs(), n.idx, checkOnly && wouldChangeOps > 0) && Valid()
    {
      hide CauseOk, Finish;
      ghost var s := Abs();
      MarkAndUnblock(n, checkOnly && wouldChangeOps > 0);
      FinishAssembled(plan, s, Abs(), n.idx, checkOnly && wouldChangeOps > 0);
      CauseKeptByFinish(plan, s, Abs(), n.idx, checkOnly && wouldChangeOps > 0, groupErr);
    }
  }

  ghost function Targets(p: Plan, n: int): set<int> {
    set i | 0 <= i < |p.steps| && (n, i) in p.E
  }

  /** Marking the step, publishing, then unblocking is the Finish transition. */
  lemma FinishAssembled(p: Plan, s: State, s': State, n: int, changes: bool)
    requires Inv(p, s) && Sized(p, s') && 0 <= n < |s.phase| && s.phase[n] == Running
    requires s'.cancelled == s.cancelled && s'.started == s.started
    requires s'.provided == if changes then s.provided + Supplied(p.steps[n]) else s.provided
    requires s'.wouldChange == if changes then s.wouldChange + {n} else s.wouldChange
    requires forall i :: 0 <= i < |p.steps| ==>
      s'.pending[i] == s.pending[i] - (if i in Targets(p, n) then 1 else 0)
    requires forall i :: 0 <= i < |p.steps| ==>
      s'.phase[i] == if i in Targets(p, n) && s.pending[i] == 1 then Scheduled
                     else if i == n then Done else s.phase[i]
    requires forall i :: 0 <= i < |p.steps| ==>
      s'.snap[i] == if i in Targets(p, n) && s.pending[i] == 1 then s'.provided else s.snap[i]
    ensures Finish(p, s, s', n, changes) && Inv(p, s')
  {
    NotItsOwnRequirement(p, s, n);
    FinishInv(p, s, s', n, changes);
  }

  /** A running step does not depend on itself. */
  lemma NotItsOwnRequirement(p: Plan, s: State, n: int)
    requires Inv(p, s) && 0 <= n < |s.phase| && s.phase[n] == Running
    ensures (n, n) !in p.E
  {
    var blockers := Unmet(p, s, n);
    assert blockers == {};
    assert (n, n) in p.E ==> (n, n) in blockers;
  }

  /** Building the graph, setting the counters and scheduling the roots reaches an initial state. */
  method Launch(steps: seq<Step>, checkOnly: bool) returns (run: StepRun)
    ensures fresh(run) && fresh(run.nodes)
    ensures run.plan == Plan(steps, StepEdges(steps)) && run.checkOnly == checkOnly
    ensures run.Valid() && Init(run.plan, run.Abs())
  {
    var nodes := BuildStepGraph(steps);
    InitStepPending(nodes, steps, StepEdges(steps));
    run := new StepRun(nodes, Plan(steps, StepEdges(steps)), checkOnly);
  }

  /** One scheduling decision: any goroutine that is left moves, or the context is cancelled. A running step
      ends as its work answers. */
  method MoveOnce(run: StepRun, n: nat, cancel: bool, work: (int, set<Resource>) -> Report)
    requires run.Valid() && n < |run.phase| == |run.snap|
    requires run.phase[n] == Scheduled || run.phase[n] == Running
    modifies run, run.nodes
    ensures run.Valid() && Moves(run.plan, run.checkOnly, work, old(run.Abs()), run.Abs(), n, cancel)
  {
    assert |run.nodes| == |run.phase|;
    hide Inv, Finish, Skip, Begin, Fail, Cancel;
    var node := run.nodes[n];
    if cancel && !run.cancelled {
      run.CancelGroup();
    } else if run.phase[n] == Scheduled && run.cancelled {
      run.SkipStep(node);
    } else if run.phase[n] == Scheduled {
      run.BeginStep(node);
    } else {
      match work(n, run.snap[n]) {
        case Broke => run.FailStep(node);
        case Finished(ops) => run.FinishStep(node, ops);
      }
    }
  }

  lemma ExtendRun(p: Plan, trace: seq<State>, s': State)
    requires IsRun(p, trace) && Next(p, trace[|trace| - 1], s')
    ensures IsRun(p, trace + [s'])
  {
    var longer := trace + [s'];
    forall k | 0 <= k < |longer| - 1 ensures MovesAt(p, longer, k) {
      if k < |trace| - 1 {
        assert MovesAt(p, trace, k);
      }
    }
  }

  predicate Active(f: Phase) {
    f == Scheduled || f == Running
  }

  /** Moves goroutines in some order until none is left, recording the states. */
  method Drive(run: StepRun, work: (int, set<Resource>) -> Report) returns (ghost trace: seq<State>)
    requires run.Valid() && Init(run.plan, run.Abs())
    modifies run, run.nodes
    ensures run.Valid()
    ensures IsRun(run.plan, trace) && trace[|trace| - 1] == run.Abs() && Settled(run.Abs())
    ensures Answered(run.plan, run.checkOnly, work, run.Abs())
  {
    trace := [run.Abs()];
    AnsweredAtFirst(run.plan, run.checkOnly, work, run.Abs());
    while exists n :: 0 <= n < |run.phase| && Active(run.phase[n])
      invariant run.Valid() && Answered(run.plan, run.checkOnly, work, run.Abs())
      invariant IsRun(run.plan, trace) && trace[|trace| - 1] == run.Abs()
      decreases Measure(run.Abs())
    {
      var n :| 0 <= n < |run.phase| && Active(run.phase[n]);
      var cancel := *;
      ghost var s := run.Abs();
      MoveOnce(run, n, cancel, work);
      MovesAreNext(run.plan, run.checkOnly, work, s, run.Abs(), n, cancel);
      AnsweredAfterMove(run.plan, run.checkOnly, work, s, run.Abs(), n, cancel);
      NextDecreases(run.plan, s, run.Abs());
      ExtendRun(run.plan, trace, run.Abs());
      trace := trace + [run.Abs()];
    }
    SettledWhenNoneActive(run.Abs());
  }

  lemma SettledWhenNoneActive(s: State)
    requires forall n :: 0 <= n < |s.phase| ==> !Active(s.phase[n])
    ensures Settled(s)
  {
  }

  /** Whatever order the goroutines move in and whatever the steps answer, the group settles, and the
      states it went through form a run of the transition system. */
  method RunPlan(steps: seq<Step>, checkOnly: bool, work: (int, set<Resource>) -> Report)
    returns (run: StepRun, ghost trace: seq<State>)
    ensures run.plan == Plan(steps, StepEdges(steps)) && run.checkOnly == checkOnly && run.Valid()
    ensures IsRun(run.plan, trace) && trace[|trace| - 1] == run.Abs() && Settled(run.Abs())
    ensures Answered(run.plan, checkOnly, work, run.Abs())
  {
    run := Launch(steps, checkOnly);
    trace := Drive(run, work);
  }
}
