/** The concurrent step schedulers of one deploy (executePlan and checkPlan in
    internal/engine/exec.go) as a transition system. A goroutine is a step's phase; each region the
    source runs under its mutex is one atomic transition, and any enabled transition may be next. */
module StepScheduler {
  import opened Graph
  import opened StepGraph
  import opened Deferral

  datatype Phase =
    | Waiting     // blocked on a requirement
    | Scheduled   // its goroutine exists but has not looked at the context yet
    | Running
    | Done
    | Failed
    | Cancelled   // its goroutine found the context cancelled and returned

  datatype State = State(
    phase: seq<Phase>,
    pending: seq<int>,
    cancelled: bool,               // the group's context
    provided: set<Resource>,       // resources that completed steps would provide (check mode)
    snap: seq<set<Resource>>,      // the copy of provided each step was scheduled with
    wouldChange: set<int>,         // completed steps that reported a would-be change
    started: seq<int>)             // history: steps in the order in which they began to run

  /** A plan: its steps and the edges of its graph. */
  datatype Plan = Plan(steps: seq<Step>, E: set<(int, int)>)

  ghost predicate PlanOk(p: Plan) {
    forall e :: e in p.E ==> 0 <= e.0 < |p.steps| && 0 <= e.1 < |p.steps|
  }

  function Supplied(s: Step): set<Resource> {
    set r | r in s.supplies
  }

  ghost function Into(p: Plan, i: int): set<(int, int)> {
    set e | e in p.E && e.1 == i
  }

  // Transitions
  // ---------------------------------------------------------------------------

  ghost predicate Sized(p: Plan, s: State) {
    |s.phase| == |s.pending| == |s.snap| == |p.steps|
  }

  /** The state after the first locked loop: steps without requirements are scheduled. */
  ghost predicate Init(p: Plan, s: State) {
    && Sized(p, s)
    && (forall i :: 0 <= i < |p.steps| ==> s.pending[i] == |Into(p, i)|)
    && (forall i :: 0 <= i < |p.steps| ==> s.phase[i] == if s.pending[i] == 0 then Scheduled else Waiting)
    && (forall i :: 0 <= i < |p.steps| ==> s.snap[i] == {})
    && !s.cancelled && s.provided == {} && s.wouldChange == {} && s.started == []
  }

  ghost predicate Begin(p: Plan, s: State, s': State, n: int) {
    && 0 <= n < |s.phase| && s.phase[n] == Scheduled && !s.cancelled
    && s' == s.(phase := s.phase[n := Running], started := s.started + [n])
  }

  ghost predicate Skip(p: Plan, s: State, s': State, n: int) {
    && 0 <= n < |s.phase| && s.phase[n] == Scheduled && s.cancelled
    && s' == s.(phase := s.phase[n := Cancelled])
  }

  ghost predicate Fail(p: Plan, s: State, s': State, n: int) {
    && 0 <= n < |s.phase| && s.phase[n] == Running
    && s' == s.(phase := s.phase[n := Failed])
  }

  /** The context may be cancelled at any time: by the group after a failure, or from outside. */
  ghost predicate Cancel(p: Plan, s: State, s': State) {
    !s.cancelled && s' == s.(cancelled := true)
  }

  /** Step n completes: its resources are published if it would change something, the counters of
      its waiters drop by one, and every waiter that reaches zero is scheduled with a snapshot. */
  ghost predicate Finish(p: Plan, s: State, s': State, n: int, changes: bool) {
    && Sized(p, s) && Sized(p, s')
    && 0 <= n < |s.phase| && s.phase[n] == Running
    && s'.cancelled == s.cancelled && s'.started == s.started
    && s'.wouldChange == (if changes then s.wouldChange + {n} else s.wouldChange)
    && s'.provided == (if changes then s.provided + Supplied(p.steps[n]) else s.provided)
    && (forall i :: 0 <= i < |p.steps| ==>
          s'.pending[i] == if (n, i) in p.E then s.pending[i] - 1 else s.pending[i])
    && (forall i :: 0 <= i < |p.steps| ==>
          s'.phase[i] == if i == n then Done else if Released(p, s, n, i) then Scheduled else s.phase[i])
    && (forall i :: 0 <= i < |p.steps| ==>
          s'.snap[i] == if i != n && Released(p, s, n, i) then s'.provided else s.snap[i])
  }

  ghost predicate Released(p: Plan, s: State, n: int, i: int)
    requires Sized(p, s) && 0 <= i < |p.steps|
  {
    (n, i) in p.E && s.pending[i] == 1
  }

  ghost predicate Next(p: Plan, s: State, s': State) {
    || Cancel(p, s, s')
    || (exists n :: Begin(p, s, s', n))
    || (exists n :: Skip(p, s, s', n))
    || (exists n :: Fail(p, s, s', n))
    || (exists n, changes :: Finish(p, s, s', n, changes))
  }

  /** A run: any sequence of states from the initial one in which each follows from the last. */
  ghost predicate IsRun(p: Plan, run: seq<State>) {
    && |run| > 0
    && Init(p, run[0])
    && forall k {:trigger MovesAt(p, run, k)} :: 0 <= k < |run| - 1 ==> MovesAt(p, run, k)
  }

  ghost predicate MovesAt(p: Plan, run: seq<State>, k: int)
    requires 0 <= k < |run| - 1
  {
    Next(p, run[k], run[k + 1])
  }

  /** What running or checking a step answers: an error, or how many of its ops would change something. */
  datatype Report = Broke | Finished(wouldChangeOps: nat)

  /** Every step that has ended did so as its work answered, given the snapshot it was scheduled with: it is
      Failed exactly on an error, and only check mode publishes what would change. */
  ghost predicate Answered(p: Plan, checkOnly: bool, work: (int, set<Resource>) -> Report, s: State) {
    && Sized(p, s)
    && (forall i :: i in s.wouldChange ==> 0 <= i < |s.phase| && s.phase[i] == Done)
    && forall i {:trigger EndedAs(checkOnly, work, s, i)} :: 0 <= i < |s.phase| ==> EndedAs(checkOnly, work, s, i)
  }

  ghost predicate EndedAs(checkOnly: bool, work: (int, set<Resource>) -> Report, s: State, i: int)
    requires 0 <= i < |s.phase| == |s.snap|
  {
    match s.phase[i]
    case Done =>
      var r := work(i, s.snap[i]);
      r.Finished? && (i in s.wouldChange <==> checkOnly && r.wouldChangeOps > 0)
    case Failed => work(i, s.snap[i]).Broke?
    case _ => true
  }

  /** One move of the goroutine of step n, or a cancellation. */
  ghost predicate Moves(p: Plan, checkOnly: bool, work: (int, set<Resource>) -> Report, s: State, s': State, n: int,
                        cancel: bool)
    requires Sized(p, s) && 0 <= n < |s.phase|
  {
    if cancel && !s.cancelled then Cancel(p, s, s')
    else if s.phase[n] == Scheduled then if s.cancelled then Skip(p, s, s', n) else Begin(p, s, s', n)
    else
      match work(n, s.snap[n])
      case Broke => Fail(p, s, s', n)
      case Finished(ops) => Finish(p, s, s', n, checkOnly && ops > 0)
  }

  lemma MovesAreNext(p: Plan, checkOnly: bool, work: (int, set<Resource>) -> Report, s: State, s': State, n: int,
                     cancel: bool)
    requires Sized(p, s) && 0 <= n < |s.phase| && Moves(p, checkOnly, work, s, s', n, cancel)
    ensures Next(p, s, s')
  {
    hide Finish;
  }

  lemma AnsweredAtFirst(p: Plan, checkOnly: bool, work: (int, set<Resource>) -> Report, s: State)
    requires Init(p, s)
    ensures Answered(p, checkOnly, work, s)
  {
  }

  lemma AnsweredAfterMove(p: Plan, checkOnly: bool, work: (int, set<Resource>) -> Report, s: State, s': State, n: int,
                          cancel: bool)
    requires Inv(p, s) && 0 <= n < |s.phase| && Moves(p, checkOnly, work, s, s', n, cancel)
    requires Answered(p, checkOnly, work, s)
    ensures Answered(p, checkOnly, work, s')
  {
    forall i | 0 <= i < |s.phase| ensures |s'.phase| == |s'.snap| == |s.phase| && EndedAs(checkOnly, work, s', i) {
      assert EndedAs(checkOnly, work, s, i);
      assert Counted(p, s);
    }
  }

  // The invariant
  // ---------------------------------------------------------------------------

  ghost function Unmet(p: Plan, s: State, i: int): set<(int, int)>
    requires PlanOk(p) && Sized(p, s)
  {
    set e | e in p.E && e.1 == i && s.phase[e.0] != Done
  }

  ghost predicate Counted(p: Plan, s: State)
    requires PlanOk(p) && Sized(p, s)
  {
    && (forall i :: 0 <= i < |p.steps| ==> s.pending[i] == |Unmet(p, s, i)|)
    && (forall i :: 0 <= i < |p.steps| ==> (s.phase[i] == Waiting <==> s.pending[i] > 0))
  }

  ghost predicate HasStarted(f: Phase) {
    f == Running || f == Done || f == Failed
  }

  ghost predicate Logged(p: Plan, s: State)
    requires Sized(p, s)
  {
    && NoDuplicates(s.started)
    && (forall i :: i in s.started <==> 0 <= i < |p.steps| && HasStarted(s.phase[i]))
    && (forall i :: 0 <= i < |p.steps| && s.phase[i] == Cancelled ==> s.cancelled)
  }

  ghost predicate Published(p: Plan, s: State)
    requires Sized(p, s)
  {
    && (forall j :: j in s.wouldChange ==> 0 <= j < |p.steps| && s.phase[j] == Done)
    && (forall r :: r in s.provided <==>
          exists j :: j in s.wouldChange && 0 <= j < |p.steps| && r in p.steps[j].supplies)
    && (forall i :: 0 <= i < |p.steps| ==> s.snap[i] <= s.provided)
    && (forall i, j :: 0 <= i < |p.steps| && s.phase[i] != Waiting && j in s.wouldChange && Reaches(p.E, j, i) ==>
          Supplied(p.steps[j]) <= s.snap[i])
  }

  ghost predicate Inv(p: Plan, s: State) {
    PlanOk(p) && Sized(p, s) && Counted(p, s) && Logged(p, s) && Published(p, s)
  }

  /** A step that is no longer waiting has all its transitive requirements behind it. */
  lemma {:induction false} RequirementsDone(p: Plan, s: State, path: seq<int>)
    requires PlanOk(p) && Sized(p, s) && Counted(p, s)
    requires IsPath(p.E, path) && |path| >= 2
    requires 0 <= path[|path| - 1] < |p.steps| && s.phase[path[|path| - 1]] != Waiting
    ensures 0 <= path[0] < |p.steps| && s.phase[path[0]] == Done
    decreases |path|
  {
    var k := |path| - 2;
    var e := (path[k], path[k + 1]);
    assert e in p.E;
    assert Unmet(p, s, e.1) == {};
    assert e !in Unmet(p, s, e.1);
    if k > 0 {
      var q := path[..k + 1];
      assert IsPath(p.E, q);
      RequirementsDone(p, s, q);
    }
  }

  lemma TransitiveRequirementsDone(p: Plan, s: State, j: int, i: int)
    requires PlanOk(p) && Sized(p, s) && Counted(p, s)
    requires 0 <= i < |p.steps| && s.phase[i] != Waiting && Reaches(p.E, j, i)
    ensures 0 <= j < |p.steps| && s.phase[j] == Done
  {
    var path: seq<int> :| IsPath(p.E, path) && |path| >= 2 && path[0] == j && path[|path| - 1] == i;
    RequirementsDone(p, s, path);
  }

  lemma InitInv(p: Plan, s: State)
    requires PlanOk(p) && Init(p, s)
    ensures Inv(p, s)
  {
    forall i | 0 <= i < |p.steps| ensures Unmet(p, s, i) == Into(p, i) {
    }
  }

  lemma SamePhaseDone(p: Plan, s: State, s': State)
    requires PlanOk(p) && Sized(p, s) && Sized(p, s') && Counted(p, s)
    requires s'.pending == s.pending
    requires forall i :: 0 <= i < |p.steps| ==>
      (s'.phase[i] == Done <==> s.phase[i] == Done) && (s'.phase[i] == Waiting <==> s.phase[i] == Waiting)
    ensures Counted(p, s')
  {
    forall i | 0 <= i < |p.steps| ensures Unmet(p, s', i) == Unmet(p, s, i) {
    }
  }

  lemma FinishCounted(p: Plan, s: State, s': State, n: int, changes: bool)
    requires Inv(p, s) && Finish(p, s, s', n, changes)
    ensures Counted(p, s')
  {
    hide Published, Logged;
    forall i | 0 <= i < |p.steps|
      ensures s'.pending[i] == |Unmet(p, s', i)|
      ensures s'.phase[i] == Waiting <==> s'.pending[i] > 0
    {
      FinishUnmet(p, s, s', n, changes, i);
    }
  }

  lemma FinishUnmet(p: Plan, s: State, s': State, n: int, changes: bool, i: int)
    requires Inv(p, s) && Finish(p, s, s', n, changes) && 0 <= i < |p.steps|
    ensures |Unmet(p, s', i)| == |Unmet(p, s, i)| - if (n, i) in p.E then 1 else 0
  {
    hide Published, Logged;
    if (n, i) in p.E {
      assert (n, i) in Unmet(p, s, i);
      assert Unmet(p, s', i) == Unmet(p, s, i) - {(n, i)};
    } else {
      assert Unmet(p, s', i) == Unmet(p, s, i);
    }
  }

  lemma FinishPublished(p: Plan, s: State, s': State, n: int, changes: bool)
    requires Inv(p, s) && Finish(p, s, s', n, changes) && Counted(p, s')
    ensures Published(p, s')
  {
    forall i, j | 0 <= i < |p.steps| && s'.phase[i] != Waiting && j in s'.wouldChange && Reaches(p.E, j, i)
      ensures Supplied(p.steps[j]) <= s'.snap[i]
    {
      if i != n && Released(p, s, n, i) {
        // scheduled just now, with everything published so far
      } else if s.phase[i] != Waiting {
        TransitiveRequirementsDone(p, s, j, i);
        assert j in s.wouldChange;
      }
    }
  }

  /** The four transitions that change at most one phase and no counter. */
  lemma MinorStepInv(p: Plan, s: State, s': State, n: int)
    requires Inv(p, s)
    requires Begin(p, s, s', n) || Skip(p, s, s', n) || Fail(p, s, s', n) || Cancel(p, s, s')
    ensures Inv(p, s')
  {
    SamePhaseDone(p, s, s');
  }

  lemma FinishInv(p: Plan, s: State, s': State, n: int, changes: bool)
    requires Inv(p, s) && Finish(p, s, s', n, changes)
    ensures Inv(p, s')
  {
    FinishCounted(p, s, s', n, changes);
    FinishPublished(p, s, s', n, changes);
  }

  lemma NextInv(p: Plan, s: State, s': State)
    requires Inv(p, s) && Next(p, s, s')
    ensures Inv(p, s')
  {
    if n, changes :| Finish(p, s, s', n, changes) {
      FinishInv(p, s, s', n, changes);
    } else {
      var n :| Begin(p, s, s', n) || Skip(p, s, s', n) || Fail(p, s, s', n) || Cancel(p, s, s');
      MinorStepInv(p, s, s', n);
    }
  }

  lemma {:induction false} RunInv(p: Plan, run: seq<State>, k: nat)
    requires PlanOk(p) && IsRun(p, run) && k < |run|
    ensures Inv(p, run[k])
  {
    if k == 0 {
      InitInv(p, run[0]);
    } else {
      RunInv(p, run, k - 1);
      assert MovesAt(p, run, k - 1);
      NextInv(p, run[k - 1], run[k]);
    }
  }

  // Safety over every run
  // ---------------------------------------------------------------------------

  /** No step begins twice in a run, and the one that begins has every transitive requirement completed. */
  lemma StartsOnceAfterRequirements(p: Plan, run: seq<State>, k: nat, n: int)
    requires PlanOk(p) && IsRun(p, run) && k + 1 < |run| && Begin(p, run[k], run[k + 1], n)
    ensures n !in run[k].started && NoDuplicates(run[k + 1].started)
    ensures forall j :: Reaches(p.E, j, n) ==> 0 <= j < |run[k].phase| && run[k].phase[j] == Done
  {
    RunInv(p, run, k);
    RunInv(p, run, k + 1);
    forall j | Reaches(p.E, j, n) ensures 0 <= j < |run[k].phase| && run[k].phase[j] == Done {
      TransitiveRequirementsDone(p, run[k], j, n);
    }
  }

  ghost predicate Trouble(s: State, j: int) {
    0 <= j < |s.phase| && (s.phase[j] == Failed || s.phase[j] == Cancelled)
  }

  /** A failed or cancelled step stays so for the rest of the run. */
  lemma {:induction false} TroubleLasts(p: Plan, run: seq<State>, k: nat, m: nat, j: int)
    requires PlanOk(p) && IsRun(p, run) && k <= m < |run| && Trouble(run[k], j)
    ensures Trouble(run[m], j)
    decreases m
  {
    hide Inv, Next, Trouble, Init;
    if k < m {
      TroubleLasts(p, run, k, m - 1, j);
      RunInv(p, run, m - 1);
      assert MovesAt(p, run, m - 1);
      TroubleSurvives(p, run[m - 1], run[m], j);
    }
  }

  lemma TroubleSurvives(p: Plan, s: State, s': State, j: int)
    requires Inv(p, s) && Next(p, s, s') && Trouble(s, j)
    ensures Trouble(s', j)
  {
    assert s.phase[j] != Waiting;
    assert Counted(p, s);
  }

  /** Whatever depends on a failed or cancelled step, directly or not, never starts: it had not when the
      failure is seen, and it does not in any later state of the run. */
  lemma NothingStartsBehindFailure(p: Plan, run: seq<State>, k: nat, j: int, m: nat, i: int)
    requires PlanOk(p) && IsRun(p, run) && k <= m < |run|
    requires Trouble(run[k], j) && 0 <= i < |p.steps| && Reaches(p.E, j, i)
    ensures |run[m].phase| == |p.steps| && run[m].phase[i] == Waiting && i !in run[m].started
  {
    TroubleLasts(p, run, k, m, j);
    RunInv(p, run, m);
    if run[m].phase[i] != Waiting {
      TransitiveRequirementsDone(p, run[m], j, i);
    }
  }

  // Progress
  // ---------------------------------------------------------------------------

  /** The group has nothing left to run. */
  ghost predicate Settled(s: State) {
    forall i :: 0 <= i < |s.phase| ==> s.phase[i] != Scheduled && s.phase[i] != Running
  }

  ghost predicate BehindTrouble(p: Plan, s: State, i: int) {
    exists j :: Trouble(s, j) && Reaches(p.E, j, i)
  }

  /** When a run of an acyclic plan settles, the steps that never ran are exactly those
      behind a failed or cancelled step; all the others have completed. */
  lemma SettledStepsAccounted(p: Plan, run: seq<State>, k: nat, i: int)
    requires PlanOk(p) && Acyclic(p.E) && IsRun(p, run) && k < |run|
    requires Settled(run[k]) && 0 <= i < |run[k].phase|
    ensures run[k].phase[i] == Waiting <==> BehindTrouble(p, run[k], i)
  {
    var s := run[k];
    RunInv(p, run, k);
    if j :| Trouble(s, j) && Reaches(p.E, j, i) {
      NothingStartsBehindFailure(p, run, k, j, k, i);
    } else if s.phase[i] == Waiting {
      var W := set w | 0 <= w < |s.phase| && s.phase[w] == Waiting && !BehindTrouble(p, s, w);
      assert i in W;
      var m := MinimalExists(p.E, W);
      var e :| e in Unmet(p, s, m);
      assert e.0 !in W;
      BlockerOfUntroubled(p, s, e.0, m);
    }
  }

  lemma BlockerOfUntroubled(p: Plan, s: State, j: int, m: int)
    requires Inv(p, s) && Settled(s)
    requires (j, m) in p.E && s.phase[j] != Done && !BehindTrouble(p, s, m)
    ensures s.phase[j] == Waiting && !BehindTrouble(p, s, j)
  {
    EdgeReaches(p.E, j, m);
    assert !Trouble(s, j);
    if h :| Trouble(s, h) && Reaches(p.E, h, j) {
      ReachesTransitive(p.E, h, j, m);
    }
  }

  /** If nothing failed and nothing was cancelled, every step has completed. */
  lemma UndisturbedRunCompletes(p: Plan, run: seq<State>, k: nat)
    requires PlanOk(p) && Acyclic(p.E) && IsRun(p, run) && k < |run| && Settled(run[k])
    requires !run[k].cancelled && forall j :: 0 <= j < |run[k].phase| ==> run[k].phase[j] != Failed
    ensures |run[k].phase| == |p.steps| && forall i :: 0 <= i < |p.steps| ==> run[k].phase[i] == Done
  {
    RunInv(p, run, k);
    forall i | 0 <= i < |p.steps| ensures run[k].phase[i] == Done {
      SettledStepsAccounted(p, run, k, i);
    }
  }

  ghost function Weight(f: Phase): nat {
    match f
    case Waiting => 3
    case Scheduled => 2
    case Running => 1
    case _ => 0
  }

  ghost function TotalWeight(fs: seq<Phase>): nat {
    if fs == [] then 0 else Weight(fs[0]) + TotalWeight(fs[1..])
  }

  lemma {:induction false} WeightBelow(f: seq<Phase>, g: seq<Phase>, n: nat)
    requires |f| == |g| && n < |f|
    requires forall i :: 0 <= i < |f| ==> Weight(g[i]) <= Weight(f[i])
    ensures TotalWeight(g) <= TotalWeight(f)
    ensures Weight(g[n]) < Weight(f[n]) ==> TotalWeight(g) < TotalWeight(f)
    decreases |f|
  {
    if |f| > 1 {
      WeightBelow(f[1..], g[1..], if n == 0 then 0 else n - 1);
    }
  }

  ghost function Measure(s: State): nat {
    TotalWeight(s.phase) + if s.cancelled then 0 else 1
  }

  lemma NextDecreases(p: Plan, s: State, s': State)
    requires Inv(p, s) && Next(p, s, s')
    ensures Measure(s') < Measure(s)
  {
    if n, changes :| Finish(p, s, s', n, changes) {
      WeightBelow(s.phase, s'.phase, n);
    } else if n :| Begin(p, s, s', n) || Skip(p, s, s', n) || Fail(p, s, s', n) {
      WeightBelow(s.phase, s'.phase, n);
    }
  }

  lemma {:induction false} WeightBound(fs: seq<Phase>)
    ensures TotalWeight(fs) <= 3 * |fs|
    decreases |fs|
  {
    if fs != [] {
      WeightBound(fs[1..]);
    }
  }

  lemma {:induction false} RunMeasure(p: Plan, run: seq<State>, k: nat)
    requires PlanOk(p) && IsRun(p, run) && k < |run|
    ensures k + Measure(run[k]) <= Measure(run[0])
  {
    if k > 0 {
      RunMeasure(p, run, k - 1);
      RunInv(p, run, k - 1);
      assert MovesAt(p, run, k - 1);
      NextDecreases(p, run[k - 1], run[k]);
    }
  }

  /** Every run is short: no interleaving livelocks. */
  lemma RunsAreBounded(p: Plan, run: seq<State>)
    requires PlanOk(p) && IsRun(p, run)
    ensures |run| <= 3 * |p.steps| + 2
  {
    RunMeasure(p, run, |run| - 1);
    WeightBound(run[0].phase);
  }

  /** As long as some goroutine is left, some transition other than cancellation is possible. */
  lemma UnsettledCanMove(p: Plan, s: State)
    requires Inv(p, s) && !Settled(s)
    ensures exists s' :: Next(p, s, s') && s'.cancelled == s.cancelled
  {
    var n :| 0 <= n < |s.phase| && (s.phase[n] == Scheduled || s.phase[n] == Running);
    if s.phase[n] == Running {
      var s' := s.(phase := s.phase[n := Failed]);
      assert Fail(p, s, s', n);
    } else if s.cancelled {
      var s' := s.(phase := s.phase[n := Cancelled]);
      assert Skip(p, s, s', n);
    } else {
      var s' := s.(phase := s.phase[n := Running], started := s.started + [n]);
      assert Begin(p, s, s', n);
    }
  }

  // What a check sees
  // ---------------------------------------------------------------------------

  /** The snapshot a step is checked with holds everything its would-change transitive requirements
      supply, and nothing but what completed would-change steps supply. */
  lemma SnapshotBounds(p: Plan, run: seq<State>, k: nat, i: int)
    requires PlanOk(p) && IsRun(p, run) && k < |run|
    requires 0 <= i < |run[k].phase| && run[k].phase[i] != Waiting
    ensures |run[k].phase| == |run[k].snap| == |p.steps|
    ensures forall j :: j in run[k].wouldChange && Reaches(p.E, j, i) ==>
      0 <= j < |p.steps| && Supplied(p.steps[j]) <= run[k].snap[i]
    ensures forall r :: r in run[k].snap[i] ==>
      exists j :: j in run[k].wouldChange && 0 <= j < |p.steps| && run[k].phase[j] == Done && r in p.steps[j].supplies
  {
    RunInv(p, run, k);
  }

  /** So a resource missing while step i is checked is never fatal when an upstream step that would
      change supplies it, or supplies a path below it. */
  lemma UpstreamResourceIsDeferred(p: Plan, run: seq<State>, k: nat, i: int, j: int, q: Resource, missing: Resource)
    requires PlanOk(p) && IsRun(p, run) && k < |run|
    requires 0 <= i < |run[k].phase| == |run[k].snap| && run[k].phase[i] == Running
    requires j in run[k].wouldChange && 0 <= j < |p.steps| && Reaches(p.E, j, i)
    requires q in p.steps[j].supplies && (q == missing || ParentOf(missing, q))
    ensures Deferrable(run[k].snap[i], missing)
  {
    SnapshotBounds(p, run, k, i);
    assert q in Supplied(p.steps[j]);
  }
}
