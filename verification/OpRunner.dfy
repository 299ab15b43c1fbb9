/** The op scheduler's own steps (runChecks, initPending, schedule, runStep and runCheckStep in
    internal/engine/exec.go). Each method that the source runs under the scheduler's mutex is one
    transition of OpScheduler; orders the source leaves to the runtime are chosen arbitrarily. */
module OpRunner {
  import opened Graph
  import opened OpPlan
  import opened OpScheduler
  import opened Wrappers
  import opened Deferral
  import StepGraph

  datatype Summary = Summary(total: nat, succeeded: nat, changed: nat, failed: nat, aborted: nat, skipped: nat,
                             wouldChange: nat)

  /** Ops without an outcome so far. */
  ghost function Unfinished(nodes: seq<Node>): (u: set<nat>)
    ensures forall i: nat :: i in u <==> i < |nodes| && nodes[i].outcome == Unknown
  {
    set i: nat | i in Below(|nodes|) && nodes[i].outcome == Unknown
  }

  /** Completing n settles n and leaves everything else about the ops alone. */
  ghost predicate Settles(before: seq<Node>, after: seq<Node>, n: nat) {
    && n in Unfinished(before)
    && Unfinished(after) == Unfinished(before) - {n}
    && SameChecks(before, after)
  }

  /** No op was added, dropped or checked again. */
  ghost predicate SameChecks(before: seq<Node>, after: seq<Node>) {
    |after| == |before| && forall i :: 0 <= i < |after| ==> after[i].satisfied == before[i].satisfied
  }

  /** Nothing holds the unsatisfied op d back any more. */
  ghost predicate Hits(nodes: seq<Node>, pending: seq<int>, d: nat) {
    d < |nodes| && d < |pending| && !nodes[d].satisfied && pending[d] == 0
  }

  /** How often d occurs among the first k entries. */
  ghost function Seen(ds: seq<nat>, k: nat, d: nat): nat
    requires k <= |ds|
  {
    multiset(ds[..k])[d]
  }

  lemma NothingSeen(ds: seq<nat>)
    ensures forall d: nat :: Seen(ds, 0, d) == 0
  {
  }

  lemma SeenStep(ds: seq<nat>, k: nat)
    requires k < |ds|
    ensures forall d: nat :: Seen(ds, k + 1, d) == Seen(ds, k, d) + One(d == ds[k])
    ensures Seen(ds, k, ds[k]) < multiset(ds)[ds[k]]
  {
    MultisetStep(ds, k);
    EntriesLeft(ds, k);
  }

  lemma AllSeen(ds: seq<nat>)
    ensures forall d: nat :: Seen(ds, |ds|, d) == multiset(ds)[d] && (Seen(ds, |ds|, d) > 0 <==> d in ds)
  {
    assert ds[..|ds|] == ds;
  }

  lemma AnswerIsChecked(provided: set<StepGraph.Resource>, r: CheckResult, checkErr: Option<Error>)
    requires ErrorOf(Classify(provided, r)).Some? ==> checkErr.Some?
    ensures Checked(AfterCheck(FRESH, Classify(provided, r)), provided != {}, checkErr)
  {
    if provided == {} {
      NothingPutOff(r);
    }
  }

  ghost function One(b: bool): nat {
    if b then 1 else 0
  }

  class OpRun {
    const g: OpGraph
    const provided: set<StepGraph.Resource>   // what upstream steps would provide; empty when applying
    var nodes: seq<Node>
    var pending: seq<int>
    var running: set<nat>
    var checkErr: Option<Error>
    var groupErr: Option<Error>
    var raised: set<nat>                      // ops whose error was raised as a diagnostic
    ghost var launches: seq<nat>

    ghost function Abs(): State
      reads this
    {
      State(nodes, pending, running, launches, groupErr)
    }

    constructor (g: OpGraph, provided: set<StepGraph.Resource>)
      requires GraphOk(g)
      ensures this.g == g && this.provided == provided
      ensures checkErr == None && groupErr == None && running == {} && raised == {}
      ensures |nodes| == |pending| == |launches| == |g.deps|
      ensures forall i :: 0 <= i < |nodes| ==> nodes[i] == FRESH && launches[i] == 0
    {
      this.g, this.provided, raised := g, provided, {};
      nodes := seq(|g.deps|, i => FRESH);
      pending := seq(|g.deps|, i requires 0 <= i < |g.deps| => |g.deps[i]|);
      launches := seq(|g.deps|, i => 0);
      running, checkErr, groupErr := {}, None, None;
    }

    /** One op's check has returned: a missing resource that upstream steps would provide comes first, then
        the diagnostic, then the verdict. The first error is the group's. */
    method CheckOp(i: nat, r: CheckResult)
      requires i < |nodes|
      modifies this`nodes, this`checkErr, this`raised
      ensures nodes == old(nodes)[i := AfterCheck(old(nodes[i]), Classify(provided, r))]
      ensures checkErr == if old(checkErr).Some? then old(checkErr) else ErrorOf(Classify(provided, r))
      ensures raised == if Diagnosed(provided, r) then old(raised) + {i} else old(raised)
    {
      if r.err.Some? {
        var e := r.err.value;
        var deferred := IsDeferred(provided, e.missing);
        if deferred {
          nodes := nodes[i := nodes[i].(outcome := WouldChange)];
          return;
        }
        raised := raised + {i};
        if e.aborts {
          nodes := nodes[i := nodes[i].(outcome := Aborted, err := Some(e.err))];
        }
        if e.aborts || !e.consumed {
          checkErr := if checkErr.Some? then checkErr else Some(e.err);
          return;
        }
      }
      if r.verdict == CheckSatisfied {
        nodes := nodes[i := nodes[i].(satisfied := true, outcome := Skipped)];
      } else {
        nodes := nodes[i := nodes[i].(satisfied := false)];
      }
    }

    /** All checks, in whatever order they come back. An error does not stop the others. */
    method RunChecks(check: nat -> CheckResult)
      requires checkErr == None && raised == {} && forall i :: 0 <= i < |nodes| ==> nodes[i] == FRESH
      modifies this`nodes, this`checkErr, this`raised
      ensures |nodes| == old(|nodes|)
      ensures forall i: nat :: i < |nodes| ==> nodes[i] == AfterCheck(FRESH, Classify(provided, check(i)))
      ensures forall i: nat :: i < |nodes| ==> Checked(nodes[i], provided != {}, checkErr)
      ensures checkErr == None <==> forall i: nat :: i < |nodes| ==> ErrorOf(Classify(provided, check(i))) == None
      ensures checkErr.Some? ==> exists i: nat :: i < |nodes| && ErrorOf(Classify(provided, check(i))) == checkErr
      ensures forall i: nat :: i in raised <==> i < |nodes| && Diagnosed(provided, check(i))
    {
      hide Classify, Diagnosed;
      ghost var answer := (i: nat) => Classify(provided, check(i));
      var todo := Below(|nodes|);
      while todo != {}
        invariant |nodes| == old(|nodes|) && todo <= Below(|nodes|)
        invariant forall i: nat :: i < |nodes| ==>
          nodes[i] == if i in todo then FRESH else AfterCheck(FRESH, answer(i))
        invariant checkErr == None <==> forall i: nat :: i < |nodes| && i !in todo ==> ErrorOf(answer(i)) == None
        invariant checkErr.Some? ==> exists i: nat :: i < |nodes| && ErrorOf(answer(i)) == checkErr
        invariant forall i: nat :: i in raised <==> i < |nodes| && i !in todo && Diagnosed(provided, check(i))
        decreases todo
      {
        var i: nat :| i in todo;
        assert answer(i) == Classify(provided, check(i));
        todo := todo - {i};
        CheckOp(i, check(i));
      }
      forall i: nat | i < |nodes| ensures Checked(nodes[i], provided != {}, checkErr) {
        assert answer(i) == Classify(provided, check(i));
        AnswerIsChecked(provided, check(i), checkErr);
      }
    }

    ghost function UnsatisfiedBelow(m: nat): (o: set<nat>)
      requires m <= |nodes|
      reads this`nodes
      ensures forall i: nat :: i in o <==> i < m && !nodes[i].satisfied
    {
      set i: nat | i in Below(m) && !nodes[i].satisfied
    }

    /** The inner loop of initPending: one count up per entry of a dependents list. */
    method CountUp(ds: seq<nat>)
      requires |pending| == |nodes| && forall d :: d in ds ==> d < |nodes|
      modifies this`pending
      ensures |pending| == |nodes|
      ensures forall d :: 0 <= d < |nodes| ==>
        pending[d] == old(pending[d]) + (if nodes[d].satisfied then 0 else multiset(ds)[d])
    {
      for k := 0 to |ds|
        invariant |pending| == |nodes|
        invariant forall d :: 0 <= d < |nodes| ==>
          pending[d] == old(pending[d]) + (if nodes[d].satisfied then 0 else multiset(ds[..k])[d])
      {
        MultisetStep(ds, k);
        var d := ds[k];
        assert d in ds;
        if !nodes[d].satisfied {
          pending := pending[d := pending[d] + 1];
        }
      }
      assert ds[..|ds|] == ds;
    }

    /** Counters of unsatisfied ops count their unsatisfied dependencies, entry by entry. */
    method InitPending()
      requires GraphOk(g) && |pending| == |nodes| == |g.deps|
      modifies this`pending
      ensures |pending| == |nodes|
      ensures forall i :: 0 <= i < |nodes| ==>
        pending[i] == if nodes[i].satisfied then 0 else CountIn(g.deps[i], UnsatisfiedBelow(|nodes|))
    {
      hide CountIn, Below, UnsatisfiedBelow;
      pending := seq(|nodes|, i => 0);
      forall i | 0 <= i < |nodes| ensures CountIn(g.deps[i], UnsatisfiedBelow(0)) == 0 {
        CountInZero(g.deps[i], UnsatisfiedBelow(0));
      }
      for n := 0 to |nodes|
        invariant |pending| == |nodes|
        invariant forall i :: 0 <= i < |nodes| ==>
          pending[i] == if nodes[i].satisfied then 0 else CountIn(g.deps[i], UnsatisfiedBelow(n))
      {
        if nodes[n].satisfied {
          assert UnsatisfiedBelow(n + 1) == UnsatisfiedBelow(n);
        } else {
          assert UnsatisfiedBelow(n + 1) - {n} == UnsatisfiedBelow(n);
          forall i | 0 <= i < |nodes|
            ensures CountIn(g.deps[i], UnsatisfiedBelow(n + 1)) ==
              CountIn(g.deps[i], UnsatisfiedBelow(n)) + multiset(g.dependents[n])[i]
          {
            CountInRemove(g.deps[i], UnsatisfiedBelow(n + 1), n);
          }
          CountUp(g.dependents[n]);
        }
      }
    }

    /** schedule: an unsatisfied op gets its goroutine. */
    method Schedule(n: nat)
      requires n < |nodes| == |launches|
      modifies this`running, this`launches
      ensures if nodes[n].satisfied then running == old(running) && launches == old(launches)
              else running == old(running) + {n} && launches == old(launches)[n := old(launches[n]) + 1]
    {
      if nodes[n].satisfied {
        return;
      }
      running := running + {n};
      launches := launches[n := launches[n] + 1];
    }

    /** Setting the counters and scheduling every op without a counted dependency. */
    method StartExecution()
      requires GraphOk(g) && |pending| == |nodes| == |launches| == |g.deps|
      requires running == {} && groupErr == None
      requires forall i :: 0 <= i < |nodes| ==> launches[i] == 0
      requires forall i :: 0 <= i < |nodes| ==> nodes[i] == FRESH || nodes[i] == Node(true, Skipped, None, None)
      modifies this`pending, this`running, this`launches
      ensures ExecInit(g, Abs())
    {
      InitPending();
      assert UnsatisfiedBelow(|nodes|) == Open(nodes);
      ghost var counted := pending;
      for n := 0 to |nodes|
        invariant |launches| == |nodes| && pending == counted
        invariant forall i: nat :: i in running <==> i < n && !nodes[i].satisfied && pending[i] == 0
        invariant forall i :: 0 <= i < |nodes| ==> launches[i] == if i in running then 1 else 0
      {
        if !nodes[n].satisfied && pending[n] == 0 {
          Schedule(n);
        }
      }
    }

    /** One entry's turn in the unblocking loop. */
    method CountDownOp(d: nat)
      requires |pending| == |nodes| == |launches| && d < |nodes|
      modifies this`pending, this`running, this`launches
      ensures pending == if nodes[d].satisfied then old(pending) else old(pending)[d := old(pending[d]) - 1]
      ensures launches == if Hits(nodes, pending, d) then old(launches)[d := old(launches[d]) + 1] else old(launches)
      ensures running == if Hits(nodes, pending, d) then old(running) + {d} else old(running)
    {
      if !nodes[d].satisfied {
        pending := pending[d := pending[d] - 1];
        if pending[d] == 0 {
          Schedule(d);
        }
      }
    }

    /** The unblocking loop after a success. */
    method Unblock(ds: seq<nat>)
      requires |pending| == |nodes| == |launches|
      requires forall d :: d in ds ==> d < |nodes|
      requires forall d :: 0 <= d < |nodes| && !nodes[d].satisfied ==> pending[d] >= multiset(ds)[d]
      modifies this`pending, this`running, this`launches
      ensures |pending| == |nodes| == |launches|
      ensures forall d :: 0 <= d < |nodes| ==>
        pending[d] == old(pending[d]) - (if nodes[d].satisfied then 0 else multiset(ds)[d])
      ensures forall d :: 0 <= d < |nodes| ==>
        launches[d] == old(launches[d]) + (if !nodes[d].satisfied && d in ds && pending[d] == 0 then 1 else 0)
      ensures forall d: nat :: d in running <==>
        d in old(running) || (d < |nodes| && !nodes[d].satisfied && d in ds && pending[d] == 0)
    {
      hide Seen;
      NothingSeen(ds);
      for k := 0 to |ds|
        invariant |pending| == |nodes| == |launches|
        invariant forall d :: 0 <= d < |nodes| ==>
          pending[d] == old(pending[d]) - (if nodes[d].satisfied then 0 else Seen(ds, k, d))
        invariant forall d :: 0 <= d < |nodes| ==>
          launches[d] == old(launches[d]) + One(Seen(ds, k, d) > 0 && Hits(nodes, pending, d))
        invariant forall d: nat :: d in running <==>
          d in old(running) || (d < |nodes| && Seen(ds, k, d) > 0 && Hits(nodes, pending, d))
      {
        SeenStep(ds, k);
        assert ds[k] in ds;
        CountDownOp(ds[k]);
      }
      AllSeen(ds);
    }

    /** The locked region of a goroutine whose op failed. */
    method Break(n: nat, err: Error, ghost execute: nat -> Executed)
      requires ExecInv(g, execute, Abs()) && n in running && execute(n) == Broken(err)
      modifies this`nodes, this`running, this`groupErr
      ensures ExecFail(g, old(Abs()), Abs(), n, err) && ExecInv(g, execute, Abs())
      ensures Settles(old(nodes), nodes, n)
    {
      ghost var s := Abs();
      assert NodeOk(execute, s, n);
      nodes := nodes[n := nodes[n].(outcome := Failed, result := None, err := Some(err))];
      running := running - {n};
      if groupErr.None? {
        groupErr := Some(err);
      }
      ExecFailInv(g, execute, s, Abs(), n, err);
    }

    /** The locked region of a goroutine whose op succeeded. */
    method Apply(n: nat, changed: bool, ghost execute: nat -> Executed)
      requires ExecInv(g, execute, Abs()) && n in running && execute(n) == Applied(changed)
      modifies this`nodes, this`pending, this`running, this`launches
      ensures ExecOk(g, old(Abs()), Abs(), n, changed) && ExecInv(g, execute, Abs())
      ensures Settles(old(nodes), nodes, n)
    {
      ghost var s := Abs();
      assert NodeOk(execute, s, n);
      EntriesCounted(g, execute, s, n);
      nodes := nodes[n := nodes[n].(outcome := Succeeded, result := Some(changed), err := None)];
      running := running - {n};
      Unblock(g.dependents[n]);
      ReleasedAtZero(g, execute, s, n);
      ExecOkInv(g, execute, s, Abs(), n, changed);
    }

    /** The goroutine of op n, from the answer of its execution on. */
    method Complete(n: nat, execute: nat -> Executed)
      requires ExecInv(g, execute, Abs()) && n in running
      modifies this`nodes, this`pending, this`running, this`launches, this`groupErr
      ensures Completes(g, old(Abs()), Abs(), n, execute(n)) && ExecInv(g, execute, Abs())
      ensures Settles(old(nodes), nodes, n)
    {
      match execute(n) {
        case Broken(err) => Break(n, err, execute);
        case Applied(changed) => Apply(n, changed, execute);
      }
    }
  }

  /** While n runs, its entries are still in the counter of every unsatisfied dependent. */
  lemma EntriesCounted(g: OpGraph, execute: nat -> Executed, s: State, n: nat)
    requires ExecInv(g, execute, s) && n in s.running
    ensures n < |s.nodes| && !s.nodes[n].satisfied
    ensures forall d: nat :: d < |s.nodes| && !s.nodes[d].satisfied ==> s.pending[d] >= multiset(g.dependents[n])[d]
    ensures n !in g.dependents[n]
  {
    assert NodeOk(execute, s, n) && Counted(g, s, n);
    assert n in Open(s.nodes);
    forall d: nat | d < |s.nodes| && !s.nodes[d].satisfied ensures s.pending[d] >= multiset(g.dependents[n])[d] {
      assert Counted(g, s, d);
      CountInRemove(g.deps[d], Open(s.nodes), n);
    }
    assert s.pending[n] == 0;
    assert multiset(g.dependents[n])[n] == 0;
  }

  lemma ReleasedAtZero(g: OpGraph, execute: nat -> Executed, s: State, n: nat)
    requires ExecInv(g, execute, s) && n in s.running
    ensures n < |s.nodes|
    ensures forall d: nat :: d < |s.nodes| ==>
      (Released(g, s, n, d) <==>
        !s.nodes[d].satisfied && d in g.dependents[n] && s.pending[d] - multiset(g.dependents[n])[d] == 0)
  {
  }

  // Whole steps
  // ---------------------------------------------------------------------------

  lemma ExtendExecRun(g: OpGraph, execute: nat -> Executed, trace: seq<State>, s': State, n: nat)
    requires GraphOk(g) && IsExecRun(g, execute, trace)
    requires Completes(g, trace[|trace| - 1], s', n, execute(n))
    ensures IsExecRun(g, execute, trace + [s'])
  {
    var longer := trace + [s'];
    forall k | 0 <= k < |longer| - 1 ensures MovesAt(g, execute, longer, k) {
      if k < |trace| - 1 {
        assert MovesAt(g, execute, trace, k);
      }
    }
  }

  lemma SameChecksChain(a: seq<Node>, b: seq<Node>, c: seq<Node>)
    requires SameChecks(a, b) && SameChecks(b, c)
    ensures SameChecks(a, c)
  {
  }

  lemma RunStarts(g: OpGraph, execute: nat -> Executed, s: State)
    requires GraphOk(g) && ExecInit(g, s)
    ensures IsExecRun(g, execute, [s])
  {
  }

  /** Runs goroutines to their end, in any order, until the group is empty. */
  method DriveExecution(run: OpRun, execute: nat -> Executed) returns (ghost trace: seq<State>)
    requires GraphOk(run.g) && ExecInit(run.g, run.Abs())
    modifies run
    ensures IsExecRun(run.g, execute, trace) && trace[|trace| - 1] == run.Abs()
    ensures run.running == {} && SameChecks(old(run.nodes), run.nodes)
  {
    trace := [run.Abs()];
    InitInv(run.g, execute, run.Abs());
    RunStarts(run.g, execute, run.Abs());
    hide GraphOk, ExecInv, Completes, ExecInit, IsExecRun, Unfinished, SameChecks;
    while run.running != {}
      invariant ExecInv(run.g, execute, run.Abs())
      invariant SameChecks(old(run.nodes), run.nodes)
      invariant IsExecRun(run.g, execute, trace) && trace[|trace| - 1] == run.Abs()
      decreases Unfinished(run.nodes)
    {
      var n: nat :| n in run.running;
      ghost var before := run.nodes;
      run.Complete(n, execute);
      SameChecksChain(old(run.nodes), before, run.nodes);
      ExtendExecRun(run.g, execute, trace, run.Abs(), n);
      trace := trace + [run.Abs()];
    }
  }

  /** runStep: a failing check keeps everything from executing; otherwise the ops execute along their
      dependencies, and every op ends as ApplyReport says. Graphs are acyclic: BuildPlan returns no others. */
  method RunStep(g: OpGraph, check: nat -> CheckResult, execute: nat -> Executed)
    returns (nodes: seq<Node>, err: Option<Error>)
    requires GraphOk(g) && Acyclic(DepEdges(g.deps))
    ensures ApplyReport(g.deps, check, execute, nodes, err)
  {
    hide Classify, AfterCheck, ErrorOf, ReportValid, MarkAborted, Checked, GraphOk, ApplyReport, ExecReport, SameChecks;
    var run := new OpRun(g, {});
    run.RunChecks(check);
    ghost var checked := run.nodes;
    err := run.checkErr;
    var checksPassed := err == None;
    if checksPassed {
      forall i: nat | i < |run.nodes| ensures run.nodes[i] == FRESH || run.nodes[i] == Node(true, Skipped, None, None) {
        CleanlyChecked(check(i));
      }
      err := ExecuteOps(run, execute);
    }
    nodes := MarkLeftovers(run.nodes, err);
    if checksPassed {
      SameChecksChain(checked, run.nodes, nodes);
      ReportAfterExecution(g.deps, check, execute, checked, nodes, err);
    } else {
      ReportAfterFailedCheck(g.deps, check, execute, checked, nodes, err);
    }
  }

  lemma ReportAfterExecution(deps: seq<seq<nat>>, check: nat -> CheckResult, execute: nat -> Executed,
                             checked: seq<Node>, nodes: seq<Node>, err: Option<Error>)
    requires SameChecks(checked, nodes) && ExecReport(deps, execute, nodes, err)
    requires forall i: nat :: i < |nodes| ==> checked[i] == AfterCheck(FRESH, Classify({}, check(i)))
    requires forall i: nat :: i < |nodes| ==> ErrorOf(Classify({}, check(i))) == None
    ensures ApplyReport(deps, check, execute, nodes, err)
  {
    hide Classify, ErrorFrom, DepsDone, AfterCheck;
    forall i: nat | i < |nodes|
      ensures ReportValid(nodes[i]) && (nodes[i].outcome == Skipped <==> Classify({}, check(i)).Satisfied?)
    {
      SatisfiedByCheck({}, check(i));
    }
  }

  lemma ReportAfterFailedCheck(deps: seq<seq<nat>>, check: nat -> CheckResult, execute: nat -> Executed,
                               checked: seq<Node>, nodes: seq<Node>, err: Option<Error>)
    requires |nodes| == |checked| == |deps| && CheckFailed(check, |nodes|, err)
    requires forall i: nat :: i < |nodes| ==> checked[i] == AfterCheck(FRESH, Classify({}, check(i)))
    requires forall i :: 0 <= i < |nodes| ==> nodes[i] == MarkAborted(checked[i], err)
    ensures ApplyReport(deps, check, execute, nodes, err)
  {
    hide Classify, ErrorOf, ErrorFrom, AppliedAs, AfterCheck, MarkAborted;
    forall i: nat | i < |nodes| {
      AbortedMark(check(i), err);
    }
  }

  lemma SatisfiedByCheck(provided: set<StepGraph.Resource>, r: CheckResult)
    ensures AfterCheck(FRESH, Classify(provided, r)).satisfied <==> Classify(provided, r).Satisfied?
  {
  }

  lemma CleanlyChecked(r: CheckResult)
    requires ErrorOf(Classify({}, r)) == None
    ensures AfterCheck(FRESH, Classify({}, r)) in {FRESH, Node(true, Skipped, None, None)}
  {
    NothingPutOff(r);
  }

  /** An op of an apply some check of which failed. */
  lemma AbortedMark(r: CheckResult, err: Option<Error>)
    requires err.Some?
    ensures var a, n := Classify({}, r), MarkAborted(AfterCheck(FRESH, Classify({}, r)), err);
      && ReportValid(n)
      && n == if a.Satisfied? then Node(true, Skipped, None, None)
              else Node(false, Aborted, None, if a.Fatal? then Some(a.err) else err)
  {
    NothingPutOff(r);
  }

  /** The execution phase, from initPending to the end of the group. */
  method ExecuteOps(run: OpRun, execute: nat -> Executed) returns (err: Option<Error>)
    requires GraphOk(run.g) && Acyclic(DepEdges(run.g.deps))
    requires |run.pending| == |run.nodes| == |run.launches| == |run.g.deps|
    requires run.running == {} && run.groupErr == None
    requires forall i :: 0 <= i < |run.nodes| ==> run.launches[i] == 0
    requires forall i :: 0 <= i < |run.nodes| ==>
      run.nodes[i] == FRESH || run.nodes[i] == Node(true, Skipped, None, None)
    modifies run
    ensures SameChecks(old(run.nodes), run.nodes)
    ensures ExecReport(run.g.deps, execute, Marked(run.nodes, err), err)
  {
    hide GraphOk, ReportValid, MarkAborted, ExecInit, IsExecRun, ExecReport, Marked;
    run.StartExecution();
    ghost var trace := DriveExecution(run, execute);
    err := run.groupErr;
    SettledNodes(run.g, execute, trace);
  }

  /** The leftovers marked. */
  ghost function Marked(nodes: seq<Node>, err: Option<Error>): seq<Node> {
    seq(|nodes|, i requires 0 <= i < |nodes| => MarkAborted(nodes[i], err))
  }

  /** How every op ends when it comes to executing: satisfied ops are skipped, the others are executed or
      aborted by what their direct dependencies did. */
  ghost predicate ExecReport(deps: seq<seq<nat>>, execute: nat -> Executed, nodes: seq<Node>, err: Option<Error>) {
    && |nodes| == |deps| && ErrorFrom(nodes, err)
    && forall i: nat :: i < |nodes| ==>
         if nodes[i].satisfied then nodes[i] == Node(true, Skipped, None, None)
         else AppliedAs(nodes, i, deps[i], execute(i), err)
  }

  /** The last loop of runStep. */
  method MarkLeftovers(nodes0: seq<Node>, err: Option<Error>) returns (nodes: seq<Node>)
    ensures nodes == Marked(nodes0, err) && SameChecks(nodes0, nodes)
  {
    nodes := nodes0;
    for i := 0 to |nodes|
      invariant |nodes| == |nodes0|
      invariant forall k :: 0 <= k < |nodes| ==> nodes[k] == if k < i then MarkAborted(nodes0[k], err) else nodes0[k]
    {
      nodes := nodes[i := MarkAborted(nodes[i], err)];
    }
  }

  /** The nodes of a settled execution after marking. */
  lemma SettledNodes(g: OpGraph, execute: nat -> Executed, trace: seq<State>)
    requires GraphOk(g) && Acyclic(DepEdges(g.deps)) && IsExecRun(g, execute, trace)
    requires trace[|trace| - 1].running == {}
    ensures var s := trace[|trace| - 1]; ExecReport(g.deps, execute, Marked(s.nodes, s.groupErr), s.groupErr)
  {
    var k := |trace| - 1;
    var s := trace[k];
    RunInv(g, execute, trace, k);
    if s.groupErr == None {
      SettledWithoutError(g, execute, trace, k);
    }
    MarkedErrorFrom(s.nodes, s.groupErr);
    forall i: nat | i < |s.nodes| && !s.nodes[i].satisfied
      ensures AppliedAs(Marked(s.nodes, s.groupErr), i, g.deps[i], execute(i), s.groupErr)
    {
      SettledNode(g, execute, s, i);
    }
    forall i: nat | i < |s.nodes| && s.nodes[i].satisfied
      ensures Marked(s.nodes, s.groupErr)[i] == Node(true, Skipped, None, None)
    {
      assert NodeOk(execute, s, i);
    }
  }

  lemma MarkedErrorFrom(nodes: seq<Node>, err: Option<Error>)
    requires ErrorFrom(nodes, err)
    ensures ErrorFrom(Marked(nodes, err), err)
  {
    var m := Marked(nodes, err);
    forall i | 0 <= i < |nodes| ensures nodes[i].outcome == Failed <==> m[i].outcome == Failed {
    }
    if err.Some? {
      var i :| 0 <= i < |nodes| && nodes[i].outcome == Failed && nodes[i].err == err;
      assert m[i] == nodes[i];
    }
  }

  lemma SettledNode(g: OpGraph, execute: nat -> Executed, s: State, i: nat)
    requires ExecInv(g, execute, s) && s.running == {} && i < |s.nodes| && !s.nodes[i].satisfied
    requires s.groupErr == None ==> s.nodes[i].outcome == Succeeded
    ensures AppliedAs(Marked(s.nodes, s.groupErr), i, g.deps[i], execute(i), s.groupErr)
  {
    var m := Marked(s.nodes, s.groupErr);
    assert NodeOk(execute, s, i) && Counted(g, s, i);
    forall d | d in g.deps[i] ensures d < |m| && (m[d].outcome in {Skipped, Succeeded} <==> d !in Open(s.nodes)) {
      assert NodeOk(execute, s, d);
    }
    CountInZero(g.deps[i], Open(s.nodes));
    hide CountIn;
    assert DepsDone(m, g.deps[i]) <==> s.launches[i] > 0;
  }

  /** runCheckStep: nothing executes. */
  method RunCheckStep(g: OpGraph, provided: set<StepGraph.Resource>, check: nat -> CheckResult)
    returns (nodes: seq<Node>, err: Option<Error>, raised: set<nat>)
    requires GraphOk(g)
    ensures |nodes| == |g.deps| && CheckReport(provided, check, nodes, err, raised)
  {
    hide Classify, AfterCheck, ErrorOf, ReportValid, MarkChecked, Checked, GraphOk, Diagnosed;
    var run := new OpRun(g, provided);
    run.RunChecks(check);
    forall i: nat | i < |run.nodes| {
      VerdictMark(provided, check(i), run.checkErr);
    }
    err, raised := run.checkErr, run.raised;
    nodes := MarkVerdicts(run.nodes, err);
  }

  /** An op of a check run. */
  lemma VerdictMark(provided: set<StepGraph.Resource>, r: CheckResult, err: Option<Error>)
    requires ErrorOf(Classify(provided, r)).Some? ==> err.Some?
    ensures var a, n := Classify(provided, r), MarkChecked(AfterCheck(FRESH, Classify(provided, r)), err);
      && ReportValid(n)
      && (n.outcome == WouldChange <==> a.Deferred? || (a.Unsatisfied? && err == None))
      && (n.outcome == Skipped <==> a.Satisfied?)
      && n.outcome in {WouldChange, Skipped, Aborted}
      && (n.outcome == Aborted ==> n.err == if a.Fatal? then Some(a.err) else err)
  {
  }

  /** The last loop of runCheckStep. */
  method MarkVerdicts(nodes0: seq<Node>, err: Option<Error>) returns (nodes: seq<Node>)
    ensures |nodes| == |nodes0| && forall k :: 0 <= k < |nodes| ==> nodes[k] == MarkChecked(nodes0[k], err)
  {
    nodes := nodes0;
    for i := 0 to |nodes|
      invariant |nodes| == |nodes0|
      invariant forall k :: 0 <= k < |nodes| ==> nodes[k] == if k < i then MarkChecked(nodes0[k], err) else nodes0[k]
    {
      nodes := nodes[i := MarkChecked(nodes[i], err)];
    }
  }

  /** From the ops of a step to their outcomes. A step whose ops cannot be planned makes the source panic. */
  method RunOps<Op(==, !new)>(ops: seq<Op>, dependsOn: Op -> seq<Op>, checkOnly: bool,
                              provided: set<StepGraph.Resource>,
                              check: nat -> CheckResult, execute: nat -> Executed)
    returns (plan: PlanResult, nodes: seq<Node>, err: Option<Error>, raised: set<nat>)
    ensures plan.Planned? <==>
      NoDuplicates(ops) && AllKnown(ops, dependsOn) && Acyclic(DepEdges(StepDeps(ops, dependsOn)))
    ensures plan.Planned? ==> |nodes| == |ops|
    ensures plan.Planned? && checkOnly ==> CheckReport(provided, check, nodes, err, raised)
    ensures plan.Planned? && !checkOnly ==> ApplyReport(StepDeps(ops, dependsOn), check, execute, nodes, err)
  {
    hide CheckReport, GraphOk, Classify, ReportValid, ErrorFrom, AppliedAs, CheckFailed;
    nodes, err, raised := [], None, {};
    plan := BuildPlan(ops, dependsOn);
    if plan.Planned? {
      if checkOnly {
        nodes, err, raised := RunCheckStep(plan.graph, provided, check);
      } else {
        nodes, err := RunStep(plan.graph, check, execute);
      }
    }
  }

  // The report
  // ---------------------------------------------------------------------------

  ghost function CountOutcome(nodes: seq<Node>, o: Outcome): nat {
    if nodes == [] then 0
    else CountOutcome(nodes[..|nodes| - 1], o) + (if nodes[|nodes| - 1].outcome == o then 1 else 0)
  }

  lemma {:induction false} CountPositive(nodes: seq<Node>, o: Outcome)
    ensures CountOutcome(nodes, o) > 0 <==> exists i :: 0 <= i < |nodes| && nodes[i].outcome == o
    decreases |nodes|
  {
    if nodes != [] {
      CountPositive(nodes[..|nodes| - 1], o);
    }
  }

  /** The summary counts every op once, under its outcome. */
  ghost predicate Sums(nodes: seq<Node>, sum: Summary) {
    && sum.total == |nodes|
    && sum.succeeded == CountOutcome(nodes, Succeeded) && sum.failed == CountOutcome(nodes, Failed)
    && sum.aborted == CountOutcome(nodes, Aborted) && sum.skipped == CountOutcome(nodes, Skipped)
    && sum.wouldChange == CountOutcome(nodes, WouldChange)
    && sum.succeeded + sum.failed + sum.aborted + sum.skipped + sum.wouldChange == sum.total
    && sum.changed == CountChanged(nodes)
  }

  ghost function CountChanged(nodes: seq<Node>): nat {
    if nodes == [] then 0 else CountChanged(nodes[..|nodes| - 1]) + One(HasChanged(nodes[|nodes| - 1]))
  }

  lemma {:induction false} ChangedPositive(nodes: seq<Node>)
    ensures CountChanged(nodes) > 0 <==> exists i :: 0 <= i < |nodes| && HasChanged(nodes[i])
    ensures CountChanged(nodes) <= CountOutcome(nodes, Succeeded)
    decreases |nodes|
  {
    if nodes != [] {
      ChangedPositive(nodes[..|nodes| - 1]);
    }
  }

  ghost predicate HasChanged(n: Node) {
    n.outcome == Succeeded && n.result == Some(true)
  }

  /** One op more. */
  method AddOutcome(sum0: Summary, n: Node) returns (sum: Summary)
    requires ReportValid(n)
    ensures sum.total == sum0.total + 1
    ensures sum.succeeded == sum0.succeeded + One(n.outcome == Succeeded)
    ensures sum.changed == sum0.changed + One(HasChanged(n))
    ensures sum.failed == sum0.failed + One(n.outcome == Failed)
    ensures sum.aborted == sum0.aborted + One(n.outcome == Aborted)
    ensures sum.skipped == sum0.skipped + One(n.outcome == Skipped)
    ensures sum.wouldChange == sum0.wouldChange + One(n.outcome == WouldChange)
    ensures n.outcome != Unknown
  {
    sum := sum0.(total := sum0.total + 1);
    match n.outcome {
      case Succeeded =>
        sum := sum.(succeeded := sum.succeeded + 1);
        if n.result == Some(true) {
          sum := sum.(changed := sum.changed + 1);
        }
      case Failed => sum := sum.(failed := sum.failed + 1);
      case Aborted => sum := sum.(aborted := sum.aborted + 1);
      case Skipped => sum := sum.(skipped := sum.skipped + 1);
      case WouldChange => sum := sum.(wouldChange := sum.wouldChange + 1);
      case Unknown =>
    }
  }

  lemma OneMoreOutcome(nodes: seq<Node>, n: Node, o: Outcome)
    ensures CountOutcome(nodes + [n], o) == CountOutcome(nodes, o) + One(n.outcome == o)
  {
    assert (nodes + [n])[..|nodes|] == nodes;
  }

  lemma OneMoreSummed(nodes: seq<Node>, n: Node)
    ensures forall o :: CountOutcome(nodes + [n], o) == CountOutcome(nodes, o) + One(n.outcome == o)
    ensures CountChanged(nodes + [n]) == CountChanged(nodes) + One(HasChanged(n))
  {
    forall o ensures CountOutcome(nodes + [n], o) == CountOutcome(nodes, o) + One(n.outcome == o) {
      OneMoreOutcome(nodes, n, o);
    }
    assert (nodes + [n])[..|nodes|] == nodes;
  }

  method BuildStepReport(nodes: seq<Node>) returns (sum: Summary)
    requires forall i :: 0 <= i < |nodes| ==> ReportValid(nodes[i])
    ensures Sums(nodes, sum)
    ensures sum.changed > 0 <==> exists i :: 0 <= i < |nodes| && HasChanged(nodes[i])
  {
    sum := Summary(0, 0, 0, 0, 0, 0, 0);
    for i := 0 to |nodes|
      invariant Sums(nodes[..i], sum)
    {
      hide CountOutcome, CountChanged, ReportValid, HasChanged;
      OneMoreSummed(nodes[..i], nodes[i]);
      assert nodes[..i + 1] == nodes[..i] + [nodes[i]];
      sum := AddOutcome(sum, nodes[i]);
    }
    assert nodes[..|nodes|] == nodes;
    ChangedPositive(nodes);
  }
}
