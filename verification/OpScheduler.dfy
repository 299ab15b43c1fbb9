/** The concurrent op scheduler of one step (internal/engine/exec.go): checks, execution of the
    unsatisfied ops along their dependencies, and the outcome every op ends with. */
module OpScheduler {
  import opened Graph
  import opened OpPlan
  import opened Wrappers
  import opened Deferral
  import StepGraph

  datatype Error = Error(id: nat)

  datatype Outcome = Unknown | Succeeded | Failed | Aborted | Skipped | WouldChange

  /** result is the Changed flag of the op's result. */
  datatype Node = Node(satisfied: bool, outcome: Outcome, result: Option<bool>, err: Option<Error>)

  const FRESH := Node(false, Unknown, None, None)

  /** validateOpReport: the pairs of result and error that do not make it panic. */
  ghost predicate ReportValid(n: Node) {
    match n.outcome
    case Succeeded => n.result.Some? && n.err.None?
    case Failed | Aborted => n.err.Some? && n.result.None?
    case Skipped | WouldChange => n.result.None? && n.err.None?
    case Unknown => false
  }

  // Checking
  // ---------------------------------------------------------------------------

  datatype Verdict = CheckUnknown | CheckSatisfied | CheckUnsatisfied

  /** An op's error: the resource it misses, if it names one, and what raising it as a diagnostic would
      answer: whether its impact aborts, and whether it was a diagnostic at all. */
  datatype CheckError = CheckError(err: Error, missing: Option<StepGraph.Resource>, aborts: bool, consumed: bool)

  /** What an op's check returns. */
  datatype CheckResult = CheckResult(verdict: Verdict, err: Option<CheckError>)

  /** What one op's check leads to. */
  datatype Answer =
    | Deferred               // its error names a resource an upstream step will provide
    | Fatal(err: Error)      // a diagnostic that aborts
    | Raw(err: Error)        // an error that is not a diagnostic
    | Satisfied
    | Unsatisfied            // also: a non-fatal diagnostic with that verdict

  /** Is the error put off, given the resources upstream steps would provide? */
  ghost predicate PutOff(provided: set<StepGraph.Resource>, r: CheckResult) {
    r.err.Some? && r.err.value.missing.Some? && Deferrable(provided, r.err.value.missing.value)
  }

  /** Is the error raised as a diagnostic? */
  ghost predicate Diagnosed(provided: set<StepGraph.Resource>, r: CheckResult) {
    r.err.Some? && !PutOff(provided, r)
  }

  /** Only an error that is not put off can abort or be raw; a diagnostic that does not abort leaves the verdict. */
  ghost function Classify(provided: set<StepGraph.Resource>, r: CheckResult): Answer {
    if PutOff(provided, r) then Deferred
    else if r.err.Some? && r.err.value.aborts then Fatal(r.err.value.err)
    else if r.err.Some? && !r.err.value.consumed then Raw(r.err.value.err)
    else if r.verdict == CheckSatisfied then Satisfied
    else Unsatisfied
  }

  /** Without provided resources nothing is put off. */
  lemma NothingPutOff(r: CheckResult)
    ensures !Classify({}, r).Deferred?
  {
  }

  ghost function AfterCheck(n: Node, a: Answer): Node {
    match a
    case Deferred => n.(outcome := WouldChange)
    case Fatal(e) => n.(outcome := Aborted, err := Some(e))
    case Raw(_) => n
    case Satisfied => n.(satisfied := true, outcome := Skipped)
    case Unsatisfied => n.(satisfied := false)
  }

  ghost function ErrorOf(a: Answer): Option<Error> {
    match a
    case Fatal(e) => Some(e)
    case Raw(e) => Some(e)
    case _ => None
  }

  /** A node some check has answered; nothing is deferred without provided resources. */
  ghost predicate Checked(n: Node, mayDefer: bool, checkErr: Option<Error>) {
    || n == Node(true, Skipped, None, None)
    || n == FRESH
    || (mayDefer && n == Node(false, WouldChange, None, None))
    || (checkErr.Some? && n.err.Some? && n == Node(false, Aborted, None, n.err))
  }

  // Executing
  // ---------------------------------------------------------------------------

  /** What executing an op answers: whether it changed something, or an error. */
  datatype Executed = Applied(changed: bool) | Broken(err: Error)

  /** The node of an op whose execution answered e. */
  ghost predicate Shows(n: Node, e: Executed) {
    match e
    case Applied(changed) => n == Node(false, Succeeded, Some(changed), None)
    case Broken(err) => n == Node(false, Failed, None, Some(err))
  }

  datatype State = State(
    nodes: seq<Node>,
    pending: seq<int>,
    running: set<nat>,        // ops whose goroutine is executing
    launches: seq<nat>,       // history: how often each op was scheduled
    groupErr: Option<Error>)  // first error returned in the group

  ghost predicate Sized(g: OpGraph, s: State) {
    |s.nodes| == |s.pending| == |s.launches| == |g.deps|
  }

  /** Unsatisfied ops that have not succeeded: the ones that hold their dependents back. */
  ghost function Open(nodes: seq<Node>): (o: set<nat>)
    ensures forall i: nat :: i in o <==> i < |nodes| && !nodes[i].satisfied && nodes[i].outcome != Succeeded
  {
    set i: nat | i in Below(|nodes|) && !nodes[i].satisfied && nodes[i].outcome != Succeeded
  }

  /** After initPending and the first scheduling loop. */
  ghost predicate ExecInit(g: OpGraph, s: State) {
    && Sized(g, s)
    && (forall i :: 0 <= i < |s.nodes| ==> s.nodes[i] == FRESH || s.nodes[i] == Node(true, Skipped, None, None))
    && (forall i :: 0 <= i < |s.nodes| ==>
          s.pending[i] == if s.nodes[i].satisfied then 0 else CountIn(g.deps[i], Open(s.nodes)))
    && (forall i: nat :: i in s.running <==> i < |s.nodes| && !s.nodes[i].satisfied && s.pending[i] == 0)
    && (forall i :: 0 <= i < |s.nodes| ==> s.launches[i] == if i in s.running then 1 else 0)
    && s.groupErr == None
  }

  ghost predicate Released(g: OpGraph, s: State, n: nat, i: nat)
    requires Sized(g, s) && GraphOk(g) && n < |s.nodes| && i < |s.nodes|
  {
    && !s.nodes[i].satisfied
    && i in g.dependents[n]
    && s.pending[i] == multiset(g.dependents[n])[i]
  }

  /** Op n succeeds: every unsatisfied dependent loses one count per entry and is scheduled at zero. */
  ghost predicate ExecOk(g: OpGraph, s: State, s': State, n: nat, changed: bool)
    requires GraphOk(g)
  {
    && Sized(g, s) && Sized(g, s') && n in s.running && n < |s.nodes|
    && s'.nodes == s.nodes[n := s.nodes[n].(outcome := Succeeded, result := Some(changed), err := None)]
    && s'.groupErr == s.groupErr
    && (forall i :: 0 <= i < |s.nodes| ==>
          s'.pending[i] == s.pending[i] - (if s.nodes[i].satisfied then 0 else multiset(g.dependents[n])[i]))
    && (forall i :: 0 <= i < |s.nodes| ==>
          s'.launches[i] == s.launches[i] + (if Released(g, s, n, i) then 1 else 0))
    && (forall i: nat :: i in s'.running <==>
          (i in s.running && i != n) || (i < |s.nodes| && Released(g, s, n, i)))
  }

  ghost predicate ExecFail(g: OpGraph, s: State, s': State, n: nat, e: Error) {
    && Sized(g, s) && n in s.running && n < |s.nodes|
    && s' == s.(
         nodes := s.nodes[n := s.nodes[n].(outcome := Failed, result := None, err := Some(e))],
         running := s.running - {n},
         groupErr := if s.groupErr.None? then Some(e) else s.groupErr)
  }

  /** The execution of op n returns with answer e. */
  ghost predicate Completes(g: OpGraph, s: State, s': State, n: nat, e: Executed)
    requires GraphOk(g)
  {
    match e
    case Applied(changed) => ExecOk(g, s, s', n, changed)
    case Broken(err) => ExecFail(g, s, s', n, err)
  }

  /** Some running op returns. execute is what each op answers when it is executed, which it is at most once. */
  ghost predicate ExecNext(g: OpGraph, execute: nat -> Executed, s: State, s': State)
    requires GraphOk(g)
  {
    exists n :: Completes(g, s, s', n, execute(n))
  }

  ghost predicate MovesAt(g: OpGraph, execute: nat -> Executed, run: seq<State>, k: int)
    requires GraphOk(g) && 0 <= k < |run| - 1
  {
    ExecNext(g, execute, run[k], run[k + 1])
  }

  ghost predicate IsExecRun(g: OpGraph, execute: nat -> Executed, run: seq<State>)
    requires GraphOk(g)
  {
    && |run| > 0 && ExecInit(g, run[0])
    && forall k {:trigger MovesAt(g, execute, run, k)} :: 0 <= k < |run| - 1 ==> MovesAt(g, execute, run, k)
  }

  // The invariant
  // ---------------------------------------------------------------------------

  ghost predicate NodeOk(execute: nat -> Executed, s: State, i: nat)
    requires i < |s.nodes| == |s.launches|
  {
    var n := s.nodes[i];
    if n.satisfied then n == Node(true, Skipped, None, None) && s.launches[i] == 0 && i !in s.running
    else if i in s.running then n == FRESH && s.launches[i] == 1
    else if s.launches[i] == 0 then n == FRESH
    else s.launches[i] == 1 && Shows(n, execute(i))
  }

  ghost predicate Counted(g: OpGraph, s: State, i: nat)
    requires Sized(g, s) && i < |s.nodes|
  {
    !s.nodes[i].satisfied ==>
      && s.pending[i] == CountIn(g.deps[i], Open(s.nodes))
      && (s.pending[i] == 0 <==> s.launches[i] > 0)
  }

  /** The error is there exactly when some op failed, and it is the error of one that did. */
  ghost predicate ErrorFrom(nodes: seq<Node>, err: Option<Error>) {
    && (err.Some? <==> exists i :: 0 <= i < |nodes| && nodes[i].outcome == Failed)
    && (err.Some? ==> exists i :: 0 <= i < |nodes| && nodes[i].outcome == Failed && nodes[i].err == err)
  }

  ghost predicate ExecInv(g: OpGraph, execute: nat -> Executed, s: State) {
    && GraphOk(g) && Sized(g, s)
    && (forall i :: i in s.running ==> i < |s.nodes|)
    && (forall i: nat {:trigger NodeOk(execute, s, i)} :: i < |s.nodes| ==> NodeOk(execute, s, i))
    && (forall i: nat {:trigger Counted(g, s, i)} :: i < |s.nodes| ==> Counted(g, s, i))
    && ErrorFrom(s.nodes, s.groupErr)
  }

  lemma InitInv(g: OpGraph, execute: nat -> Executed, s: State)
    requires GraphOk(g) && ExecInit(g, s)
    ensures ExecInv(g, execute, s)
  {
  }

  /** Op n, which had no outcome, succeeds. */
  lemma ErrorFromOthers(nodes: seq<Node>, err: Option<Error>, n: nat, after: Node)
    requires ErrorFrom(nodes, err) && n < |nodes| && nodes[n].outcome != Failed && after.outcome != Failed
    ensures ErrorFrom(nodes[n := after], err)
  {
    var nodes' := nodes[n := after];
    forall i | 0 <= i < |nodes'| && nodes'[i].outcome == Failed ensures nodes[i].outcome == Failed {
    }
    if err.Some? {
      var i :| 0 <= i < |nodes| && nodes[i].outcome == Failed && nodes[i].err == err;
      assert nodes'[i] == nodes[i];
    }
  }

  /** Op n, which had no outcome, fails: the first error stays. */
  lemma ErrorFromFailure(nodes: seq<Node>, err: Option<Error>, n: nat, after: Node)
    requires ErrorFrom(nodes, err) && n < |nodes| && nodes[n].outcome != Failed
    requires after.outcome == Failed && after.err.Some?
    ensures ErrorFrom(nodes[n := after], if err.None? then after.err else err)
  {
    var nodes' := nodes[n := after];
    assert nodes'[n] == after;
    if err.Some? {
      var i :| 0 <= i < |nodes| && nodes[i].outcome == Failed && nodes[i].err == err;
      assert nodes'[i] == nodes[i];
    }
  }

  lemma ExecOkInv(g: OpGraph, execute: nat -> Executed, s: State, s': State, n: nat, changed: bool)
    requires ExecInv(g, execute, s) && ExecOk(g, s, s', n, changed) && execute(n) == Applied(changed)
    ensures ExecInv(g, execute, s')
  {
    hide ErrorFrom;
    assert NodeOk(execute, s, n);
    assert Open(s'.nodes) == Open(s.nodes) - {n};
    forall i: nat | i < |s.nodes| ensures NodeOk(execute, s', i) && Counted(g, s', i) {
      assert NodeOk(execute, s, i) && Counted(g, s, i);
      CountInRemove(g.deps[i], Open(s.nodes), n);
      assert i in g.dependents[n] <==> multiset(g.dependents[n])[i] > 0;
    }
    ErrorFromOthers(s.nodes, s.groupErr, n, s'.nodes[n]);
  }

  lemma ExecFailInv(g: OpGraph, execute: nat -> Executed, s: State, s': State, n: nat, e: Error)
    requires ExecInv(g, execute, s) && ExecFail(g, s, s', n, e) && execute(n) == Broken(e)
    ensures ExecInv(g, execute, s')
  {
    hide ErrorFrom;
    assert NodeOk(execute, s, n);
    assert Open(s'.nodes) == Open(s.nodes);
    forall i: nat | i < |s.nodes| ensures NodeOk(execute, s', i) && Counted(g, s', i) {
      assert NodeOk(execute, s, i) && Counted(g, s, i);
    }
    ErrorFromFailure(s.nodes, s.groupErr, n, s'.nodes[n]);
  }

  lemma NextInv(g: OpGraph, execute: nat -> Executed, s: State, s': State)
    requires ExecInv(g, execute, s) && ExecNext(g, execute, s, s')
    ensures ExecInv(g, execute, s')
  {
    var n :| Completes(g, s, s', n, execute(n));
    match execute(n)
    case Applied(changed) => ExecOkInv(g, execute, s, s', n, changed);
    case Broken(e) => ExecFailInv(g, execute, s, s', n, e);
  }

  lemma {:induction false} RunInv(g: OpGraph, execute: nat -> Executed, run: seq<State>, k: nat)
    requires GraphOk(g) && IsExecRun(g, execute, run) && k < |run|
    ensures ExecInv(g, execute, run[k])
    decreases k
  {
    if k == 0 {
      InitInv(g, execute, run[0]);
    } else {
      RunInv(g, execute, run, k - 1);
      assert MovesAt(g, execute, run, k - 1);
      NextInv(g, execute, run[k - 1], run[k]);
    }
  }

  // What every run keeps
  // ---------------------------------------------------------------------------

  /** An op is scheduled at most once, never when it is satisfied, and only when each of its direct
      dependencies is satisfied or has succeeded. */
  lemma LaunchedOnceAfterDirectDeps(g: OpGraph, execute: nat -> Executed, run: seq<State>, k: nat, i: nat)
    requires GraphOk(g) && IsExecRun(g, execute, run) && k < |run| && i < |run[k].nodes|
    ensures |run[k].nodes| == |run[k].launches| == |g.deps| && run[k].launches[i] <= 1
    ensures run[k].nodes[i].satisfied ==> run[k].launches[i] == 0 && run[k].nodes[i].outcome == Skipped
    ensures !run[k].nodes[i].satisfied ==>
      (run[k].launches[i] == 1 <==> forall d :: d in g.deps[i] ==>
         d < |run[k].nodes| && (run[k].nodes[d].satisfied || run[k].nodes[d].outcome == Succeeded))
  {
    var s := run[k];
    RunInv(g, execute, run, k);
    assert NodeOk(execute, s, i) && Counted(g, s, i);
    CountInZero(g.deps[i], Open(s.nodes));
  }

  /** An op that was scheduled and is no longer running shows what its execution answered. */
  lemma ExecutedOpsShowTheirAnswer(g: OpGraph, execute: nat -> Executed, run: seq<State>, k: nat, i: nat)
    requires GraphOk(g) && IsExecRun(g, execute, run) && k < |run| && i < |run[k].nodes| == |run[k].launches|
    requires run[k].launches[i] > 0 && i !in run[k].running
    ensures Shows(run[k].nodes[i], execute(i))
    ensures execute(i).Broken? ==> run[k].groupErr.Some?
  {
    RunInv(g, execute, run, k);
    assert NodeOk(execute, run[k], i);
  }

  /** The dependencies that hold something back: between unsatisfied ops. */
  ghost function UnsatisfiedEdges(g: OpGraph, nodes: seq<Node>): set<(int, int)>
    requires |nodes| == |g.deps|
  {
    set e | e in DepEdges(g.deps) && IsUnsatisfied(nodes, e.0) && IsUnsatisfied(nodes, e.1)
  }

  ghost predicate IsUnsatisfied(nodes: seq<Node>, i: int) {
    0 <= i < |nodes| && !nodes[i].satisfied
  }

  /** Removing the satisfied ops cannot close a cycle, so whatever is left to do has a first op. */
  lemma RemovingSatisfiedKeepsAcyclic(g: OpGraph, nodes: seq<Node>)
    requires |nodes| == |g.deps| && Acyclic(DepEdges(g.deps))
    ensures Acyclic(UnsatisfiedEdges(g, nodes))
  {
    AcyclicSubset(UnsatisfiedEdges(g, nodes), DepEdges(g.deps));
  }

  /** When execution settles without an error, every unsatisfied op has succeeded. */
  lemma SettledWithoutError(g: OpGraph, execute: nat -> Executed, run: seq<State>, k: nat)
    requires GraphOk(g) && Acyclic(DepEdges(g.deps)) && IsExecRun(g, execute, run) && k < |run|
    requires run[k].running == {} && run[k].groupErr == None
    ensures forall i: nat :: i < |run[k].nodes| ==> run[k].nodes[i].satisfied || run[k].nodes[i].outcome == Succeeded
  {
    var s := run[k];
    RunInv(g, execute, run, k);
    var W := set i: int | 0 <= i < |s.nodes| && !s.nodes[i].satisfied && s.nodes[i].outcome != Succeeded;
    if W != {} {
      RemovingSatisfiedKeepsAcyclic(g, s.nodes);
      ReversedAcyclic(UnsatisfiedEdges(g, s.nodes));
      var m := MinimalExists(Reversed(UnsatisfiedEdges(g, s.nodes)), W);
      var d := BlockedByOpen(g, execute, s, m);
    }
    forall i: nat | i < |s.nodes| ensures s.nodes[i].satisfied || s.nodes[i].outcome == Succeeded {
      assert (i as int) !in W;
    }
  }

  /** In a settled state without errors an unfinished op has an unfinished dependency. */
  lemma BlockedByOpen(g: OpGraph, execute: nat -> Executed, s: State, m: nat) returns (d: nat)
    requires ExecInv(g, execute, s) && s.running == {} && s.groupErr == None
    requires m < |s.nodes| && !s.nodes[m].satisfied && s.nodes[m].outcome != Succeeded
    ensures d < |s.nodes| && !s.nodes[d].satisfied && s.nodes[d].outcome != Succeeded
    ensures (d as int, m as int) in Reversed(UnsatisfiedEdges(g, s.nodes))
  {
    assert NodeOk(execute, s, m) && Counted(g, s, m);
    CountInZero(g.deps[m], Open(s.nodes));
    d :| d in g.deps[m] && d in Open(s.nodes);
    var k :| 0 <= k < |g.deps[m]| && g.deps[m][k] == d;
    assert (m as int, d as int) in UnsatisfiedEdges(g, s.nodes);
  }

  // The outcome of every op
  // ---------------------------------------------------------------------------

  /** What is left without outcome after an apply is aborted with the first error. */
  function MarkAborted(n: Node, err: Option<Error>): Node {
    if err.Some? && n.outcome == Unknown then n.(outcome := Aborted, err := err) else n
  }

  /** What is left without outcome after the checks: aborted with their error, or it would change. */
  function MarkChecked(n: Node, checkErr: Option<Error>): Node {
    if n.outcome != Unknown then n
    else if checkErr.Some? then n.(outcome := Aborted, err := checkErr)
    else if !n.satisfied then n.(outcome := WouldChange)
    else n
  }

  /** An apply whose checks found no error ends with a valid report for every op, so neither
      "op left without outcome" nor validateOpReport can panic. */
  lemma ApplyReportsValid(g: OpGraph, execute: nat -> Executed, run: seq<State>, k: nat, i: nat)
    requires GraphOk(g) && Acyclic(DepEdges(g.deps)) && IsExecRun(g, execute, run) && k < |run|
    requires run[k].running == {} && i < |run[k].nodes|
    ensures ReportValid(MarkAborted(run[k].nodes[i], run[k].groupErr))
  {
    RunInv(g, execute, run, k);
    assert NodeOk(execute, run[k], i);
    if run[k].groupErr == None {
      SettledWithoutError(g, execute, run, k);
    }
  }

  /** Checks alone give every op of a check run a valid report: skipped, would-change, or aborted
      because some check failed. In an apply they do so whenever one of them failed. */
  lemma CheckedReportsValid(n: Node, mayDefer: bool, checkErr: Option<Error>)
    requires Checked(n, mayDefer, checkErr)
    ensures ReportValid(MarkChecked(n, checkErr))
    ensures MarkChecked(n, checkErr).outcome == Aborted ==> checkErr.Some?
    ensures checkErr.Some? ==> ReportValid(MarkAborted(n, checkErr))
  {
  }

  /** The outcome of a check run whose ops answered check, against the resources upstream steps would
      provide: an op would change exactly when its error is put off, or when it is unsatisfied and no check
      failed; raised are the ops whose error became a diagnostic. */
  ghost predicate CheckReport(provided: set<StepGraph.Resource>, check: nat -> CheckResult, nodes: seq<Node>,
                              err: Option<Error>, raised: set<nat>)
  {
    && (forall i: nat :: i < |nodes| ==> ReportValid(nodes[i]))
    && (err == None <==> forall i: nat :: i < |nodes| ==> ErrorOf(Classify(provided, check(i))) == None)
    && (err.Some? ==> exists i: nat :: i < |nodes| && ErrorOf(Classify(provided, check(i))) == err)
    && (forall i: nat :: i < |nodes| ==> (nodes[i].outcome == WouldChange <==>
          var a := Classify(provided, check(i)); a.Deferred? || (a.Unsatisfied? && err == None)))
    && (forall i: nat :: i < |nodes| ==> (nodes[i].outcome == Skipped <==> Classify(provided, check(i)).Satisfied?))
    && (forall i: nat :: i < |nodes| && nodes[i].outcome == Aborted ==>
          var a := Classify(provided, check(i)); nodes[i].err == if a.Fatal? then Some(a.err) else err)
    && (forall i: nat :: i < |nodes| ==> nodes[i].outcome in {WouldChange, Skipped, Aborted})
    && (forall i: nat :: i in raised <==> i < |nodes| && Diagnosed(provided, check(i)))
  }

  /** Some check failed, and err is the error of one that did. */
  ghost predicate CheckFailed(check: nat -> CheckResult, n: nat, err: Option<Error>) {
    err.Some? && exists i: nat :: i < n && ErrorOf(Classify({}, check(i))) == err
  }

  /** Nothing that op i depends on directly keeps it from executing. */
  ghost predicate DepsDone(nodes: seq<Node>, ds: seq<nat>) {
    forall d :: d in ds ==> d < |nodes| && nodes[d].outcome in {Skipped, Succeeded}
  }

  /** How op i of an apply without failed checks ends: an op whose direct dependencies are all done was
      executed and shows its answer, any other was aborted with the error of the step. */
  ghost predicate AppliedAs(nodes: seq<Node>, i: nat, ds: seq<nat>, e: Executed, err: Option<Error>)
    requires i < |nodes|
  {
    if DepsDone(nodes, ds) then Shows(nodes[i], e)
    else err.Some? && nodes[i] == Node(false, Aborted, None, err)
  }

  /** The outcome of an apply whose ops answered check and would answer execute: satisfied ops are skipped. A
      failing check keeps everything from executing, and the rest is aborted. Otherwise an op is executed
      exactly when all its direct dependencies are done; there is an error exactly when some executed op
      failed, and it is the error of one of those. */
  ghost predicate ApplyReport(deps: seq<seq<nat>>, check: nat -> CheckResult, execute: nat -> Executed,
                              nodes: seq<Node>, err: Option<Error>)
  {
    && |nodes| == |deps|
    && (forall i: nat :: i < |nodes| ==> ReportValid(nodes[i]))
    && (forall i: nat :: i < |nodes| ==> (nodes[i].outcome == Skipped <==> Classify({}, check(i)).Satisfied?))
    && (forall i: nat :: i < |nodes| && nodes[i].outcome == Skipped ==> nodes[i] == Node(true, Skipped, None, None))
    && if exists i: nat :: i < |nodes| && ErrorOf(Classify({}, check(i))).Some? then
         && CheckFailed(check, |nodes|, err)
         && (forall i: nat :: i < |nodes| && nodes[i].outcome != Skipped ==>
               var a := Classify({}, check(i));
               nodes[i].outcome == Aborted && nodes[i].err == if a.Fatal? then Some(a.err) else err)
       else
         && ErrorFrom(nodes, err)
         && (forall i: nat :: i < |nodes| && nodes[i].outcome != Skipped ==>
               AppliedAs(nodes, i, deps[i], execute(i), err))
  }

  /** Without an error every op was skipped or succeeded. */
  lemma CleanApply(deps: seq<seq<nat>>, check: nat -> CheckResult, execute: nat -> Executed, nodes: seq<Node>)
    requires ApplyReport(deps, check, execute, nodes, None)
    ensures forall i: nat :: i < |nodes| ==>
      nodes[i].outcome == Skipped || (execute(i).Applied? && Shows(nodes[i], execute(i)))
  {
  }

  /** Whatever order the ops ran in, the same ops end the same way: two applies of one step that get the same
      answers differ at most in which error came first. */
  lemma OrderDoesNotMatter(deps: seq<seq<nat>>, check: nat -> CheckResult, execute: nat -> Executed,
                           nodes: seq<Node>, err: Option<Error>, nodes': seq<Node>, err': Option<Error>)
    requires InRange(deps, |deps|) && Acyclic(DepEdges(deps))
    requires ApplyReport(deps, check, execute, nodes, err) && ApplyReport(deps, check, execute, nodes', err')
    ensures |nodes| == |nodes'| && (err.Some? <==> err'.Some?)
    ensures forall i: nat :: i < |nodes| ==>
      nodes[i].outcome == nodes'[i].outcome && (nodes[i].outcome != Aborted ==> nodes[i] == nodes'[i])
  {
    var W := set i: int | 0 <= i < |nodes| && nodes[i].outcome != nodes'[i].outcome;
    if W != {} {
      ReversedAcyclic(DepEdges(deps));
      var m := MinimalExists(Reversed(DepEdges(deps)), W);
      forall d | d in deps[m] ensures nodes[d].outcome == nodes'[d].outcome {
        var k :| 0 <= k < |deps[m]| && deps[m][k] == d;
        assert (m, d as int) in DepEdges(deps);
        assert (d as int, m) in Reversed(DepEdges(deps));
      }
      SameDepsSameOutcome(deps, check, execute, nodes, err, nodes', err', m);
    }
    forall i: nat | i < |nodes|
      ensures nodes[i].outcome == nodes'[i].outcome && (nodes[i].outcome != Aborted ==> nodes[i] == nodes'[i])
    {
      assert (i as int) !in W;
    }
  }

  lemma SameDepsSameOutcome(deps: seq<seq<nat>>, check: nat -> CheckResult, execute: nat -> Executed,
                            nodes: seq<Node>, err: Option<Error>, nodes': seq<Node>, err': Option<Error>, m: nat)
    requires ApplyReport(deps, check, execute, nodes, err) && ApplyReport(deps, check, execute, nodes', err')
    requires m < |deps| && forall d :: d in deps[m] ==> d < |deps| && nodes[d].outcome == nodes'[d].outcome
    ensures nodes[m].outcome == nodes'[m].outcome
  {
  }

  /** An op that misses a resource an upstream step would provide ends would-change, is never raised as a
      diagnostic and contributes no error: if no other op errs, the step's check has none. */
  lemma MissIsWouldChange(provided: set<StepGraph.Resource>, check: nat -> CheckResult, nodes: seq<Node>,
                          err: Option<Error>, raised: set<nat>, o: nat)
    requires CheckReport(provided, check, nodes, err, raised) && o < |nodes| && PutOff(provided, check(o))
    ensures nodes[o].outcome == WouldChange && o !in raised && ErrorOf(Classify(provided, check(o))) == None
    ensures (forall i: nat :: i < |nodes| && i != o ==> ErrorOf(Classify(provided, check(i))) == None) ==> err == None
  {
    assert Classify(provided, check(o)).Deferred?;
  }

  /** Ordering holds between direct dependencies only: in the chain 2 -> 1 -> 0 with op 1 satisfied,
      ops 0 and 2 run side by side although 2 depends on 0 transitively. */
  lemma SatisfiedOpsAreTransparent(g: OpGraph, s: State)
    requires g == OpGraph([[], [0], [1]], [[1], [2], []])
    requires ExecInit(g, s) && s.nodes == [FRESH, Node(true, Skipped, None, None), FRESH]
    ensures GraphOk(g) && Reaches(DepEdges(g.deps), 2, 0)
    ensures s.running == {0, 2}
  {
    ChainReaches(g.deps);
    ChainIsGraph(g);
    CountInZero(g.deps[0], Open(s.nodes));
    CountInZero(g.deps[2], Open(s.nodes));
    hide GraphOk, CountIn;
    assert s.running == {0, 2} by {
      assert forall i: nat :: i in s.running <==> i == 0 || i == 2;
    }
  }

  lemma ChainIsGraph(g: OpGraph)
    requires g == OpGraph([[], [0], [1]], [[1], [2], []])
    ensures GraphOk(g)
  {
  }

  lemma ChainReaches(deps: seq<seq<nat>>)
    requires deps == [[], [0], [1]]
    ensures Reaches(DepEdges(deps), 2, 0)
  {
    assert deps[1][0] == 0 && deps[2][0] == 1;
    assert (1, deps[1][0] as int) in DepEdges(deps) && (2, deps[2][0] as int) in DepEdges(deps);
    assert IsPath(DepEdges(deps), [2, 1, 0]);
  }
}
