# Scampi

Scampi brings systems into a declared state. A configuration in its own language is parsed, checked and
evaluated to deploys, each a list of steps made of ops; the engine orders and runs them. This project models
the parts of it whose correctness is not visible from any single function, and proves what they promise.

**The engine.**
A step list becomes a dependency graph with resource edges, parent-directory edges and fence edges for
barriers (`StepGraph`). Cycles in it are found and reported once each (`Cycles`, `CycleDedup`). The concurrent
schedulers of steps and of ops are transition systems in which each region under a mutex is one atomic
transition (`StepScheduler`, `OpPlan`, `OpScheduler`); what is claimed of them is claimed of every run. The
locked regions themselves are methods on the source's mutable objects, each proved to be its transition
(`StepRunner`, `OpRunner`). `StepBody` joins the two: a step's goroutine runs or checks its ops and then fails or
finishes the step, and in check mode an error about a resource that an upstream step would provide is put off
(`Deferral`). `PlanCycles` puts cycle detection in front of the run. Plans are layered for display, and deploys
into levels, by longest dependency chain (`Layers`, `DeployGraph`); levels run one after the other (`DeployRun`).
Hooks are chased with a queue that grows while it is worked off (`Hooks`). The Sequencer turns interleaved events
back into serial text (`Sequencing`, in `Sequencer.dfy`).

**The language front end.**
The lexer with its interpolation frames and automatic semicolons (`Lexing`, in `Lexer.dfy`); the
precedence-climbing expression parser and the printer as its inverse (`Syntax`, `Parsing`, `Formatting`,
`RoundTrip`, `ParseSound`, `ParserCursor`), and how operators group, said without precedence numbers
(`Precedence`); the statement interpreter that signals a return through a field,
and the analysis that every path returns (`Returns`).

**The fstab editor** of the mount step (`Fstab`).

Code that changes state in the source is a class or a method with loops here, proved against a specification
function or transition; the theorems are lemmas about those. `Graph`, `Ordering` and `Wrappers` hold the
vocabulary the rest shares.

Where the code does not do what one would expect, the model follows the code:

- Satisfied ops are transparent: ordering is only promised between direct dependencies
  (`OpScheduler.SatisfiedOpsAreTransparent`).
- A return statement whose value is nil does not end a body, because nil is also the flag for "not returned".
  `Returns.AgreesIffNoNilReturn` says when that matters; the type checker rejects the one nil-valued
  expression known, `self` outside a step body, so the body of `Returns.NilReturnRunsOn` does not pass it in the
  shipped program.
- An fstab line whose source starts with `#`, or whose options hold a newline, is written but not recognised,
  so the op never settles (`Fstab.ApplyThenCheck`, `Fstab.EnsureIsIdempotent`).
- The printer does not add parentheses, so a tree that was not parsed may not survive formatting
  (`ParseSound.RoundTripsIffLevelled`); the parser never produces one (`ParseSound.ExprSound`), so the tree of
  `ParseSound.RightNestingIsLost` does not arise in the shipped program, which formats what it has parsed.
- A radix prefix without a digit is reported alone and the rest of the word is read as a token of its own
  (`Lexing.Lexer.ScanNumber`).
- A single deploy is run without building the deploy graph, so what it provides and needs is not looked at
  (`DeployRun.RunPlansConcurrent`).
- A fresh fstab entry is preceded by a blank line whether or not the text ended in a newline.

## Model

| member | source | states |
|---|---|---|
| `StepGraph.FencesOrderLikeFullBarriers` | internal/engine/step_graph.go:77-104 | For every step list and every set of other edges, the chained fence edges order two steps exactly when joining every barrier to every earlier and every later step does. |
| `StepGraph.FencesCloseTheSameCycles` | internal/engine/step_graph.go:77-104 | A plan is cyclic with the cheap fence edges exactly when it is cyclic with the quadratic ones. |
| `StepGraph.FencePassIsLinear` | internal/engine/step_graph.go:77-104 | The fence edges number at most two for each step. |
| `StepGraph.BarrierOrdersEverything` | internal/engine/step_graph.go:77-104 | A barrier is ordered, through the graph as built, after every earlier and before every later step. |
| `StepGraph.FullFenceIsFencePath` | internal/engine/step_graph.go:77-104 | Each edge of the quadratic reading is a path of chained fence edges. |
| `StepGraph.AddEdge` | internal/engine/step_graph.go:110-120 | Adding an edge adds it to both lists of the linked nodes once, and to no other node; an edge that is there stays single. |
| `StepGraph.RecordProvider` | internal/engine/step_graph.go:43-50 | The resources a step supplies are now looked up to that step; all other entries stay. |
| `StepGraph.IndexProviders` | internal/engine/step_graph.go:43-50 | Every supplied resource is looked up to the last step that declares it. |
| `StepGraph.WireNeeds` | internal/engine/step_graph.go:56-62 | The node gains an edge from the provider of each resource it needs, never from itself, and nothing else. |
| `StepGraph.WireParents` | internal/engine/step_graph.go:63-74 | A node that supplies a path gains an edge from the providers of all proper ancestor directories, and nothing else. |
| `StepGraph.WireResources` | internal/engine/step_graph.go:55-75 | The resource pass adds exactly the resource and parent-directory edges. |
| `StepGraph.WireFences` | internal/engine/step_graph.go:84-104 | The fence pass, with its last barrier and its run of steps since, adds exactly the fence edges. |
| `StepGraph.BuildStepGraph` | internal/engine/step_graph.go:36-107 | The lists of node i hold exactly the edges that enter and leave step i, without duplicates. |
| `StepGraph.InitStepPending` | internal/engine/step_graph.go:122-127 | Every counter starts at the number of distinct edges into its step. |
| `Cycles.DetectCycles` | internal/engine/cycles.go:14-56 | The search ends; every reported cycle is a closed path that repeats no vertex and is reached from a root; something is reported exactly when a cycle can be reached from the roots; every closed path reached from the roots runs along the closing edge of some report, so no cycle is left out; and without repeated neighbors no two reports close with the same edge. |
| `Cycles.CycleSearch.Dfs` | internal/engine/cycles.go:22-47 | The recursive visit restores stack and on-stack set, visits its vertex, and adds to the reports only; afterwards every edge it followed leads to a finished vertex or closes a report. |
| `Cycles.CycleSearch.ReportBackEdge` | internal/engine/cycles.go:23-36 | A back edge to n adds one cycle at the end of the reports: the stack from n on, closed with n. |
| `Cycles.FinishOrderExcludesCycles` | internal/engine/cycles.go:14-56 | An order in which every successor finished earlier certifies that no cycle is reachable from its members. |
| `Cycles.PathDescends` | internal/engine/cycles.go:14-56 | A path strictly descends in a finishing order. |
| `CycleDedup.RotationKey` | internal/engine/cycles.go:75-98 | The scan for the least key and the writing loop with its wrapped index yield the joined keys of the rotation that starts at the least key. |
| `CycleDedup.SameKeyIffRotation` | internal/engine/cycles.go:75-98 | Two simple cycles get the same key exactly when one is a rotation of the other (keys injective and free of the separator, as printed addresses are). |
| `CycleDedup.JoinKeysInjective` | internal/engine/cycles.go:92-98 | Joined keys determine the sequence of nodes. |
| `CycleDedup.DedupCycles` | internal/engine/cycles.go:58-73 | The result lists the first cycle of every rotation class, in the order met. |
| `CycleDedup.EveryClassRepresented` | internal/engine/cycles.go:58-73 | Every input cycle is a rotation of some cycle that is kept. |
| `CycleDedup.RepresentativesDiffer` | internal/engine/cycles.go:58-73 | No two kept cycles are rotations of each other. |
| `PlanCycles.DetectStepCycles` | internal/engine/plan_cycles.go:168-193 | Over the requires lists of a built graph, a plan is rejected exactly when its graph is cyclic; the search reports one simple cycle for each edge that closes one, and no cycle of the plan avoids all these edges; what is kept represents each of them up to rotation, no two of the kept are rotations of each other, and every cycle of the plan runs along an edge that closes a rotation of a kept one. |
| `PlanCycles.PlanAndRun` | internal/engine/plan.go:232-239 | From the step list through cycle detection to the settled group: exactly the acyclic plans are run; every step that ended did so as its work answered; the steps that never ran are those behind a failed or cancelled step, without failure or cancellation every step has completed, and the group returns no error exactly when every step has. |
| `PlanCycles.CyclesFromEverywhere` | internal/engine/plan_cycles.go:168-173 | With every node as a root, a cycle can be reached along the requires lists exactly when the graph is cyclic. |
| `StepScheduler.RunInv` | internal/engine/exec.go:526-599 | Every state of every run, in any interleaving, keeps the counters equal to the number of unmet requirements, the start log without repetition, and the published resources equal to those of completed would-change steps. |
| `StepScheduler.StartsOnceAfterRequirements` | internal/engine/exec.go:526-599 | A step begins at most once, and when it begins all its transitive requirements have completed without error. |
| `StepScheduler.NothingStartsBehindFailure` | internal/engine/exec.go:526-599 | From the state in which a step has failed or was cancelled on, in every later state of the run, all its transitive dependents are waiting and have not started. |
| `StepScheduler.TroubleLasts` | internal/engine/exec.go:526-599 | A failed or cancelled step stays failed or cancelled in every later state. |
| `StepScheduler.SettledStepsAccounted` | internal/engine/exec.go:526-599 | On an acyclic plan, the steps that are still waiting when nothing is left to run are exactly those behind a failed or cancelled step. |
| `StepScheduler.UndisturbedRunCompletes` | internal/engine/exec.go:526-599 | On an acyclic plan, if nothing failed and nothing was cancelled, every step has completed when nothing is left to run. |
| `StepScheduler.RunsAreBounded` | internal/engine/exec.go:526-599 | Every run has at most 3n + 2 states. |
| `StepScheduler.UnsettledCanMove` | internal/engine/exec.go:526-599 | While a goroutine is left, some transition other than a cancellation is possible. |
| `StepScheduler.NextDecreases` | internal/engine/exec.go:526-599 | Every transition strictly lowers a measure of the work left. |
| `Deferral.IsDeferred` | internal/engine/exec.go:295-317 | An error is put off exactly when it names a missing resource that is among those given, or a path above one that is. |
| `StepScheduler.SnapshotBounds` | internal/engine/exec.go:353-441 | In every check run, the snapshot a step is checked with holds all resources of its transitive requirements that would change, and only resources of completed would-change steps. |
| `StepScheduler.UpstreamResourceIsDeferred` | internal/engine/exec.go:293-317 | In every check run, an error that misses what a transitively required would-change step supplies, or a path above it, is put off by the snapshot of the step. |
| `StepBody.UpstreamMissIsWouldChange` | internal/engine/exec.go:243-317 | In every check run and for every interleaving, an op whose check misses what a transitively required would-change step supplies, or a path above it, ends would-change; nothing is raised for it, it contributes no error, and the step has none if no other op has. |
| `StepRunner.StepRun.constructor` | internal/engine/exec.go:585-591 | The first locked region reaches an initial state of the transition system. |
| `StepRunner.StepRun.BeginStep` | internal/engine/exec.go:540-558 | The start of a step is the Begin transition. |
| `StepRunner.StepRun.SkipStep` | internal/engine/exec.go:541-544 | A goroutine that finds the context cancelled leaves its step cancelled and starts nothing; that is the error of the group if it is the first. |
| `StepRunner.StepRun.FailStep` | internal/engine/exec.go:568-571 | A failing step unblocks nobody, and its error is that of the group if it is the first. |
| `StepRunner.StepRun.Unblock` | internal/engine/exec.go:573-579 | The unblocking loop lowers each waiter by one, and schedules exactly those that reach zero, each with a snapshot. |
| `StepRunner.StepRun.FinishStep` | internal/engine/exec.go:392-424 | The locked region after a step is the Finish transition: it publishes the resources of a step that would change something and then unblocks. |
| `StepRunner.Launch` | internal/engine/exec.go:526-591 | Building the graph, setting the counters and scheduling the roots gives an initial state over exactly the edges of the step graph. |
| `StepRunner.Drive` | internal/engine/exec.go:526-599 | Moving goroutines in any order, with any cancellation, ends in a settled state, through states that form a run; each step that ended is failed or done as its work answered for its snapshot, and published exactly when it would change something in check mode. |
| `StepRunner.MoveOnce` | internal/engine/exec.go:540-599 | One move of a goroutine is the transition that the state and the answer of its work call for: start, skip, fail or finish. |
| `StepRunner.RunPlan` | internal/engine/exec.go:526-599 | From the step list to the settled group: the states passed form a run of the transition system over the built graph, in which every step ends as its work answers. |
| `StepBody.RunBody` | internal/engine/exec.go:353-424 | The body of a running step is the failure transition of the step scheduler when its ops end with an error, and else the finish transition, which publishes exactly when some op would change something in check mode; checks are answered with the snapshot the step was scheduled with, and the ops end as the report of the run or of the check run says. |
| `StepBody.ReportIsDetermined` | internal/engine/exec.go:353-424 | Whatever order the ops of a step run in, the step reports the same to its scheduler: the same error or none, and as many ops that would change. |
| `OpPlan.BuildPlan` | internal/engine/exec.go:740-813 | A plan is built exactly when ops are distinct, all dependencies are in the step and the dependency multigraph is acyclic; the three ways to panic are told apart, and the built lists are the declared dependencies. |
| `OpPlan.DrainQueue` | internal/engine/exec.go:778-802 | The queue drain visits all ops exactly when the dependency multigraph is acyclic. |
| `OpPlan.PopKeepsDraining` | internal/engine/exec.go:790-802 | Popping one op and counting down its dependents keeps: counters count the entries not popped, the queue holds the zeros, the popped ops form a finishing order. |
| `OpPlan.DrainVerdict` | internal/engine/exec.go:790-806 | With an empty queue, all ops are popped if and only if there is no cycle. |
| `OpScheduler.RunInv` | internal/engine/exec.go:185-231 | Every state of every execution keeps: counters of unsatisfied ops count their open dependency entries, an op runs or has run only when none is open, and outcomes fit result and error. |
| `OpScheduler.LaunchedOnceAfterDirectDeps` | internal/engine/exec.go:185-231 | An op is scheduled at most once, never when satisfied; an unsatisfied op has been scheduled exactly when each direct dependency is satisfied or has succeeded. |
| `OpScheduler.ExecutedOpsShowTheirAnswer` | internal/engine/exec.go:185-231 | An op that was scheduled and is no longer running has succeeded with the result its execution answered, or failed with the error it answered, and then the group has an error. |
| `OpScheduler.CleanApply` | internal/engine/exec.go:626-702 | An apply without an error has executed every op that was not skipped, and each applied its change. |
| `OpScheduler.OrderDoesNotMatter` | internal/engine/exec.go:626-702 | Two applies of one step that get the same answers give every op the same outcome, result and error, except that aborted ops may carry another of the errors; one has an error exactly when the other has. |
| `OpScheduler.SettledWithoutError` | internal/engine/exec.go:185-231 | On an acyclic step, an execution that settles without error leaves every op satisfied or succeeded. |
| `OpScheduler.RemovingSatisfiedKeepsAcyclic` | internal/engine/exec.go:319-335 | Leaving out the satisfied ops keeps the graph acyclic, so some op that is left can start. |
| `OpScheduler.ApplyReportsValid` | internal/engine/exec.go:665-680 | Whatever happens, marking the leftovers gives every op a report that validateOpReport accepts, so its panics are unreachable. |
| `OpScheduler.CheckedReportsValid` | internal/engine/exec.go:452-524 | The reports of a check run, and of an apply whose checks failed, are valid too. |
| `OpScheduler.SatisfiedOpsAreTransparent` | internal/engine/exec.go:319-335 | In the chain 2 -> 1 -> 0 with op 1 satisfied, 0 and 2 run side by side: ordering is promised for direct dependencies alone. |
| `OpScheduler.MissIsWouldChange` | internal/engine/exec.go:243-268 | An op whose error is put off ends would-change in the report of the check run, raises nothing and contributes no error. |
| `OpRunner.OpRun.RunChecks` | internal/engine/exec.go:233-291 | After all checks, in any order, every node holds what its check and the provided resources lead to; an error is recorded exactly when some check led to one, and is one of those; exactly the errors that are not put off are raised as diagnostics. |
| `OpRunner.OpRun.CheckOp` | internal/engine/exec.go:243-286 | One check is answered in the order missing resource, diagnostic, verdict: an error that is put off raises nothing and fails nothing, an aborting or raw one becomes the error of the group if it is the first, any other leaves the verdict. |
| `OpRunner.OpRun.InitPending` | internal/engine/exec.go:319-335 | The counter of an unsatisfied op counts its unsatisfied dependencies, entry by entry; a satisfied op counts nothing. |
| `OpRunner.OpRun.StartExecution` | internal/engine/exec.go:649-660 | Setting the counters and scheduling gives an initial state of the execution. |
| `OpRunner.OpRun.Unblock` | internal/engine/exec.go:217-227 | The unblocking loop lowers each unsatisfied dependent once an entry and schedules exactly those that reach zero. |
| `OpRunner.OpRun.Apply` | internal/engine/exec.go:202-229 | The locked region of an op that succeeded is the success transition and keeps the invariant. |
| `OpRunner.OpRun.Break` | internal/engine/exec.go:202-210 | The locked region of an op that failed is the failure transition and keeps the invariant. |
| `OpRunner.DriveExecution` | internal/engine/exec.go:185-231 | Completing ops in any order ends with nothing running, through states that form a run in which every op does what its execution answers. |
| `OpRunner.OpRun.Complete` | internal/engine/exec.go:202-229 | A returning op succeeds with its result, or fails with its error, as its execution answered. |
| `OpRunner.RunStep` | internal/engine/exec.go:626-702 | Satisfied ops are skipped. A failing check keeps everything from executing: the rest is aborted, with its own error or that of the step, which is one of the checks. Otherwise an op executes exactly when its direct dependencies are all skipped or succeeded, and then ends as its execution answered; any other is aborted with the error of the step, which is there exactly when an op failed and is the error of one that did. |
| `OpRunner.RunCheckStep` | internal/engine/exec.go:452-524 | Nothing executes; an op is reported would-change exactly when its error was put off, or it was unsatisfied while no check failed; satisfied ops are skipped and all others aborted, with their own error or that of the step; there is an error exactly when some check that was not put off gave one. |
| `OpRunner.RunOps` | internal/engine/exec.go:452-813 | From the ops of a step to their outcomes: exactly the steps whose ops are distinct, refer to each other only and are acyclic get a plan, and then the report of the run over the declared dependencies, or of the check run, holds. |
| `OpRunner.BuildStepReport` | internal/engine/exec.go:704-738 | The summary counts every op once under its outcome, counts exactly the succeeded ops that changed something, and reports a change exactly when there is one. |
| `Layers.TopoLayers` | internal/render/dag/dag.go:46-97 | The waves are the layering by longest dependency chain: layer k lists, ascending, exactly the nodes whose longest chain has k edges. |
| `Layers.Wave` | internal/render/dag/dag.go:73-95 | One wave keeps counters equal to the dependency entries not done, and its next list holds exactly the children that reached zero. |
| `Layers.NextLayer` | internal/render/dag/dag.go:73-95 | With w layers done, a node is in layer w exactly when it is not done and no dependency entry of it is open. |
| `Layers.LayeredIffNoCycleBelow` | internal/render/dag/dag.go:46-97 | A node has a layer exactly when no cycle can be reached from it. |
| `Layers.LayersRespectDependencies` | internal/render/dag/dag.go:46-97 | On an acyclic plan every node is in exactly one layer, all its dependencies in earlier ones, and one of them in the layer just before. |
| `Layers.LayeringUnique` | internal/render/dag/dag.go:46-97 | The layering is unique, so waves and memoised depths agree. |
| `Layers.DepthMemo.DepthOf` | internal/engine/deploy_graph.go:144-156 | The memoised recursion ends and returns the length of the longest dependency chain; the memo only grows and stays correct. |
| `Layers.KahnLevels` | internal/engine/deploy_graph.go:128-142 | The levels are the same layering by longest chain; without nodes there is one empty level. |
| `Layers.LayeredIsStaged` | internal/engine/deploy_graph.go:122-142 | Every deploy is in exactly one level and every dependency leads to an earlier level. |
| `DeployGraph.FindCycle` | internal/engine/deploy_graph.go:158-206 | nil is returned exactly when the deploy graph is acyclic; otherwise the answer is a cycle of distinct deploys. |
| `DeployGraph.ColourSearch.Visit` | internal/engine/deploy_graph.go:169-194 | A visit either returns a genuine cycle, or restores the stack, keeps every colour met before and leaves its node black. |
| `DeployGraph.IndexProducers` | internal/engine/deploy_graph.go:52-57 | Every resource is indexed with all its providers, once for each entry, in declaration order. |
| `DeployGraph.RepeatedProducerIsAmbiguous` | internal/engine/deploy_graph.go:58-65 | A resource has more than one entry exactly when two deploys provide it or one provides it twice. |
| `DeployGraph.WireDeploy` | internal/engine/deploy_graph.go:67-77 | A deploy depends on exactly the deploys that provide something it needs; external needs add nothing. |
| `DeployGraph.BuildDeployGraph` | internal/engine/deploy_graph.go:39-84 | Multiple providers are reported exactly when some resource is ambiguous, with all their entries in declaration order; a cycle exactly when no resource is ambiguous and the need relation is cyclic, and then a simple one; otherwise the levels are the layering of the need relation. |
| `DeployRun.RunLevel` | internal/engine/engine.go:227-263 | In any interleaving each deploy of the level begins once and then ends once, as its work answers, and the collected errors are exactly the failures, in order of arrival. |
| `DeployRun.RunLevels` | internal/engine/engine.go:207-217 | Levels run whole and in order; the first with a failure is the last that runs. |
| `DeployRun.StartsAfterDependencies` | internal/engine/engine.go:156-217 | Work starts on a deploy only after every deploy it depends on, directly or not, returned without error. |
| `DeployRun.FailureStopsLaterLevels` | internal/engine/engine.go:207-217 | A failure keeps every later level from starting, while all deploys of its own level run. |
| `DeployRun.EachRunsAtMostOnce` | internal/engine/engine.go:227-263 | A deploy begins at most once and ends at most once, after it began. |
| `DeployRun.AllRunWhenNothingFails` | internal/engine/engine.go:207-217 | If nothing fails, every deploy begins and ends. |
| `DeployRun.AssignOrdinals` | internal/engine/engine.go:185-205 | Lane ordinals are a bijection onto 0..n-1, grow level by level and in declaration order within a level, and grow along every dependency. |
| `DeployRun.LevelMajorGrows` | internal/engine/engine.go:185-205 | Level-major numbering grows from each deploy to its dependents. |
| `DeployRun.RunPlansConcurrent` | internal/engine/engine.go:170-225 | The single-deploy shortcut builds no graph; otherwise the run is rejected exactly when a resource is ambiguous or the need relation is cyclic, with what is wrong, and else follows the levels. Deploys end as their work answers. The run succeeds exactly when no deploy failed; the error of the only one that failed is returned as it is; two or more are listed, each once, in order of arrival. |
| `DeployRun.SummaryConcludes` | internal/engine/engine.go:219-225 | Success, a single error and a list of errors are told apart by the failures in the log. |
| `Hooks.ExecuteHooks` | internal/engine/hooks.go:16-118 | The growing queue ends even on cyclic references; it lists each notified hook once in order of the first notice; reports are those of the hooks that ran, up to the first failing step. |
| `Hooks.NotifiedIsLeast` | internal/engine/hooks.go:27-116 | In an error-free run the hooks in the queue are exactly those notified by a changed step or reached from such through hooks that changed. |
| `Hooks.NotifiedInEveryClosedSet` | internal/engine/hooks.go:27-116 | Every set that holds the directly notified hooks and is closed under the chains holds every queued hook: the queue is the least such set. |
| `Hooks.IndicesContinue` | internal/engine/hooks.go:72-74 | Hook reports carry the indices that follow the steps, without gap or repetition. |
| `Hooks.FiresAtMostOnce` | internal/engine/hooks.go:54-66 | No step of a hook is reported twice. |
| `Hooks.RunHook` | internal/engine/hooks.go:69-93 | The steps of a hook run in order until one fails; it counts as changed exactly when one of its steps changed something. |
| `Hooks.CollectNotified` | internal/engine/hooks.go:27-52 | The first queue holds the hooks that changed steps notify, each once, in order. |
| `Hooks.Chain` | internal/engine/hooks.go:103-115 | The hooks a changed hook notifies are appended in order, without those notified before. |
| `Sequencing.Sequencer.RenderEvent` | internal/render/order/order.go:65-83 | Whatever the interleaving, after each event every lane has released exactly its finished prefix, as a serial run prints it, and nothing that was put out before has changed. |
| `Sequencing.Sequencer.Advance` | internal/render/order/order.go:95-107 | Finished blocks are released contiguously from the cursor; other lanes and out-of-band events are untouched. |
| `Sequencing.CollectKeepsBuffers` | internal/render/order/order.go:85-93 | Routing an event into its block keeps every block equal to what has arrived about its step. |
| `Sequencing.AdvanceKeepsBuffers` | internal/render/order/order.go:95-107 | Releasing the block at the cursor keeps the lane in step with the serial text. |
| `Sequencing.Sequencer.FlushBlock` | internal/render/order/order.go:109-117 | A block is replayed as its changes in order of arrival, then its result. |
| `Sequencing.Sequencer.Drain` | internal/render/order/order.go:119-146 | Lanes are drained by ordinal and blocks by step index; finished blocks are emitted, the others dropped. |
| `Sequencing.DrainedIsSerial` | internal/render/order/order.go:119-146 | Released and drained steps together are the finished steps of the lane, each once, ascending. |
| `Sequencing.Sequencer.Flush` | internal/render/order/order.go:148-152 | After Flush every lane reads as a serial run of exactly its finished steps, unfinished ones are discarded, and out-of-band events keep their order; what was left comes by lane ordinal and step index; a second Flush emits nothing. |
| `Sequencing.CompleteLaneIsReleased` | internal/render/order/order.go:95-107 | A lane whose steps 0..k-1 have finished is completely released before any Flush. |
| `Lexing.Lexer.Next` | internal/lang/lex/lex.go:78-132 | Each call gives a token that fits its text, with only blanks between it and the one before, in place in a well nested stream, and uses up a budget; a semicolon comes exactly where one is due; recorded are the comments in between and what is wrong there or with the token; after EOF there is only EOF. |
| `Lexing.AllTokens` | internal/lang/lex/lex.go:78-132 | EOF is reached within 3n + 1 calls on n bytes; every token fits its text; the tokens do not overlap and cover the source up to blanks and string delimiters; the stream is well nested; a semicolon stands exactly where one is due. The comments are those between the tokens. An error is recorded exactly for each comment that never closes, each escape that stands for nothing, each string whose text does not end at its delimiter, and each illegal token, with its span, and for nothing else. |
| `Lexing.ErrorsAreWhatIsWrong` | internal/lang/lex/lex.go:190-539 | The errors of a stream are exactly what is wrong between its tokens or with them, said of tokens and source alone. |
| `Lexing.EscapesAreUnhidden` | internal/lang/lex/lex.go:459-494 | The escapes of a text start at exactly the backslashes that an even number of backslashes precedes. |
| `Lexing.TextEndsAtFirstStop` | internal/lang/lex/lex.go:459-512 | The text of a segment ends at the first delimiter, marker or forbidden newline that no backslash hides. |
| `Lexing.PunctuationIsLongest` | internal/lang/lex/lex.go:313-432 | A punctuation token is spelled as its kind says and is the longest spelling at that place; a character that is reported on its own starts none. |
| `Lexing.CharacterClasses` | internal/lang/lex/lex.go:565-579 | The characters of words and of the four kinds of digits, by their ASCII codes. |
| `Lexing.NothingAfterEnd` | internal/lang/lex/lex.go:78-132 | After EOF every further call gives EOF again. |
| `Lexing.InterpolationsMatch` | internal/lang/lex/lex.go:321-341 | The token after the close of an interpolation continues or ends the string whose marker matches it, in the same flavour; the braces in between balance, and none closes before it opens. |
| `Lexing.FrameHasMarker` | internal/lang/lex/lex.go:34-60 | Every open frame has its marker, right after a segment of its flavour, and counts one more than the braces that have been opened in it since and not closed. |
| `Lexing.FramesStayPositive` | internal/lang/lex/lex.go:321-341 | Every open frame counts at least one brace. |
| `Lexing.MarkersFollowSegments` | internal/lang/lex/lex.go:495-512 | A marker comes exactly after a segment that ends at one. |
| `Lexing.SemisEndStatements` | internal/lang/lex/lex.go:134-188 | A semicolon comes only after a name, a number, the end of a string, a closing bracket, or one of the words true, false, none, self and return. |
| `Lexing.Lexer.SkipBlanks` | internal/lang/lex/lex.go:134-188 | Blanks and comments are skipped to their end; a semicolon is due exactly when a newline was passed where a statement can end outside interpolations; exactly the comments passed are recorded, and exactly those that never close as errors. |
| `Lexing.Lexer.SkipBlockComment` | internal/lang/lex/lex.go:190-233 | A nested comment ends where its openings are balanced, or at the end of the source; only then it is an error. |
| `Lexing.Lexer.ScanPunct` | internal/lang/lex/lex.go:313-432 | Punctuation is read as the table says, the brace that balances an interpolation closes it, and other bytes change nothing. |
| `Lexing.Lexer.ScanStringSegment` | internal/lang/lex/lex.go:446-539 | A segment ends at the first unescaped marker, delimiter or forbidden newline, opens an interpolation exactly at a marker, and records its bad escapes and that it is not closed, if so. |
| `Lexing.Lexer.ScanNumber` | internal/lang/lex/lex.go:254-311 | The token is a number exactly when the maximal word is decimal digits, or a radix prefix and digits of that radix; otherwise it is an error that covers the word, or the bare prefix alone when no digit follows it. |
| `Lexing.NumberIffWordIs` | internal/lang/lex/lex.go:254-311 | A token that starts with a digit is a number exactly when the whole word there is one, and then it covers the word. |
| `Lexing.Lexer.ScanIdent` | internal/lang/lex/lex.go:245-252 | An identifier is a maximal word, and a keyword exactly when it is in the table. |
| `RoundTrip.ExprRoundTrip` | internal/lang/parse/expr.go:33-141 | Parsing the printed tokens of a levelled tree, in any layout, followed by a token that does not extend it, returns the tree without error and leaves the rest; an opening brace extends a tree only outside a condition and after a name, a selector or a call. |
| `RoundTrip.BinaryRoundTrip` | internal/lang/parse/expr.go:38-63 | Parsing a printed operand comes to where the climbing loop holds that tree on its left. |
| `RoundTrip.PostfixRoundTrip` | internal/lang/parse/expr.go:85-141 | Parsing a printed postfix tree comes to where the suffix loop holds that tree. |
| `ParseSound.ExprSound` | internal/lang/parse/expr.go:33-141 | Every tree parsed without error respects the operator levels, with left associativity, and its tokens are those consumed, up to separators. |
| `ParseSound.ExprStops` | internal/lang/parse/expr.go:33-141 | After a tree parsed without error comes a token that does not extend it. |
| `ParseSound.ErrorFreeIsReadWhole` | internal/lang/parse/expr.go:33-141 | Parsing without error reads a levelled tree whose tokens, in whatever layout, are those consumed, up to the next token, which does not extend it. |
| `ParseSound.BinarySound` | internal/lang/parse/expr.go:38-63 | What the climbing loop returns binds at least as tightly as asked, and the next operator does not belong to it. |
| `ParseSound.LoopSound` | internal/lang/parse/expr.go:38-63 | The climbing loop only builds left-associative trees. |
| `Precedence.ChainGroups` | internal/lang/parse/expr.go:12-63 | Any chain of literals and names with operators between them is read whole and without error, and groups by the operator classes alone: split at the last operator of its loosest class, and again on both sides. |
| `Precedence.TwoOperatorsGroup` | internal/lang/parse/expr.go:12-63 | x p y q z groups to the right exactly when q is in a tighter class than p, and to the left otherwise. |
| `Precedence.PrefixGroups` | internal/lang/parse/expr.go:65-141 | A prefix operator takes its operand with its suffixes and nothing of a binary operator after it. |
| `ParseSound.RoundTripsIffLevelled` | internal/lang/format/format.go:540-624 | A tree survives printing and parsing exactly when its nesting respects the operator levels. |
| `ParseSound.FormattingIsStable` | internal/lang/format/format.go:540-624 | Formatting what was parsed without error, in any layout, and parsing again gives the same tree and the same rest, without any further condition. |
| `ParseSound.PrintIsInjective` | internal/lang/format/format.go:540-624 | Two levelled trees with the same tokens are equal. |
| `ParseSound.RightNestingIsLost` | internal/lang/format/format.go:540-624 | An operator of the same level on the right does not survive without parentheses: a concrete tree. |
| `ParserCursor.Parser.ParseExpr` | internal/lang/parse/expr.go:33-36 | The cursor-moving parser answers what the specification parser says, on every input, errors counted; an unchanged error count means a levelled tree whose tokens are exactly those consumed. |
| `ParserCursor.Parser.ParseBinary` | internal/lang/parse/expr.go:38-63 | The climbing loop with its cursor does what the specification says. |
| `ParserCursor.Parser.ParseUnary` | internal/lang/parse/expr.go:65-83 | Prefix operators likewise. |
| `ParserCursor.Parser.ParsePostfix` | internal/lang/parse/expr.go:85-141 | The suffix loop likewise. |
| `ParserCursor.Parser.ParseCallArgs` | internal/lang/parse/expr.go:227-259 | The argument loop, which skips separators and looks ahead for keyword arguments, likewise. |
| `ParserCursor.Parser.ParsePrimary` | internal/lang/parse/expr.go:305-374 | Primary expressions likewise; anything else is an error and consumes a token. |
| `ParserCursor.Parser.ParseListOrComp` | internal/lang/parse/expr.go:482-532 | Lists and comprehensions likewise. |
| `ParserCursor.Parser.ParseIfExpr` | internal/lang/parse/expr.go:618-638 | If expressions likewise; the flag that makes a brace end the condition is set and restored. |
| `ParserCursor.Parser.Expect` | internal/lang/parse/parse.go:102-118 | The wanted token is consumed; any other stays and counts one error. |
| `Returns.DefinitelyReturnsSound` | internal/lang/check/checker.go:518-540 | A block the analysis accepts returns, whatever its conditions and loops evaluate to. |
| `Returns.AnalysisIsExact` | internal/lang/check/checker.go:518-540 | For blocks whose return statements stand last and have values, the analysis accepts just those that return whatever their expressions evaluate to. |
| `Returns.RejectedFallsThrough` | internal/lang/check/checker.go:518-540 | Such a block that is rejected falls off its end for some choice of its conditions. |
| `Returns.AcceptedBlockSetsValue` | internal/lang/eval/eval.go:797-867 | With returns that cannot be nil, the flag-based run of an accepted block ends with a return value set and agrees with explicit outcomes. |
| `Returns.AgreesIffNoNilReturn` | internal/lang/eval/eval.go:820-830 | Flag-based and explicit semantics agree exactly when the return that is reached, if any, does not evaluate to nil. |
| `Returns.NilReturnRunsOn` | internal/lang/eval/eval.go:797-830 | A body the analysis accepts whose return evaluates to nil ends without a return value: a concrete body. |
| `Returns.BlockKeepsOuterScopes` | internal/lang/eval/eval.go:832-867 | A block changes no scope but its innermost. |
| `Returns.StmtKeepsOuterScopes` | internal/lang/eval/eval.go:832-867 | A statement changes at most the innermost scope, and any but a let leaves the environment as it was. |
| `Returns.LetBinds` | internal/lang/eval/eval.go:797-803 | After a let its name has the value, and every other name what it had. |
| `Returns.Evaluator.EvalStmt` | internal/lang/eval/eval.go:797-818 | The statement interpreter computes the flag-based semantics. |
| `Returns.Evaluator.EvalBlock` | internal/lang/eval/eval.go:820-830 | The block loop stops at the first return value. |
| `Returns.Evaluator.EvalFor` | internal/lang/eval/eval.go:832-850 | The loop runs its body once an item in a fresh scope, stops at a return, and restores the environment. |
| `Returns.Evaluator.EvalIf` | internal/lang/eval/eval.go:852-867 | The chosen branch runs in a fresh scope and the environment is restored. |
| `Returns.Evaluator.CallBody` | internal/lang/eval/eval.go:1512-1542 | A call restores the environment and clears the flag; a nil return is passed over, so that value and effects are those of the flag-based semantics; unless the body returns nil they are those of the explicit semantics, and an accepted body never falls off its end. |
| `Returns.Evaluator.RunAccepted` | internal/lang/check/checker.go:518-540 | Running an accepted block reaches a return statement; its value is in the field afterwards unless it is nil. |
| `Fstab.EnsureSatisfiesCheck` | internal/step/mount/ensure_mount_op.go:195-230 | For every text and every op, the lookup after ensuring answers with the wanted line exactly when that line is recognisable and has no white space around it. |
| `Fstab.ApplyThenCheck` | internal/step/mount/ensure_mount_op.go:170-230 | For a source and mount point without white space, apply makes the check find its line exactly when the source does not start with # and the options hold no newline. |
| `Fstab.RecognisableIff` | internal/step/mount/ensure_mount_op.go:170-193 | The written line is recognised under just that condition. |
| `Fstab.FieldsOfLine` | internal/step/mount/ensure_mount_op.go:170-172 | The written line has the six fields source, mount point, type, options, 0 and 0, in this order. |
| `Fstab.FieldsFrom` | internal/step/mount/ensure_mount_op.go:186-187 | The fields of a text are its runs without white space, one after the other. |
| `Fstab.TrimsBothEnds` | internal/step/mount/ensure_mount_op.go:182-182 | Trimming takes away exactly the white space at both ends. |
| `Fstab.EnsureIsIdempotent` | internal/step/mount/ensure_mount_op.go:195-230 | Ensuring twice is ensuring once exactly when the line is recognisable; otherwise every run makes the file longer. |
| `Fstab.CommentSourceIsNeverFound` | internal/step/mount/ensure_mount_op.go:170-230 | A concrete op whose source starts with #: its entry is never found and every run adds another. |
| `Fstab.EnsureKeepsOthers` | internal/step/mount/ensure_mount_op.go:202-228 | All other lines stay verbatim and in order; a new entry comes after one blank line. |
| `Fstab.RemoveSatisfiesCheck` | internal/step/mount/ensure_mount_op.go:232-254 | After removing no entry is found, the other lines stay in order, and removing again changes nothing. |
| `Fstab.RemoveUndoesEnsure` | internal/step/mount/ensure_mount_op.go:195-254 | Removing after ensuring leaves what removing alone leaves, but for the newline at the end of a text that lacked it. |
| `Fstab.SplitJoin` | internal/step/mount/ensure_mount_op.go:202-228 | Lines without newlines survive joining and splitting. |
| `Fstab.Target.FindFstabEntry` | internal/step/mount/ensure_mount_op.go:174-193 | The lookup loop answers with the first entry for the mount point, trimmed; nothing when the file cannot be read. |
| `Fstab.Target.EnsureFstab` | internal/step/mount/ensure_mount_op.go:195-230 | The editing loop writes the ensured text, or fails and leaves the file alone when it cannot be read. |
| `Fstab.Target.RemoveFstab` | internal/step/mount/ensure_mount_op.go:232-254 | The removing loop writes the text without the entries for the mount point. |

## Left out

- Goroutines, contexts, timeouts and wait groups: modelled as a choice of which enabled transition is next, with failure and cancellation as state.
- What steps, ops, checks and hooks actually do: their answers are inputs, an arbitrary function or an arbitrary choice.
- Error values and messages beyond their kind, the resource or the nodes they name.
- Op and step nodes are identified by position where the source keys maps by reference; maps that are ranged over in no fixed order become a loop that picks any member.
- Parsing.ParseExpr: struct literals, block fills, map literals and interpolated strings are not modelled and count as an error; string literals are opaque tokens.
- ParserCursor.Parser.ParseExpr: counts struct literals, block fills, map literals and interpolated strings, wherever they stand in the expression, as errors, as Parsing.ParseExpr does.
- ParserCursor.Parser.ParsePostfix: an opening brace after a name, a selector or a call, outside a condition, is counted as an error instead of read as a struct literal or block fill.
- ParserCursor.Parser.ParsePrimary: map literals and interpolated strings are counted as errors.
- RoundTrip.ExprRoundTrip: works on tokens; comments, indentation, column alignment and whole files are left out, and whether a list or call is broken over lines is an arbitrary function of the tree.
- Lexing.Lexer.Next: offsets are unbounded, while the source cuts them to 32 bits; a source file over 4 GiB is outside the model.
- Lexing.AllTokens: the text of error messages and of comments is left out, their spans are kept.
- Sequencing.Sequencer.Flush: the serial claim is for events in which nothing arrives about a step after its result, which is what the engine emits; between lanes only the order of the drain is stated.
- CycleDedup.SameKeyIffRotation: for keys that are injective and hold no separator, as the printed addresses of both callers are.
- Returns.Evaluator.EvalStmt: expressions are an arbitrary function of scopes and world; closures, thunks, modules and assignment into collections are part of that function, and lists are not changed while a loop ranges over them. Evaluating an expression cannot set the return field; in the source a return inside a block fill does (internal/lang/eval/eval.go:1231-1239), and the fill runs on after it (internal/lang/eval/eval.go:1253-1262).
- Layers.TopoLayers: nodes are positions and dependencies lie within the list, as the plans that are rendered have them.
- DeployRun.AssignOrdinals: the widest lane name and the total of steps, which only the terminal output uses, are left out.
- Hooks.ExecuteHooks: which step or hook triggered a hook is recorded for display only and left out; the second guard against running a hook twice is kept, and never needed.
- Fstab.EnsureSatisfiesCheck: the mount itself, and the file system behind the text, are left out.
- Building step and op configurations, linking, secrets, targets, jq references, module loading and all terminal rendering.
- The type checker beyond the return analysis: it is deliberately loose about lists, any and if expressions.
