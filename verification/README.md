# A verified model of the Cicada CI engine

Cicada reads a pipeline of jobs from KDL files, merges included files into it, expands build
matrices, cuts the job graph to what was asked for, prunes it by conditions, orders it and runs it
concurrently on a build service. This project models the parts of that path whose correctness is not
visible in any single function, and proves it for all inputs, all runs and all interleavings.

`dafny verify dfyconfig.toml` checks everything. The modules, by component:

- **Shared theory.** `Prelude`, `Graphs` (paths, cycles, ranks), `PipelineModel` (jobs, steps, the
  name graph, what a validated pipeline is).
- **Runner.** `Runner` is a state machine with one program counter per job goroutine, a counting
  semaphore, per-job deadlines and a cancellation flag; one action is one atomic move of one party.
  The solver, the output extraction and the deferred conditions are arbitrary functions.
  `RunnerSafety`, `RunnerProgress`, `RunnerConfluence` and `Outcomes` (why each outcome was
  published) hold the theorems about all runs, and `RunInput` ties them to what a run is started
  with; `Dag` is the imperative construction of the graph that discharges their assumptions; `Retry`
  is the retry loop with its backoff arithmetic.
- **Graph algorithms.** `Validate` (three-state topological sort), `Filter` (start/stop window and
  dependency closure), `Merge` (job groups, terminal jobs, aliases), `Conditions` (pruning),
  `Layers` (longest paths), `BuildOrder` (reuse of a cached order), `Identifiers` (node names);
  `Verdicts` ties the parser's sort to the runner's cycle search, and `Plan` runs the path from a
  validated pipeline through cut and pruning to the build.
- **Matrix expansion.** `Matrix` (cartesian product), `Names` (the printed and re-parsed suffix),
  `Composition` (when two expansions of a name are one), `Substitute` (templates), `ListingOrder`
  (when the order of a map shows in them), `TwoPasses` (when two substitutions are one), `Params`,
  `Expand` (the two phases), `ExpansionGraph` (what they do to the graph), `Templates` (and to the
  texts).
- **Includes.** `IncludeMeaning` is what an include denotes; `IncludeWalk` resolves with an ancestor
  stack and an alias table but no cache; `Include` is the parser's resolver with the cache;
  `IncludeSites` and `WalkSites` follow which include node registers which alias, with the cache and
  without, `WalkExactly` says when the latter succeeds, and `Diamond` is an input on which they
  differ; `Coverage` carries the alias table on to the expanded pipeline; `CacheKeys` is the form of
  the cache key.
- **Status channel.** `Status`: solver, tee and bridge over unbuffered channels, with cancellation
  and draining.
- **Steps, redaction, quoting.** `StepControl` and `StepBuild` (step-wise execution against the
  whole-job build), `Redact`, `Quote`.

Code that works by updating state is modelled by methods and classes proved against functions; what
the repository promises is then proved about those functions. Where a theorem speaks of every
iteration order of a Go map, the method picks elements arbitrarily.

## Where the promise fails

Some expected properties are false of the code in corner cases. The model keeps the code as it is
and proves exactly when the property holds:

- Suffixes are read back exactly when no value contains a comma (`Names.ParseOfPrint`), and
  expanding in two phases composes, for every second phase, under exactly that condition on the
  first (`Composition.CompositionExactly`). A comma forges a dimension
  (`Names.CommaForgesDimension`), which the second phase can then overwrite
  (`Names.CommaBreaksComposition`).
- An artifact source, of a job or of a step, survives job-level expansion exactly when its job has
  one variant (`ExpansionGraph.ArtifactsStayDeps`).
- Two substitution passes are one pass on exactly the templates in which no placeholder stands in an
  opening that could become another (`TwoPasses.TemplatesExactly`), and for exactly the phase-1
  values none of whose parts can begin a placeholder (`TwoPasses.ValuesExactly`). A value that
  spells a phase-2 placeholder fails without any nesting (`TwoPasses.ValueBreaksTwoPasses`): a
  single pass does not substitute into values, but the second pass does.
- Go's map order does not show in a substituted text exactly when no key, with a closing brace
  behind it, begins another (`ListingOrder.OrderExactly`). Validated dimension names are such keys
  (`Expand.ProductIsPlain`); parameter names are not validated, and with parameters `a` and `a}b`
  the text `${param.a}b}` has two readings (`ListingOrder.OrderDecides`). The include theorems
  assume parameter names without such a pair.
- The redaction loop always removes a secret exactly when the secret cannot overlap the mask
  (`Redact.LoopRemovesExactly`); one that merely contains a single mask character in its middle is
  safe, and one unsafe secret does not expose the others (`Redact.NoSecretSurvives`).
- `job:step` is read back exactly when the job name's brackets balance (`Filter.TargetRoundTrip`).
- Exponential backoff gives the longest wait from attempt 63 on even for a zero delay
  (`Retry.ExponentialIsExact`).
- The cache key confuses a path that itself spells out another path with parameters
  (`CacheKeys.KeysCollideExactly`); the include theorems assume paths apart in that sense.
- With the cache an include can succeed where resolving it afresh would stop: a cached file's nested
  aliases are not registered again and its depth is not counted again. `Include.ParseRoot` shows
  that this is the only difference and that it never goes the other way: unless 65 include nodes
  nest, it succeeds exactly if the root file has a meaning and no two include nodes, each counted
  once for the parameters its file is asked for, bear one alias. Without the cache each chain of
  nodes counts (`WalkExactly.WalkSucceedsExactly`). `Diamond.OnlyTheCacheResolves` is a root file
  that satisfies this though resolution without the cache is stopped.
- A cached order is checked to be a permutation, not to be topological; `BuildOrder.Build` shows
  that a stale one makes the build fail rather than misorder it.

## Model

| member | source | states |
|---|---|---|
| `RunnerSafety.NodeActionIsLocal` | internal/runner/node.go:25-136 | One move of a job's goroutine touches that job's phase only, and the semaphore count follows exactly whether the job holds a slot. |
| `RunnerSafety.InitIsSafe` | internal/runner/runner.go:92-135 | The state in which Run starts its goroutines satisfies the safety invariant. |
| `RunnerSafety.NextKeepsSafe` | internal/runner/node.go:25-136 | Every move of every party, including cancellation and deadlines, keeps the invariant: slots counted right and within the limit, waited-for dependencies finished well. |
| `RunnerSafety.RunsAreSafe` | internal/runner/node.go:25-136 | The invariant holds after any run from any safe state. |
| `RunnerSafety.WholeRunSafety` | internal/runner/node.go:31-76 | In every reachable state at most `limit` jobs hold a slot, and a job past its dependency wait (so also one evaluating its condition) has every transitive dependency finished without error or skip. |
| `RunnerSafety.DoneIsStable` | internal/runner/node.go:30-36 | No single action changes what a finished job published. |
| `RunnerSafety.OutcomeIsFinal` | internal/runner/node.go:30-36 | Over any further run a finished job's published outcome stays what it was. |
| `RunnerSafety.PastWaitForGood` | internal/runner/node.go:38-76 | A job past its dependency wait at any moment, also one then skipped by its condition or cancelled at the semaphore, has all its transitive dependencies finished well from then on. |
| `RunnerSafety.RunsKeepDeadlines` | internal/runner/node.go:84-110 | Every move keeps what a job's deadline may have done. |
| `RunnerSafety.DeadlinesAreReported` | internal/runner/node.go:84-110 | In every state reachable from the start a published timeout is the job's own expired deadline, and a deadline that expired while the job was solving ended in success, in a timeout, or in a failure behind the solve. |
| `RunnerSafety.CollectDepOutputs` | internal/runner/node.go:241-249 | The loop returns the outputs of exactly those dependencies that finished with outputs. |
| `RunnerSafety.FilterSuccessful` | internal/runner/runner.go:168-177 | The loop keeps, in order, the items whose job is outside the DAG or finished without error or skip. |
| `RunnerSafety.KeptMembers` | internal/runner/runner.go:168-177 | An item survives the filter if and only if it was there and its job is unknown or succeeded. |
| `RunnerSafety.KeptInOrder` | internal/runner/runner.go:168-177 | The items kept are in the order in which they were given. |
| `RunnerSafety.ExportsOnlyFromSuccess` | internal/runner/runner.go:145-176 | After a complete run an export or publish of a DAG job is kept if and only if the job and everything it depends on succeeded. |
| `Outcomes.NextIsJustified` | internal/runner/node.go:25-136 | Every move of every party, cancellation and deadlines included, keeps each job on a way that has its reasons. |
| `Outcomes.OutcomesAreJustified` | internal/runner/node.go:25-136 | In every state of every run each published outcome has its reason: a skip behind a skipped dependency or a condition that fails; each kind of failure behind the dependency, the condition, the attempts, the deadline, the cancellation or the extraction it names; a success behind a first successful attempt, with the solve's outputs if step-controlled, else the extracted ones if outputs are defined, else none. |
| `Outcomes.InterruptedRunFails` | internal/runner/node.go:42-45 | A complete run in which a job was interrupted reports that job as failed. |
| `Outcomes.RunsCanBeCutShort` | internal/runner/node.go:77-113 | Cancellation is possible at any moment; a deadline that passes while the job solves can end it, as a timeout. |
| `Outcomes.CancelHasCause` | internal/runner/runner.go:109-126 | A run is cancelled by its caller, or in fail-fast mode behind a failed job. |
| `Outcomes.KeepGoingNeverCancels` | internal/runner/runner.go:127-143 | A run that keeps going and that nobody cancels reports no cancelled job. |
| `RunInput.ParallelismIsKept` | internal/runner/runner.go:92-96 | A requested parallelism bounds the jobs holding a slot in every state of every run. |
| `RunInput.NoRequestNoWait` | internal/runner/runner.go:92-96 | Without a requested parallelism no job ever waits for a slot. |
| `RunInput.KeepGoingRunsAll` | internal/runner/runner.go:109-143 | Without fail-fast, and unless the caller cancels, no job is cancelled. |
| `RunInput.FailFastCanCancel` | internal/runner/runner.go:109-126 | With fail-fast a failed job lets the group cancel the rest. |
| `RunInput.NoContextNoQuestion` | internal/runner/node.go:49-72 | Without a context for conditions none is asked: a job is skipped only behind a skipped dependency. |
| `RunnerProgress.EveryMoveDecreases` | internal/runner/node.go:25-136 | Every enabled action of every party strictly decreases a measure. |
| `RunnerProgress.RunsAreBounded` | internal/runner/node.go:25-136 | A run is no longer than the measure it uses up: no run goes on for ever. |
| `RunnerProgress.LowestUnfinished` | internal/runner/node.go:38-60 | Below any unfinished job there is an unfinished one all of whose dependencies are finished (acyclicity). |
| `RunnerProgress.SomeoneCanAdvance` | internal/runner/node.go:38-76 | While a job is unfinished some goroutine can advance on its own: no deadlock for any slot limit of at least one. |
| `RunnerProgress.StuckIffDone` | internal/runner/node.go:38-76 | No goroutine can advance if and only if all jobs are done. |
| `RunnerProgress.CompletesFrom` | internal/runner/runner.go:92-143 | From every safe state some continuation finishes all jobs. |
| `RunnerProgress.RunsTerminate` | internal/runner/runner.go:63-143 | Every run from the start is bounded, can be completed, and stops exactly when all jobs are done. |
| `RunnerProgress.CancelledJobCanStop` | internal/runner/node.go:38-76 | In a cancelled run no unfinished job has to wait for anybody, and none needs another solve to move on. |
| `RunnerProgress.CancelledRunStops` | internal/runner/node.go:38-76 | A cancelled run can be brought to its end without another solve. |
| `RunnerConfluence.SolveIsRetry` | internal/runner/node.go:143-204 | The solving phase ends as the retry loop does: with the first successful attempt's outputs, or as a failed solve. |
| `RunnerConfluence.NextStaysOnCourse` | internal/runner/node.go:25-136 | Every action keeps each job on the way to its reference outcome as long as nothing is disturbed. |
| `RunnerConfluence.Confluence` | internal/runner/runner.go:127-143 | Without cancellation and deadlines every interleaving gives every job the outcome of a recursive function on the DAG: the first unsuccessful dependency in list order, then the deferred condition, then the solve. |
| `RunnerConfluence.FailFastVerdict` | internal/runner/runner.go:127-143 | In fail-fast mode, whichever jobs get cancelled, the complete run reports a failure if and only if the reference outcome of some job is a failure. |
| `Prelude.PermutationIsComplete` | internal/builder/builder.go:234-246 | A permutation lists every number below its length. |
| `Prelude.OverflowGuard` | pkg/pipeline/pipelinemodel/types.go:78-82 | The division guard fires exactly when the product would overflow. |
| `Dag.CycleDetector.constructor` | internal/runner/runner.go:205-206 | The search starts with every node unvisited. |
| `Dag.CycleDetector.Visit` | internal/runner/runner.go:208-228 | The recursive visit marks what it reaches; an error names a node on a real cycle; success ranks the node above everything it depends on. |
| `Dag.CycleDetector.VisitDeps` | internal/runner/runner.go:217-222 | After the loop every dependency is ranked, or the error names a node on a cycle. |
| `Dag.CycleDetector.Detect` | internal/runner/runner.go:205-235 | For every order in which the map is traversed: no error if and only if the graph is acyclic. |
| `Dag.IndexJobs` | internal/runner/runner.go:180-188 | Fills the node map, or names a job that occurs twice. |
| `Dag.CheckDeps` | internal/runner/runner.go:190-197 | Accepts exactly known dependencies, or names an unknown one. |
| `Dag.BuildDag` | internal/runner/runner.go:180-202 | Success means unique names, known dependencies and an acyclic graph; each error has its witness in the input. |
| `Dag.AcceptedJobsAreWellFormed` | internal/runner/runner.go:63-96 | What buildDAG accepts, with the effective slot limit, satisfies every assumption the runner theorems make. |
| `Graphs.RankDrops` | pkg/pipeline/validate.go:335-374 | Along a dependency path a rank that drops on every edge drops strictly from end to end. |
| `Graphs.RankedIsAcyclic` | pkg/pipeline/validate.go:335-374 | A graph whose edges all decrease a rank has no cycle. |
| `Graphs.AcyclicIffRanked` | pkg/pipeline/validate.go:335-374 | A graph is acyclic if and only if such a rank exists. |
| `Graphs.BackEdgeIsCycle` | pkg/pipeline/validate.go:350-352 | An edge from the top of a search stack back into it closes a cycle. |
| `Validate.TopoSorter.constructor` | pkg/pipeline/validate.go:335-341 | The sort starts with all jobs unvisited and an empty order. |
| `Validate.TopoSorter.Begin` | pkg/pipeline/validate.go:347-353 | Marks a job visiting and extends the path of the search by it. |
| `Validate.TopoSorter.VisitDeps` | pkg/pipeline/validate.go:354-362 | After the loop every dependency is listed; an error is an unknown dependency or a cycle of the input. |
| `Validate.TopoSorter.Finish` | pkg/pipeline/validate.go:363-365 | Appends the job once all its dependencies are in the order. |
| `Validate.TopoSorter.Visit` | pkg/pipeline/validate.go:343-366 | The three-state visit: on success the job is in the order and nothing listed is lost. |
| `Validate.TopoSorter.Sort` | pkg/pipeline/validate.go:335-374 | Succeeds if and only if every dependency is known and the graph is acyclic; the result is a permutation of the indices with each dependency before its dependents, and an error is a real unknown dependency or a real cycle. |
| `Validate.TopoOrderMeansAcyclic` | pkg/pipeline/validate.go:335-374 | A topological order exists only when every dependency is known and the graph is acyclic. |
| `Validate.ValidateJobs` | pkg/pipeline/validate.go:17-131 | Of the graph checks: accepts exactly the well-formed job lists (non-empty, unique names, steps, artifacts from dependencies, known dependencies, acyclic) and returns a topological order; each error names a job with that fault. |
| `Verdicts.OrderIffAcyclic` | pkg/pipeline/validate.go:335-374 | Jobs have a topological order if and only if their dependencies are known and no cycle exists. |
| `Verdicts.SameVerdict` | internal/runner/runner.go:205-235 | On the same jobs with known dependencies the parser's sort succeeds exactly when the runner's cycle search does. |
| `Layers.LongestChainIsUnique` | internal/visualize/graph.go:100-125 | The length of the longest dependency chain is one number. |
| `Layers.RaiseDepth` | internal/visualize/graph.go:113-117 | The inner loop leaves at the job's index the length of its longest chain, and nothing else changes. |
| `Layers.ComputeDepths` | internal/visualize/graph.go:111-118 | Over a topological order every job gets the length of its longest dependency chain. |
| `Layers.GroupByDepth` | internal/visualize/graph.go:119-124 | Layer l lists, in order, exactly the jobs of depth l, and the last layer is inhabited. |
| `Layers.BuildLayers` | internal/visualize/graph.go:100-125 | The layers of a pipeline: grouped longest-path depths, or one layer when there is no order. |
| `Layers.LayersAreStrict` | internal/visualize/graph.go:100-125 | The layers partition the jobs, none is empty, and each dependency lies in a strictly lower layer. |
| `Filter.ParseFilterTarget` | pkg/pipeline/filter.go:20-39 | Splits at the first colon outside brackets. |
| `Filter.TargetRoundTrip` | pkg/pipeline/filter.go:20-39 | `job:step` is read back as that job and step if and only if the job's brackets balance at its end and no colon stands outside them. |
| `Filter.VariantTarget` | pkg/pipeline/filter.go:20-39 | The name of a variant is read as a job although its values hold colons. |
| `Filter.Enqueue` | pkg/pipeline/filter.go:246-253 | Marks and queues exactly the names not seen before. |
| `Filter.BfsReachable` | pkg/pipeline/filter.go:241-255 | The visited set is exactly the set of reachable names. |
| `Filter.IntersectSets` | pkg/pipeline/filter.go:259-277 | Intersection, where an absent set does not constrain. |
| `Filter.AddTransitiveDeps` | pkg/pipeline/filter.go:280-288 | The recursion on a pre-filled visited set adds only names reachable from the given one and makes its dependencies present, with everything new closed under them. |
| `Filter.CloseOverDeps` | pkg/pipeline/filter.go:144-151 | Starting the search from the pre-filled window nevertheless yields exactly the dependency closure of the window. |
| `Filter.DependentsReverse` | pkg/pipeline/filter.go:50-73 | The dependents graph is the dependency graph reversed. |
| `Filter.ForwardIsBackward` | pkg/pipeline/filter.go:50-73 | Reaching along dependents is being reached along dependencies. |
| `Filter.BuildJobAdj` | pkg/pipeline/filter.go:50-73 | The two adjacency maps are the dependents graph and the dependency graph. |
| `Filter.ComputeWindow` | pkg/pipeline/filter.go:124-142 | The window is the descendants of the start intersected with the ancestors of the stop. |
| `Filter.SelectJobs` | pkg/pipeline/filter.go:153-169 | Keeps the needed jobs in order; jobs outside the window lose their exports and publish. |
| `Filter.TrimJobs` | pkg/pipeline/filter.go:190-226 | Cuts each target job to its step window, or fails exactly when some window is empty. |
| `Filter.CutJobs` | pkg/pipeline/filter.go:78-177 | The whole filter on parsed targets, each error exactly when it is due: a step without a job, a job nobody bears, a step the job has not, start target before stop target; then an empty window; then a stop step in front of the start step; and otherwise the cut. |
| `Filter.FilterJobs` | pkg/pipeline/filter.go:78-177 | No targets leave the jobs alone; otherwise the parsed targets decide, with the same errors. |
| `Filter.CutIsExact` | pkg/pipeline/filter.go:111-229 | The result holds, in original order, exactly the dependency closure of descendants(start) ∩ ancestors(stop) and is closed under dependencies; exports and publish survive exactly in the window, exactly the steps behind the stop step are cut, exactly those in front of the start step or outside the window lose their exports, and nothing else of a job changes. |
| `Merge.MergeGroup` | pkg/pipeline/merge.go:22-39 | One group is merged in order up to its first conflict. |
| `Merge.MergeJobs` | pkg/pipeline/merge.go:12-41 | Fails if and only if a group that does not skip repeats a name; otherwise returns the first job of each name. |
| `Merge.MergeIsFirstWins` | pkg/pipeline/merge.go:12-41 | The merged names are unique, are all the names there were, and belong to the first job of each name. |
| `Merge.MergeKeepsOrder` | pkg/pipeline/merge.go:12-41 | The merged jobs are the first entries of each name in the order of the document. |
| `Merge.TerminalJobs` | pkg/pipeline/merge.go:46-61 | The two loops return the names no job depends on, in order. |
| `Merge.TerminalMembers` | pkg/pipeline/merge.go:46-61 | A name is terminal if and only if it is a job and no job depends on it. |
| `Merge.TerminalsInOrder` | pkg/pipeline/merge.go:46-61 | They are named in the order of the jobs. |
| `Merge.TerminalsCoverJobs` | pkg/pipeline/merge.go:46-61 | In an acyclic job set every job is reached from a terminal job. |
| `Merge.ExpandDeps` | pkg/pipeline/merge.go:101-117 | Replaces aliases by their terminal jobs and drops repeated names. |
| `Merge.ExpandedMembers` | pkg/pipeline/merge.go:101-117 | The expanded list is duplicate-free and holds exactly what replaces its entries: the jobs an alias stands for, or the entry itself if it is no alias or one for nothing. |
| `Merge.ExpandedInOrder` | pkg/pipeline/merge.go:101-117 | The replacements keep the order of the entries, each where it first occurs. |
| `Merge.ExpandAliases` | pkg/pipeline/merge.go:66-97 | Fails exactly when an alias is also a job name and does not stand for just that job; otherwise every dependency list is expanded. |
| `Merge.AliasCoversInclude` | pkg/pipeline/merge.go:46-117 | When all jobs of an acyclic include are kept, a job that depends on its alias transitively depends, after expansion, on every one of them. |
| `Merge.CyclesSurvive` | pkg/pipeline/merge.go:66-117 | A cycle among the kept jobs of an include is still there after expansion. |
| `Merge.ExpansionIsIdempotent` | pkg/pipeline/merge.go:66-117 | Expanding twice changes nothing when aliases stand for jobs of the merged pipeline. |
| `Conditions.EvaluateJobs` | pkg/pipeline/when.go:26-47 | Asks exactly the conditions that are not deferred: keeps in order the jobs without one or whose one holds, names in order those whose one fails, and fails exactly when one cannot be evaluated. |
| `Conditions.EvaluateSteps` | pkg/pipeline/when.go:59-77 | Keeps exactly the steps that pass and reports exactly those it drops, in order. |
| `Conditions.TrimOne` | pkg/pipeline/when.go:49-81 | Cleaning references and dropping steps of one job; whether it is emptied does not depend on the cleaning. |
| `Conditions.TrimAll` | pkg/pipeline/when.go:49-81 | The second pass over all kept jobs, with the emptied jobs and the dropped steps recorded. |
| `Conditions.RemoveEmpty` | pkg/pipeline/when.go:83-103 | The third pass removes the emptied jobs and the references to them. |
| `Conditions.PhasesArePruning` | pkg/pipeline/when.go:21-107 | The three passes together are one pruning by the final set of skipped names. |
| `Conditions.EvaluateConditions` | pkg/pipeline/when.go:21-107 | Errors exactly when a condition that is not deferred, of a job or of a step of a job that passed, cannot be evaluated. Otherwise keeps in order exactly the jobs that pass and have a passing step, with exactly those steps and the references to kept jobs, and names the others in order and the dropped steps. |
| `Conditions.NamesSplit` | pkg/pipeline/when.go:21-107 | The job names split into kept and skipped. |
| `Conditions.PruningKeepsValidity` | pkg/pipeline/when.go:21-144 | On a validated pipeline the kept jobs are again a validated pipeline (or none are left): references only to kept jobs, sources still dependencies, a step each, acyclic. |
| `Conditions.OldOrderStillServes` | pkg/pipeline/when.go:21-144 | The old topological order, restricted and renumbered, is a topological order of the kept jobs. |
| `Plan.CutKeepsValidity` | cmd/cicada/run.go:119-126 | Cutting a validated pipeline to its targets leaves a validated pipeline: never empty, closed under dependencies, acyclic, each job with a step and its sources. |
| `Plan.PlanKeepsValidity` | cmd/cicada/run.go:119-143 | Cut and pruned it is a validated pipeline, or nothing is left. |
| `Plan.PlanJobs` | cmd/cicada/run.go:119-143 | The two steps in order, each with its errors. |
| `Plan.BuildPlan` | cmd/cicada/run.go:119-170 | Of a validated pipeline everything the cut and the conditions leave is built, each job behind its dependencies. |
| `Names.SplitOfJoin` | pkg/pipeline/expand.go:247-256 | Splitting undoes joining for pieces without the separator. |
| `Names.ParseName` | pkg/pipeline/expand.go:240-258 | The parsing half of expandedName computes the parse function. |
| `Names.SuffixIs` | pkg/pipeline/expand.go:240-258 | A name has a suffix exactly when a bracket opens in front of one that closes; the base ends at the first that opens, and any other name is all base. |
| `Names.PiecesBind` | pkg/pipeline/expand.go:249-257 | A suffix binds what its pieces bind, later ones winning; a piece without an equals sign binds nothing. |
| `Names.PrintName` | pkg/pipeline/expand.go:259-271 | The printing half prints the sorted dimensions. |
| `Names.ExpandName` | pkg/pipeline/expand.go:240-272 | The whole of expandedName. |
| `Names.ParseOfPrint` | pkg/pipeline/expand.go:240-272 | A printed suffix is read back if and only if no value contains a comma. |
| `Names.ExpansionComposes` | pkg/pipeline/expand.go:240-272 | Expanding by one combo and then another equals expanding by both. |
| `Names.PrintIsInjective` | pkg/pipeline/expand.go:240-272 | Equal printed names have equal base names and equal combos. |
| `Names.LexIs` | pkg/pipeline/expand.go:262-266 | The order of the printed keys: what begins a key comes before it, and else the smaller character where they first differ. |
| `Names.CommaForgesDimension` | pkg/pipeline/expand.go:247-256 | A value with a comma is read back as an extra dimension. |
| `Names.CommaBreaksComposition` | pkg/pipeline/expand.go:240-272 | An illustration: the second phase overwrites the forged dimension. |
| `Composition.CompositionExactly` | pkg/pipeline/expand.go:240-272 | Expanding by a combo and then by another equals expanding by both, for every second combo, if and only if no value of the first has a comma. |
| `Matrix.CountCombos` | pkg/pipeline/pipelinemodel/types.go:72-82 | Counts the combos, or reports exactly an overflow. |
| `Matrix.ExtendCombos` | pkg/pipeline/pipelinemodel/types.go:84-97 | One round pairs every combo so far with every value of the dimension. |
| `Matrix.ExtendInOrder` | pkg/pipeline/pipelinemodel/types.go:84-97 | The combos so far keep their order, and with ExtendOne the values of the next dimension vary faster. |
| `Matrix.ExtendOne` | pkg/pipeline/pipelinemodel/types.go:84-97 | One combo gives one for each value, in the order of the values. |
| `Matrix.Combinations` | pkg/pipeline/pipelinemodel/types.go:70-99 | Returns the cartesian product, or the size error exactly when the count overflows. |
| `Matrix.ProductIsAllChoices` | pkg/pipeline/pipelinemodel/types.go:84-98 | A combo is in the product if and only if it picks one value for each dimension and nothing else. |
| `Matrix.ProductCount` | pkg/pipeline/pipelinemodel/types.go:72-98 | The product has as many combos as the computed total. |
| `Matrix.ProductIsDistinct` | pkg/pipeline/pipelinemodel/types.go:84-98 | With distinct dimensions and values no combo occurs twice. |
| `Matrix.ValidateMatrix` | pkg/pipeline/expand.go:155-190 | Accepts exactly the valid matrices, of at most 10000 combos; an error names a fault that is there. |
| `Matrix.DimCharsAre` | pkg/pipeline/expand.go:160-190 | The characters of a dimension name, by their codes. |
| `Matrix.ValidMatrixFits` | pkg/pipeline/expand.go:160-190 | A validated matrix cannot overflow and has at least one combo. |
| `Substitute.OrderDoesNotMatter` | pkg/pipeline/expand.go:276-285 | For keys of which none, with a closing brace behind it, begins another, the single pass gives the same text for any order in which the keys are listed to the replacer. |
| `Substitute.SubstituteVars` | pkg/pipeline/expand.go:276-285 | For such keys the loop over the map, in any order, computes the order-free substitution. |
| `Substitute.SubstNothing` | pkg/pipeline/expand.go:276-285 | An empty combo changes nothing. |
| `ListingOrder.OrderExactly` | pkg/pipeline/expand.go:276-285 | The order in which the map is listed never shows, whatever the text and the values, if and only if no key, with a closing brace behind it, begins another. |
| `ListingOrder.OrderDecides` | pkg/pipeline/expand.go:276-285 | Parameters named k and k}t, which nothing forbids: the text of the longer placeholder becomes one thing or another as the map is listed. |
| `TwoPasses.TwoPassesAreOne` | pkg/pipeline/expand.go:276-285 | Substituting phase 1 and then phase 2 equals one pass with both combos when no placeholder is nested in an opening that could become another and no value of phase 1 can begin one. |
| `TwoPasses.TemplatesExactly` | pkg/pipeline/expand.go:274-285 | A template obeys that law for all inert, or all safe, values if and only if it has no such nesting. |
| `TwoPasses.ValuesExactly` | pkg/pipeline/expand.go:274-285 | The values of phase 1 obey it in all templates without such nesting if and only if they are safe. |
| `TwoPasses.NestingBreaksTwoPasses` | pkg/pipeline/expand.go:274-285 | A family of nested templates on which two passes and one pass differ. |
| `TwoPasses.ValueBreaksTwoPasses` | pkg/pipeline/expand.go:274-285 | A value that spells a phase-2 placeholder is substituted again by the second pass, though not within one pass. |
| `Params.ValidateParams` | pkg/pipeline/params.go:11-31 | Accepts exactly when parameters are declared once, required ones provided and nothing unknown given; each error has its witness. |
| `Params.ResolveParams` | pkg/pipeline/params.go:35-48 | Succeeds exactly when the parameters fit, and then binds each to its provided value or else its default. |
| `Params.ResolvedParamsExactly` | pkg/pipeline/params.go:39-47 | Each declared parameter is bound to its provided value or else its default, and nothing else is bound. |
| `Params.SubstituteParamsKeepsGraph` | pkg/pipeline/params.go:51-100 | Substitution leaves the names and dependencies of the jobs alone. |
| `Params.JobIsSubstituted` | pkg/pipeline/params.go:74-182 | Substitution replaces the placeholders of every text of the job and its steps, the values of its matrix included, and changes nothing else. |
| `Params.ParamIsWritten` | pkg/pipeline/params.go:50-58 | A parameter is written with the prefix param. between dollar brace and brace. |
| `Params.SubstituteJob` | pkg/pipeline/params.go:74-119 | The loops over a job's and its steps' texts do exactly that, though each text lists the map anew. |
| `Params.SubstituteJobs` | pkg/pipeline/params.go:50-58 | So do the loops over the jobs; no parameters leave them as they are. |
| `Expand.CheckDimCollisions` | pkg/pipeline/expand.go:194-214 | Reports a clash exactly when a pipeline and a job matrix share a dimension. |
| `Expand.DimensionIsWritten` | pkg/pipeline/expand.go:57-133 | A dimension is written with the prefix matrix. in the same way. |
| `Expand.ReplicateJob` | pkg/pipeline/expand.go:61-78 | One replica: texts substituted, name and references suffixed. |
| `Expand.ReplicasInOrder` | pkg/pipeline/expand.go:55-78 | Phase 1 takes one combo after the other; ReplicasInOrder with OneComboReplicates fix the order of the jobs. |
| `Expand.OneComboReplicates` | pkg/pipeline/expand.go:55-78 | For one combo each job gives one replica, in order, named and marked with the combo. |
| `Expand.DepsStayInOrder` | pkg/pipeline/expand.go:312-335 | The variants of a dependency take its place in the list. |
| `Expand.OneDepBecomes` | pkg/pipeline/expand.go:312-335 | A dependency becomes all variants of its job; one that names no job stays. |
| `Expand.ReplicateAll` | pkg/pipeline/expand.go:61-78 | One combo's replicas of all jobs, in order. |
| `Expand.ProductIsPlain` | pkg/pipeline/expand.go:160-190 | The dimension names validation admits leave no choice which placeholder a text holds. |
| `Expand.ExpandPipeline` | pkg/pipeline/expand.go:36-82 | Phase 1: fails exactly on an invalid matrix or a shared dimension, and says which, otherwise one replica of every job per combo. |
| `Expand.ExpandOne` | pkg/pipeline/expand.go:97-133 | One job's variants and their names, or an error exactly for an invalid matrix. |
| `Expand.ExpandJobs` | pkg/pipeline/expand.go:88-151 | Phase 2: fails exactly on an invalid matrix, otherwise all variants with rewritten references. |
| `Expand.ExpandMatrices` | pkg/pipeline/expand.go:16-32 | The two phases together. |
| `ExpansionGraph.NameOfVariant` | pkg/pipeline/expand.go:240-272 | After both phases a variant's name is the base name with both combos in one suffix. |
| `ExpansionGraph.ExpandedMembers` | pkg/pipeline/expand.go:36-151 | The expanded jobs are exactly one per job and pair of choices. |
| `ExpansionGraph.FullNameInjective` | pkg/pipeline/expand.go:240-272 | Different jobs or different choices have different names. |
| `ExpansionGraph.ExpansionUnique` | pkg/pipeline/expand.go:36-151 | All expanded names are unique. |
| `ExpansionGraph.ExpansionEdges` | pkg/pipeline/expand.go:88-151 | Variant j[p,q] depends on k[p',q'] if and only if j depended on k and p = p'. |
| `ExpansionGraph.ExpansionProjects` | pkg/pipeline/expand.go:36-151 | Every dependency in the expanded graph comes from a dependency between the original jobs. |
| `ExpansionGraph.ExpansionKeepsGraph` | pkg/pipeline/expand.go:36-151 | All dependencies resolve, names are unique and acyclicity is preserved. |
| `ExpansionGraph.ArtifactStaysDep` | pkg/pipeline/expand.go:139-141 | An artifact source of a job stays among the dependencies if and only if its job has a single phase-2 variant. |
| `ExpansionGraph.StepArtifactStaysDep` | pkg/pipeline/expand.go:72-141 | The same of an artifact of one of its steps. |
| `ExpansionGraph.ArtifactsStayDeps` | pkg/pipeline/expand.go:72-141 | All artifacts of a job and its steps still come from dependencies if and only if every source has a single variant. |
| `ExpansionGraph.SourceIsNoVariant` | pkg/pipeline/expand.go:321-335 | Otherwise the source names no job at all. |
| `ExpansionGraph.NothingToFanOut` | pkg/pipeline/expand.go:88-95 | Without job matrices phase 2 changes nothing, as its early return assumes. |
| `Templates.VariantTemplate` | pkg/pipeline/expand.go:57-135 | Every template text of a job and its steps reaches its variant as if both phases' values were substituted at once, and the variant records both. |
| `Templates.ChoicesAreFilledIn` | pkg/pipeline/expand.go:36-133 | A job is fanned out over its own matrix with the pipeline's values filled in: a choice takes one filled-in value for each dimension. |
| `Templates.TagsExactly` | pkg/pipeline/expand.go:36-151 | The variants are exactly: a job, a choice of the pipeline's matrix, and a filled-in choice of the job's own. |
| `Templates.VariantKeepsRest` | pkg/pipeline/expand.go:57-133 | Whatever is neither text nor name nor reference reaches the variant as it is, and no matrix is left. |
| `Templates.SourcelessStays` | pkg/pipeline/expand.go:312-335 | An artifact that names no source names none after expansion. |
| `IncludeMeaning.MoreFuel` | pkg/parser/include.go:304-488 | The denotation of an included file does not depend on the nesting bound once it is large enough. |
| `IncludeMeaning.MeaningIsUnique` | pkg/parser/include.go:304-488 | A file with given parameters denotes one name and one job list. |
| `IncludeMeaning.IncludeAdds` | pkg/parser/include.go:288-299 | An include contributes exactly the jobs its file denotes, under its conflict strategy. |
| `IncludeMeaning.FileMeans` | pkg/parser/include.go:382-488 | Collected children and a fitting merge make up the file's denotation. |
| `IncludeMeaning.MeaningExcludesCycles` | pkg/parser/include.go:37-52 | Nothing that a resolvable file reaches through includes lies on a cycle of includes. |
| `IncludeMeaning.IllFormedFileMeansNothing` | pkg/parser/include.go:347-379 | A file that mixes a fragment with anything else, is empty, or holds a node at home in neither kind of file means nothing, nor does a pipeline file given parameters. |
| `IncludeMeaning.IllFormedFragmentMeansNothing` | pkg/parser/include.go:205-241 | Nor does a fragment with a child that is no job, parameter or include. |
| `IncludeWalk.WalkFindsMeaning` | pkg/parser/include.go:304-341 | Resolution without the cache returns what the file denotes and only adds aliases. |
| `IncludeWalk.RepeatIsCycle` | pkg/parser/include.go:39-45 | A path found on the ancestor stack closes a real cycle of includes. |
| `IncludeWalk.MeaningIsWalkable` | pkg/parser/include.go:37-341 | Where the file has a meaning, resolution without the cache can be stopped only by the depth limit or an alias met twice. |
| `WalkSites.WalkBooks` | pkg/parser/include.go:304-341 | Where resolution without the cache succeeds, every include node drawn in has an alias of its own, new and kept, and no chain of nodes outgrows the stack. |
| `WalkSites.WalkIsNotStopped` | pkg/parser/include.go:37-72 | What stops the resolver with the cache also stops resolution without it. |
| `IncludeSites.FileRegisters` | pkg/parser/include.go:314-340 | A file read for the first time registers its include nodes and then its own; a taken alias means two different nodes bear it. |
| `IncludeSites.HitRegisters` | pkg/parser/include.go:313-328 | A cached file registers its own node alone; a taken alias means two different nodes bear it. |
| `IncludeSites.FileCached` | pkg/parser/include.go:29-35 | Once all include nodes of a file are registered it may enter the cache: a cached file stands for registered nodes only. |
| `IncludeSites.ChainBooked` | pkg/parser/include.go:313-341 | Everything under a registered node whose file is cached is registered. |
| `IncludeSites.AllDone` | pkg/parser/include.go:313-341 | When the root file is read, the aliases are exactly those its include nodes bear, each taken by the one node that bears it. |
| `IncludeSites.AllTabled` | pkg/parser/include.go:63-72 | In the table each alias stands for the terminal jobs of what its own node includes. |
| `WalkExactly.WalkSucceedsExactly` | pkg/parser/include.go:304-341 | Without the cache a root file resolves if and only if its items have a meaning, no two chains of include nodes end in nodes of one alias, and none has 65 nodes. |
| `WalkExactly.ChainsApartNodesApart` | pkg/parser/include.go:304-341 | Where chains are apart so are nodes, which is all that parsing with the cache asks. |
| `CacheKeys.EscapeIsInjective` | pkg/parser/include.go:79-84 | Query escaping loses nothing. |
| `CacheKeys.EncodeIsInjective` | pkg/parser/include.go:79-84 | Different non-empty parameters encode differently. |
| `CacheKeys.KeysCollideExactly` | pkg/parser/include.go:76-85 | Two different requests share a key exactly when one has no parameters and its path spells out the other's path and parameters. |
| `CacheKeys.KeysApartIffNoShadow` | pkg/parser/include.go:76-85 | The key tells all requests for a set of paths apart if and only if no path shadows another in that way. |
| `CacheKeys.PlainPathsAreApart` | pkg/parser/include.go:76-85 | Paths without a question mark never collide. |
| `Include.GroupCollector.constructor` | pkg/parser/include.go:103-105 | Starts empty. |
| `Include.GroupCollector.AddJob` | pkg/parser/include.go:107-109 | Appends the job to what is collected. |
| `Include.GroupCollector.AddInclude` | pkg/parser/include.go:111-118 | Appends the include's jobs behind everything inline so far. |
| `Include.GroupCollector.Flush` | pkg/parser/include.go:120-128 | Closes the inline group without changing what is collected or its order. |
| `Include.GroupCollector.Merge` | pkg/parser/include.go:130-133 | Merges exactly what was collected. |
| `Include.IncludeState.constructor` | pkg/parser/include.go:29-35 | An empty stack, cache and alias table. |
| `Include.IncludeState.Push` | pkg/parser/include.go:39-52 | Refuses exactly repeated paths and a stack of 64; keeps the paths distinct and in step with the set. |
| `Include.IncludeState.Pop` | pkg/parser/include.go:55-59 | Undoes the push on stack and set. |
| `Include.IncludeState.RegisterAlias` | pkg/parser/include.go:63-72 | Registers the terminal jobs of the include, or refuses a taken alias. |
| `Include.IncludeState.ResolveInclude` | pkg/parser/include.go:304-341 | A success is what the file denotes whatever the cache held, and registers this include node and those under it, each once; the stack is restored on every exit; a cycle error shows a real cycle, a repeated alias two nodes bearing it, a depth error a chain of 65 nodes, and any other error a file without meaning; and where resolution without the cache succeeds, so does this, with no further aliases. |
| `Include.IncludeState.ResolvePushed` | pkg/parser/include.go:314-340 | The same between push and the deferred pop, for a cache hit and for a miss. |
| `Include.IncludeState.ParseIncludedFile` | pkg/parser/include.go:347-379 | A fragment or a pipeline file, told apart by its nodes, yields its denotation. |
| `Include.IncludeState.IncludeFragment` | pkg/parser/include.go:382-398 | Collects, resolves the parameters, substitutes them text by text in any order of the map, and caches what the fragment denotes. |
| `Include.IncludeState.IncludePipelineFile` | pkg/parser/include.go:417-488 | Collects and caches what the pipeline file denotes; parameters are refused. |
| `Include.IncludeState.CollectItems` | pkg/parser/include.go:195-251 | The children loop and merge: exactly the entries the children denote, with their include nodes registered; any error but depth and a repeated alias means they denote nothing that merges. |
| `Include.IncludeState.AddIncludeItem` | pkg/parser/include.go:288-299 | Resolves one include child and adds exactly its jobs, or fails for depth, for a repeated alias, or because it has no meaning. |
| `Include.IncludeState.AddItem` | pkg/parser/include.go:205-241 | One child: added, resolved and added, checked, skipped or refused. |
| `Include.AddOtherItem` | pkg/parser/include.go:205-241 | A child that is no include: a job, a parameter, an ignored node, or one refused for what it is. |
| `Include.ClassifyNodes` | pkg/parser/include.go:353-367 | Tells exactly the fragment files, the pipeline files and the empty ones. |
| `Include.ParseRoot` | pkg/parser/parser.go:66-100 | Unless 65 include nodes nest, parsing succeeds if and only if the items denote entries that merge, belong there, and no two include nodes bear one alias; it then returns what they denote, with exactly those aliases, each standing for the terminal jobs of what its node includes. Where they do, only depth and a repeated alias are errors. Without the cache the result is the same or stopped by depth or an alias met twice; and whenever that succeeds, so does this. |
| `Include.AddRootItem` | pkg/parser/parser.go:113-175 | One root item, with the same guarantees. |
| `Diamond.OnlyTheCacheResolves` | pkg/parser/include.go:313-341 | A root file that includes one file twice, which includes another: without the cache the inner alias is met twice and resolution stops; the root file satisfies all that parsing with the cache needs to succeed. |
| `Diamond.RootParses` | pkg/parser/parser.go:66-100 | On that root file ParseRoot succeeds, with the two aliases of the root file and the inner one. |
| `Coverage.FragmentIsFilledIn` | pkg/parser/include.go:382-398 | The jobs of an included fragment are those of its entries with the provided value, or else the default, of each parameter filled in, and otherwise as they were. |
| `Coverage.AliasFallsBack` | pkg/parser/include.go:332-338 | An include without an alias is registered under the name of its fragment or of its file. |
| `Coverage.StrictIncludesAreKept` | pkg/pipeline/merge.go:12-41 | All jobs of an include, at whatever depth, reach the merged pipeline when no include on the way to it skips conflicts. |
| `Coverage.ParseJobs` | pkg/parser/parser.go:66-195 | Parsing and alias expansion: unless 65 nodes nest, succeeds exactly on the sound root files in which no alias is the name of another job; in an acyclic result a job that depended on the alias of any include node depends on every job of its file, provided they are kept. |
| `Status.NextKeepsControl` | internal/runner/status.go:19-135 | Every move of solver, tee and bridge keeps the control invariant of the three parties. |
| `Status.NextKeepsData` | internal/runner/status.go:98-135 | Every move keeps the delivered statuses an in-order prefix of the redacted non-nil statuses sent. |
| `Status.EveryActionDecreases` | internal/runner/status.go:19-135 | Every action, cancellation included, decreases a measure. |
| `Status.SomeoneCanMove` | internal/runner/status.go:19-135 | As long as the parties have not all finished, one of them can move without outside help. |
| `Status.RunsAreBounded` | internal/runner/status.go:19-135 | No run goes on for ever. |
| `Status.StatusProtocol` | internal/runner/status.go:19-135 | Under every timing of cancellation all parties finish, deliver a prefix in order, and send exactly one JobDone, after all statuses; the display is flushed once. |
| `Status.NothingIsLost` | internal/runner/status.go:19-135 | When nothing is cancelled every visible status is delivered. |
| `Status.VisibleIsShown` | internal/runner/status.go:98-135 | What a display may see: directly everything; through the tee one redacted status for each that is not nil, in order. |
| `Status.CancellationIsFree` | internal/runner/status.go:19-135 | The context may be cancelled and the solver give up at any moment; tee and bridge can then leave what they wait for. |
| `Redact.RedactString` | internal/runner/redact.go:60-65 | The loop replaces the secrets one after the other. |
| `Redact.SortedSecretValues` | internal/runner/redact.go:40-51 | Exactly the non-empty secret values, longest first. |
| `Redact.NothingAppears` | internal/runner/redact.go:53-65 | A replacement creates no occurrence of any mask-safe text. |
| `Redact.NoSecretSurvives` | internal/runner/redact.go:53-65 | For every text and every list of secrets, in any order, a mask-safe secret of the list is nowhere in the output, whatever the others are. |
| `Redact.LoopRemovesExactly` | internal/runner/redact.go:53-65 | The loop removes a secret from every text, beside any other secrets, if and only if the secret neither begins nor ends with the mask character nor holds the whole mask. |
| `Redact.SafeIffAlwaysRedacted` | internal/runner/redact.go:53-65 | The same of a single replacement. |
| `Redact.SafeSecretsAreMasked` | internal/runner/redact.go:40-65 | With mask-safe secrets, longest first, each of them is masked as a whole. |
| `Redact.WholeSecretIsMasked` | internal/runner/redact.go:40-65 | Longest first, a text that is one secret becomes the mask even if it contains another secret, as long as no secret is part of the mask. |
| `Redact.SolveStatus.RedactAll` | internal/runner/redact.go:17-36 | Each text is redacted in place. |
| `Redact.SolveStatus.RedactStatus` | internal/runner/redact.go:17-36 | Every log, error and warning text becomes its redaction and none is dropped; no mask-safe secret is left in any of them, whatever the other secrets are. |
| `Retry.DecisiveIsFirstSuccess` | internal/runner/node.go:143-204 | The searched attempt is the first success behind plain failures. |
| `Retry.RetryJob` | internal/runner/node.go:143-204 | Succeeds if and only if some attempt succeeds before the attempts, or the run, end; stops at exactly the first attempt that succeeds, ends the run, or is the last of 1 + retries. |
| `Retry.CheckedMul` | internal/runner/node.go:227-238 | A saturating product for every positive pair. |
| `Retry.ExponentialIsExact` | internal/runner/node.go:211-223 | Equals min(delay·2^attempt, MaxInt64) if and only if the delay is positive, or zero before attempt 63, or negative at attempt 0. |
| `Retry.LinearIsExact` | internal/runner/node.go:211-223 | Equals the saturated multiple if and only if the delay is not negative or the attempt is the first. |
| `Retry.DelaysNeverShrink` | internal/runner/node.go:211-238 | No later wait is shorter. |
| `StepControl.WinnerIsFirst` | internal/runner/solve.go:176-239 | The winning attempt evaluated, and every earlier one was a plain failure without cancellation. |
| `StepControl.SolveStep` | internal/runner/solve.go:176-239 | Returns the state of the winning attempt on the given base, after exactly as many solves, or nothing if there is none. |
| `StepControl.ControlStep` | internal/runner/solve.go:106-125 | A step that may fail leaves state and reference alone when it does. |
| `StepControl.StepControl` | internal/runner/solve.go:101-139 | Ends well exactly when every step succeeds or may fail; the state is the fold of the winning attempts, the reference was solved from that state, and the solves are bounded. |
| `StepControl.EveryKeptOpIsWon` | internal/runner/solve.go:101-139 | An operation is in the final state if and only if it belongs to a step that succeeded, in its winning form. |
| `StepBuild.AddCopies` | internal/builder/builder.go:462-473 | Copies the artifacts, or names a source without a state. |
| `StepBuild.AddEnvs` | internal/builder/builder.go:479-482 | Adds the step environment in order. |
| `StepBuild.AddRuns` | internal/builder/builder.go:507-566 | One run per command, or reports a command of nothing but white space. |
| `StepBuild.BlankCommands` | internal/builder/builder.go:507-515 | A command is blank only if every character is white space; SpacesAre fixes those of ASCII. |
| `StepBuild.SpacesAre` | internal/builder/builder.go:507-515 | Space, tab, line feed and carriage return are white space; no printing character of ASCII is. |
| `StepBuild.BuildStepOps` | internal/builder/builder.go:454-569 | Succeeds exactly when sources are built and commands non-blank, and else names the first fault. The operations, behind the base: one copy per artifact, the working directory, the environment, one run per command, in their order, each with the step's shell, or the job's, or the default, and with preamble and attempt number in front. |
| `StepBuild.BuildJob` | internal/builder/builder.go:360-403 | The whole job is the fold of its steps in their first form. |
| `StepBuild.FirstTriesBuildTheJob` | internal/runner/solve.go:101-139 | If every step succeeds at its first attempt, step control ends in the state of the whole-job build. |
| `BuildOrder.ValidOrder` | internal/builder/builder.go:234-246 | Accepts exactly the permutations. |
| `BuildOrder.CheckJob` | internal/builder/builder.go:303-326 | Finds a missing source or dependency exactly when there is one. |
| `BuildOrder.BuildInOrder` | internal/builder/builder.go:160-166 | Succeeds exactly when each job finds its sources and dependencies built. |
| `BuildOrder.BuildsIffTopological` | internal/builder/builder.go:160-166 | That is, for jobs whose artifacts come from dependencies, exactly when the order is topological. |
| `BuildOrder.SourcesComeFirst` | internal/builder/builder.go:303-326 | In a build that goes through, whatever a job or one of its steps takes from is built before it. |
| `BuildOrder.Build` | internal/builder/builder.go:123-167 | Reuses a cached permutation or validates; jobs come out behind their dependencies, or nothing does. |
| `Quote.CommandArgs` | internal/builder/builder.go:494-549 | The argument vector with and without the timeout wrapping. |
| `Quote.QuotedReads` | internal/builder/builder.go:590-592 | A quoted string adds exactly its characters, all literal, to the word under way. |
| `Quote.QuoteRoundTrip` | internal/builder/builder.go:590-592 | Every string, single-quoted, is read back as one word of exactly its characters. |
| `Quote.QuoteIsInjective` | internal/builder/builder.go:590-592 | Different strings are quoted differently. |
| `Quote.ShellReads` | internal/builder/builder.go:494-503 | The joined quoted shell words are read back as the shell words. |
| `Quote.WrappedReadsBack` | internal/builder/builder.go:494-549 | The wrapped timeout command tokenizes to the timeout call, exactly the shell words, exactly the command, and the fixed exit. |
| `Identifiers.DigitsDiffer` | internal/visualize/graph.go:73-80 | Different numbers print differently. |
| `Identifiers.DigitsReadBack` | internal/visualize/graph.go:73-80 | Printed numbers read back as themselves, without a leading zero. |
| `Identifiers.IdCharsAre` | internal/visualize/graph.go:59-60 | The characters of an identifier, by their codes. |
| `Identifiers.SanitizeID` | internal/visualize/graph.go:65-81 | The search ends; the identifier is valid, new, and the sanitized name itself or its first free numbering. |
| `Identifiers.AllIds` | internal/visualize/dot.go:20-25 | Identifiers of a list of names are pairwise distinct, and each begins with its sanitized name. |

## Left out

- Updating jobs in place: Go clones and then overwrites fields of job and step slices; the model
  builds the changed job as a value, so aliasing between the old and the new slice is not captured.
- Goroutines and channels: `Runner` and `Status` model them as state machines over atomic moves; the
  Go memory model below that, and panics, are not modelled.
- `Status`: the solver closes its channel in the end, as the bridge and tee require; a solver that
  never does is outside the model.
- The build service, image registry, export and image-store code: their answers are parameters.
- The expression language of conditions: a condition is an arbitrary verdict plus a deferred flag.
- KDL syntax, field dispatch and defaults: files start as lists of parsed items; the bytes behind a
  path are assumed not to change within one parse, so the standard-input source is a file like
  others.
- Job fields that no modelled property mentions (platform, mounts, caches, secrets, environment of
  jobs, working directory of jobs): substitution and cloning treat them like the fields kept.
- `Validate.ValidateJobs`: empty and ill-formed job and step names, missing images, and the field
  validators (environment, exports, secrets, retries, timeouts, shells) are not modelled; repeated
  names, artifacts, dependencies and matrices are.
- Error texts: an error is its kind and, where that matters, its witness.
- Clocks and timers: deadlines and cancellation happen at any moment; the length of a wait is
  modelled only as arithmetic.
- `IncludeMeaning.MeaningIsUnique`: a fragment's texts are those of the order-free substitution;
  they are the code's for parameter names of which none, with a closing brace behind it, begins
  another, and the methods of `Include` assume such names.
- `Include.ParseRoot`: where 65 include nodes nest it says what an error or a success means, not
  which of them occurs, which turns on the order in which shared files are first met.
- `Merge.AliasCoversInclude`: does not cover a job of the include that a skipped conflict replaced,
  because the merged pipeline then holds another job of that name, whose dependencies are its own.
- `Quote.QuoteRoundTrip`: double quotes, command substitution and comments are outside the modelled
  token recognition, which fails on them; none occurs unquoted in what the code builds.
- Cache busting, custom vertex names, mounts and secrets of run operations: the operation of a
  command is its argument vector.
- Displays, tracing, the daemon, file synchronisation and the file-hash cache are not part of this
  model.
