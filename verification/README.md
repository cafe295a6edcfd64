# A verified model of a spec-driven runtime

The runtime takes a specification and a plan of tasks, runs the tasks with a model behind an adapter, and records
everything it does in append-only logs. This project models its stateful cores in Dafny 4.11 and proves what they
promise over every input, run and interleaving. `dafny verify dfyconfig.toml` checks all of it.

| files | what they model |
|---|---|
| `RunState`, `Transitions`, `Rounds`, `Causes`, `Scheduler` | the sequential scheduler, its transitions, replanning and resumption, and the projection of the event log |
| `Graph`, `TopoSort` | cycle finding, reachability and topological order |
| `RegExp`, `Glob`, `Meeting`, `Scope`, `Parallel` | path patterns compiled to regular expressions, which patterns share a path, the overlap test, write-scope enforcement, and the parallel driver |
| `LogFile`, `EvidenceLog`, `EventLog`, `Attestation` | the two hash-chained logs, and the attestation a replay checks |
| `Text`, `Patch`, `PatchBatch` | staging file operations all or nothing, and composing them |
| `Canonical`, `CanonicalMeaning`, `CanonicalEqual` | canonical JSON of object graphs |
| `Evaluate` | requirement states derived from evidence, with the red-to-green rule and inherited flips |
| `Ownership`, `Intent` | workspace ownership and recovery under process death, and the shared intent record |
| `Sse`, `Harness` | the streamed-answer reader and the poll loop against the answer store |

Loops and objects of the source are methods and classes here, each proved against a function or a predicate; the
theorems are lemmas about those. Where processes interleave, the model is a state machine over atomic steps, and the
theorems hold for every sequence of steps from every state that satisfies the stated invariant.

The environment is a parameter everywhere: the outcome of an execution, a proposed amendment, the order in which tasks
settle, the chunks of a stream, the submissions of an agent, and the clock are arbitrary functions or arguments.
SHA-256 over canonical JSON is an injective constructor that never yields the genesis pointer. The opaque test
`isEligibleRed`, schema validation and `JSON.parse` are fields or function parameters.

## Where the code does not do what is written about it

Each point is a theorem below, with the exact condition where there is one.

- The pass that blocks hopeless tasks is a single sweep in plan order: a plan that lists dependents first can deadlock
  (`Causes.UnorderedPlanStalls`), exactly when every pending task is hopeless and the sweep cannot reach them all
  (`Causes.DeadlockMeansMissed`).
- A task that reads as ready after a resume, as the task an amendment redispatches does, is never launched, and the run
  can end as done with it (`RunState.ReadyFromLog`, `Transitions.ResumedAfterAmendmentIsReady`, `Scheduler.ResumeRun`).
- `topoSort` gives up on an acyclic list in which a repeated node is a target (`TopoSort.RepeatedTargetStalls`).
- `patternsOverlap` calls itself conservative and lets `d/**` and `d/*` run together (`Scope.DirectoryTestMisses`); which
  of its answers are right is decided by the patterns alone (`Scope.NoIsRightExactly`, `Scope.ScopesDisjoint`).
- A torn last line is tolerated by a load, but appending after it makes either log unloadable
  (`EvidenceLog.AddsNeedCleanTail`, `EventLog.ReloadRoundTrip`). An evidence store that missed records takes over the last
  one alone, so the numbers of later records can repeat (`EvidenceLog.NumberContinues`, `EvidenceLog.NumbersCanRepeat`).
- A patch after a delete of its path edits the removed content (`Patch.StagedMeansEach`), and a replacement is not
  literal when it holds `$$`, `$&`, `` $` `` or `$'` (`Patch.SubstituteIsExact`). The batch composer accepts an empty
  anchor, with which staging does not return (`Patch.NeverReturnsMeans`).
- A log without a chain commits an attestation to its last event alone (`Attestation.LegacyCommitsToTheLast`).
- Canonical JSON drops a property named `__proto__` (`CanonicalEqual.ProtoIsDropped`).
- An owner that dies before its intent names its run is recovered against the wrong log
  (`Ownership.RecoveryEndsNamedRuns`), finalization has a window with neither block nor terminal event
  (`Ownership.FinalizeWindow`), a refused resume of a finished run leaves the workspace blocked (`Ownership.ResumeRuns`), a
  cancellation can end a run twice (`Ownership.CancellationEndsOnceExactly`), naming the
  run can undo a cancellation or be undone itself (`Intent.NamingKeepsTheRecord`, `Intent.NameStaysUnlessRead`), and a
  cleared intent can come back (`Intent.AbsenceStaysUnlessRead`, `Ownership.RepublishedIntentBlocks`).
- `requeueWithFeedback` leaves the invalid answer on file, so each further poll spends a refresh of the window
  (`Harness.EveryPollSpendsARefresh`) and a retirement goes unnoticed (`Harness.RetirementIsNoticed`).

## Model

| member | source | states |
|---|---|---|
| RunState.ComputeProjection | packages/runtime/src/state.ts:224-228 | The projection loop computes the fold of every event, in order, from the plan's initial state. |
| RunState.FoldAppend | packages/runtime/src/state.ts:224-228 | Projecting a longer log is projecting its first part and going on from there. |
| RunState.ProjectionIgnoresPlan | packages/runtime/src/state.ts:37-60 | Whatever plan file a replay reads, the projected status and attempt of every task are the same: they come from the log alone. |
| RunState.ApplyEventView | packages/runtime/src/state.ts:63-222 | One event moves the status and attempt of a task the same way in any two states that agree on statuses and attempts. |
| RunState.ReadyFromLog | packages/runtime/src/state.ts:67-222 | A task reads as ready if and only if the last event that moved it is its TASK_READY: which logs leave a task that no round will ever launch. |
| RunState.StatusFromLog | packages/runtime/src/state.ts:67-222 | A planned task has the status the last event that sets one gave it, pending when none does; an amendment that removes it afterwards skips it unless it was completed. |
| RunState.FieldsFromLog | packages/runtime/src/state.ts:67-222 | Its attempt, failure and revision are each those of the last event of the log that sets them: a failure is gone once the task completes, asks for a replan or is added anew, a commit once it is launched again, fails or blocks. |
| RunState.CountsFromLog | packages/runtime/src/state.ts:67-222 | A projection counts exactly the replan requests and the recorded uses of a model in its log. |
| Transitions.EventsOfView | packages/runtime/src/apply.ts:796-827 | What the events of one transition do to the projected status and attempt of each task, including the transitions that log nothing. |
| Transitions.TransitSimulates | packages/runtime/src/apply.ts:787-829 | After a transition the log agrees with the live state on its task, if it agreed before where the transition logs nothing about status or attempt. |
| Transitions.TransitKeepsSimulation | packages/runtime/src/apply.ts:787-829 | One transition keeps the agreement between log and live state on every task of the plan. |
| Transitions.NotedKeepsSimulation | packages/runtime/src/state.ts:67-222 | Events that are not lifecycle events leave the agreement alone. |
| Transitions.CommitAgrees | packages/runtime/src/apply.ts:1644 | Recording a task's commit moves neither status nor attempt, live or projected. |
| Transitions.RetiredAgreesElsewhere | packages/runtime/src/apply.ts:1476-1477 | A retired request's own TASK_BLOCKED event leaves every other task's agreement alone. |
| Transitions.RequestedKeepsSimulation | packages/runtime/src/apply.ts:831-835 | Asking for a replan leaves the agreement alone. |
| Transitions.AmendedKeepsSimulation | packages/runtime/src/apply.ts:897-929 | After an amendment the log agrees with the live state on every task of the new plan: added, kept or redispatched. |
| Transitions.StartedIsSimulated | packages/runtime/src/state.ts:37-60 | A fresh run's log agrees with its initial state, whatever side events come before the first transition. |
| Transitions.ResumedIsSimulated | packages/runtime/src/apply.ts:658-661 | A state rebuilt from any log agrees with that log. |
| Transitions.ResumeRebuilds | packages/runtime/src/apply.ts:658-661 | A resume finds every recorded status (running, completed, failed, blocked, needs_replan) as it was live, completed exactly where it was completed, and every attempt count as it was. |
| Transitions.CompletedSurvives | packages/runtime/src/apply.ts:658-661 | Whatever plan file a resume finds and whatever else was logged, a completed task that none of the later events moves is completed still. |
| Transitions.ResumedAfterAmendmentIsReady | packages/runtime/src/apply.ts:909-918 | The pending task an amendment redispatches reads as ready from the log: resumed before its next launch, it is not pending. |
| Rounds.RecoveredFacts | packages/executor/src/scheduler.ts:41-47 | Recovery turns exactly the running tasks into pending ones, keeps their attempts, failures and revisions, logs nothing, and keeps the agreement with the log. |
| Rounds.SweptFacts | packages/executor/src/scheduler.ts:49-61 | The sweep changes nothing but the status of pending tasks, and that to blocked. |
| Rounds.SweptSimulates | packages/executor/src/scheduler.ts:49-61 | The sweep keeps the agreement with the log. |
| Rounds.SweepVerdict | packages/executor/src/scheduler.ts:49-61 | In a plan that lists dependencies first, the single sweep decides each task for good: one it leaves pending has no blocking dependency afterwards. |
| Rounds.SweepLeavesReadyWork | packages/executor/src/scheduler.ts:49-74 | In such a plan, with no task running or ready before, if work is pending after the sweep then some of it is ready: the round cannot deadlock. |
| Rounds.RoundStates | packages/executor/src/scheduler.ts:80-161 | A round raises the attempt of the launched task by one, gives it the verdict's status, and touches no other task. |
| Rounds.RoundSimulates | packages/executor/src/scheduler.ts:80-161 | Both worlds of a round, after the launch and after the verdict, agree with their logs. |
| Rounds.VerdictEnds | packages/executor/src/scheduler.ts:97-150 | What an attempt leaves, by its own fields: blocked exactly for a blocked or retired outcome, completed exactly for a completed one, waiting exactly for a replan, pending exactly for a failure with retries left and failed otherwise; with its failure, revision and log events. |
| Rounds.RoundEnds | packages/executor/src/scheduler.ts:80-161 | The same for a whole round, whose log gains the two launch events and then those of the outcome. |
| Causes.HinderedMeans | packages/executor/src/scheduler.ts:52-56 | A task is held up exactly by a dependency of the plan that failed, is blocked, was cancelled or waits for a replan, and can be launched exactly when every dependency is one that completed or was skipped. |
| Causes.SweptExplains | packages/executor/src/scheduler.ts:49-61 | Every task the sweep newly blocks has a direct or transitive dependency that was failed, cancelled, blocked or waiting for a replan before the sweep. |
| Causes.SweptLog | packages/executor/src/scheduler.ts:49-61 | With unique ids the sweep logs one TASK_BLOCKED for each task it blocks, in plan order, with its attempt and the failure on record (or the default one), and nothing else. |
| Causes.SweepIsExplained | packages/executor/src/scheduler.ts:49-61 | One transition of the sweep keeps a reason for every blocked task of the run: its own outcome in a launch of the run, or a dependency seen stopped or blocked for a reason. |
| Causes.RoundIsExplained | packages/executor/src/scheduler.ts:80-143 | So does a launch and its verdict: a task an attempt blocks is a recorded launch whose execution came back blocked. |
| Causes.AmendmentIsExplained | packages/runtime/src/apply.ts:897-929 | So does an amendment, whose new plan may drop the dependency a block came from: the reason names the plan then in force. |
| Causes.ResumeIsExplained | packages/runtime/src/apply.ts:658-661 | So does a resume from the log the run left. |
| Causes.BlocksAreRooted | packages/executor/src/scheduler.ts:49-61 | While the plan stands, every blocked task of a run was blocked at its start or by its own outcome, or has a transitive dependency that was, or that failed, was cancelled or asked for a replan. |
| Causes.AttemptUsesWork | packages/executor/src/scheduler.ts:97-143 | An attempt that does not ask for a replan leaves its task strictly less to do, for every outcome and retry limit. |
| Causes.RoundUsesWork | packages/executor/src/scheduler.ts:97-143 | So a round without a replan leaves the whole plan strictly less to do. |
| Causes.StartedIsBudgeted | packages/executor/src/scheduler.ts:80-90 | A fresh run starts within its attempt budget. |
| Causes.ResumedIsBudgeted | packages/runtime/src/apply.ts:658-661 | A resume costs at most one attempt: the rebuilt state stays within a budget one larger. |
| Causes.AmendedIsBudgeted | packages/runtime/src/apply.ts:897-929 | An amendment raises the attempt budget by one and no more. |
| Causes.AmendedLog | packages/runtime/src/apply.ts:897-929 | An amendment logs one TASK_READY for each kept task that waited for a replan, in the order of the new plan, and then exactly the ids that left the plan and those that came. |
| Causes.RoundIsBudgeted | packages/executor/src/scheduler.ts:80-134 | A launch, its retry and its failure stay within maxTaskRetries + 1 attempts plus the amendments applied. |
| Causes.AmendedKeepsCompleted | packages/runtime/src/apply.ts:840-842 | An amendment that keeps the executed tasks leaves every completed task completed. |
| Causes.ResumeKeepsCompleted | packages/runtime/src/apply.ts:658-661 | Whatever a crash leaves, plan file rewritten or not and more events or not, as long as none moves completed work: the resumed run has every completed task completed. |
| Causes.RoundIsHealthy | packages/executor/src/scheduler.ts:80-161 | Both worlds of a round agree with their logs and stay within the attempt budget. |
| Causes.AmendedIsHealthy | packages/runtime/src/apply.ts:897-929 | An amended world agrees with its log and stays within the attempt budget. |
| Causes.PreparationCalms | packages/executor/src/scheduler.ts:41-74 | Recovery and sweep together leave nothing running, add no work, and (dependencies first) leave a ready task if any is pending. |
| Causes.SweepReaches | packages/executor/src/scheduler.ts:49-61 | The sweep blocks a pending task if and only if a path leads from it to one that depends on a blocking task, each task of the path pending and earlier in the list than the one before. |
| Causes.DeadlockMeansMissed | packages/executor/src/scheduler.ts:41-74 | For an acyclic plan, told from the world a round starts from with none ready: the round finds pending work and none to launch if and only if every pending task is behind one that blocks and some pending task is out of the sweep's reach. |
| Causes.UnorderedPlanStalls | packages/executor/src/scheduler.ts:49-74 | It happens: in a fresh run whose plan lists dependents first, after the one launchable task fails, the next round leaves a task pending and has none to launch. |
| Scheduler.Driver.Start | packages/runtime/src/state.ts:37-60 | A fresh run satisfies the run invariant with nothing to explain. |
| Scheduler.Driver.Resume | packages/runtime/src/apply.ts:658-661 | A run resumed from any plan file and any log satisfies the run invariant, given the history that explains the blocks its log shows. |
| Scheduler.Driver.Transition | packages/runtime/src/apply.ts:787-829 | Merges the recorded failure and the committed revision into the next state and logs exactly the events of its status. |
| Scheduler.Driver.RecoverInterrupted | packages/executor/src/scheduler.ts:41-47 | The recovery loop, over all tasks in plan order, keeps the invariant after each of its transitions. |
| Scheduler.Driver.SweepBlocked | packages/executor/src/scheduler.ts:49-61 | The sweep loop, in one pass of the plan, keeps the invariant after each of its transitions. |
| Scheduler.Driver.RunTask | packages/executor/src/scheduler.ts:80-161 | Launches only the first task in plan order that is pending with its dependencies completed or skipped, leaves it as the execution's own fields say (blocked for a blocked outcome, pending for a failure with retries left, and so on), logs exactly those events, and every transition of its round satisfies the invariant. |
| Scheduler.Driver.Settle | packages/executor/src/scheduler.ts:97-150 | One transition, to the verdict whose meaning Rounds.VerdictEnds states. |
| Scheduler.Driver.OnNeedsReplan | packages/runtime/src/apply.ts:831-932 | Amends exactly when a plan that keeps every completed and running task is proposed and the budget is not spent; says what each task then has, what is logged when it amends, and what when it refuses. |
| Scheduler.Driver.Round | packages/executor/src/scheduler.ts:34-164 | One round either continues with strictly less work or one more replan, or stops with the outcome its guards describe; after an observed cancellation it launches nothing. |
| Scheduler.Driver.RunScheduler | packages/executor/src/scheduler.ts:30-181 | For every sequence of outcomes and replans the run terminates; after every transition log and state agree, attempts are within budget and every blocked task has a reason in the run's history; the launches are those of the outcomes, each of the first task ready in plan order, none of a task completed at the start, none after a withdrawn request, and without an amendment a task is launched again only after its launches failed; the failed tasks are exactly those whose last retry failed; a deadlock leaves pending work and none to launch, and needs a plan that lists a dependent first or a task ready at the start; done without cancellation means every task has ended, if and only if none reads ready. |
| Scheduler.FreshRun | packages/executor/src/scheduler.ts:30-181 | Of a fresh run: done without cancellation means every task completed, failed, blocked, skipped or cancelled; until a first amendment, each blocked task is rooted in an own blocked outcome or a dependency that failed, was cancelled or asked for a replan, and a task is launched again only after its earlier launches failed; a withdrawn request is the last launch. |
| Scheduler.ResumeRun | packages/runtime/src/apply.ts:658-661 | A resume never launches a task that was completed when the earlier process died, and ends with all of them completed; done without cancellation or amendment, every task has ended if and only if the log did not leave one ready. |
| Graph.FindCycle | packages/core/src/graph.ts:6-41 | Null exactly when no cycle can be reached from the listed nodes, also through unlisted ones; otherwise a genuine cycle reachable from one of them. |
| Graph.CycleFinder.Visit | packages/core/src/graph.ts:15-32 | A visit finishes its node and everything below, or returns a genuine cycle that the bottom of the stack leads to. |
| Graph.GrayClosesCycle | packages/core/src/graph.ts:16-20 | Meeting a gray node closes a cycle: the stack from that node on, and the node again. |
| Graph.NoCycleFromFinished | packages/core/src/graph.ts:21-31 | From a finished node no cycle can be reached. |
| Graph.ReachableFrom | packages/core/src/graph.ts:44-54 | Exactly the nodes one or more edges away; the start itself only when it lies on a cycle. |
| TopoSort.Sort | packages/core/src/graph.ts:57-78 | For any list, with copies: an order exactly when no cycle is reachable and no repeated node is a target; then a permutation of the list in which every in-list edge goes forward. |
| TopoSort.DistinctHasNoRepeatedTarget | packages/core/src/graph.ts:57-78 | So for a list without repetitions it fails exactly when findCycle finds a cycle. |
| TopoSort.RepeatedTargetStalls | packages/core/src/graph.ts:57-78 | The condition is needed: an acyclic list with a repeated target gets null. |
| TopoSort.NothingWaits | packages/core/src/graph.ts:66-76 | When the queue runs dry, no node that can finish still has a positive count. |
| TopoSort.CompleteOrder | packages/core/src/graph.ts:77 | The emitted list is complete exactly when no node is both repeated and a target. |
| TopoSort.NextIsForward | packages/core/src/graph.ts:66-76 | Emitting a queued node keeps every edge of the emitted list pointing forward. |
| TopoSort.InDegreeOfPart | packages/core/src/graph.ts:59-76 | The counts are right for any part of the list that remains: removing emitted nodes removes exactly their edges. |
| RegExp.TermsRoundTrip | packages/core/src/glob.ts:13-25 | The text of any terms is read back as those terms: escaping leaves nothing in a literal that could be taken for syntax. |
| RegExp.CompileText | packages/core/src/glob.ts:79-91 | The anchored text the compiler writes denotes exactly the intended expression. |
| Glob.Normalize | packages/core/src/glob.ts:27-32 | The two trimming loops compute the normal form. |
| Glob.NormalFormMeans | packages/core/src/glob.ts:27-32 | A text is the normal form of a path exactly when the path, with slashes for backslashes, is some copies of "./", that text, and some slashes, where no further "./" starts what follows the copies. |
| Glob.LeadingDotIsDropped | packages/core/src/glob.ts:29 | "./" in front of any path leaves its normal form as it was. |
| Glob.TrailingSlashIsDropped | packages/core/src/glob.ts:30 | So does a slash behind it, unless nothing or a lone dot is left of the path. |
| Glob.SegmentToRegex | packages/core/src/glob.ts:17-25 | The loop over a segment's characters writes the text of that segment's terms. |
| Glob.GlobToRegExp | packages/core/src/glob.ts:76-92 | The loop over segments writes the text of the whole pattern's terms. |
| Glob.SegmentTermsMatch | packages/core/src/glob.ts:17-25 | A segment's terms take exactly the slash-free pieces the segment accepts: `*` and `?` stay inside a segment. |
| Glob.SegmentsRound | packages/core/src/glob.ts:84 | One round of the inner `**` takes the first segment, when it is not empty and not the last. |
| Glob.PatternTermsMatch | packages/core/src/glob.ts:80-89 | The terms accept exactly the strings whose segments the segment-wise matcher accepts. |
| Glob.GlobMeansSegments | packages/core/src/glob.ts:94-96 | For every pattern and path: globMatch accepts exactly what the segment-wise matcher accepts on the normalised texts. |
| Glob.SpellingIsNoMatter | packages/core/src/glob.ts:94-96 | A pattern matches a path however either is spelled: with backslashes, a leading dot and slash, or a trailing slash. |
| Glob.SafeStaysInside | packages/core/src/glob.ts:34-40 | Followed as it is written, a safe path leads below the root, to exactly the segments of its normal form, and never above it on the way. |
| Glob.SplitJoin | packages/core/src/glob.ts:78 | Splitting a joined list of slash-free segments gives the list back. |
| Meeting.CommonTextMeets | packages/core/src/glob.ts:17-25 | Two segment patterns that accept a common text allowed by a rule meet under it, by their characters alone. |
| Meeting.MeetingText | packages/core/src/glob.ts:17-25 | And two that meet accept a common allowed text, without a slash, backslash or line terminator of its own, and not empty unless one of them is. |
| Meeting.CommonSegmentsMeet | packages/core/src/glob.ts:76-92 | Two whole patterns that accept a common list of allowed segments meet. |
| Meeting.MeetingSegments | packages/core/src/glob.ts:76-92 | And two that meet accept a common list of allowed segments, which ends in an empty one only if a pattern does. |
| Meeting.TestsMeet | packages/core/src/glob.ts:76-96 | For all patterns: the two regular expressions accept a common string if and only if the patterns meet, which their characters alone decide. |
| Meeting.PathsMeet | packages/core/src/glob.ts:94-96 | For all patterns: some path is accepted by both if and only if they meet on paths in normal form, which do not start with a single dot and a slash. |
| Meeting.SafePathsMeet | packages/core/src/glob.ts:34-44 | For all patterns: some path that is safe to write is accepted by both if and only if they meet safely, that is, on named segments and not on a drive. |
| Scope.ComputeLiteralPrefix | packages/core/src/glob.ts:103-111 | The loop computes the join of the segments before the first wildcard. |
| Scope.DecidedMeans | packages/core/src/glob.ts:103-111 | What a pattern of the three decided shapes accepts, by its literal base alone. |
| Scope.NoIsRightExactly | packages/core/src/glob.ts:113-123 | The conservativeness promised, exactly: for all patterns, a "no" of the overlap test means that no path is accepted by both if and only if the two do not meet. |
| Scope.SeparableIsRight | packages/core/src/glob.ts:117-123 | Where one of two patterns is a literal path, or both are decided, the test is right, whatever it says, on all paths and on safe ones. |
| Scope.NoCommonPath | packages/core/src/glob.ts:117-123 | The same for a given path, from the shapes of the two patterns and the test's own regular expressions. |
| Scope.DirectoryTestMisses | packages/core/src/glob.ts:117-123 | Against the promise: d/** and d/ followed by one wildcard segment are said not to overlap; the test is wrong about them unless that segment holds a line terminator, and every path the second accepts, line terminators aside, the first accepts too. |
| Scope.OverlapTestCanMiss | packages/core/src/glob.ts:117-123 | Nor with single-segment wildcards alone: d/*/n and d/m/* meet and are said not to overlap. |
| Scope.EnforceWriteScope | packages/executor/src/enforce.ts:42-65 | No violation exactly when every changed path is safe and in scope; each offending path gets its own code. |
| Scope.SpellingKeepsScope | packages/executor/src/enforce.ts:42-65 | A changed path is in scope, or protected, alike in its spellings. |
| Scope.EnforceProtectedPaths | packages/executor/src/enforce.ts:19-36 | Exactly the changed paths that a protected pattern matches are violations. |
| Scope.ScopesShare | packages/executor/src/enforce.ts:42-65 | Some changed path is accepted by both of two write scopes if and only if a pattern of one meets a pattern of the other safely. |
| Scope.ScopesDisjoint | packages/executor/src/enforce.ts:42-65 | Two write scopes said not to overlap share no changed path if and only if, of each pair of their patterns, the "no" is right on safe paths. |
| Parallel.Driver.Housekeep | packages/runtime/src/apply.ts:1942-1953 | The two opening loops reset running tasks and block only tasks with a dependency that failed, is blocked, was cancelled or waits for a replan, even while tasks are in flight, and change nothing else of any task; afterwards nothing is marked running, and if the plan lists dependencies first no pending task has such a dependency. |
| Parallel.Driver.LaunchRound | packages/runtime/src/apply.ts:1966-1976 | Of the ready tasks, in plan order until the limit is reached, exactly those are launched whose targets overlap no task in flight and none launched before them; they are running, one attempt on, and nothing else changes. |
| Parallel.Driver.Settle | packages/runtime/src/apply.ts:1885-1935 | A settling task leaves, with status, attempt, failure, revision and events as the execution's own fields say: blocked exactly for a blocked or retired outcome, pending exactly for a failure with retries left; no other task changes, and a withdrawn request is observed as a cancellation. |
| Parallel.SettleUndisturbed | packages/runtime/src/apply.ts:1885-1935 | Settling one task leaves the dependencies of every other task in flight released. |
| Parallel.LaunchUndisturbed | packages/runtime/src/apply.ts:1966-1976 | A launch changes no other task, and no task in flight waits for the one launched. |
| Parallel.Driver.RunIsSafe | packages/runtime/src/apply.ts:1967-1976 | In every configuration of the run at most maxParallel tasks are in flight, and no changed path is in the write scope of two of them if and only if the overlap test is right, on safe paths, about their targets. |
| Parallel.Driver.Run | packages/runtime/src/apply.ts:1938-1990 | For every order in which tasks settle and every outcome: the driver terminates with nothing in flight, every configuration it went through is safe; each launch was of a pending task with its dependencies completed or skipped and none came after an observed cancellation; done without one, nothing is left pending or running; a deadlock leaves pending tasks, each behind a dependency that neither completed nor was skipped, and cannot happen for a plan that lists dependencies first with no task ready at the start. |
| LogFile.BrokenLineFails | packages/runtime/src/stores.ts:48-60 | Fail-closed: any line that is no record, before the last newline, fails the load of either log. |
| LogFile.ErrorStays | packages/runtime/src/events.ts:33-84 | The first error ends the reading, whatever follows it. |
| LogFile.ReadThrough | packages/runtime/src/stores.ts:40-102 | The reading loop of both logs stops at the first error, with what was read so far, and treats the unterminated last line as torn. |
| EvidenceLog.EvidenceStore.LoadFile | packages/runtime/src/stores.ts:40-102 | The load loop stops at the first error and otherwise holds every record, under the torn-tail and chain rules. |
| EvidenceLog.LoadMeans | packages/runtime/src/stores.ts:40-102 | The log loads if and only if no newline-terminated line is broken and its records, an unterminated last one included, carry their own digests and are chained from genesis or unchained throughout; and it then reads exactly these records. |
| EvidenceLog.FaultMeans | packages/runtime/src/stores.ts:47-98 | The first line that does not go on decides the error: corrupt, digest mismatch, no genesis pointer, chain break or mixed chain; nothing after it is read. |
| EvidenceLog.EvidenceStore.Add | packages/runtime/src/stores.ts:111-134 | Adopts the file's last record, seals the new one to it, and appends it. |
| EvidenceLog.AddMeans | packages/runtime/src/stores.ts:111-163 | What an add stores and what its instance then holds: an end of the file it has not seen is taken over and its number continued, otherwise the drafted id stands. |
| EvidenceLog.NumberContinues | packages/runtime/src/stores.ts:140-163 | Where each caller drafts the number after those it holds, the stored id continues a numbered log if and only if the instance has not seen the end of the file or holds all of it. |
| EvidenceLog.NumbersCanRepeat | packages/runtime/src/stores.ts:161-162 | Against the comment that the file's sequence is continued: two instances, two adds each, and the last two records carry the same id. |
| EvidenceLog.AdoptedCatchesUp | packages/runtime/src/stores.ts:140-163 | On a clean file, whatever an instance has missed, adopting the tail puts its head and chain kind where the file ends. |
| EvidenceLog.AddKeepsChain | packages/runtime/src/stores.ts:111-134 | One atomic add to a clean loadable file leaves a loadable file: the old records, then the new one, and the same chain kind. |
| EvidenceLog.InterleavingsLoad | packages/runtime/src/stores.ts:111-163 | Any interleaving of adds by any number of instances, new or loaded at any earlier time, leaves a file that loads and holds the old records and then each added one, in one kind of chain. |
| EvidenceLog.LoadedFollows | packages/runtime/src/stores.ts:40-102 | An instance that loaded the file, and a new one, are such instances. |
| EvidenceLog.AddsNeedCleanTail | packages/runtime/src/stores.ts:43-56 | From any loadable file, the file loads after one or more adds if and only if it ended in a newline before them. |
| EvidenceLog.TornTailPoisons | packages/runtime/src/stores.ts:43-56 | An append torn by a crash is tolerated by a load, and then one add makes the log unloadable. |
| EvidenceLog.LoadedIsSealed | packages/runtime/src/stores.ts:61-98 | What loads is sealed: every record by its own digest, every chained record to the one before. |
| EvidenceLog.SameHeadSameRecords | packages/runtime/src/stores.ts:68-98 | Two chained evidence logs that end in the same digest hold the same records. |
| EventLog.EventStore.LoadFile | packages/runtime/src/events.ts:30-85 | The load loop stops at the first error and otherwise holds every event. |
| EventLog.LoadMeans | packages/runtime/src/events.ts:30-84 | The log loads if and only if no newline-terminated line is broken and its events, an unterminated last one included, are chained from genesis or unchained throughout; and it then reads exactly these events. |
| EventLog.FaultMeans | packages/runtime/src/events.ts:40-82 | The first line that does not go on decides the error: corrupt, no genesis pointer, chain break or mixed chain; nothing after it is read. |
| EventLog.EventStore.Append | packages/runtime/src/events.ts:97-116 | Appends the drafted event, numbered and chained after the last one held, whatever the file holds. |
| EventLog.ReloadRoundTrip | packages/runtime/src/events.ts:30-116 | After appends by a process that loaded the log, a later process reads exactly what the first one held, if and only if the log ended in a newline when it was loaded. |
| EventLog.FreshLogReloads | packages/runtime/src/events.ts:97-116 | A new run's log reloads to the events its process held, chained. |
| EventLog.LoadedIsChained | packages/runtime/src/events.ts:57-83 | What loads is chained throughout or unchained throughout. |
| EventLog.SameHeadSameEvents | packages/runtime/src/events.ts:57-83 | Two chained logs with the same head digest are identical, event by event. |
| Attestation.AttestRun | packages/runtime/src/attestation.ts:48-117 | Commits to the event count, the chain head and the evidence head, and then appends RUN_ATTESTED, outside what it covers. |
| Attestation.CheckAttestation | packages/runtime/src/replay.ts:91-123 | The verdict is broken exactly when the log no longer holds the commitment, verified when only RUN_ATTESTED follows it, extended otherwise. |
| Attestation.BrokenMeansRewritten | packages/runtime/src/replay.ts:91-123 | Between chained logs, broken means exactly that the first N events or the evidence ids and digests are not those committed to. |
| Attestation.IntactMeansSameRun | packages/runtime/src/replay.ts:72-123 | The same for any log file that loads, whatever it holds. |
| Attestation.IntactMeansSameEvidence | packages/runtime/src/replay.ts:72-123 | When both evidence files load too, a replay is not broken exactly when the attested events come first and the evidence is the attested evidence, record by record. |
| Attestation.SameHeadsSameEvidence | packages/runtime/src/attestation.ts:44-46 | Equal evidence heads over sealed records mean equal evidence. |
| Attestation.ExtensionIsNotRewriting | packages/runtime/src/replay.ts:108-119 | Whatever is appended after the commitment, it holds; events other than RUN_ATTESTED are reported as an extension. |
| Attestation.LegacyCommitsToTheLast | packages/runtime/src/replay.ts:91-123 | Without the chain the commitment covers the last event alone: any unchained log loads, and is judged intact if and only if its N-th event and the evidence ids and digests are the attested ones. |
| Attestation.LegacyPrefixCanChange | packages/runtime/src/replay.ts:91-123 | So in a legacy log of any length every attested event but the last can be replaced by any unchained one, and the log still loads and verifies. |
| Patch.CountOccurrences | packages/executor/src/patch.ts:26-36 | Counts every occurrence, overlapping ones included, and has no result exactly for an empty needle. |
| Patch.EmptyNeedleIsAlwaysFound | packages/executor/src/patch.ts:26-36 | With an empty anchor the search never fails, wherever it starts, so the counting loop never leaves. |
| Patch.StageChanges | packages/executor/src/patch.ts:51-120 | The staging loop computes the overlay, its labels and its deletions, or the first refusal. |
| Patch.PatchMeans | packages/executor/src/patch.ts:71-110 | After any staged operations a patch is refused or staged by what its path then holds: missing base, other digest, no position of the anchor, or two of them; exactly one, and the content around it stays while the anchor gives way to the replacement. |
| Patch.RefusalStays | packages/executor/src/patch.ts:65-110 | All or nothing: a refusal anywhere refuses the whole set, and with that reason. |
| Patch.NeverReturnsMeans | packages/executor/src/patch.ts:51-120 | Staging fails to return if and only if, with everything before it staged, it reaches a patch with an empty anchor that declares the digest it finds. |
| Patch.LastTouchDecides | packages/executor/src/patch.ts:56-120 | Each path is written, removed or left alone as its last operation says, with that operation's label and content. |
| Patch.WritesAndDeletesDisjoint | packages/executor/src/patch.ts:56-120 | No path is both written and removed, and every write has a label. |
| Patch.Worktree.Apply | packages/executor/src/execute.ts:354-364 | Writing and removing path by path gives the tree with the staged writes and without the staged deletions, in any order. |
| Patch.StagingRunsEach | packages/executor/src/patch.ts:51-120 | Unless a patch follows a removal of its path, staging refuses exactly when running the operations one by one does, for the same reason, and applied gives the same tree. |
| Patch.StagedMeansEach | packages/executor/src/patch.ts:51-120 | A set that stages does what its operations do one by one if and only if no patch follows a removal of its path. |
| Patch.PatchAfterDeleteStages | packages/executor/src/patch.ts:71-75 | The condition is needed: a delete and then a patch of the same path stages, and the removed content comes back edited. |
| Patch.StagingComposes | packages/executor/src/patch.ts:51-120 | Staging xs then ys at once is staging xs, applying it, and staging ys on the result: same refusal or same tree. |
| Patch.SubstituteIsExact | packages/executor/src/patch.ts:110 | The anchor gives way to exactly the replacement, for every base and anchor, if and only if the replacement holds no dollar sequence that String.replace interprets. |
| Patch.ExpandedMeans | packages/executor/src/patch.ts:110 | A replacement cut into plain text and interpreted dollar pairs expands piece by piece: a dollar, the match, what is before it, or what is after it. |
| PatchBatch.BuildBatch | packages/cli/src/commands/patch.ts:190-267 | The composer succeeds exactly when some array of operations says what the entries say and stages, and then it returns the only such array; for a batch with any entries, empty anchors included. |
| PatchBatch.OnlyOneChain | packages/cli/src/commands/patch.ts:240-258 | The digests are forced: two staged arrays that say what the same entries say are equal. |
| PatchBatch.NoOtherPatch | packages/cli/src/commands/patch.ts:240-258 | Where the composer refuses a patch, every array that says what the entries say is refused. |
| Canonical.CanonicalContext.TransformInner | packages/core/src/canonical.ts:38-98 | The recursive visit with its mutable set and path terminates on every finite object graph, restores both, and gives the specified value or the first failure with its path. |
| Canonical.CanonicalContext.VisitKids | packages/core/src/canonical.ts:68-73 | The item loop and the key loop stop at the first failing child. |
| Canonical.Sorted | packages/core/src/canonical.ts:88-90 | The key order is ascending and loses no key. |
| Canonical.LessMeans | packages/core/src/canonical.ts:90 | One name is before another exactly when it is a proper prefix or has the smaller character at the first difference. |
| CanonicalMeaning.LeavesMean | packages/core/src/canonical.ts:38-63 | Null, strings, booleans and finite numbers are their own canonical values wherever they stand; NaN, the infinities and every leaf JSON lacks fail there, each for its own reason. |
| CanonicalMeaning.AcceptedGraphs | packages/core/src/canonical.ts:38-102 | A graph has a canonical value if and only if everything reachable is a plain object, an array or a JSON leaf, and no cycle is reachable; shared parts are accepted. |
| CanonicalMeaning.CycleIsReal | packages/core/src/canonical.ts:65-86 | "cycle detected" comes with a walk that meets an object twice. |
| CanonicalMeaning.CyclesAreReported | packages/core/src/canonical.ts:65-86 | A cycle failure means a reachable cycle, and over JSON-like parts a reachable cycle always is that failure and the only one. |
| CanonicalMeaning.FailureTells | packages/core/src/canonical.ts:16-98 | The path a failure names leads to what it says: the leaf, the unsupported object, the array with an undefined item, or an object the path has passed before. |
| CanonicalEqual.ObjectShape | packages/core/src/canonical.ts:82-95 | An object becomes its defined properties except `__proto__`, ascending by name, each canonicalized. |
| CanonicalEqual.ArrayShape | packages/core/src/canonical.ts:64-78 | An array becomes the list of its items, canonicalized in order. |
| CanonicalEqual.SameCanonSameUnfolding | packages/core/src/canonical.ts:100-102 | Two accepted graphs have the same canonical value if and only if their unfoldings agree at every depth, up to property order, undefined properties and `__proto__`. |
| CanonicalEqual.ProtoIsDropped | packages/core/src/canonical.ts:87-94 | An object whose one property is named `__proto__` has the canonical value of the empty object. |
| Evaluate.LatestByCriterion | packages/verifier/src/evaluate.ts:31-39 | The loop keeps, for each criterion, its newest record. |
| Evaluate.NewestIsNewest | packages/verifier/src/evaluate.ts:31-39 | Newest means: no record of the criterion is newer, and of equally new ones it was recorded last. |
| Evaluate.NewestRecordMeans | packages/verifier/src/evaluate.ts:31-76 | The record looked up for a criterion is the newest one of the right tree (result or base) that names the criterion and the property, the last recorded among equally new ones; and there is none exactly when the evidence holds none. |
| Evaluate.EvaluateProperty | packages/verifier/src/evaluate.ts:45-250 | The two loops and the branches after them give the state that StatusMeans, RedPhaseMeans, EvidenceIdsMean, WeakMeans and AboutMeans describe. |
| Evaluate.WaivedMeans | packages/verifier/src/evaluate.ts:54-67 | Waived exactly when some relevant human record waives, whatever else there is. |
| Evaluate.StatusMeans | packages/verifier/src/evaluate.ts:54-250 | The complete status, from the evidence list: waived, then unsatisfied, indeterminate, and in progress or unknown by the worst standing of a criterion, then satisfied unless agents alone vouch for it. |
| Evaluate.AboutMeans | packages/verifier/src/evaluate.ts:187-222 | A state that is not satisfied names the first criterion that stands as badly. |
| Evaluate.RedPhaseMeans | packages/verifier/src/evaluate.ts:177-185 | The red phase reported is the worst of the discriminating criteria: passed at the base, nothing demonstrated, or flipped; and none where it is not asked for. |
| Evaluate.EvidenceIdsMean | packages/verifier/src/evaluate.ts:54-115 | The ids cited are exactly those of the first waiver, or of the newest result records about the criteria. |
| Evaluate.WeakMeans | packages/verifier/src/evaluate.ts:224-250 | Evidence is called weak exactly when every criterion passes and no command, file check or suite is among them. |
| Evaluate.SatisfiedMeans | packages/verifier/src/evaluate.ts:69-250 | On the evidence list itself: satisfied exactly when not waived, the newest result record about every criterion supports it, every discriminating command, file or suite shows a red when that is required, and agents are not the only witnesses unless allowed. |
| Evaluate.UnsatisfiedMeans | packages/verifier/src/evaluate.ts:187-197 | On the evidence list itself: unsatisfied exactly when not waived and the newest result record about some criterion contradicts it; base records play no part. |
| Evaluate.DroppingRedPhaseKeeps | packages/verifier/src/evaluate.ts:69-176 | Without the red phase a satisfied property stays satisfied, on the same evidence ids. |
| Evaluate.SatisfiedReports | packages/verifier/src/evaluate.ts:177-250 | A satisfied state reports a clean flip exactly when one is required, and weak evidence exactly when no criterion is deterministic. |
| Evaluate.SatisfiedNames | packages/verifier/src/evaluate.ts:239-246 | A satisfied state names exactly the criteria whose flip an ancestor showed. |
| Evaluate.Ancestors | packages/runtime/src/apply.ts:1038-1045 | The parent chain is followed in order, without repetition, and ends even when the recorded parents form a cycle. |
| Evaluate.AdoptAncestorFlips | packages/runtime/src/apply.ts:575-590 | Adds exactly the criteria with both an eligible red and a green in the ancestor's records, and never overwrites a nearer ancestor. |
| Evaluate.CollectFlips | packages/runtime/src/apply.ts:1046-1056 | Exactly the criteria some ancestor shows, each credited to the nearest that does. |
| Evaluate.SatisfiedIsEarned | packages/verifier/src/evaluate.ts:114-172 | Under the red phase a satisfied discriminating criterion has a newest base record that contradicts it and is eligible, or an ancestor whose evidence holds both an eligible red and a green. |
| Evaluate.CompletionIsEarned | packages/verifier/src/evaluate.ts:253-263 | A run counts as complete exactly when every must property is waived or meets the satisfied condition. |
| Ownership.NextKeepsInv | packages/runtime/src/apply-ownership.ts:54-140 | Every atomic step of apply, resume, recovery, throw or death keeps the lock, the intent record and the logs consistent. |
| Ownership.RunKeepsInv | packages/runtime/src/apply-ownership.ts:54-140 | So does every run of any number of processes. |
| Ownership.AtMostOneOwner | packages/runtime/src/apply-ownership.ts:67-100 | In every interleaving, with deaths anywhere, at most one process is past the lock. |
| Ownership.InterruptionBlocks | packages/runtime/src/apply.ts:260-270 | An owner that dies or throws between writing its intent and clearing it leaves the workspace blocked. |
| Ownership.BlockedUntilCleared | packages/runtime/src/apply-ownership.ts:86-100 | Until a recovery clears the record, no apply or resume becomes owner, and the record stays. |
| Ownership.ClearedWhenTerminal | packages/runtime/src/recovery.ts:33-97 | A record goes only by its owner's finalization, or by a recovery once the log of the run it names holds exactly one RUN_COMPLETED. |
| Ownership.RecoveryInOrder | packages/runtime/src/recovery.ts:33-97 | In every run, wherever a recovery stands it has taken all steps before, in order and with success: intent read, workers stopped, log loaded, terminal event in place, the rest verified. |
| Ownership.ClearedAfterChecks | packages/runtime/src/recovery.ts:33-97 | So a record is cleared only by finalization, or by a recovery that has taken every one of its steps. |
| Ownership.NeverTwoTerminalEvents | packages/runtime/src/recovery.ts:151-192 | No log ever gets a second RUN_COMPLETED by apply, resume and recovery. |
| Ownership.CancellationEndsOnceExactly | packages/runtime/src/cancel.ts:188-212 | A cancellation appends its own RUN_COMPLETED without the lock: over every later run the log keeps to one if and only if it held none and no process was past its last look at that log with its own still to write. |
| Ownership.RecoveryClears | packages/runtime/src/recovery.ts:33-97 | With the lock free and the run's directory there, a recovery whose steps succeed clears the block, ends that run's log and touches no other. |
| Ownership.ApplyRuns | packages/runtime/src/apply.ts:222-270 | With the lock free a fresh apply goes through, to one terminal event and nothing left behind, if no intent record blocks it, and otherwise leaves all as it was; while it works the record names its run, if the name was written. |
| Ownership.ResumeRuns | packages/runtime/src/apply.ts:607-663 | A resume of an unfinished run goes through likewise; one of a finished run is refused after publishing its intent, and leaves the workspace blocked. |
| Ownership.FinalizeWindow | packages/runtime/src/apply.ts:2048-2094 | Of all the points where an owner can die or throw while on a run, exactly two leave it with neither a block nor a terminal event, no writer of the record acting in between: before it has announced anything, and between clearing its intent and writing the event. |
| Ownership.RepublishedIntentBlocks | packages/runtime/src/apply.ts:2048-2094 | When a writer that read the record before it was cleared publishes it again, a death in that window leaves a block after all, and a finished run blocks the workspace until a recovery clears it, without a second terminal event. |
| Ownership.RecoveryEndsNamedRuns | packages/runtime/src/apply.ts:260-270 | Wherever an owner dies or throws with its intent on record, a recovery is possible and clears the block, and the run's own log then holds its terminal event if and only if the intent had been given the run's name; otherwise a log of the runs directory gets it. |
| Intent.RecordOnlyGrows | packages/runtime/src/execution-intent.ts:113-154 | In every lock, read, write, unlock and death interleaving, with coordinators about to name their runs, the record is the old one with exactly the answered requests applied in order, each transition forward from the cause it met. |
| Intent.AskedAlone | packages/runtime/src/execution-intent.ts:113-154 | Without contention a registration is answered exactly when there is a record, a transition exactly when it moves the recorded cause forward; the record then changes in that one field, and else not at all. |
| Intent.RegisteredForGood | packages/runtime/src/execution-intent.ts:113-129 | A worker whose registration was answered is on record ever after. |
| Intent.AtMostTwoTransitions | packages/runtime/src/execution-intent.ts:135-154 | However many processes ask, at most two transitions are ever answered. |
| Intent.NamingKeepsTheRecord | packages/runtime/src/apply.ts:265-269 | Whatever arbitrated interleaving falls between a coordinator's read and its write of the run's name, the write publishes what was read: cause and workers survive it if and only if no request was answered in between. |
| Intent.NamingCanLoseACause | packages/runtime/src/apply.ts:265-269 | It happens: a cancellation that falls between is answered, and then lost. |
| Intent.NameStaysUnlessRead | packages/runtime/src/apply.ts:265-269 | The name itself stays on record through every arbitrated run if and only if, when it was written, nobody was between a read and a write of the record. |
| Intent.AbsenceStaysUnlessRead | packages/runtime/src/execution-intent.ts:212-226 | Finalization removes the record without the lock: it stays away through every arbitrated run if and only if nobody was between a read and a write when it was removed. |
| Sse.ReadStream | packages/llm-anthropic/src/anthropic.ts:356-470 | For every way of cutting a character stream into chunks and every ending, the loop gives what the whole stream gives; an answer has the texts, stop reason and counts that the messages before the stop say, as Sse.OkRepliesShow spells out. |
| Sse.EventsRebuildStream | packages/llm-anthropic/src/anthropic.ts:391-394 | The events and the rest are the stream, cut at its blank lines, and no event or rest holds one (the framing of section 9.2.6 of the WHATWG HTML standard, for `\n` line ends). |
| Sse.EventsGrow | packages/llm-anthropic/src/anthropic.ts:390-394 | More characters complete the unfinished event and leave the finished ones as they are. |
| Sse.ReadsToTheEnd | packages/llm-anthropic/src/anthropic.ts:412-454 | The answer is what the events before the first message_stop or failure leave behind. |
| Sse.HandledShows | packages/llm-anthropic/src/anthropic.ts:412-454 | One message more: what the answer shows of all messages so far goes on to hold. |
| Sse.ReadingShows | packages/llm-anthropic/src/anthropic.ts:412-454 | After any messages, each block's text is the concatenation of its text deltas since its last start as a text block, deltas of other blocks add nothing, the stop reason and output tokens are those of the last message_delta that has them, the input tokens those of the last message_start, and the cache counts those of the last message that has them. |
| Sse.OkRepliesShow | packages/llm-anthropic/src/anthropic.ts:412-470 | So an answered stream has exactly what its messages before the stop say, joined by ascending index, with some character that is not white space and a stop reason other than the token limit. |
| Sse.FinishedMeans | packages/llm-anthropic/src/anthropic.ts:455-469 | A complete message is empty exactly when its text is all white space, truncated exactly when it is not and the stop reason is the token limit. |
| Sse.EndMeans | packages/llm-anthropic/src/anthropic.ts:440-451 | An event ends the reading exactly when it is a message_stop, an error, or null data, each with its own outcome. |
| Sse.FailuresTell | packages/llm-anthropic/src/anthropic.ts:447-451 | A stream whose first end is a failure fails with that failure's own words. |
| Sse.LinesJoined | packages/llm-anthropic/src/anthropic.ts:395-399 | The lines of an event are the only way to cut it at its line feeds. |
| Sse.WireReads | packages/llm-anthropic/src/anthropic.ts:395-410 | An event written as one event line and one data line for each line of its data is read as a message of the type its data gives, else of its name, with the fields of its data. |
| Sse.NothingAfterStop | packages/llm-anthropic/src/anthropic.ts:440-446 | Whatever follows a message_stop or an error changes nothing. |
| Sse.OnlyStoppedStreamsAnswer | packages/llm-anthropic/src/anthropic.ts:377-386 | A stream answers only if it holds a message_stop before any failure; with neither it times out or is aborted, as it was cut off, whatever text it carried. |
| Sse.SortedSame | packages/llm-anthropic/src/anthropic.ts:455 | The text blocks are joined by ascending index, each once. |
| Harness.HarnessStore.Answer | packages/llm-harness/src/store.ts:302-330 | Each refusal exactly in its case: no pending request, a deadline that has come, an unread answer without an invited retry; otherwise the answer is on file. |
| Harness.AnswersMean | packages/llm-harness/src/store.ts:287-330 | Over any submissions and retirements of a sleep: an unread answer is never replaced unless a rejection invited a retry; without one on file the first submission in time is the answer, after a rejection the last in time; late ones and ones after a retirement change nothing. |
| Harness.HarnessStore.RequeueWithFeedback | packages/llm-harness/src/store.ts:337-355 | Marks the request rejected and moves its deadline only when asked; the answer file stays. |
| Harness.GenerateStructured | packages/llm-harness/src/harness.ts:95-188 | The poll loop with its window, refresh counter and store calls ends with the specified outcome and store. |
| Harness.EndsWithinTwoWindows | packages/llm-harness/src/harness.ts:142-182 | Whatever agents and cancellations do, the loop ends before two windows and six polls have passed: the refreshes fall on consecutive polls, from the first invalid answer on. |
| Harness.PollKeepsStamp | packages/llm-harness/src/store.ts:337-355 | The stamped deadline is the end of the provider's own window, so the store admits nothing the provider will not poll for. |
| Harness.AwaitDecides | packages/llm-harness/src/harness.ts:142-188 | In the end the request is out of the queue and every later submission is refused; an accepted answer is the one on file and valid, a retirement is reported without one, and a time-out not before the window is over. |
| Harness.NoAnswerOverlooked | packages/llm-harness/src/harness.ts:142-182 | Every admitted answer is examined or replaced by a later admitted one; an accepted answer is valid and was admitted; a valid one missed at a time-out had been replaced. |
| Harness.PollCharges | packages/llm-harness/src/harness.ts:157-180 | With an answer on file, whatever is submitted or retired meanwhile, a poll accepts or charges exactly one invalid answer, marks the request rejected and leaves an answer on file. |
| Harness.ChargedAgain | packages/llm-harness/src/store.ts:332-355 | The answer a poll charges is the one charged before exactly when the sleep admitted none, and otherwise the last one it admitted. |
| Harness.EveryPollSpendsARefresh | packages/llm-harness/src/store.ts:332-355 | Against its documentation: from the first invalid answer on, k polls spend k refreshes if and only if none of them accepts an answer, whoever submits what. |
| Harness.SpentStaysSpent | packages/llm-harness/src/harness.ts:172-180 | Once the refreshes are spent no poll moves the window again. |
| Harness.RetirementIsNoticed | packages/llm-harness/src/harness.ts:142-155 | Against its comment: a retired request ends the wait at the next poll if and only if no answer is on file; with a valid one it is accepted, with an invalid one the wait times out. |

## Left out

- Git, the file system, child processes, HTTP, timers and the kernel's file lock: files are maps or lists of lines, the
  lock is a field freed on death, commands are arbitrary effects.
- The text of messages, reasons and summaries; timestamps, except those the evaluator, the harness store and the
  poll loop compare.
- Scheduler.Driver.OnNeedsReplan: does not model how an amendment is generated and applied to a plan, only the test that
  executed tasks survive it; risk gating is one of the ways a proposal is not acceptable.
- Scheduler.Driver.Execute: does not model what an execution does to the work tree, nor the reservation of model calls;
  live and projected counts of replans and model calls are not compared, since the code counts them differently.
- Parallel.Driver.Run: does not model replanning, which in the source waits for an in-flight set that still contains the
  waiting task.
- EvidenceLog.NumberContinues: ids are numbers here; their zero padding is not modelled.
- EventLog.EventStore.Append: one writer at a time is taken from workspace ownership; events do not adopt the file's tail.
- LogFile.Appended: takes for granted that a line made of leftover text and a record is never itself a record.
- Attestation.AttestRun: does not model the git anchor, a second and independent commitment.
- Patch.StageChanges: compares paths by their text, not by the file they lead to, and does not keep the order in which
  writes are listed; a path that is a directory is not modelled.
- Canonical.CanonicalContext.TransformInner: does not model accessor properties, the sign of zero, nor the order of
  property names outside the range where UTF-16 units and code points agree.
- Evaluate.EvaluateProperty: takes criteria after suite normalisation, which drops the `discriminating` flag.
- Ownership.ClearedWhenTerminal: does not model a malformed intent record, which the code reads as absent, nor the
  per-run pid lock, nor recursive applies.
- Ownership.NeverTwoTerminalEvents: a cancellation's own append is no step of these runs; what one such append does to
  all later runs is Ownership.CancellationEndsOnceExactly.
- Recovery's terminal status: the code maps both cancel causes to one status where its comment names two; the status is
  not modelled.
- Sse.ReadStream: starts from decoded characters; the byte decoder, HTTP errors, a null body and block indices that are
  not integers are not modelled.
- Harness.GenerateStructured: models one request with a fresh id; the counter that allocates ids, the store's directory
  lock, the stale sweep and candidates are not modelled, and the clock moves only while the provider sleeps.
- Glob.IsSafeRelativePath: only its lexical test; symbolic links are not modelled.
- Strings are sequences of Unicode scalar values; the source's are UTF-16 code units, of which a character outside the
  Basic Multilingual Plane has two, so that one `?` does not match it there.
- Submission guards, command policy, the command cache, observations, follow-ups, prompts, renderers and configuration:
  plumbing, or single checks without a global claim.
