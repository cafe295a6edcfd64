/**
 * scheduler.ts: the phases of one scheduler round as functions on the run's world, and what each keeps.
 */
module Rounds {
  import opened Wrappers
  import opened RunState
  import opened Transitions

  // ---- Answers of the environment ----

  datatype ExecutionStatus = ECompleted | EFailed | EBlocked | ENeedsReplan

  /** What executing a task returns, with the events it logs and the revision it commits on the way. */
  datatype Execution =
    | Finished(status: ExecutionStatus, summary: string, failure: Option<Failure>, side: seq<SideEvent>,
               revision: Option<string>)
    | Retired(message: string, side: seq<SideEvent>)

  const REQUEST_RETIRED := "REQUEST_RETIRED"

  function FailureOf(e: Execution): Option<Failure> {
    match e
    case Finished(_, _, failure, _, _) => failure
    case Retired(message, _) => Some(Failure(REQUEST_RETIRED, message))
  }

  predicate ObservesCancellation(e: Execution) {
    FailureOf(e).Some? && FailureOf(e).value.code == REQUEST_RETIRED
  }

  function StatusOfExecution(e: Execution): ExecutionStatus {
    if e.Retired? then EBlocked else e.status
  }

  // ---- Interrupted work, and the single blocking sweep ----

  predicate Blocking(status: TaskStatus) {
    status in {Failed, Blocked, Cancelled, NeedsReplan}
  }

  predicate Released(status: TaskStatus) {
    status in {Completed, Skipped}
  }

  function Recovered(w: World, tasks: seq<Task>): World {
    if tasks == [] then w
    else
      var before := Recovered(w, tasks[..|tasks| - 1]);
      var id := tasks[|tasks| - 1].id;
      if StatusIn(before, id) == Running then Transit(before, id, StateOf(before.tasks, id).(status := Pending))
      else before
  }

  /** A dependency outside the plan has no status in the scheduler's table, so it never blocks. */
  predicate HasBlockedDependency(w: World, t: Task) {
    exists i :: 0 <= i < |t.dependsOn| && InPlan(w.plan, t.dependsOn[i]) && Blocking(StatusIn(w, t.dependsOn[i]))
  }

  predicate IsReady(w: World, t: Task) {
    forall i :: 0 <= i < |t.dependsOn| ==> InPlan(w.plan, t.dependsOn[i]) && Released(StatusIn(w, t.dependsOn[i]))
  }

  /** One pass in plan order: a task listed before its blocked dependency is not reached again. */
  function Swept(w: World, tasks: seq<Task>): World {
    if tasks == [] then w
    else
      var before := Swept(w, tasks[..|tasks| - 1]);
      var t := tasks[|tasks| - 1];
      if StatusIn(before, t.id) == Pending && HasBlockedDependency(before, t) then
        Transit(before, t.id, StateOf(before.tasks, t.id).(status := Blocked))
      else before
  }

  lemma RecoveredNone(w: World)
    ensures Recovered(w, w.plan.tasks[..0]) == w
  {}

  lemma RecoveredStep(w: World, i: nat)
    requires i < |w.plan.tasks|
    ensures var before, id := Recovered(w, w.plan.tasks[..i]), w.plan.tasks[i].id;
            Recovered(w, w.plan.tasks[..i + 1])
            == if StatusIn(before, id) == Running then Transit(before, id, StateOf(before.tasks, id).(status := Pending)) else before
  {
    assert w.plan.tasks[..i + 1][..i] == w.plan.tasks[..i];
  }

  lemma SweptNone(w: World)
    ensures Swept(w, w.plan.tasks[..0]) == w
  {}

  lemma SweptOneMore(w: World, i: nat)
    requires i < |w.plan.tasks|
    ensures var before, t := Swept(w, w.plan.tasks[..i]), w.plan.tasks[i];
            Swept(w, w.plan.tasks[..i + 1])
            == if StatusIn(before, t.id) == Pending && HasBlockedDependency(before, t)
               then Transit(before, t.id, StateOf(before.tasks, t.id).(status := Blocked)) else before
  {
    assert w.plan.tasks[..i + 1][..i] == w.plan.tasks[..i];
  }

  lemma {:induction false} NothingToRecover(w: World, tasks: seq<Task>)
    requires forall t <- tasks :: StatusIn(w, t.id) != Running
    ensures Recovered(w, tasks) == w
  {
    if tasks != [] {
      NothingToRecover(w, tasks[..|tasks| - 1]);
      assert tasks[|tasks| - 1] in tasks;
    }
  }

  lemma {:induction false} RecoveredFacts(w: World, tasks: seq<Task>)
    requires forall i :: 0 <= i < |tasks| ==> InPlan(w.plan, tasks[i].id)
    ensures var after := Recovered(w, tasks);
            && after.plan == w.plan && after.replans == w.replans
            && after.log == w.log && (Simulated(w) ==> Simulated(after))
            && forall id :: StateOf(after.tasks, id) ==
                 if Listed(tasks, id) && StatusIn(w, id) == Running then StateOf(w.tasks, id).(status := Pending) else StateOf(w.tasks, id)
  {
    if tasks != [] {
      var init, last := tasks[..|tasks| - 1], tasks[|tasks| - 1].id;
      RecoveredFacts(w, init);
      ListedLast(tasks);
      var before := Recovered(w, init);
      if StatusIn(before, last) == Running && Simulated(w) {
        TransitKeepsSimulation(before, last, StateOf(before.tasks, last).(status := Pending));
      }
    }
  }

  lemma ListedLast(tasks: seq<Task>)
    requires tasks != []
    ensures forall id :: Listed(tasks, id) <==> Listed(tasks[..|tasks| - 1], id) || id == tasks[|tasks| - 1].id
  {
    var init := tasks[..|tasks| - 1];
    assert tasks[|tasks| - 1].id == tasks[|tasks| - 1].id;
    forall id ensures Listed(tasks, id) <==> Listed(init, id) || id == tasks[|tasks| - 1].id {
      if Listed(init, id) {
        var i :| 0 <= i < |init| && init[i].id == id;
        assert tasks[i].id == id;
      }
    }
  }

  /** The sweep only turns pending tasks into blocked ones; attempts, failures, revisions, plan and budget stay. */
  lemma {:induction false} SweptFacts(w: World, tasks: seq<Task>)
    ensures Swept(w, tasks).plan == w.plan && Swept(w, tasks).replans == w.replans
    ensures forall id :: StateOf(Swept(w, tasks).tasks, id) == StateOf(w.tasks, id)
                      || (StatusIn(w, id) == Pending && StateOf(Swept(w, tasks).tasks, id) == StateOf(w.tasks, id).(status := Blocked))
  {
    if tasks != [] {
      SweptFacts(w, tasks[..|tasks| - 1]);
    }
  }

  lemma {:induction false} SweptSimulates(w: World, tasks: seq<Task>)
    requires forall i :: 0 <= i < |tasks| ==> InPlan(w.plan, tasks[i].id)
    requires Simulated(w)
    ensures Simulated(Swept(w, tasks))
  {
    if tasks != [] {
      var init, t := tasks[..|tasks| - 1], tasks[|tasks| - 1];
      SweptSimulates(w, init);
      SweptFacts(w, init);
      var before := Swept(w, init);
      if StatusIn(before, t.id) == Pending && HasBlockedDependency(before, t) {
        TransitKeepsSimulation(before, t.id, StateOf(before.tasks, t.id).(status := Blocked));
      }
    }
  }

  // ---- Never deadlocked, when dependencies are listed first ----

  /** Each dependency is the id of a task listed earlier; such a plan is acyclic. */
  predicate DependenciesListedFirst(plan: Plan) {
    forall i, k :: 0 <= i < |plan.tasks| && 0 <= k < |plan.tasks[i].dependsOn| ==>
      Listed(plan.tasks[..i], plan.tasks[i].dependsOn[k])
  }

  predicate UniqueIds(plan: Plan) {
    forall i, j :: 0 <= i < j < |plan.tasks| ==> plan.tasks[i].id != plan.tasks[j].id
  }

  /** No task of the plan reads as `ready`: only a resume after a crash between two events can bring that in. */
  predicate NoneReady(w: World) {
    forall i :: 0 <= i < |w.plan.tasks| ==> StatusIn(w, w.plan.tasks[i].id) != Ready
  }

  predicate NoneRunning(w: World) {
    forall i :: 0 <= i < |w.plan.tasks| ==> StatusIn(w, w.plan.tasks[i].id) != Running
  }

  predicate Pends(w: World, t: Task) {
    StatusIn(w, t.id) == Pending
  }

  /** One step of the sweep moves only its own task. */
  lemma SweptStep(w: World, n: nat)
    requires 0 < n <= |w.plan.tasks|
    ensures var t := w.plan.tasks[n - 1];
            var before, after := Swept(w, w.plan.tasks[..n - 1]), Swept(w, w.plan.tasks[..n]);
            && (forall id :: id != t.id ==> StatusIn(after, id) == StatusIn(before, id))
            && (Pends(after, t) ==> after == before && !HasBlockedDependency(before, t))
  {
    assert w.plan.tasks[..n][..n - 1] == w.plan.tasks[..n - 1];
  }

  /** The verdict of the sweep on the task at position `k` is final. */
  lemma {:induction false} SweepVerdict(w: World, n: nat, k: nat)
    requires k < n <= |w.plan.tasks| && UniqueIds(w.plan) && DependenciesListedFirst(w.plan)
    ensures Pends(Swept(w, w.plan.tasks[..n]), w.plan.tasks[k]) ==>
              !HasBlockedDependency(Swept(w, w.plan.tasks[..n]), w.plan.tasks[k])
  {
    hide Swept;
    var tasks := w.plan.tasks;
    SweptStep(w, n);
    if k < n - 1 {
      var before, after := Swept(w, tasks[..n - 1]), Swept(w, tasks[..n]);
      SweptFacts(w, tasks[..n - 1]);
      SweptFacts(w, tasks[..n]);
      SweepVerdict(w, n - 1, k);
      var u := tasks[k];
      forall i | 0 <= i < |u.dependsOn| ensures StatusIn(after, u.dependsOn[i]) == StatusIn(before, u.dependsOn[i]) {
        var j := Position(tasks[..k], u.dependsOn[i]);
        assert tasks[j].id != tasks[n - 1].id;
      }
    }
  }

  lemma Position(tasks: seq<Task>, id: TaskId) returns (j: nat)
    requires Listed(tasks, id)
    ensures j < |tasks| && tasks[j].id == id
  {
    j :| 0 <= j < |tasks| && tasks[j].id == id;
  }

  /** After the sweep, a plan with its dependencies first always has a task to launch. */
  lemma SweepLeavesReadyWork(w: World)
    requires UniqueIds(w.plan) && DependenciesListedFirst(w.plan) && NoneReady(w)
    requires NoneRunning(w)
    requires exists i :: 0 <= i < |w.plan.tasks| && Pends(Swept(w, w.plan.tasks), w.plan.tasks[i])
    ensures exists i :: 0 <= i < |w.plan.tasks| && Pends(Swept(w, w.plan.tasks), w.plan.tasks[i])
                        && IsReady(Swept(w, w.plan.tasks), w.plan.tasks[i])
  {
    var tasks := w.plan.tasks;
    var after := Swept(w, tasks);
    SweptFacts(w, tasks);
    var k := FirstPending(after, tasks);
    assert tasks[..|tasks|] == tasks;
    SweepVerdict(w, |tasks|, k);
    hide Swept, UniqueIds, DependenciesListedFirst, HasBlockedDependency, IsReady;
    FirstPendingIsReady(w, after, k);
  }

  lemma FirstPendingIsReady(w: World, after: World, k: nat)
    requires after.plan == w.plan && k < |w.plan.tasks| && DependenciesListedFirst(w.plan)
    requires forall j :: 0 <= j < k ==> !Pends(after, w.plan.tasks[j]) && StatusIn(w, w.plan.tasks[j].id) !in {Ready, Running}
    requires forall id :: StatusIn(after, id) == StatusIn(w, id) || StatusIn(after, id) == Blocked
    requires !HasBlockedDependency(after, w.plan.tasks[k])
    ensures IsReady(after, w.plan.tasks[k])
  {
    var tasks := w.plan.tasks;
    forall i | 0 <= i < |tasks[k].dependsOn|
      ensures InPlan(after.plan, tasks[k].dependsOn[i]) && Released(StatusIn(after, tasks[k].dependsOn[i]))
    {
      var j := Position(tasks[..k], tasks[k].dependsOn[i]);
      assert tasks[j].id == tasks[k].dependsOn[i];
      assert !Pends(after, tasks[j]);
      assert !Blocking(StatusIn(after, tasks[k].dependsOn[i]));
    }
  }

  lemma FirstPending(w: World, tasks: seq<Task>) returns (k: nat)
    requires exists i :: 0 <= i < |tasks| && Pends(w, tasks[i])
    ensures k < |tasks| && Pends(w, tasks[k]) && forall j :: 0 <= j < k ==> !Pends(w, tasks[j])
  {
    k := 0;
    while !Pends(w, tasks[k])
      invariant k < |tasks| && forall j :: 0 <= j < k ==> !Pends(w, tasks[j])
      invariant exists i :: k <= i < |tasks| && Pends(w, tasks[i])
      decreases |tasks| - k
    {
      k := k + 1;
    }
  }

  // ---- Launching and settling one task ----

  function Launched(w: World, id: TaskId): World {
    var prior := StateOf(w.tasks, id);
    Transit(w, id, TaskState(Running, prior.attempt + 1, prior.failure, None))
  }

  function Executed(w: World, id: TaskId, e: Execution): World {
    var attempt := StateOf(w.tasks, id).attempt;
    match e
    case Finished(status, _, _, side, revision) =>
      var noted := Noted(w, side);
      if status == ECompleted && revision.Some? then CommittedWorld(noted, id, revision.value, attempt) else noted
    case Retired(_, side) =>
      RetiredWorld(Noted(w, side), id, attempt, FailureOf(e))
  }

  /** The state the scheduler gives a task for the outcome of its attempt. */
  function Verdict(attempt: nat, e: Execution, maxTaskRetries: nat): TaskState {
    match StatusOfExecution(e)
    case ECompleted => TaskState(Completed, attempt, None, None)
    case EFailed =>
      var failure := if FailureOf(e).Some? then FailureOf(e) else Some(Failure("TASK_FAILED", e.summary));
      TaskState(if attempt < maxTaskRetries + 1 then Pending else Failed, attempt, failure, None)
    case EBlocked =>
      TaskState(Blocked, attempt, if FailureOf(e).Some? then FailureOf(e) else Some(Failure("TASK_BLOCKED", e.summary)), None)
    case ENeedsReplan => TaskState(NeedsReplan, attempt, FailureOf(e), None)
  }

  function Settled(w: World, id: TaskId, e: Execution, maxTaskRetries: nat): World {
    var launched := Launched(w, id);
    Transit(Executed(launched, id, e), id,
            Verdict(StateOf(launched.tasks, id).attempt, e, maxTaskRetries))
  }

  /** A round touches only the task it launches. */
  lemma RoundStates(w: World, id: TaskId, e: Execution, maxTaskRetries: nat)
    ensures var launched, settled := Launched(w, id), Settled(w, id, e, maxTaskRetries);
            && launched.plan == settled.plan == w.plan && settled.replans == w.replans == launched.replans
            && StatusIn(launched, id) == Running && StateOf(launched.tasks, id).attempt == StateOf(w.tasks, id).attempt + 1
            && StateOf(settled.tasks, id).attempt == StateOf(w.tasks, id).attempt + 1
            && StatusIn(settled, id) == Verdict(StateOf(w.tasks, id).attempt + 1, e, maxTaskRetries).status
            && forall other :: other != id ==>
                 StateOf(launched.tasks, other) == StateOf(w.tasks, other) == StateOf(settled.tasks, other)
  {}

  // ---- What an outcome does, by the execution's own fields ----

  /** The request was retired while the task ran, or the execution says so. */
  predicate Withdrawn(e: Execution) {
    e.Retired? || (e.failure.Some? && e.failure.value.code == "REQUEST_RETIRED")
  }

  predicate Retriable(e: Execution) {
    e.Finished? && e.status == EFailed
  }

  /**
   * From the state of a task in flight to the state its execution leaves. Blocked exactly for a blocked or a retired
   * execution, completed exactly for a completed one, waiting for a replan exactly for one that asks for it; a failed one
   * is pending while retries are left and failed then.
   */
  predicate Ends(flying: TaskState, after: TaskState, e: Execution, maxTaskRetries: nat) {
    && after.attempt == flying.attempt
    && (after.status == Blocked <==> e.Retired? || e.status == EBlocked)
    && (after.status == Completed <==> e.Finished? && e.status == ECompleted)
    && (after.status == NeedsReplan <==> e.Finished? && e.status == ENeedsReplan)
    && (after.status == Pending <==> Retriable(e) && flying.attempt <= maxTaskRetries)
    && (after.status == Failed <==> Retriable(e) && flying.attempt > maxTaskRetries)
    && after.failure == FailureLeft(flying.failure, e)
    && after.revision == (if after.status != Completed then None else if e.revision.Some? then e.revision else flying.revision)
  }

  /** What was recorded before stays, unless the execution brings a failure or one is made of its summary. */
  function FailureLeft(before: Option<Failure>, e: Execution): Option<Failure> {
    match e
    case Retired(message, _) => Some(Failure("REQUEST_RETIRED", message))
    case Finished(status, summary, failure, _, _) =>
      if status == ECompleted then before
      else if failure.Some? then failure
      else if status == EFailed then Some(Failure("TASK_FAILED", summary))
      else if status == EBlocked then Some(Failure("TASK_BLOCKED", summary))
      else before
  }

  /** What the log gains: the execution's own events, the commit, and the event of the status the task is left in. */
  function EndEvents(id: TaskId, after: TaskState, e: Execution): seq<Event> {
    Sides(e.side)
    + (match e
       case Retired(message, _) => [TaskBlocked(id, Some(after.attempt), Some(Failure("REQUEST_RETIRED", message)))]
       case Finished(status, _, _, _, revision) => if status == ECompleted && revision.Some? then [TaskCommitted(id, revision)] else [])
    + (match after.status
       case Completed => [TaskCompleted(id, Some(after.attempt))]
       case Failed => [TaskFailed(id, Some(after.attempt), after.failure)]
       case Blocked => [TaskBlocked(id, Some(after.attempt), after.failure)]
       case NeedsReplan => [TaskNeedsReplan(id)]
       case _ => [])
  }

  lemma VerdictEnds(w: World, id: TaskId, e: Execution, maxTaskRetries: nat)
    requires id in w.tasks
    ensures var flying := StateOf(w.tasks, id);
            var after := Transit(Executed(w, id, e), id, Verdict(flying.attempt, e, maxTaskRetries));
            && Ends(flying, StateOf(after.tasks, id), e, maxTaskRetries)
            && after.log == w.log + EndEvents(id, StateOf(after.tasks, id), e)
  {}

  /** A round: the launch, and what its execution does. */
  lemma RoundEnds(w: World, id: TaskId, e: Execution, maxTaskRetries: nat)
    ensures var prior, after := StateOf(w.tasks, id), Settled(w, id, e, maxTaskRetries);
            var attempt := prior.attempt + 1;
            && Ends(TaskState(Running, attempt, prior.failure, None), StateOf(after.tasks, id), e, maxTaskRetries)
            && after.log == w.log + [TaskReady(id, Some(attempt)), TaskStarted(id, Some(attempt))]
                            + EndEvents(id, StateOf(after.tasks, id), e)
  {
    LaunchedIsKnown(w, id);
    VerdictEnds(Launched(w, id), id, e, maxTaskRetries);
    hide Executed, Verdict, Ends, EndEvents;
  }

  lemma LaunchedIsKnown(w: World, id: TaskId)
    ensures id in Launched(w, id).tasks
  {}

  lemma LaunchSimulates(w: World, id: TaskId)
    requires Simulated(w)
    ensures Simulated(Launched(w, id))
  {
    var prior := StateOf(w.tasks, id);
    TransitKeepsSimulation(w, id, TaskState(Running, prior.attempt + 1, prior.failure, None));
  }

  /** What an attempt logs keeps the agreement, except for a task whose request was retired. */
  lemma ExecutedAgrees(w: World, id: TaskId, e: Execution, other: TaskId)
    requires AgreesAt(w, other) && id in w.tasks && (other != id || e.Finished?)
    ensures AgreesAt(Executed(w, id, e), other)
  {
    var noted := Noted(w, e.side);
    NotedAgrees(w, e.side, other);
    if e.Retired? {
      RetiredAgreesElsewhere(noted, id, w.tasks[id].attempt, FailureOf(e), other);
    } else if e.status == ECompleted && e.revision.Some? {
      CommitAgrees(noted, id, e.revision.value, w.tasks[id].attempt, other);
    }
  }

  lemma ExecutedState(w: World, id: TaskId, e: Execution)
    requires id in w.tasks
    ensures Executed(w, id, e).plan == w.plan && Executed(w, id, e).replans == w.replans
    ensures ViewOf(Executed(w, id, e).tasks, id) == ViewOf(w.tasks, id)
    ensures StateOf(Executed(w, id, e).tasks, id).failure == StateOf(w.tasks, id).failure
  {}

  /** Both transitions of a round keep the simulation. */
  lemma RoundSimulates(w: World, id: TaskId, e: Execution, maxTaskRetries: nat)
    requires Simulated(w) && InPlan(w.plan, id)
    ensures Simulated(Launched(w, id)) && Simulated(Settled(w, id, e, maxTaskRetries))
  {
    hide AgreesAt, Executed, Transit, Projected;
    var launched := Launched(w, id);
    RoundStates(w, id, e, maxTaskRetries);
    LaunchSimulates(w, id);
    assert id in launched.tasks by { LaunchedIsKnown(w, id); }
    var executed := Executed(launched, id, e);
    ExecutedState(launched, id, e);
    forall other | InPlan(executed.plan, other) && (other != id || e.Finished?)
      ensures AgreesAt(executed, other)
    {
      assert AgreesAt(launched, other);
      ExecutedAgrees(launched, id, e, other);
    }
    var next := Verdict(StateOf(launched.tasks, id).attempt, e, maxTaskRetries);
    TransitKeepsSimulation(executed, id, next);
  }
}
