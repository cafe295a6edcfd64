/**
 * scheduler.ts: why a task is blocked, how much work is left, and how many attempts a task can have had.
 */
module Causes {
  import opened Wrappers
  import opened RunState
  import opened Transitions
  import opened Rounds

  // ---- Every block has a cause ----

  predicate DependsOn(plan: Plan, id: TaskId, dependency: TaskId) {
    exists i :: 0 <= i < |plan.tasks| && plan.tasks[i].id == id && dependency in plan.tasks[i].dependsOn
  }

  predicate Leads(plan: Plan, path: seq<TaskId>) {
    |path| >= 2 && forall i :: 0 <= i < |path| - 1 ==> DependsOn(plan, path[i], path[i + 1])
  }

  predicate Stopped(status: TaskStatus) {
    status in {Failed, Cancelled, NeedsReplan}
  }

  /** A dependency in the plan failed, is blocked, was cancelled or waits for a replan. */
  predicate Hindered(w: World, t: Task) {
    exists i :: 0 <= i < |t.dependsOn| && InPlan(w.plan, t.dependsOn[i])
                && StatusIn(w, t.dependsOn[i]) in {Failed, Blocked, Cancelled, NeedsReplan}
  }

  /** Every dependency is a task of the plan that completed or was skipped. */
  predicate Unhindered(w: World, t: Task) {
    forall i :: 0 <= i < |t.dependsOn| ==> InPlan(w.plan, t.dependsOn[i]) && StatusIn(w, t.dependsOn[i]) in {Completed, Skipped}
  }

  lemma HinderedMeans(w: World, t: Task)
    ensures HasBlockedDependency(w, t) <==> Hindered(w, t)
    ensures IsReady(w, t) <==> Unhindered(w, t)
  {
    hide InPlan;
    if HasBlockedDependency(w, t) {
      var i :| 0 <= i < |t.dependsOn| && InPlan(w.plan, t.dependsOn[i]) && Blocking(StatusIn(w, t.dependsOn[i]));
    }
    if Hindered(w, t) {
      var i :| 0 <= i < |t.dependsOn| && InPlan(w.plan, t.dependsOn[i])
               && StatusIn(w, t.dependsOn[i]) in {Failed, Blocked, Cancelled, NeedsReplan};
      assert Blocking(StatusIn(w, t.dependsOn[i]));
    }
  }

  // ---- The sweep ----

  /** A task with a blocking status is at the end of a chain of dependencies. */
  ghost predicate Behind(w: World, id: TaskId) {
    exists path :: Leads(w.plan, path) && path[0] == id && (Stopped(StatusIn(w, path[|path| - 1])) || StatusIn(w, path[|path| - 1]) == Blocked)
  }

  lemma BehindDirectly(w: World, t: Task)
    requires t in w.plan.tasks && HasBlockedDependency(w, t)
    ensures exists d :: DependsOn(w.plan, t.id, d) && Blocking(StatusIn(w, d))
  {
    var i :| 0 <= i < |t.dependsOn| && InPlan(w.plan, t.dependsOn[i]) && Blocking(StatusIn(w, t.dependsOn[i]));
    assert DependsOn(w.plan, t.id, t.dependsOn[i]);
  }

  lemma BehindFurther(w: World, id: TaskId, dependency: TaskId)
    requires DependsOn(w.plan, id, dependency) && Behind(w, dependency)
    ensures Behind(w, id)
  {
    hide DependsOn;
    var path :| Leads(w.plan, path) && path[0] == dependency
               && (Stopped(StatusIn(w, path[|path| - 1])) || StatusIn(w, path[|path| - 1]) == Blocked);
    var longer := [id] + path;
    assert forall k :: 0 <= k < |longer| - 1 ==> longer[k + 1] == path[k];
    assert Leads(w.plan, longer);
  }

  /** Every task the sweep blocks was behind a task that had already failed, blocked, been cancelled or asked for a replan. */
  lemma {:induction false} SweptExplains(w: World, tasks: seq<Task>)
    requires forall i :: 0 <= i < |tasks| ==> tasks[i] in w.plan.tasks
    ensures forall id :: StatusIn(Swept(w, tasks), id) == Blocked && StatusIn(w, id) != Blocked ==> Behind(w, id)
  {
    if tasks != [] {
      var init, t := tasks[..|tasks| - 1], tasks[|tasks| - 1];
      SweptExplains(w, init);
      SweptFacts(w, init);
      var before := Swept(w, init);
      if StatusIn(before, t.id) == Pending && HasBlockedDependency(before, t) {
        BehindDirectly(before, t);
        var d :| DependsOn(w.plan, t.id, d) && Blocking(StatusIn(before, d));
        if Blocking(StatusIn(w, d)) {
          assert Leads(w.plan, [t.id, d]);
        } else {
          BehindFurther(w, t.id, d);
        }
      }
    }
  }

  // ---- Every block of a run has a cause ----

  /** A launch: the world the scheduler decided on, and what came of it. */
  datatype Launch = Launch(before: World, id: TaskId, execution: Execution)

  /** What a run has been through: where it started, the world after each transition, and its launches. */
  datatype History = History(start: World, worlds: seq<World>, launches: seq<Launch>)

  /** Why a task is blocked: its own outcome, or a dependency, in some world of the run and under the plan then in force. */
  datatype Reason =
    | AtStart
    | OwnOutcome(launch: Launch)
    | StoppedDependency(world: World, dependency: TaskId)
    | BlockedDependency(world: World, dependency: TaskId, reason: Reason)

  predicate Seen(h: History, w: World) {
    w == h.start || w in h.worlds
  }

  predicate Justifies(h: History, r: Reason, id: TaskId) {
    match r
    case AtStart => StatusIn(h.start, id) == Blocked
    case OwnOutcome(launch) => launch in h.launches && launch.id == id && StatusOfExecution(launch.execution) == EBlocked
    case StoppedDependency(w, d) => Seen(h, w) && DependsOn(w.plan, id, d) && Stopped(StatusIn(w, d))
    case BlockedDependency(w, d, reason) =>
      Seen(h, w) && DependsOn(w.plan, id, d) && StatusIn(w, d) == Blocked && Justifies(h, reason, d)
  }

  ghost predicate Explained(h: History, id: TaskId) {
    exists r :: Justifies(h, r, id)
  }

  ghost predicate BlocksExplained(h: History, w: World) {
    forall id :: InPlan(w.plan, id) && StatusIn(w, id) == Blocked ==> Explained(h, id)
  }

  predicate Continues(h: History, more: History) {
    more.start == h.start && h.worlds <= more.worlds && h.launches <= more.launches
  }

  lemma {:induction false} ReasonStays(h: History, more: History, r: Reason, id: TaskId)
    requires Continues(h, more) && Justifies(h, r, id)
    ensures Justifies(more, r, id)
  {
    if r.BlockedDependency? {
      ReasonStays(h, more, r.reason, r.dependency);
    }
  }

  lemma ExplanationsStay(h: History, more: History, w: World)
    requires Continues(h, more) && BlocksExplained(h, w)
    ensures BlocksExplained(more, w)
  {
    forall id | InPlan(w.plan, id) && StatusIn(w, id) == Blocked ensures Explained(more, id) {
      var r :| Justifies(h, r, id);
      ReasonStays(h, more, r, id);
    }
  }

  /** What was lived through before this object existed, and since. */
  function Lived(past: History, trace: seq<World>, launches: seq<Launch>): History {
    History(past.start, past.worlds + trace, past.launches + launches)
  }

  lemma LivedOn(past: History, trace: seq<World>, launches: seq<Launch>, w: World)
    ensures Continues(Lived(past, trace, launches), Lived(past, trace + [w], launches))
    ensures Seen(Lived(past, trace + [w], launches), w)
  {
    assert past.worlds + (trace + [w]) == (past.worlds + trace) + [w];
  }

  lemma LaunchedOn(past: History, trace: seq<World>, launches: seq<Launch>, launch: Launch)
    ensures Continues(Lived(past, trace, launches), Lived(past, trace, launches + [launch]))
    ensures launch in Lived(past, trace, launches + [launch]).launches
  {
    assert past.launches + (launches + [launch]) == (past.launches + launches) + [launch];
  }

  /** A change that blocks nothing needs no new reason. */
  lemma NothingNewBlocked(h: History, w: World, after: World)
    requires BlocksExplained(h, w)
    requires forall id :: InPlan(after.plan, id) && StatusIn(after, id) == Blocked ==>
               InPlan(w.plan, id) && StatusIn(w, id) == Blocked
    ensures BlocksExplained(h, after)
  {}

  /** A task the sweep blocks has a dependency that explains it: one that stopped, or one that is explained itself. */
  lemma SweepIsExplained(h: History, w: World, t: Task)
    requires BlocksExplained(h, w) && t in w.plan.tasks && StatusIn(w, t.id) == Pending && HasBlockedDependency(w, t)
    requires Seen(h, Transit(w, t.id, StateOf(w.tasks, t.id).(status := Blocked)))
    ensures BlocksExplained(h, Transit(w, t.id, StateOf(w.tasks, t.id).(status := Blocked)))
  {
    var after := Transit(w, t.id, StateOf(w.tasks, t.id).(status := Blocked));
    var i :| 0 <= i < |t.dependsOn| && InPlan(w.plan, t.dependsOn[i]) && Blocking(StatusIn(w, t.dependsOn[i]));
    var d := t.dependsOn[i];
    assert DependsOn(after.plan, t.id, d) && StatusIn(after, d) == StatusIn(w, d);
    if StatusIn(w, d) == Blocked {
      var r :| Justifies(h, r, d);
      assert Justifies(h, BlockedDependency(after, d, r), t.id);
    } else {
      assert Justifies(h, StoppedDependency(after, d), t.id);
    }
    forall id | InPlan(after.plan, id) && StatusIn(after, id) == Blocked && id != t.id ensures Explained(h, id) {
      assert InPlan(w.plan, id) && StatusIn(w, id) == Blocked;
    }
  }

  /** A round blocks no task but the launched one, and that one by its own outcome. */
  lemma RoundIsExplained(h: History, w: World, id: TaskId, e: Execution, maxTaskRetries: nat)
    requires BlocksExplained(h, w) && StatusIn(w, id) == Pending && Launch(w, id, e) in h.launches
    ensures BlocksExplained(h, Launched(w, id)) && BlocksExplained(h, Settled(w, id, e, maxTaskRetries))
  {
    RoundStates(w, id, e, maxTaskRetries);
    NothingNewBlocked(h, w, Launched(w, id));
    var after := Settled(w, id, e, maxTaskRetries);
    forall other | InPlan(after.plan, other) && StatusIn(after, other) == Blocked ensures Explained(h, other) {
      if other == id {
        assert Justifies(h, OwnOutcome(Launch(w, id, e)), id);
      } else {
        assert StatusIn(w, other) == Blocked;
      }
    }
  }

  /** An amendment blocks nothing; what stays blocked keeps the reason it had under the plan before. */
  lemma AmendmentIsExplained(h: History, w: World, plan: Plan)
    requires BlocksExplained(h, w)
    ensures BlocksExplained(h, Amended(w, plan))
  {
    forall id | InPlan(plan, id) && StatusIn(Amended(w, plan), id) == Blocked
      ensures InPlan(w.plan, id) && StatusIn(w, id) == Blocked
    {
      AmendedState(w, plan, id);
    }
    NothingNewBlocked(h, w, Amended(w, plan));
  }

  /** A resume at the log of a run takes over the run's reasons: what reads as blocked was blocked. */
  lemma ResumeIsExplained(h: History, w: World)
    requires Simulated(w) && BlocksExplained(h, w)
    ensures BlocksExplained(h, Resumed(w.plan, w.log))
  {
    forall id | InPlan(w.plan, id) && StatusIn(Resumed(w.plan, w.log), id) == Blocked ensures StatusIn(w, id) == Blocked {
      ProjectedView(w.plan, w.log, id);
      assert AgreesAt(w, id);
    }
    NothingNewBlocked(h, w, Resumed(w.plan, w.log));
  }

  /** The end of a reason: a task that stopped, or was blocked by its own outcome, or was blocked when the run started. */
  ghost predicate Root(h: History, id: TaskId) {
    || StatusIn(h.start, id) == Blocked
    || (exists launch :: launch in h.launches && launch.id == id && StatusOfExecution(launch.execution) == EBlocked)
    || (exists w :: Seen(h, w) && Stopped(StatusIn(w, id)))
  }

  ghost predicate Rooted(h: History, plan: Plan, id: TaskId) {
    Root(h, id) || exists path :: Leads(plan, path) && path[0] == id && Root(h, path[|path| - 1])
  }

  lemma RootedFurther(h: History, plan: Plan, id: TaskId, d: TaskId)
    requires DependsOn(plan, id, d) && Rooted(h, plan, d)
    ensures Rooted(h, plan, id)
  {
    hide DependsOn, Root;
    if Root(h, d) {
      var path := [id, d];
      assert Leads(plan, path) && Root(h, path[|path| - 1]);
    } else {
      var path :| Leads(plan, path) && path[0] == d && Root(h, path[|path| - 1]);
      var longer := [id] + path;
      assert forall k :: 0 <= k < |longer| - 1 ==> longer[k + 1] == path[k];
      assert Leads(plan, longer) && Root(h, longer[|longer| - 1]);
    }
  }

  /**
   * In a run without amendments a blocked task was blocked by its own outcome (or at the start), or it has a transitive
   * dependency that was, or that failed, was cancelled or asked for a replan.
   */
  lemma {:induction false} ReasonHasRoot(h: History, plan: Plan, r: Reason, id: TaskId)
    requires Justifies(h, r, id) && forall w :: Seen(h, w) ==> w.plan == plan
    ensures Rooted(h, plan, id)
  {
    hide DependsOn;
    match r {
      case AtStart =>
      case OwnOutcome(launch) =>
      case StoppedDependency(w, d) =>
        assert Root(h, d);
        RootedFurther(h, plan, id, d);
      case BlockedDependency(w, d, reason) =>
        ReasonHasRoot(h, plan, reason, d);
        hide Rooted;
        RootedFurther(h, plan, id, d);
    }
  }

  lemma BlocksAreRooted(h: History, plan: Plan, w: World, id: TaskId)
    requires BlocksExplained(h, w) && forall v :: Seen(h, v) ==> v.plan == plan
    requires InPlan(w.plan, id) && StatusIn(w, id) == Blocked
    ensures Rooted(h, plan, id)
  {
    var r :| Justifies(h, r, id);
    ReasonHasRoot(h, plan, r, id);
  }

  // ---- Work left ----

  function Weight(s: TaskState, maxTaskRetries: nat): nat {
    if s.status in {Pending, Running} then
      1 + if s.attempt <= maxTaskRetries then maxTaskRetries + 1 - s.attempt else 0
    else 0
  }

  /** The launches the tasks of the list may still use, and one more for each task that can be blocked. */
  function Work(tasks: map<TaskId, TaskState>, list: seq<Task>, maxTaskRetries: nat): nat {
    if list == [] then 0
    else Work(tasks, list[..|list| - 1], maxTaskRetries) + Weight(StateOf(tasks, list[|list| - 1].id), maxTaskRetries)
  }

  lemma {:induction false} WorkShrinks(before: map<TaskId, TaskState>, after: map<TaskId, TaskState>, list: seq<Task>,
                                       maxTaskRetries: nat)
    requires forall id :: Weight(StateOf(after, id), maxTaskRetries) <= Weight(StateOf(before, id), maxTaskRetries)
    ensures Work(after, list, maxTaskRetries) <= Work(before, list, maxTaskRetries)
    ensures (exists i :: 0 <= i < |list|
               && Weight(StateOf(after, list[i].id), maxTaskRetries) < Weight(StateOf(before, list[i].id), maxTaskRetries))
            ==> Work(after, list, maxTaskRetries) < Work(before, list, maxTaskRetries)
  {
    if list != [] {
      WorkShrinks(before, after, list[..|list| - 1], maxTaskRetries);
      assert forall i :: 0 <= i < |list| - 1 ==> list[..|list| - 1][i] == list[i];
    }
  }

  /** An attempt that does not end in a replan uses up part of what its task had left. */
  lemma AttemptUsesWork(prior: TaskState, e: Execution, maxTaskRetries: nat, next: TaskState)
    requires prior.status == Pending && StatusOfExecution(e) != ENeedsReplan
    requires next.status == Verdict(prior.attempt + 1, e, maxTaskRetries).status && next.attempt == prior.attempt + 1
    ensures Weight(next, maxTaskRetries) < Weight(prior, maxTaskRetries)
  {}

  // ---- Attempts ----

  /**
   * The bound on attempts: the configured retries, one first attempt, one more for each applied amendment,
   * and `extra` for what an earlier session spent.
   */
  ghost predicate AttemptsWithin(w: World, maxTaskRetries: nat, extra: int) {
    forall id :: InPlan(w.plan, id) ==> StateOf(w.tasks, id).attempt <= maxTaskRetries + 1 + w.replans + extra
  }

  /** Between rounds, a task that can still be launched is at least one attempt below the bound. */
  ghost predicate LaunchesWithin(w: World, maxTaskRetries: nat, extra: int) {
    forall id :: InPlan(w.plan, id) && StatusIn(w, id) in {Pending, Running} ==>
      StateOf(w.tasks, id).attempt <= maxTaskRetries + w.replans + extra
  }

  ghost predicate Budgeted(w: World, maxTaskRetries: nat, extra: int) {
    w.replans + extra >= 0 && AttemptsWithin(w, maxTaskRetries, extra) && LaunchesWithin(w, maxTaskRetries, extra)
  }

  lemma StartedIsBudgeted(plan: Plan, log: seq<Event>, maxTaskRetries: nat)
    ensures Budgeted(Started(plan, log), maxTaskRetries, 0)
  {}

  /** Each resume costs one attempt at most: what it rebuilds has the same attempts, and interrupted work runs again. */
  lemma ResumedIsBudgeted(w: World, maxTaskRetries: nat, extra: int)
    requires Simulated(w) && AttemptsWithin(w, maxTaskRetries, extra) && w.replans + extra >= 0
    ensures var again := Resumed(w.plan, w.log);
            Budgeted(again, maxTaskRetries, extra + 1 + w.replans - again.replans)
  {
    var again := Resumed(w.plan, w.log);
    forall id | InPlan(w.plan, id)
      ensures StateOf(again.tasks, id).attempt == StateOf(w.tasks, id).attempt
    {
      ResumeRebuilds(w, id);
    }
  }

  /** For any log at all some `extra` will do: no log is out of a resume's reach. */
  lemma AnyLogIsBudgeted(w: World, maxTaskRetries: nat) returns (extra: nat)
    ensures Budgeted(w, maxTaskRetries, extra)
  {
    extra := 0;
    for i := 0 to |w.plan.tasks|
      invariant forall k :: 0 <= k < i ==> StateOf(w.tasks, w.plan.tasks[k].id).attempt <= extra
    {
      var attempt := StateOf(w.tasks, w.plan.tasks[i].id).attempt;
      extra := if attempt > extra then attempt else extra;
    }
  }

  lemma AmendedIsBudgeted(w: World, plan: Plan, maxTaskRetries: nat, extra: int)
    requires AttemptsWithin(w, maxTaskRetries, extra) && w.replans + extra >= 0
    ensures Budgeted(Amended(w, plan), maxTaskRetries, extra)
  {
    forall id | InPlan(plan, id)
      ensures var s := StateOf(Amended(w, plan).tasks, id);
              if Listed(w.plan.tasks, id) then s.attempt == StateOf(w.tasks, id).attempt else s.attempt == 0
    {
      AmendedState(w, plan, id);
    }
  }

  /** What an amendment leaves of a task of the new plan. */
  lemma AmendedState(w: World, plan: Plan, id: TaskId)
    ensures StateOf(Amended(w, plan).tasks, id) ==
            if Listed(plan.tasks, id) && !Listed(w.plan.tasks, id) then FRESH
            else if Listed(plan.tasks, id) && StatusIn(w, id) == NeedsReplan then StateOf(w.tasks, id).(status := Pending)
            else StateOf(w.tasks, id)
  {
    var added := Missing(plan.tasks, w.plan.tasks);
    AddView(w.tasks, added, id);
    RedispatchedState(w.(tasks := Add(w.tasks, added)), plan.tasks, id);
  }

  /** The events of a redispatch: one for each task of the old plan that waits for a replan, in the order of the new one. */
  function ReadyEvents(w: World, tasks: seq<Task>): seq<Event> {
    if tasks == [] then []
    else
      var id := tasks[|tasks| - 1].id;
      ReadyEvents(w, tasks[..|tasks| - 1])
      + if InPlan(w.plan, id) && StatusIn(w, id) == NeedsReplan then [TaskReady(id, Some(StateOf(w.tasks, id).attempt))] else []
  }

  lemma {:induction false} RedispatchedLog(w: World, tasks: seq<Task>)
    requires UniqueIds(Plan(tasks)) && forall t <- tasks :: StatusIn(w, t.id) == NeedsReplan ==> InPlan(w.plan, t.id)
    ensures Redispatched(w, tasks).log == w.log + ReadyEvents(w, tasks)
  {
    if tasks != [] {
      var init, id := tasks[..|tasks| - 1], tasks[|tasks| - 1].id;
      RedispatchedLog(w, init);
      RedispatchedState(w, init, id);
      assert !Listed(init, id) && tasks[|tasks| - 1] in tasks;
    }
  }

  lemma {:induction false} ReadyEventsSame(w: World, v: World, tasks: seq<Task>)
    requires w.plan == v.plan && forall t <- tasks :: InPlan(w.plan, t.id) ==> StateOf(w.tasks, t.id) == StateOf(v.tasks, t.id)
    ensures ReadyEvents(w, tasks) == ReadyEvents(v, tasks)
  {
    if tasks != [] {
      ReadyEventsSame(w, v, tasks[..|tasks| - 1]);
      assert tasks[|tasks| - 1] in tasks;
    }
  }

  /**
   * The log of an amendment: each task of both plans that waited for a replan is redispatched, in the order of the new plan,
   * and then the ids that left the plan and those that came are on record.
   */
  lemma AmendedLog(w: World, plan: Plan)
    requires UniqueIds(plan)
    ensures exists removed, added ::
              && Amended(w, plan).log == w.log + ReadyEvents(w, plan.tasks) + [PlanAmended(removed, added)]
              && (forall id :: id in removed <==> InPlan(w.plan, id) && !InPlan(plan, id))
              && (forall id :: id in added <==> InPlan(plan, id) && !InPlan(w.plan, id))
    ensures Amended(w, plan).plan == plan && Amended(w, plan).replans == w.replans + 1
  {
    var added, removed := Missing(plan.tasks, w.plan.tasks), Missing(w.plan.tasks, plan.tasks);
    var grown := w.(tasks := Add(w.tasks, added));
    forall t | t in plan.tasks
      ensures if InPlan(w.plan, t.id) then StateOf(grown.tasks, t.id) == StateOf(w.tasks, t.id) else StateOf(grown.tasks, t.id) == FRESH
    {
      AddView(w.tasks, added, t.id);
      assert Listed(plan.tasks, t.id);
    }
    RedispatchedLog(grown, plan.tasks);
    RedispatchedState(grown, plan.tasks, "");
    ReadyEventsSame(w, grown, plan.tasks);
    hide Redispatched, ReadyEvents;
    assert Amended(w, plan).log == w.log + ReadyEvents(w, plan.tasks) + [PlanAmended(removed, added)];
  }

  // ---- Completed work ----

  /** Work that is completed stays in the plan and stays completed. */
  ghost predicate KeepsCompleted(w: World, after: World) {
    forall id :: InPlan(w.plan, id) && StatusIn(w, id) == Completed ==>
      InPlan(after.plan, id) && StatusIn(after, id) == Completed
  }

  /** What a process that died may leave for the next one: the plan or its successor, and a log that spares completed work. */
  ghost predicate LeftBehind(w: World, plan: Plan, log: seq<Event>) {
    && (plan == w.plan || KeepsExecuted(w, plan))
    && forall id :: InPlan(w.plan, id) && StatusIn(w, id) == Completed ==> Spares(w, log, id)
  }

  lemma ResumeKeepsCompleted(w: World, plan: Plan, log: seq<Event>)
    requires Simulated(w) && LeftBehind(w, plan, log)
    ensures KeepsCompleted(w, Resumed(plan, log))
  {
    forall id | InPlan(w.plan, id) && StatusIn(w, id) == Completed
      ensures InPlan(plan, id) && StatusIn(Resumed(plan, log), id) == Completed
    {
      assert AgreesAt(w, id);
      CompletedSurvives(w, plan, log, id);
      assert plan == w.plan || Listed(plan.tasks, id);
    }
  }

  /** While no amendment is applied, a task that is neither pending nor running keeps its status: nothing launches it. */
  ghost predicate KeepsSettled(w: World, after: World) {
    w.replans <= after.replans
    && (after.replans == w.replans ==>
          after.plan == w.plan && forall id :: StatusIn(w, id) !in {Pending, Running} ==> StatusIn(after, id) == StatusIn(w, id))
  }

  lemma SettledSelf(w: World)
    ensures KeepsSettled(w, w)
  {}

  lemma SettledTwice(a: World, b: World, c: World)
    requires KeepsSettled(a, b) && KeepsSettled(b, c)
    ensures KeepsSettled(a, c)
  {}

  lemma KeptNoneReady(w: World, after: World)
    requires KeepsSettled(w, after) && after.replans == w.replans && NoneReady(after)
    ensures NoneReady(w)
  {}

  /** applyPlanAmendment refuses a plan that drops a task which already executed. */
  predicate KeepsExecuted(w: World, plan: Plan) {
    forall i :: 0 <= i < |w.plan.tasks| && StatusIn(w, w.plan.tasks[i].id) in {Completed, Running} ==>
      Listed(plan.tasks, w.plan.tasks[i].id)
  }

  lemma AmendedKeepsCompleted(w: World, plan: Plan)
    requires KeepsExecuted(w, plan)
    ensures KeepsCompleted(w, Amended(w, plan))
  {
    forall id | InPlan(w.plan, id) && StatusIn(w, id) == Completed
      ensures InPlan(plan, id) && StatusIn(Amended(w, plan), id) == Completed
    {
      AmendedState(w, plan, id);
      assert Listed(w.plan.tasks, id) && Listed(plan.tasks, id);
    }
  }

  // ---- The phases of a round, as the scheduler's loop needs them ----

  ghost predicate Calmer(w: World, after: World, maxTaskRetries: nat) {
    && after.plan == w.plan && after.replans == w.replans
    && KeepsCompleted(w, after)
    && (NoneReady(w) ==> NoneReady(after)) && KeepsSettled(w, after)
    && Work(after.tasks, w.plan.tasks, maxTaskRetries) <= Work(w.tasks, w.plan.tasks, maxTaskRetries)
  }

  lemma CalmerMeans(w: World, after: World, maxTaskRetries: nat)
    requires Calmer(w, after, maxTaskRetries)
    ensures after.plan == w.plan && after.replans == w.replans && KeepsCompleted(w, after)
    ensures (NoneReady(w) ==> NoneReady(after)) && KeepsSettled(w, after)
    ensures Work(after.tasks, w.plan.tasks, maxTaskRetries) <= Work(w.tasks, w.plan.tasks, maxTaskRetries)
  {}

  lemma CalmFromStates(w: World, after: World, maxTaskRetries: nat)
    requires after.plan == w.plan && after.replans == w.replans
    requires forall id :: StateOf(after.tasks, id).attempt == StateOf(w.tasks, id).attempt
    requires forall id :: StatusIn(after, id) == StatusIn(w, id)
                       || (StatusIn(w, id) in {Pending, Running} && StatusIn(after, id) in {Pending, Blocked})
    ensures Calmer(w, after, maxTaskRetries)
  {
    forall id ensures Weight(StateOf(after.tasks, id), maxTaskRetries) <= Weight(StateOf(w.tasks, id), maxTaskRetries) {
      assert StatusIn(after, id) == StatusIn(w, id) || StatusIn(after, id) in {Pending, Blocked};
    }
    WorkShrinks(w.tasks, after.tasks, w.plan.tasks, maxTaskRetries);
  }

  lemma RecoveryCalms(w: World, maxTaskRetries: nat)
    ensures Calmer(w, Recovered(w, w.plan.tasks), maxTaskRetries)
    ensures NoneRunning(Recovered(w, w.plan.tasks))
  {
    var list := w.plan.tasks;
    assert forall i :: 0 <= i < |list| ==> InPlan(w.plan, list[i].id);
    RecoveredFacts(w, list);
    CalmFromStates(w, Recovered(w, list), maxTaskRetries);
  }

  lemma SweepCalms(w: World, maxTaskRetries: nat)
    ensures Calmer(w, Swept(w, w.plan.tasks), maxTaskRetries)
    ensures NoneRunning(w) ==> NoneRunning(Swept(w, w.plan.tasks))
  {
    SweptFacts(w, w.plan.tasks);
    CalmFromStates(w, Swept(w, w.plan.tasks), maxTaskRetries);
  }

  /** A round that asks for no replan leaves strictly less work. */
  lemma RoundUsesWork(w: World, t: Task, e: Execution, maxTaskRetries: nat)
    requires t in w.plan.tasks && StatusIn(w, t.id) == Pending && StatusOfExecution(e) != ENeedsReplan
    ensures Work(Settled(w, t.id, e, maxTaskRetries).tasks, w.plan.tasks, maxTaskRetries)
            < Work(w.tasks, w.plan.tasks, maxTaskRetries)
  {
    var after := Settled(w, t.id, e, maxTaskRetries);
    RoundStates(w, t.id, e, maxTaskRetries);
    AttemptUsesWork(StateOf(w.tasks, t.id), e, maxTaskRetries, StateOf(after.tasks, t.id));
    WorkShrinks(w.tasks, after.tasks, w.plan.tasks, maxTaskRetries);
  }

  lemma RoundKeepsCompleted(w: World, id: TaskId, e: Execution, maxTaskRetries: nat)
    requires StatusIn(w, id) == Pending
    ensures KeepsCompleted(w, Settled(w, id, e, maxTaskRetries))
    ensures NoneReady(w) ==> NoneReady(Settled(w, id, e, maxTaskRetries))
    ensures KeepsSettled(w, Settled(w, id, e, maxTaskRetries))
  {
    RoundStates(w, id, e, maxTaskRetries);
  }

  /** A launch from within budget stays within it, and so does a retry. */
  lemma {:induction false} RoundIsBudgeted(w: World, id: TaskId, e: Execution, maxTaskRetries: nat, extra: int)
    requires Budgeted(w, maxTaskRetries, extra) && InPlan(w.plan, id) && StatusIn(w, id) == Pending
    ensures AttemptsWithin(Launched(w, id), maxTaskRetries, extra)
    ensures Budgeted(Settled(w, id, e, maxTaskRetries), maxTaskRetries, extra)
  {
    RoundStates(w, id, e, maxTaskRetries);
  }

  lemma AmendedNoneReady(w: World, plan: Plan)
    requires NoneReady(w)
    ensures NoneReady(Amended(w, plan))
  {
    forall i | 0 <= i < |plan.tasks| ensures StatusIn(Amended(w, plan), plan.tasks[i].id) != Ready {
      AmendedState(w, plan, plan.tasks[i].id);
    }
  }

  // ---- Health of a run ----

  /** What each transition leaves behind. */
  ghost predicate Consistent(w: World, maxTaskRetries: nat, extra: int) {
    Simulated(w) && AttemptsWithin(w, maxTaskRetries, extra)
  }

  /** What holds between transitions of different phases. */
  ghost predicate Healthy(w: World, maxTaskRetries: nat, extra: int) {
    Simulated(w) && Budgeted(w, maxTaskRetries, extra)
  }

  /** Every world of the list agrees with its log, is within budget, and has a cause for each of its blocks. */
  ghost predicate Accounted(h: History, trace: seq<World>, maxTaskRetries: nat, extra: int) {
    forall w :: w in trace ==> Consistent(w, maxTaskRetries, extra) && BlocksExplained(h, w)
  }

  lemma AccountStays(h: History, more: History, trace: seq<World>, maxTaskRetries: nat, extra: int)
    requires Accounted(h, trace, maxTaskRetries, extra) && Continues(h, more)
    ensures Accounted(more, trace, maxTaskRetries, extra)
  {
    hide Consistent, BlocksExplained;
    forall v | v in trace ensures BlocksExplained(more, v) {
      ExplanationsStay(h, more, v);
    }
  }

  lemma AccountGrows(h: History, more: History, trace: seq<World>, w: World, maxTaskRetries: nat, extra: int)
    requires Accounted(h, trace, maxTaskRetries, extra) && Continues(h, more)
    requires Consistent(w, maxTaskRetries, extra) && BlocksExplained(more, w)
    ensures Accounted(more, trace + [w], maxTaskRetries, extra)
  {
    hide Consistent, BlocksExplained;
    forall v | v in trace + [w] ensures Consistent(v, maxTaskRetries, extra) && BlocksExplained(more, v) {
      if v in trace {
        ExplanationsStay(h, more, v);
      }
    }
  }

  lemma ListedInPlan(plan: Plan, n: nat)
    requires n <= |plan.tasks|
    ensures forall i :: 0 <= i < |plan.tasks[..n]| ==> InPlan(plan, plan.tasks[..n][i].id)
    ensures forall i :: 0 <= i < |plan.tasks[..n]| ==> plan.tasks[..n][i] in plan.tasks
  {
    forall i | 0 <= i < n ensures InPlan(plan, plan.tasks[..n][i].id) {
      assert plan.tasks[i].id == plan.tasks[..n][i].id;
    }
  }

  lemma BudgetFromStates(w: World, after: World, maxTaskRetries: nat, extra: int)
    requires Budgeted(w, maxTaskRetries, extra) && after.plan == w.plan && after.replans == w.replans
    requires forall id :: StateOf(after.tasks, id).attempt == StateOf(w.tasks, id).attempt
    requires forall id :: StatusIn(after, id) == StatusIn(w, id)
                       || (StatusIn(w, id) in {Pending, Running} && StatusIn(after, id) in {Pending, Blocked})
    ensures Budgeted(after, maxTaskRetries, extra)
  {}

  lemma RecoveredIsConsistent(w: World, n: nat, maxTaskRetries: nat, extra: int)
    requires Healthy(w, maxTaskRetries, extra) && n <= |w.plan.tasks|
    ensures Consistent(Recovered(w, w.plan.tasks[..n]), maxTaskRetries, extra)
    ensures Healthy(Recovered(w, w.plan.tasks[..n]), maxTaskRetries, extra)
  {
    ListedInPlan(w.plan, n);
    RecoveredFacts(w, w.plan.tasks[..n]);
    BudgetFromStates(w, Recovered(w, w.plan.tasks[..n]), maxTaskRetries, extra);
  }

  lemma RecoveryIsExplained(h: History, w: World, n: nat)
    requires BlocksExplained(h, w) && n <= |w.plan.tasks|
    ensures BlocksExplained(h, Recovered(w, w.plan.tasks[..n]))
  {
    ListedInPlan(w.plan, n);
    RecoveredFacts(w, w.plan.tasks[..n]);
    NothingNewBlocked(h, w, Recovered(w, w.plan.tasks[..n]));
  }

  lemma SweptIsConsistent(w: World, n: nat, maxTaskRetries: nat, extra: int)
    requires Healthy(w, maxTaskRetries, extra) && n <= |w.plan.tasks|
    ensures Consistent(Swept(w, w.plan.tasks[..n]), maxTaskRetries, extra)
    ensures Healthy(Swept(w, w.plan.tasks[..n]), maxTaskRetries, extra)
  {
    ListedInPlan(w.plan, n);
    SweptFacts(w, w.plan.tasks[..n]);
    SweptSimulates(w, w.plan.tasks[..n]);
    BudgetFromStates(w, Swept(w, w.plan.tasks[..n]), maxTaskRetries, extra);
  }

  /** Both worlds of a round are consistent. */
  lemma RoundIsHealthy(w: World, id: TaskId, e: Execution, maxTaskRetries: nat, extra: int)
    requires Healthy(w, maxTaskRetries, extra) && InPlan(w.plan, id) && StatusIn(w, id) == Pending
    ensures Consistent(Launched(w, id), maxTaskRetries, extra)
    ensures Consistent(Settled(w, id, e, maxTaskRetries), maxTaskRetries, extra)
    ensures Healthy(Settled(w, id, e, maxTaskRetries), maxTaskRetries, extra)
  {
    RoundSimulates(w, id, e, maxTaskRetries);
    RoundIsBudgeted(w, id, e, maxTaskRetries, extra);
  }

  /** Side events and replan requests change nothing but the log. */
  lemma QuietIsHealthy(w: World, h: History, id: TaskId, side: seq<SideEvent>, maxTaskRetries: nat, extra: int)
    requires Healthy(w, maxTaskRetries, extra) && BlocksExplained(h, w)
    ensures Healthy(Noted(w, side), maxTaskRetries, extra) && BlocksExplained(h, Noted(w, side))
    ensures Healthy(Requested(w, id), maxTaskRetries, extra) && BlocksExplained(h, Requested(w, id))
  {
    NotedKeepsSimulation(w, side);
    RequestedKeepsSimulation(w, id);
    NothingNewBlocked(h, w, Noted(w, side));
    NothingNewBlocked(h, w, Requested(w, id));
  }

  lemma AmendedIsHealthy(w: World, plan: Plan, maxTaskRetries: nat, extra: int)
    requires Healthy(w, maxTaskRetries, extra)
    ensures Consistent(Amended(w, plan), maxTaskRetries, extra) && Healthy(Amended(w, plan), maxTaskRetries, extra)
  {
    AmendedKeepsSimulation(w, plan);
    AmendedIsBudgeted(w, plan, maxTaskRetries, extra);
  }

  lemma CompletedSelf(w: World)
    ensures KeepsCompleted(w, w)
  {}

  lemma CompletedTwice(a: World, b: World, c: World)
    requires KeepsCompleted(a, b) && KeepsCompleted(b, c)
    ensures KeepsCompleted(a, c)
  {}

  /** No launch since the n-th is of a task that was completed in `w`. */
  ghost predicate SparesCompleted(w: World, launches: seq<Launch>, n: nat) {
    forall k :: n <= k < |launches| ==> KeepsCompleted(w, launches[k].before)
  }

  lemma SparedTwice(a: World, b: World, launches: seq<Launch>, n: nat, more: seq<Launch>)
    requires KeepsCompleted(a, b) && SparesCompleted(a, launches, n) && SparesCompleted(b, more, |launches|)
    requires launches <= more
    ensures SparesCompleted(a, more, n)
  {
    hide KeepsCompleted;
    forall k | n <= k < |more| ensures KeepsCompleted(a, more[k].before) {
      if k >= |launches| {
        CompletedTwice(a, b, more[k].before);
      }
    }
  }

  // ---- What a run launches again, and what it gives up ----

  /** The launch was of an execution that failed. */
  predicate FailedLaunch(launch: Launch) {
    launch.execution.Finished? && launch.execution.status == EFailed
  }

  /** From the n-th launch on, a task is launched again only after launches of it that failed. */
  ghost predicate OnlyFailuresAgain(launches: seq<Launch>, n: nat) {
    forall k, m :: n <= k < m < |launches| && launches[k].id == launches[m].id ==> FailedLaunch(launches[k])
  }

  /** A task whose execution did not fail is not, afterwards, one that can be launched. */
  ghost predicate StaySettled(w: World, launches: seq<Launch>, n: nat) {
    forall k :: n <= k < |launches| && !FailedLaunch(launches[k]) ==> StatusIn(w, launches[k].id) !in {Pending, Running}
  }

  ghost predicate Relaunches(w: World, launches: seq<Launch>, n: nat) {
    OnlyFailuresAgain(launches, n) && StaySettled(w, launches, n)
  }

  lemma NothingRelaunched(w: World, launches: seq<Launch>)
    ensures Relaunches(w, launches, |launches|)
  {}

  lemma RelaunchesKept(w: World, after: World, launches: seq<Launch>, n: nat)
    requires Relaunches(w, launches, n) && KeepsSettled(w, after) && after.replans == w.replans
    ensures Relaunches(after, launches, n)
  {
    forall k | n <= k < |launches| && !FailedLaunch(launches[k]) ensures StatusIn(after, launches[k].id) !in {Pending, Running} {
      assert StatusIn(w, launches[k].id) !in {Pending, Running};
    }
  }

  /** A launch of a pending task that leaves it settled unless it failed. */
  lemma OneMoreLaunch(w: World, launches: seq<Launch>, launch: Launch, after: World, n: nat)
    requires n <= |launches| && Relaunches(w, launches, n) && KeepsSettled(w, launch.before) && launch.before.replans == w.replans
    requires StatusIn(launch.before, launch.id) == Pending
    requires KeepsSettled(launch.before, after) && after.replans == w.replans
    requires !FailedLaunch(launch) ==> StatusIn(after, launch.id) !in {Pending, Running}
    ensures Relaunches(after, launches + [launch], n)
  {
    RelaunchesKept(w, launch.before, launches, n);
    RelaunchesKept(launch.before, after, launches, n);
    var more := launches + [launch];
    forall k, m | n <= k < m < |more| && more[k].id == more[m].id ensures FailedLaunch(more[k]) {
      if m == |launches| {
        assert more[k] == launches[k];
        assert StatusIn(launch.before, launches[k].id) == Pending;
      }
    }
  }

  /** From the n-th launch on, nothing is launched after a launch whose request was withdrawn. */
  ghost predicate NothingAfterWithdrawal(launches: seq<Launch>, n: nat) {
    forall k :: n <= k < |launches| - 1 ==> !Withdrawn(launches[k].execution)
  }

  ghost predicate SomeWithdrawn(launches: seq<Launch>, n: nat) {
    exists k :: n <= k < |launches| && Withdrawn(launches[k].execution)
  }

  lemma NoneWithdrawnYet(launches: seq<Launch>)
    ensures NothingAfterWithdrawal(launches, |launches|) && !SomeWithdrawn(launches, |launches|)
  {}

  lemma WithdrawnOrNot(launches: seq<Launch>, launch: Launch, n: nat)
    requires n <= |launches| && NothingAfterWithdrawal(launches, n) && !SomeWithdrawn(launches, n)
    ensures NothingAfterWithdrawal(launches + [launch], n)
    ensures SomeWithdrawn(launches + [launch], n) <==> Withdrawn(launch.execution)
  {
    hide Withdrawn;
    var more := launches + [launch];
    assert more[|launches|] == launch;
    assert forall k :: 0 <= k < |launches| ==> more[k] == launches[k];
  }

  /** The tasks whose launches failed with no retries left, in order. */
  ghost function GivenUp(launches: seq<Launch>, maxTaskRetries: nat): seq<TaskId> {
    if launches == [] then []
    else
      var n := |launches| - 1;
      var last := launches[n];
      GivenUp(launches[..n], maxTaskRetries)
      + if FailedLaunch(last) && StateOf(last.before.tasks, last.id).attempt >= maxTaskRetries then [last.id] else []
  }

  /** Some task is pending, and some pending task has all its dependencies completed or skipped. */
  predicate HasPending(w: World) {
    exists i :: 0 <= i < |w.plan.tasks| && Pends(w, w.plan.tasks[i])
  }

  predicate HasReady(w: World) {
    exists i :: 0 <= i < |w.plan.tasks| && Pends(w, w.plan.tasks[i]) && Unhindered(w, w.plan.tasks[i])
  }

  lemma ReadyMeans(w: World)
    ensures HasReady(w) <==> exists i :: 0 <= i < |w.plan.tasks| && Pends(w, w.plan.tasks[i]) && IsReady(w, w.plan.tasks[i])
  {
    forall t: Task ensures IsReady(w, t) <==> Unhindered(w, t) {
      HinderedMeans(w, t);
    }
    hide IsReady, Unhindered;
  }

  /** The two opening phases of a round, taken together. */
  lemma {:induction false} PreparationCalms(w: World, maxTaskRetries: nat)
    ensures var after := Swept(Recovered(w, w.plan.tasks), w.plan.tasks);
            && Calmer(w, after, maxTaskRetries) && NoneRunning(after)
            && (UniqueIds(w.plan) && DependenciesListedFirst(w.plan) && NoneReady(w) && HasPending(after) ==> HasReady(after))
  {
    var recovered := Recovered(w, w.plan.tasks);
    RecoveryCalms(w, maxTaskRetries);
    SweepCalms(recovered, maxTaskRetries);
    if UniqueIds(w.plan) && DependenciesListedFirst(w.plan) && NoneReady(w) && HasPending(Swept(recovered, w.plan.tasks)) {
      SweepLeavesReadyWork(recovered);
      ReadyMeans(Swept(recovered, w.plan.tasks));
    }
    CompletedTwice(w, recovered, Swept(recovered, w.plan.tasks));
    SettledTwice(w, recovered, Swept(recovered, w.plan.tasks));
  }

  /** The task failed at some point of the run, with every retry used. */
  ghost predicate Exhausted(trace: seq<World>, id: TaskId, maxTaskRetries: nat) {
    exists w :: w in trace && StatusIn(w, id) == Failed && StateOf(w.tasks, id).attempt > maxTaskRetries
  }

  ghost predicate AllExhausted(trace: seq<World>, ids: seq<TaskId>, maxTaskRetries: nat) {
    forall id :: id in ids ==> Exhausted(trace, id, maxTaskRetries)
  }

  lemma ExhaustionsCarry(trace: seq<World>, longer: seq<World>, ids: seq<TaskId>, maxTaskRetries: nat)
    requires trace <= longer && AllExhausted(trace, ids, maxTaskRetries)
    ensures AllExhausted(longer, ids, maxTaskRetries)
  {
    forall id | id in ids ensures Exhausted(longer, id, maxTaskRetries) {
      var w :| w in trace && StatusIn(w, id) == Failed && StateOf(w.tasks, id).attempt > maxTaskRetries;
      assert w in longer;
    }
  }

  lemma OneMoreExhausted(trace: seq<World>, ids: seq<TaskId>, w: World, id: TaskId, e: Execution, maxTaskRetries: nat)
    requires AllExhausted(trace, ids, maxTaskRetries) && Settled(w, id, e, maxTaskRetries) in trace
    requires StatusIn(Settled(w, id, e, maxTaskRetries), id) == Failed
    ensures AllExhausted(trace, ids + [id], maxTaskRetries)
  {
    RoundStates(w, id, e, maxTaskRetries);
    assert Exhausted(trace, id, maxTaskRetries);
  }

  // ---- When a round deadlocks ----

  /** Dependencies are tasks of the plan, and each has a lower rank: the plan is acyclic. */
  ghost predicate Acyclic(plan: Plan, rank: TaskId -> nat) {
    forall id, d :: DependsOn(plan, id, d) ==> InPlan(plan, d) && rank(d) < rank(id)
  }

  /** Behind a task that blocks, over tasks that are themselves pending or blocking. */
  ghost predicate Hopeless(w: World, id: TaskId) {
    exists path :: HopelessPath(w, path) && path[0] == id
  }

  predicate HopelessPath(w: World, path: seq<TaskId>) {
    && Leads(w.plan, path) && StatusIn(w, path[|path| - 1]) in {Failed, Blocked, Cancelled, NeedsReplan}
    && forall k :: 0 < k < |path| ==> StatusIn(w, path[k]) in {Pending, Failed, Blocked, Cancelled, NeedsReplan}
  }

  lemma {:induction false} PendingIsHopeless(w: World, t: Task, rank: TaskId -> nat)
    requires Acyclic(w.plan, rank) && NoneReady(w) && NoneRunning(w) && !HasReady(w)
    requires t in w.plan.tasks && Pends(w, t)
    ensures Hopeless(w, t.id)
    decreases rank(t.id)
  {
    ReadyMeans(w);
    var i :| 0 <= i < |w.plan.tasks| && w.plan.tasks[i] == t;
    assert !IsReady(w, t);
    var k :| 0 <= k < |t.dependsOn| && !(InPlan(w.plan, t.dependsOn[k]) && Released(StatusIn(w, t.dependsOn[k])));
    var d := t.dependsOn[k];
    assert DependsOn(w.plan, t.id, d);
    var j :| 0 <= j < |w.plan.tasks| && w.plan.tasks[j].id == d;
    var path := [t.id, d];
    assert Leads(w.plan, path);
    if Blocking(StatusIn(w, d)) {
      assert HopelessPath(w, path);
    } else {
      assert Pends(w, w.plan.tasks[j]);
      PendingIsHopeless(w, w.plan.tasks[j], rank);
      HopelessFurther(w, t.id, d);
    }
  }

  lemma HopelessFurther(w: World, id: TaskId, dependency: TaskId)
    requires DependsOn(w.plan, id, dependency) && StatusIn(w, dependency) == Pending && Hopeless(w, dependency)
    ensures Hopeless(w, id)
  {
    hide DependsOn;
    var path :| HopelessPath(w, path) && path[0] == dependency;
    var longer := [id] + path;
    assert forall k :: 0 <= k < |longer| - 1 ==> longer[k + 1] == path[k];
    assert Leads(w.plan, longer) && HopelessPath(w, longer);
  }

  lemma HopelessIsNotReady(w: World, t: Task)
    requires UniqueIds(w.plan) && t in w.plan.tasks && Hopeless(w, t.id)
    ensures !IsReady(w, t)
  {
    var path :| HopelessPath(w, path) && path[0] == t.id;
    assert DependsOn(w.plan, path[0], path[1]);
    var i :| 0 <= i < |w.plan.tasks| && w.plan.tasks[i].id == t.id && path[1] in w.plan.tasks[i].dependsOn;
    var j :| 0 <= j < |w.plan.tasks| && w.plan.tasks[j] == t;
    assert i == j;
    var k :| 0 <= k < |t.dependsOn| && t.dependsOn[k] == path[1];
    assert !Released(StatusIn(w, t.dependsOn[k]));
  }

  /** In an acyclic plan with unique ids, no task can be launched exactly when every pending one is behind one that blocks. */
  lemma NoneReadyMeansHopeless(w: World, rank: TaskId -> nat)
    requires Acyclic(w.plan, rank) && UniqueIds(w.plan) && NoneReady(w) && NoneRunning(w)
    ensures !HasReady(w) <==> forall t <- w.plan.tasks :: Pends(w, t) ==> Hopeless(w, t.id)
  {
    ReadyMeans(w);
    if !HasReady(w) {
      forall t | t in w.plan.tasks && Pends(w, t) ensures Hopeless(w, t.id) {
        PendingIsHopeless(w, t, rank);
      }
    } else {
      var i :| 0 <= i < |w.plan.tasks| && Pends(w, w.plan.tasks[i]) && IsReady(w, w.plan.tasks[i]);
      assert w.plan.tasks[i] in w.plan.tasks;
      if Hopeless(w, w.plan.tasks[i].id) {
        HopelessIsNotReady(w, w.plan.tasks[i]);
      }
    }
  }

  /**
   * What one sweep in plan order gets to: along the path each pending task depends on the next, which stands earlier in
   * the list, and the last depends on a task that blocks.
   */
  predicate SweepPath(w: World, path: seq<nat>) {
    && path != []
    && (forall k :: 0 <= k < |path| ==> path[k] < |w.plan.tasks| && Pends(w, w.plan.tasks[path[k]]))
    && (forall k :: 0 <= k < |path| - 1 ==> Earlier(w.plan, path[k], path[k + 1]))
    && Hindered(w, w.plan.tasks[path[|path| - 1]])
  }

  predicate Earlier(plan: Plan, i: nat, j: nat) {
    j < i < |plan.tasks| && plan.tasks[j].id in plan.tasks[i].dependsOn
  }

  ghost predicate InReach(w: World, i: nat) {
    exists path :: SweepPath(w, path) && path[0] == i
  }

  lemma ReachCut(w: World, path: seq<nat>)
    requires SweepPath(w, path) && |path| > 1
    ensures SweepPath(w, path[1..])
  {
    hide Pends, Hindered, Earlier;
    var rest := path[1..];
    assert forall k :: 0 <= k < |rest| ==> rest[k] == path[k + 1];
  }

  lemma ReachLonger(w: World, i: nat, path: seq<nat>)
    requires i < |w.plan.tasks| && Pends(w, w.plan.tasks[i]) && SweepPath(w, path) && Earlier(w.plan, i, path[0])
    ensures SweepPath(w, [i] + path)
  {
    hide Pends, Hindered, Earlier;
    var longer := [i] + path;
    assert forall k :: 0 <= k < |path| ==> longer[k + 1] == path[k];
    forall k | 0 <= k < |longer| - 1 ensures Earlier(w.plan, longer[k], longer[k + 1]) {
      assert k > 0 ==> longer[k] == path[k - 1];
    }
  }

  lemma ReachStep(w: World, i: nat)
    requires i < |w.plan.tasks| && Pends(w, w.plan.tasks[i])
    ensures InReach(w, i) <==>
              HasBlockedDependency(w, w.plan.tasks[i])
              || exists j: nat :: Earlier(w.plan, i, j) && Pends(w, w.plan.tasks[j]) && InReach(w, j)
  {
    HinderedMeans(w, w.plan.tasks[i]);
    if InReach(w, i) {
      var path :| SweepPath(w, path) && path[0] == i;
      if |path| > 1 {
        ReachCut(w, path);
        assert path[1..][0] == path[1];
        assert Earlier(w.plan, path[0], path[1]) && InReach(w, path[1]);
      }
    }
    if HasBlockedDependency(w, w.plan.tasks[i]) {
      assert SweepPath(w, [i]);
    }
    hide HasBlockedDependency, Hindered;
    if j: nat :| Earlier(w.plan, i, j) && Pends(w, w.plan.tasks[j]) && InReach(w, j) {
      var path :| SweepPath(w, path) && path[0] == j;
      hide SweepPath;
      ReachLonger(w, i, path);
      assert ([i] + path)[0] == i;
    }
  }

  lemma {:induction false} NotYetSwept(w: World, n: nat, id: TaskId)
    requires n <= |w.plan.tasks| && !Listed(w.plan.tasks[..n], id)
    ensures StatusIn(Swept(w, w.plan.tasks[..n]), id) == StatusIn(w, id)
  {
    SweptNone(w);
    if n > 0 {
      hide Swept;
      assert w.plan.tasks[..n][n - 1] == w.plan.tasks[n - 1];
      assert forall k :: 0 <= k < n - 1 ==> w.plan.tasks[..n][k] == w.plan.tasks[..n - 1][k];
      NotYetSwept(w, n - 1, id);
      SweptStep(w, n);
    }
  }

  lemma {:induction false} SweptForGood(w: World, j: nat, n: nat)
    requires j < n <= |w.plan.tasks| && UniqueIds(w.plan)
    ensures var id := w.plan.tasks[j].id;
            StatusIn(Swept(w, w.plan.tasks[..n]), id) == StatusIn(Swept(w, w.plan.tasks[..j + 1]), id)
  {
    hide Swept;
    if j + 1 < n {
      SweptForGood(w, j, n - 1);
      SweptStep(w, n);
    }
  }

  lemma AloneAt(plan: Plan, i: nat)
    requires i < |plan.tasks| && UniqueIds(plan)
    ensures !Listed(plan.tasks[..i], plan.tasks[i].id)
  {}

  /** The events of a sweep that led to `after`: one for each task it blocked, in plan order. */
  function BlockEvents(w: World, after: World, tasks: seq<Task>): seq<Event> {
    if tasks == [] then []
    else
      var id := tasks[|tasks| - 1].id;
      var failure := StateOf(w.tasks, id).failure;
      BlockEvents(w, after, tasks[..|tasks| - 1])
      + if StatusIn(w, id) == Pending && StatusIn(after, id) == Blocked then
          [TaskBlocked(id, Some(StateOf(w.tasks, id).attempt), if failure.Some? then failure else Some(Failure("TASK_BLOCKED", "blocked")))]
        else []
  }

  lemma {:induction false} BlockEventsSame(w: World, a: World, b: World, tasks: seq<Task>)
    requires forall t <- tasks :: StatusIn(a, t.id) == StatusIn(b, t.id)
    ensures BlockEvents(w, a, tasks) == BlockEvents(w, b, tasks)
  {
    if tasks != [] {
      BlockEventsSame(w, a, b, tasks[..|tasks| - 1]);
      assert tasks[|tasks| - 1] in tasks;
    }
  }

  lemma SweptEvent(w: World, before: World, t: Task)
    requires StateOf(before.tasks, t.id) == StateOf(w.tasks, t.id) && StatusIn(w, t.id) == Pending
    ensures Transit(before, t.id, StateOf(before.tasks, t.id).(status := Blocked)).log
            == before.log + (var failure := StateOf(w.tasks, t.id).failure;
                             [TaskBlocked(t.id, Some(StateOf(w.tasks, t.id).attempt),
                                          if failure.Some? then failure else Some(Failure("TASK_BLOCKED", "blocked")))])
  {}

  lemma EarlierSame(w: World, n: nat)
    requires 0 < n <= |w.plan.tasks| && UniqueIds(w.plan)
    ensures forall u <- w.plan.tasks[..n - 1] ::
              StatusIn(Swept(w, w.plan.tasks[..n - 1]), u.id) == StatusIn(Swept(w, w.plan.tasks[..n]), u.id)
    ensures StateOf(Swept(w, w.plan.tasks[..n - 1]).tasks, w.plan.tasks[n - 1].id) == StateOf(w.tasks, w.plan.tasks[n - 1].id)
  {
    SweptStep(w, n);
    AloneAt(w.plan, n - 1);
    NotYetSwept(w, n - 1, w.plan.tasks[n - 1].id);
    SweptFacts(w, w.plan.tasks[..n - 1]);
    hide Swept;
  }

  /** The sweep logs a block for each task it blocks, in plan order, with the failure on record, and nothing else. */
  lemma {:induction false} SweptLog(w: World, n: nat)
    requires n <= |w.plan.tasks| && UniqueIds(w.plan)
    ensures var after := Swept(w, w.plan.tasks[..n]); after.log == w.log + BlockEvents(w, after, w.plan.tasks[..n])
  {
    hide Swept, UniqueIds, HasBlockedDependency, Transit, StateOf;
    SweptNone(w);
    if n > 0 {
      var tasks := w.plan.tasks;
      var t, before, after := tasks[n - 1], Swept(w, tasks[..n - 1]), Swept(w, tasks[..n]);
      SweptLog(w, n - 1);
      SweptOneMore(w, n - 1);
      EarlierSame(w, n);
      BlockEventsSame(w, before, after, tasks[..n - 1]);
      assert tasks[..n][..n - 1] == tasks[..n - 1] && tasks[..n][n - 1] == t;
      if StatusIn(before, t.id) == Pending && HasBlockedDependency(before, t) {
        SweptEvent(w, before, t);
        StateMoved(before, t.id);
      }
    }
  }

  lemma StateMoved(w: World, id: TaskId)
    ensures StatusIn(Transit(w, id, StateOf(w.tasks, id).(status := Blocked)), id) == Blocked
  {}

  /** When the sweep comes to a task, a dependency blocks it that blocked before, or that the sweep has blocked. */
  lemma BlockedOnTheWay(w: World, i: nat)
    requires i < |w.plan.tasks| && UniqueIds(w.plan)
    ensures var before := Swept(w, w.plan.tasks[..i]);
            HasBlockedDependency(before, w.plan.tasks[i]) <==>
              || HasBlockedDependency(w, w.plan.tasks[i])
              || exists j: nat :: Earlier(w.plan, i, j) && Pends(w, w.plan.tasks[j]) && Blocking(StatusIn(before, w.plan.tasks[j].id))
  {
    var t, before := w.plan.tasks[i], Swept(w, w.plan.tasks[..i]);
    SweptFacts(w, w.plan.tasks[..i]);
    hide Swept, UniqueIds;
    if HasBlockedDependency(before, t) && !HasBlockedDependency(w, t) {
      var k :| 0 <= k < |t.dependsOn| && InPlan(w.plan, t.dependsOn[k]) && Blocking(StatusIn(before, t.dependsOn[k]));
      var j := SweptBefore(w, i, t.dependsOn[k]);
      assert Earlier(w.plan, i, j);
    }
    if j: nat :| Earlier(w.plan, i, j) && Pends(w, w.plan.tasks[j]) && Blocking(StatusIn(before, w.plan.tasks[j].id)) {
      var k :| 0 <= k < |t.dependsOn| && t.dependsOn[k] == w.plan.tasks[j].id;
      assert InPlan(w.plan, t.dependsOn[k]) && HasBlockedDependency(before, t);
    }
    if HasBlockedDependency(w, t) {
      var k :| 0 <= k < |t.dependsOn| && InPlan(w.plan, t.dependsOn[k]) && Blocking(StatusIn(w, t.dependsOn[k]));
      assert HasBlockedDependency(before, t);
    }
  }

  /** The sweep blocks a pending task if and only if it is in reach. */
  lemma {:induction false} SweepReaches(w: World, i: nat, n: nat)
    requires i < n <= |w.plan.tasks| && UniqueIds(w.plan) && Pends(w, w.plan.tasks[i])
    ensures StatusIn(Swept(w, w.plan.tasks[..n]), w.plan.tasks[i].id) == if InReach(w, i) then Blocked else Pending
    decreases i
  {
    var t, before := w.plan.tasks[i], Swept(w, w.plan.tasks[..i]);
    SweptForGood(w, i, n);
    SweptOneMore(w, i);
    AloneAt(w.plan, i);
    NotYetSwept(w, i, t.id);
    ReachStep(w, i);
    BlockedOnTheWay(w, i);
    hide Swept, InReach, UniqueIds, HasBlockedDependency;
    forall j: nat | Earlier(w.plan, i, j) && Pends(w, w.plan.tasks[j])
      ensures Blocking(StatusIn(before, w.plan.tasks[j].id)) <==> InReach(w, j)
    {
      SweepReaches(w, j, i);
    }
  }

  lemma SweptBefore(w: World, i: nat, id: TaskId) returns (j: nat)
    requires i <= |w.plan.tasks| && StatusIn(Swept(w, w.plan.tasks[..i]), id) != StatusIn(w, id)
    ensures j < i && w.plan.tasks[j].id == id && Pends(w, w.plan.tasks[j])
  {
    SweptFacts(w, w.plan.tasks[..i]);
    if !Listed(w.plan.tasks[..i], id) {
      NotYetSwept(w, i, id);
    }
    j := Position(w.plan.tasks[..i], id);
  }

  lemma InReachIsNotReady(w: World, i: nat)
    requires i < |w.plan.tasks| && Pends(w, w.plan.tasks[i]) && InReach(w, i)
    ensures !IsReady(w, w.plan.tasks[i])
  {
    ReachStep(w, i);
    var t := w.plan.tasks[i];
    if j: nat :| Earlier(w.plan, i, j) && Pends(w, w.plan.tasks[j]) && InReach(w, j) {
      var k :| 0 <= k < |t.dependsOn| && t.dependsOn[k] == w.plan.tasks[j].id;
      assert !Released(StatusIn(w, t.dependsOn[k]));
    }
  }

  lemma SweepKeepsReadiness(w: World, t: Task)
    ensures IsReady(Swept(w, w.plan.tasks), t) <==> IsReady(w, t)
  {
    SweptFacts(w, w.plan.tasks);
  }

  lemma SweepFindsNoWork(w: World)
    requires UniqueIds(w.plan)
    ensures var after := Swept(w, w.plan.tasks);
            && (HasReady(after) <==> HasReady(w))
            && (HasPending(after) <==> exists i: nat :: i < |w.plan.tasks| && Pends(w, w.plan.tasks[i]) && !InReach(w, i))
  {
    var tasks, after := w.plan.tasks, Swept(w, w.plan.tasks);
    assert tasks[..|tasks|] == tasks;
    SweptFacts(w, tasks);
    ReadyMeans(w);
    ReadyMeans(after);
    hide Swept, InReach, IsReady, UniqueIds, HasReady;
    forall i: nat | i < |tasks| ensures Pends(after, tasks[i]) <==> Pends(w, tasks[i]) && !InReach(w, i) {
      if Pends(w, tasks[i]) {
        SweepReaches(w, i, |tasks|);
      }
    }
    forall i: nat | i < |tasks| ensures Pends(after, tasks[i]) && IsReady(after, tasks[i]) <==> Pends(w, tasks[i]) && IsReady(w, tasks[i]) {
      SweepKeepsReadiness(w, tasks[i]);
      if Pends(w, tasks[i]) && InReach(w, i) {
        InReachIsNotReady(w, i);
      }
    }
  }

  /**
   * For acyclic plans, told from the world a round starts from, where interrupted tasks count as pending: the round finds
   * pending work and none to launch if and only if every pending task is behind one that blocks, and some pending task
   * is out of the reach of the one sweep in plan order.
   */
  lemma DeadlockMeansMissed(w: World, rank: TaskId -> nat)
    requires Acyclic(w.plan, rank) && UniqueIds(w.plan) && NoneReady(w)
    ensures var tasks, start := w.plan.tasks, Recovered(w, w.plan.tasks);
            var after := Swept(start, tasks);
            HasPending(after) && !HasReady(after) <==>
              && (forall t <- tasks :: Pends(start, t) ==> Hopeless(start, t.id))
              && (exists i: nat :: i < |tasks| && Pends(start, tasks[i]) && !InReach(start, i))
  {
    var start := Recovered(w, w.plan.tasks);
    RecoveryCalms(w, 0);
    CalmerMeans(w, start, 0);
    SweepFindsNoWork(start);
    NoneReadyMeansHopeless(start, rank);
    hide *;
  }

  /**
   * The order matters, in a run from its start: with dependents listed first, the only task that can be launched fails
   * for good, the next sweep blocks its dependent but passes the one before, and nothing can be launched.
   */
  lemma UnorderedPlanStalls(a: TaskId, b: TaskId, c: TaskId, message: string)
    requires a != b && b != c && a != c
    ensures var plan := Plan([Task(a, [b]), Task(b, [c]), Task(c, [])]);
            var start := Started(plan, []);
            var failed := Settled(start, c, Finished(EFailed, message, None, [], None), 0);
            var after := Swept(Recovered(failed, plan.tasks), plan.tasks);
            && Swept(Recovered(start, plan.tasks), plan.tasks) == start
            && IsReady(start, plan.tasks[2]) && !IsReady(start, plan.tasks[0]) && !IsReady(start, plan.tasks[1])
            && HasPending(after) && !HasReady(after)
  {
    var t1, t2, t3 := Task(a, [b]), Task(b, [c]), Task(c, []);
    var plan := Plan([t1, t2, t3]);
    FirstStatuses(plan, a, b, c);
    FailedStatuses(Started(plan, []), c, message);
    hide Swept, Recovered, Settled, Started, Verdict, HasBlockedDependency, IsReady, InPlan, StatusIn;
    OnlyLastIsReady(Started(plan, []), t1, t2, t3);
    StalledAfterFailure(Settled(Started(plan, []), c, Finished(EFailed, message, None, [], None), 0), t1, t2, t3);
  }

  lemma FailedStatuses(w: World, id: TaskId, message: string)
    requires StatusIn(w, id) == Pending && StateOf(w.tasks, id).attempt == 0
    ensures var after := Settled(w, id, Finished(EFailed, message, None, [], None), 0);
            after.plan == w.plan && StatusIn(after, id) == Failed && forall other :: other != id ==> StatusIn(after, other) == StatusIn(w, other)
  {
    RoundStates(w, id, Finished(EFailed, message, None, [], None), 0);
    hide Settled, Launched;
  }

  lemma {:induction false} NothingToSweep(w: World, tasks: seq<Task>)
    requires forall t <- tasks :: !HasBlockedDependency(w, t)
    ensures Swept(w, tasks) == w
  {
    if tasks != [] {
      NothingToSweep(w, tasks[..|tasks| - 1]);
      assert tasks[|tasks| - 1] in tasks;
    }
  }

  lemma OnlyLastIsReady(w: World, t1: Task, t2: Task, t3: Task)
    requires w.plan == Plan([t1, t2, t3])
    requires StatusIn(w, t1.id) == StatusIn(w, t2.id) == StatusIn(w, t3.id) == Pending
    requires t1.dependsOn == [t2.id] && t2.dependsOn == [t3.id] && t3.dependsOn == []
    ensures Swept(Recovered(w, w.plan.tasks), w.plan.tasks) == w
    ensures IsReady(w, t3) && !IsReady(w, t1) && !IsReady(w, t2)
  {
    hide Swept, Recovered, HasBlockedDependency, IsReady, InPlan;
    OneDependency(w, t1, t2.id);
    OneDependency(w, t2, t3.id);
    NoDependency(w, t3);
    NothingToRecover(w, w.plan.tasks);
    NothingToSweep(w, w.plan.tasks);
  }

  /** The first task is out of reach: nothing stands earlier in the list, and its dependency does not block yet. */
  lemma StalledAfterFailure(w: World, t1: Task, t2: Task, t3: Task)
    requires w.plan == Plan([t1, t2, t3]) && t1.id != t2.id && t2.id != t3.id && t1.id != t3.id
    requires StatusIn(w, t1.id) == StatusIn(w, t2.id) == Pending && StatusIn(w, t3.id) == Failed
    requires t1.dependsOn == [t2.id] && t2.dependsOn == [t3.id] && t3.dependsOn == []
    ensures var after := Swept(Recovered(w, w.plan.tasks), w.plan.tasks); HasPending(after) && !HasReady(after)
  {
    hide Swept, Recovered, HasBlockedDependency, IsReady, InPlan, InReach, UniqueIds, HasPending, HasReady;
    NothingToRecover(w, w.plan.tasks);
    OneDependency(w, t1, t2.id);
    OneDependency(w, t2, t3.id);
    ThreeUnique(t1, t2, t3);
    SweepFindsNoWork(w);
    NoneOfThreeReady(w, t1, t2, t3);
    ReachStep(w, 0);
  }

  lemma ThreeUnique(t1: Task, t2: Task, t3: Task)
    requires t1.id != t2.id && t2.id != t3.id && t1.id != t3.id
    ensures UniqueIds(Plan([t1, t2, t3]))
  {}

  lemma NoneOfThreeReady(w: World, t1: Task, t2: Task, t3: Task)
    requires w.plan == Plan([t1, t2, t3]) && !IsReady(w, t1) && !IsReady(w, t2) && !Pends(w, t3)
    ensures !HasReady(w)
  {
    ReadyMeans(w);
    hide IsReady, Pends, HasReady;
  }

  lemma FirstStatuses(plan: Plan, a: TaskId, b: TaskId, c: TaskId)
    ensures StateOf(Started(plan, []).tasks, c).attempt == 0 && Started(plan, []).plan == plan
    ensures StatusIn(Started(plan, []), a) == StatusIn(Started(plan, []), b) == StatusIn(Started(plan, []), c) == Pending
  {}

  lemma OneDependency(w: World, t: Task, d: TaskId)
    requires t.dependsOn == [d]
    ensures HasBlockedDependency(w, t) <==> InPlan(w.plan, d) && Blocking(StatusIn(w, d))
    ensures IsReady(w, t) <==> InPlan(w.plan, d) && Released(StatusIn(w, d))
  {
    assert t.dependsOn[0] == d;
    hide InPlan;
  }

  lemma NoDependency(w: World, t: Task)
    requires t.dependsOn == []
    ensures !HasBlockedDependency(w, t) && IsReady(w, t)
  {}
}
