/**
 * apply.ts: the lifecycle transitions of a sequential run and what each of them writes to the event log,
 * with the simulation between the live state and the state projected from the log.
 */
module Transitions {
  import opened Wrappers
  import opened RunState

  /** What a run holds in memory (`plan`, `tasks`, `replans`) and on disk (`log`). */
  datatype World = World(plan: Plan, tasks: map<TaskId, TaskState>, replans: nat, log: seq<Event>)

  function Projected(log: seq<Event>): map<TaskId, TaskState> {
    Fold(RunState(map[], 0, 0), log).tasks
  }

  predicate Listed(tasks: seq<Task>, id: TaskId) {
    exists i :: 0 <= i < |tasks| && tasks[i].id == id
  }

  predicate InPlan(plan: Plan, id: TaskId) {
    Listed(plan.tasks, id)
  }

  function StatusIn(w: World, id: TaskId): TaskStatus {
    StateOf(w.tasks, id).status
  }

  // ---- One transition ----

  function EventsOf(id: TaskId, next: TaskState): seq<Event> {
    match next.status
    case Ready => [TaskReady(id, Some(next.attempt))]
    case Running => [TaskReady(id, Some(next.attempt)), TaskStarted(id, Some(next.attempt))]
    case Completed => [TaskCompleted(id, Some(next.attempt))]
    case Failed =>
      [TaskFailed(id, Some(next.attempt), if next.failure.Some? then next.failure else Some(Failure("TASK_FAILED", "failed")))]
    case Blocked =>
      [TaskBlocked(id, Some(next.attempt), if next.failure.Some? then next.failure else Some(Failure("TASK_BLOCKED", "blocked")))]
    case NeedsReplan => [TaskNeedsReplan(id)]
    case _ => []
  }

  /** A recorded failure survives later transitions of its task; a completion also keeps the committed revision. */
  function Merged(previous: TaskState, nextIn: TaskState): TaskState {
    var next := if previous.failure.Some? && nextIn.failure.None? then nextIn.(failure := previous.failure) else nextIn;
    if next.status == Completed && previous.revision.Some? then next.(revision := previous.revision) else next
  }

  /** `transition` of driveRun. */
  function Transit(w: World, id: TaskId, nextIn: TaskState): World {
    var next := Merged(StateOf(w.tasks, id), nextIn);
    w.(tasks := w.tasks[id := next], log := w.log + EventsOf(id, next))
  }

  // ---- The simulation ----

  /**
   * The log agrees with the live state, except that a retry or an interruption puts a task back to pending
   * without an event, so a pending task may still read as running, and one an amendment reset reads as ready.
   */
  predicate Agrees(live: View, projected: View) {
    && live.attempt == projected.attempt
    && (live.status == projected.status
        || (live.status == Pending && projected.status in {Ready, Running}))
  }

  ghost predicate AgreesAt(w: World, id: TaskId) {
    Agrees(ViewOf(w.tasks, id), ViewOf(Projected(w.log), id))
  }

  ghost predicate Simulated(w: World) {
    forall id :: InPlan(w.plan, id) ==> AgreesAt(w, id)
  }

  /** Statuses that the property of the log is about: an event records each of them. */
  predicate Recorded(status: TaskStatus) {
    status in {Running, Completed, Failed, Blocked, NeedsReplan}
  }

  lemma ProjectAppend(log: seq<Event>, more: seq<Event>)
    ensures Projected(log + more) == Fold(Fold(RunState(map[], 0, 0), log), more).tasks
  {
    FoldAppend(RunState(map[], 0, 0), log, more);
  }

  lemma FoldOne(s: RunState, e: Event)
    ensures Fold(s, [e]) == ApplyEvent(s, e)
  {
    assert [e][..0] == [];
  }

  lemma FoldTwo(s: RunState, d: Event, e: Event)
    ensures Fold(s, [d, e]) == ApplyEvent(ApplyEvent(s, d), e)
  {
    assert [d, e][..1] == [d];
    FoldOne(s, d);
  }

  /** How the events of a transition move the projection. */
  lemma EventsOfView(s: RunState, id: TaskId, next: TaskState, other: TaskId)
    requires next.status in {Running, Completed, Failed, Blocked, NeedsReplan}
    ensures ViewOf(Fold(s, EventsOf(id, next)).tasks, other) ==
            if other != id then ViewOf(s.tasks, other)
            else View(next.status, if next.status == NeedsReplan then StateOf(s.tasks, id).attempt else next.attempt)
  {
    var events := EventsOf(id, next);
    if next.status == Running {
      FoldTwo(s, events[0], events[1]);
    } else {
      FoldOne(s, events[0]);
      assert events == [events[0]];
    }
  }

  /**
   * A transition keeps the agreement for every other task, and restores it for its own whenever an event
   * carries the attempt, or the attempt is unchanged and the projection can stand for the new status.
   */
  lemma TransitSimulates(w: World, id: TaskId, nextIn: TaskState, other: TaskId)
    requires nextIn.status !in {Ready, Skipped, Cancelled}
    requires nextIn.status == NeedsReplan ==> AgreesAt(w, id) && nextIn.attempt == StateOf(w.tasks, id).attempt
    requires nextIn.status == Pending ==>
               AgreesAt(w, id) && nextIn.attempt == StateOf(w.tasks, id).attempt && StatusIn(w, id) in {Pending, Running}
    requires other != id ==> AgreesAt(w, other)
    ensures AgreesAt(Transit(w, id, nextIn), other)
  {
    var next := Merged(StateOf(w.tasks, id), nextIn);
    assert next.status == nextIn.status && next.attempt == nextIn.attempt;
    if next.status == Pending {
      assert Transit(w, id, nextIn).log == w.log;
    } else {
      ProjectAppend(w.log, EventsOf(id, next));
      EventsOfView(Fold(RunState(map[], 0, 0), w.log), id, next, other);
    }
  }

  /** A whole transition of the scheduler keeps the simulation. */
  lemma TransitKeepsSimulation(w: World, id: TaskId, nextIn: TaskState)
    requires forall other :: InPlan(w.plan, other) && other != id ==> AgreesAt(w, other)
    requires nextIn.status !in {Ready, Skipped, Cancelled}
    requires nextIn.status in {NeedsReplan, Pending} ==>
               AgreesAt(w, id) && nextIn.attempt == StateOf(w.tasks, id).attempt
    requires nextIn.status == Pending ==> StatusIn(w, id) in {Pending, Running}
    ensures Simulated(Transit(w, id, nextIn))
  {
    forall other | InPlan(w.plan, other) ensures AgreesAt(Transit(w, id, nextIn), other) {
      TransitSimulates(w, id, nextIn, other);
    }
  }

  // ---- What running a task records besides its transitions ----

  function Sides(side: seq<SideEvent>): (events: seq<Event>)
    ensures |events| == |side|
  {
    seq(|side|, i requires 0 <= i < |side| => Side(side[i]))
  }

  lemma {:induction false} SidesAreSilent(s: RunState, side: seq<SideEvent>)
    ensures Fold(s, Sides(side)).tasks == s.tasks && Fold(s, Sides(side)).replans == s.replans
  {
    if side != [] {
      SidesAreSilent(s, side[..|side| - 1]);
      assert Sides(side)[..|side| - 1] == Sides(side[..|side| - 1]);
    }
  }

  function Noted(w: World, side: seq<SideEvent>): World {
    w.(log := w.log + Sides(side))
  }

  lemma NotedAgrees(w: World, side: seq<SideEvent>, id: TaskId)
    ensures AgreesAt(Noted(w, side), id) == AgreesAt(w, id)
  {
    ProjectAppend(w.log, Sides(side));
    SidesAreSilent(Fold(RunState(map[], 0, 0), w.log), side);
  }

  lemma NotedKeepsSimulation(w: World, side: seq<SideEvent>)
    requires Simulated(w)
    ensures Simulated(Noted(w, side))
  {
    forall id | InPlan(w.plan, id) ensures AgreesAt(Noted(w, side), id) {
      NotedAgrees(w, side, id);
    }
  }

  /** Commit-per-task: the revision goes to the live state and to the log. */
  function CommittedWorld(w: World, id: TaskId, revision: string, attempt: nat): World {
    var prior := if id in w.tasks then w.tasks[id] else TaskState(Running, attempt, None, None);
    w.(tasks := w.tasks[id := prior.(revision := Some(revision))], log := w.log + [TaskCommitted(id, Some(revision))])
  }

  lemma {:induction false} CommitAgrees(w: World, id: TaskId, revision: string, attempt: nat, other: TaskId)
    requires id in w.tasks
    ensures AgreesAt(CommittedWorld(w, id, revision, attempt), other) == AgreesAt(w, other)
  {
    var s := Fold(RunState(map[], 0, 0), w.log);
    ProjectAppend(w.log, [TaskCommitted(id, Some(revision))]);
    FoldOne(s, TaskCommitted(id, Some(revision)));
  }

  /** A retired harness request is logged as a block before the scheduler hears of it. */
  function RetiredWorld(w: World, id: TaskId, attempt: nat, failure: Option<Failure>): World {
    w.(log := w.log + [TaskBlocked(id, Some(attempt), failure)])
  }

  lemma {:induction false} RetiredAgreesElsewhere(w: World, id: TaskId, attempt: nat, failure: Option<Failure>, other: TaskId)
    requires other != id
    ensures AgreesAt(RetiredWorld(w, id, attempt, failure), other) == AgreesAt(w, other)
  {
    var s := Fold(RunState(map[], 0, 0), w.log);
    ProjectAppend(w.log, [TaskBlocked(id, Some(attempt), failure)]);
    FoldOne(s, TaskBlocked(id, Some(attempt), failure));
  }

  function Requested(w: World, id: TaskId): World {
    w.(log := w.log + [ReplanRequested(id)])
  }

  lemma {:induction false} RequestedKeepsSimulation(w: World, id: TaskId)
    requires Simulated(w)
    ensures Simulated(Requested(w, id))
  {
    ProjectAppend(w.log, [ReplanRequested(id)]);
    FoldOne(Fold(RunState(map[], 0, 0), w.log), ReplanRequested(id));
    forall other | InPlan(w.plan, other) ensures AgreesAt(Requested(w, id), other) {
      assert AgreesAt(w, other);
    }
  }

  // ---- Amendments ----

  /** The ids of `tasks` that `others` does not list, in order. */
  function Missing(tasks: seq<Task>, others: seq<Task>): (ids: seq<TaskId>)
    ensures forall id :: id in ids <==> Listed(tasks, id) && !Listed(others, id)
  {
    if tasks == [] then []
    else
      var rest := tasks[..|tasks| - 1];
      var last := tasks[|tasks| - 1];
      assert forall id :: Listed(tasks, id) <==> Listed(rest, id) || id == last.id by {
        assert tasks == rest + [last];
        assert tasks[|tasks| - 1].id == last.id;
        forall id | Listed(rest, id) ensures Listed(tasks, id) {
          var i :| 0 <= i < |rest| && rest[i].id == id;
          assert tasks[i].id == id;
        }
      }
      if Listed(others, last.id) then Missing(rest, others) else Missing(rest, others) + [last.id]
  }

  /** Tasks that wait for a replan go back to pending, each with its event. */
  function Redispatched(w: World, tasks: seq<Task>): World {
    if tasks == [] then w
    else
      var before := Redispatched(w, tasks[..|tasks| - 1]);
      var id := tasks[|tasks| - 1].id;
      var prior := StateOf(before.tasks, id);
      if prior.status == NeedsReplan then
        before.(tasks := before.tasks[id := prior.(status := Pending)],
                log := before.log + [TaskReady(id, Some(prior.attempt))])
      else before
  }

  /** onNeedsReplan, once an amended plan is accepted. */
  function Amended(w: World, plan: Plan): World {
    var added := Missing(plan.tasks, w.plan.tasks);
    var removed := Missing(w.plan.tasks, plan.tasks);
    var reset := Redispatched(w.(tasks := Add(w.tasks, added)), plan.tasks);
    reset.(plan := plan, replans := w.replans + 1, log := reset.log + [PlanAmended(removed, added)])
  }

  lemma {:induction false} RedispatchedState(w: World, tasks: seq<Task>, id: TaskId)
    ensures var after := Redispatched(w, tasks);
            && after.plan == w.plan && after.replans == w.replans
            && StateOf(after.tasks, id) ==
               (var s := StateOf(w.tasks, id);
                if s.status == NeedsReplan && Listed(tasks, id) then s.(status := Pending) else s)
            && (AgreesAt(w, id) ==> AgreesAt(after, id))
  {
    if tasks != [] {
      var init, last := tasks[..|tasks| - 1], tasks[|tasks| - 1].id;
      RedispatchedState(w, init, id);
      RedispatchedState(w, init, last);
      assert Listed(tasks, id) <==> Listed(init, id) || id == last by {
        assert tasks[|tasks| - 1].id == last;
        assert forall i :: 0 <= i < |init| ==> init[i] == tasks[i];
      }
      var before := Redispatched(w, init);
      var prior := StateOf(before.tasks, last);
      var event := TaskReady(last, Some(prior.attempt));
      ProjectAppend(before.log, [event]);
      FoldOne(Fold(RunState(map[], 0, 0), before.log), event);
    }
  }

  /** An amended world agrees with its log on every task of the new plan. */
  lemma AmendedKeepsSimulation(w: World, plan: Plan)
    requires Simulated(w)
    ensures Simulated(Amended(w, plan))
  {
    var added := Missing(plan.tasks, w.plan.tasks);
    var removed := Missing(w.plan.tasks, plan.tasks);
    var grown := w.(tasks := Add(w.tasks, added));
    var reset := Redispatched(grown, plan.tasks);
    var s := Fold(RunState(map[], 0, 0), reset.log);
    ProjectAppend(reset.log, [PlanAmended(removed, added)]);
    FoldOne(s, PlanAmended(removed, added));
    forall id | InPlan(plan, id) ensures AgreesAt(Amended(w, plan), id) {
      AddView(w.tasks, added, id);
      RedispatchedState(grown, plan.tasks, id);
      SkipView(s.tasks, removed, id);
      AddView(Skip(s.tasks, removed), added, id);
      assert Listed(plan.tasks, id);
      if id !in added {
        assert InPlan(w.plan, id);
        assert AgreesAt(w, id);
      }
    }
  }

  // ---- Resuming ----

  /** What `spc apply --resume` starts from: the plan on disk and the projection of the log. */
  function Resumed(plan: Plan, log: seq<Event>): World {
    var s := ProjectState(plan, log);
    World(plan, s.tasks, s.replans, log)
  }

  function Started(plan: Plan, log: seq<Event>): World {
    World(plan, InitialTasks(plan.tasks), 0, log)
  }

  lemma ProjectedView(plan: Plan, log: seq<Event>, id: TaskId)
    ensures ViewOf(ProjectState(plan, log).tasks, id) == ViewOf(Projected(log), id)
  {
    ProjectionIgnoresPlan(plan, Plan([]), log, id);
  }

  lemma ResumedIsSimulated(plan: Plan, log: seq<Event>)
    ensures Simulated(Resumed(plan, log))
  {
    forall id | InPlan(plan, id) ensures AgreesAt(Resumed(plan, log), id) {
      ProjectedView(plan, log, id);
    }
  }

  /** Events before the first transition of a run are side events (run created, plan validated, ...). */
  lemma StartedIsSimulated(plan: Plan, side: seq<SideEvent>)
    ensures Simulated(Started(plan, Sides(side)))
  {
    forall id | InPlan(plan, id) ensures AgreesAt(Started(plan, Sides(side)), id) {
      SidesAreSilent(RunState(map[], 0, 0), side);
    }
  }

  /**
   * The state a resume rebuilds is the state the interrupted run had, for each task with a recorded status,
   * and every attempt count is kept. In particular completed work stays completed.
   */
  lemma ResumeRebuilds(w: World, id: TaskId)
    requires Simulated(w) && InPlan(w.plan, id)
    ensures Recorded(StatusIn(w, id)) ==> ViewOf(Resumed(w.plan, w.log).tasks, id) == ViewOf(w.tasks, id)
    ensures StatusIn(Resumed(w.plan, w.log), id) == Completed <==> StatusIn(w, id) == Completed
    ensures StateOf(Resumed(w.plan, w.log).tasks, id).attempt == StateOf(w.tasks, id).attempt
  {
    ProjectedView(w.plan, w.log, id);
    assert AgreesAt(w, id);
  }

  /** What a crash can leave on disk beyond a world: more events, none of which moves a task that was completed. */
  predicate Spares(w: World, log: seq<Event>, id: TaskId) {
    w.log <= log && forall k :: |w.log| <= k < |log| ==> !Moves(log[k], id)
  }

  /** Whatever plan file is found and whatever else was logged, a completed task whose log is spared is completed still. */
  lemma CompletedSurvives(w: World, plan: Plan, log: seq<Event>, id: TaskId)
    requires AgreesAt(w, id) && StatusIn(w, id) == Completed && Spares(w, log, id)
    ensures StatusIn(Resumed(plan, log), id) == Completed
  {
    var more := log[|w.log|..];
    assert log == w.log + more;
    assert forall e <- more :: !Moves(e, id) by {
      forall e | e in more ensures !Moves(e, id) {
        var k :| 0 <= k < |more| && more[k] == e;
        assert log[|w.log| + k] == e;
      }
    }
    ProjectedView(plan, log, id);
    ProjectAppend(w.log, more);
    UnmovedByAll(Fold(RunState(map[], 0, 0), w.log), more, id);
  }

  lemma LogGrowsWith(w: World, tasks: seq<Task>)
    ensures Redispatched(w, tasks).plan == w.plan && w.log <= Redispatched(w, tasks).log
  {
    if tasks != [] {
      LogGrowsWith(w, tasks[..|tasks| - 1]);
    }
  }

  lemma {:induction false} RedispatchedReady(w: World, tasks: seq<Task>, id: TaskId)
    requires StatusIn(w, id) == NeedsReplan && Listed(tasks, id)
    ensures LastMovedReady(Redispatched(w, tasks).log, id)
  {
    var init, last := tasks[..|tasks| - 1], tasks[|tasks| - 1].id;
    var before := Redispatched(w, init);
    RedispatchedState(w, init, last);
    assert Listed(tasks, id) <==> Listed(init, id) || id == last by {
      assert tasks[|tasks| - 1].id == last;
      assert forall i :: 0 <= i < |init| ==> init[i] == tasks[i];
    }
    var event := TaskReady(last, Some(StateOf(before.tasks, last).attempt));
    if Listed(init, id) {
      RedispatchedReady(w, init, id);
      LastMovedReadySnoc(before.log, event, id);
    } else {
      LastMovedReadySnoc(before.log, event, id);
    }
  }

  /**
   * An amendment leaves the task that asked for it pending, and its log reads ready: a process that resumes there, before
   * the task is launched again, holds it as ready, and a ready task is not pending.
   */
  lemma ResumedAfterAmendmentIsReady(w: World, plan: Plan, id: TaskId)
    requires StatusIn(w, id) == NeedsReplan && InPlan(w.plan, id) && InPlan(plan, id)
    ensures StatusIn(Resumed(plan, Amended(w, plan).log), id) == Ready
  {
    var added := Missing(plan.tasks, w.plan.tasks);
    var removed := Missing(w.plan.tasks, plan.tasks);
    var grown := w.(tasks := Add(w.tasks, added));
    AddView(w.tasks, added, id);
    RedispatchedReady(grown, plan.tasks, id);
    LastMovedReadySnoc(Redispatched(grown, plan.tasks).log, PlanAmended(removed, added), id);
    ReadyFromLog(plan, Amended(w, plan).log, id);
  }
}
