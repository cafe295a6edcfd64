/**
 * state.ts: the run state as a projection over the event log.
 *
 * Timestamps, branches and requirement states are not modelled; an event whose only effect is on those
 * is a `Side` event.
 */
module RunState {
  import opened Wrappers

  type TaskId = string

  datatype TaskStatus =
    Pending | Ready | Running | Completed | Failed | Blocked | NeedsReplan | Skipped | Cancelled

  datatype Failure = Failure(code: string, message: string)

  datatype TaskState = TaskState(
    status: TaskStatus,
    attempt: nat,
    failure: Option<Failure>,
    revision: Option<string>)

  datatype Task = Task(id: TaskId, dependsOn: seq<TaskId>)

  datatype Plan = Plan(tasks: seq<Task>)

  /** An event that the projection only uses to move `updatedAt` (or its usage counter). */
  datatype SideEvent = UsageRecorded | FollowupCreated | Note(name: string)

  datatype Event =
    | TaskReady(taskId: TaskId, attempt: Option<nat>)
    | TaskStarted(taskId: TaskId, attempt: Option<nat>)
    | TaskCommitted(taskId: TaskId, revision: Option<string>)
    | TaskCompleted(taskId: TaskId, attempt: Option<nat>)
    | TaskFailed(taskId: TaskId, attempt: Option<nat>, error: Option<Failure>)
    | TaskBlocked(taskId: TaskId, attempt: Option<nat>, error: Option<Failure>)
    | TaskNeedsReplan(taskId: TaskId)
    | ReplanRequested(taskId: TaskId)
    | PlanAmended(removed: seq<TaskId>, added: seq<TaskId>)
    | Side(side: SideEvent)

  datatype RunState = RunState(tasks: map<TaskId, TaskState>, replans: nat, modelCalls: nat)

  const FRESH := TaskState(Pending, 0, None, None)

  /** The state of a task, with the default the scheduler uses for a task it has never seen. */
  function StateOf(tasks: map<TaskId, TaskState>, id: TaskId): TaskState {
    if id in tasks then tasks[id] else FRESH
  }

  /** What a resume and a replay compare: the status and the attempt of a task. */
  datatype View = View(status: TaskStatus, attempt: nat)

  function ViewOf(tasks: map<TaskId, TaskState>, id: TaskId): View {
    View(StateOf(tasks, id).status, StateOf(tasks, id).attempt)
  }

  function InitialTasks(tasks: seq<Task>): (m: map<TaskId, TaskState>)
    ensures forall id :: id in m <==> exists i :: 0 <= i < |tasks| && tasks[i].id == id
    ensures forall id :: id in m ==> m[id] == FRESH
  {
    if tasks == [] then map[] else InitialTasks(tasks[..|tasks| - 1])[tasks[|tasks| - 1].id := FRESH]
  }

  function InitialState(plan: Plan): RunState {
    RunState(InitialTasks(plan.tasks), 0, 0)
  }

  function Skip(tasks: map<TaskId, TaskState>, removed: seq<TaskId>): map<TaskId, TaskState> {
    if removed == [] then tasks
    else
      var before := Skip(tasks, removed[..|removed| - 1]);
      var id := removed[|removed| - 1];
      if id !in before then before[id := FRESH.(status := Skipped)]
      else if before[id].status != Completed then before[id := before[id].(status := Skipped)]
      else before
  }

  function Add(tasks: map<TaskId, TaskState>, added: seq<TaskId>): map<TaskId, TaskState> {
    if added == [] then tasks
    else Add(tasks, added[..|added| - 1])[added[|added| - 1] := FRESH]
  }

  function AttemptOr(attempt: Option<nat>, prior: TaskState): nat {
    if attempt.Some? then attempt.value else prior.attempt
  }

  /** Fold one event into the state. */
  function ApplyEvent(s: RunState, event: Event): RunState {
    match event
    case TaskReady(id, attempt) =>
      var prior := StateOf(s.tasks, id);
      s.(tasks := s.tasks[id := TaskState(Ready, AttemptOr(attempt, prior), prior.failure, None)])
    case TaskStarted(id, attempt) =>
      var prior := StateOf(s.tasks, id);
      s.(tasks := s.tasks[id := TaskState(Running, AttemptOr(attempt, prior), prior.failure, None)])
    case TaskCommitted(id, revision) =>
      if id in s.tasks && revision.Some? then
        s.(tasks := s.tasks[id := s.tasks[id].(revision := revision)])
      else s
    case TaskCompleted(id, attempt) =>
      var prior := StateOf(s.tasks, id);
      s.(tasks := s.tasks[id := TaskState(Completed, AttemptOr(attempt, prior), None, prior.revision)])
    case TaskFailed(id, attempt, error) =>
      var prior := StateOf(s.tasks, id);
      var failure := if error.Some? then error else prior.failure;
      s.(tasks := s.tasks[id := TaskState(Failed, AttemptOr(attempt, prior), failure, None)])
    case TaskBlocked(id, attempt, error) =>
      var prior := StateOf(s.tasks, id);
      s.(tasks := s.tasks[id := TaskState(Blocked, AttemptOr(attempt, prior), error, None)])
    case TaskNeedsReplan(id) =>
      s.(tasks := s.tasks[id := TaskState(NeedsReplan, StateOf(s.tasks, id).attempt, None, None)])
    case ReplanRequested(_) =>
      s.(replans := s.replans + 1)
    case PlanAmended(removed, added) =>
      s.(tasks := Add(Skip(s.tasks, removed), added))
    case Side(side) =>
      if side.UsageRecorded? then s.(modelCalls := s.modelCalls + 1) else s
  }

  function Fold(s: RunState, events: seq<Event>): RunState {
    if events == [] then s
    else ApplyEvent(Fold(s, events[..|events| - 1]), events[|events| - 1])
  }

  function ProjectState(plan: Plan, events: seq<Event>): RunState {
    Fold(InitialState(plan), events)
  }

  /** The loop of projectState computes the fold. */
  method ComputeProjection(plan: Plan, events: seq<Event>) returns (state: RunState)
    ensures state == ProjectState(plan, events)
  {
    state := InitialState(plan);
    for i := 0 to |events|
      invariant state == Fold(InitialState(plan), events[..i])
    {
      assert events[..i + 1][..i] == events[..i];
      state := ApplyEvent(state, events[i]);
    }
    assert events[..|events|] == events;
  }

  lemma {:induction false} FoldAppend(s: RunState, xs: seq<Event>, ys: seq<Event>)
    ensures Fold(s, xs + ys) == Fold(Fold(s, xs), ys)
  {
    if ys == [] {
      assert xs + ys == xs;
    } else {
      FoldAppend(s, xs, ys[..|ys| - 1]);
      assert (xs + ys)[..|xs + ys| - 1] == xs + ys[..|ys| - 1];
    }
  }

  // ---- How an amendment shows in the projection ----

  lemma {:induction false} SkipView(tasks: map<TaskId, TaskState>, removed: seq<TaskId>, id: TaskId)
    ensures ViewOf(Skip(tasks, removed), id) ==
            var v := ViewOf(tasks, id); if id in removed && v.status != Completed then v.(status := Skipped) else v
  {
    if removed != [] {
      var init, last := removed[..|removed| - 1], removed[|removed| - 1];
      SkipView(tasks, init, id);
      assert removed == init + [last];
    }
  }

  lemma {:induction false} AddView(tasks: map<TaskId, TaskState>, added: seq<TaskId>, id: TaskId)
    ensures StateOf(Add(tasks, added), id) == if id in added then FRESH else StateOf(tasks, id)
  {
    if added != [] {
      var init, last := added[..|added| - 1], added[|added| - 1];
      AddView(tasks, init, id);
      assert added == init + [last];
    }
  }

  // ---- The projection does not depend on the plan it starts from ----

  lemma ApplyEventView(s: RunState, t: RunState, event: Event, id: TaskId)
    requires forall i :: ViewOf(s.tasks, i) == ViewOf(t.tasks, i)
    ensures ViewOf(ApplyEvent(s, event).tasks, id) == ViewOf(ApplyEvent(t, event).tasks, id)
  {
    assert ViewOf(s.tasks, id) == ViewOf(t.tasks, id);
    if event.PlanAmended? {
      SkipView(s.tasks, event.removed, id);
      SkipView(t.tasks, event.removed, id);
      AddView(Skip(s.tasks, event.removed), event.added, id);
      AddView(Skip(t.tasks, event.removed), event.added, id);
    } else if !event.ReplanRequested? && !event.Side? {
      assert ViewOf(s.tasks, event.taskId) == ViewOf(t.tasks, event.taskId);
    }
  }

  /**
   * Whatever plan a replay or a resume starts from, and whatever the log holds, every task gets the same
   * status and attempt: the log alone decides, and a rewritten plan file cannot move a task.
   */
  lemma {:induction false} ProjectionIgnoresPlan(p: Plan, q: Plan, events: seq<Event>, id: TaskId)
    ensures ViewOf(ProjectState(p, events).tasks, id) == ViewOf(ProjectState(q, events).tasks, id)
  {
    if events != [] {
      var init := events[..|events| - 1];
      forall i ensures ViewOf(ProjectState(p, init).tasks, i) == ViewOf(ProjectState(q, init).tasks, i) {
        ProjectionIgnoresPlan(p, q, init, i);
      }
      ApplyEventView(ProjectState(p, init), ProjectState(q, init), events[|events| - 1], id);
    }
  }

  // ---- Which events move a task ----

  /** The events that can change the status of a task. */
  predicate Moves(event: Event, id: TaskId) {
    match event
    case TaskReady(t, _) => t == id
    case TaskStarted(t, _) => t == id
    case TaskCompleted(t, _) => t == id
    case TaskFailed(t, _, _) => t == id
    case TaskBlocked(t, _, _) => t == id
    case TaskNeedsReplan(t) => t == id
    case PlanAmended(removed, added) => id in removed || id in added
    case _ => false
  }

  lemma UnmovedBy(s: RunState, event: Event, id: TaskId)
    requires !Moves(event, id)
    ensures ViewOf(ApplyEvent(s, event).tasks, id) == ViewOf(s.tasks, id)
  {
    if event.PlanAmended? {
      SkipView(s.tasks, event.removed, id);
      AddView(Skip(s.tasks, event.removed), event.added, id);
    }
  }

  lemma {:induction false} UnmovedByAll(s: RunState, events: seq<Event>, id: TaskId)
    requires forall e <- events :: !Moves(e, id)
    ensures ViewOf(Fold(s, events).tasks, id) == ViewOf(s.tasks, id)
  {
    if events != [] {
      UnmovedByAll(s, events[..|events| - 1], id);
      UnmovedBy(Fold(s, events[..|events| - 1]), events[|events| - 1], id);
    }
  }

  /** The last event that moves the task is a TASK_READY. */
  predicate LastMovedReady(events: seq<Event>, id: TaskId) {
    exists i :: 0 <= i < |events| && events[i].TaskReady? && events[i].taskId == id && UnmovedAfter(events, i, id)
  }

  predicate UnmovedAfter(events: seq<Event>, i: int, id: TaskId) {
    forall j :: 0 <= i < j < |events| ==> !Moves(events[j], id)
  }

  lemma MovedReady(s: RunState, event: Event, id: TaskId)
    requires Moves(event, id)
    ensures StateOf(ApplyEvent(s, event).tasks, id).status == Ready <==> event.TaskReady?
  {
    if event.PlanAmended? {
      SkipView(s.tasks, event.removed, id);
      AddView(Skip(s.tasks, event.removed), event.added, id);
    }
  }

  lemma LastMovedReadySnoc(init: seq<Event>, last: Event, id: TaskId)
    ensures LastMovedReady(init + [last], id) <==> if Moves(last, id) then last.TaskReady? else LastMovedReady(init, id)
  {
    var events := init + [last];
    if LastMovedReady(events, id) && !Moves(last, id) {
      var i :| 0 <= i < |events| && events[i].TaskReady? && events[i].taskId == id && UnmovedAfter(events, i, id);
      assert i < |init| && init[i] == events[i];
      forall j | 0 <= i < j < |init| ensures !Moves(init[j], id) {
        assert events[j] == init[j];
      }
      assert UnmovedAfter(init, i, id);
    }
    if LastMovedReady(events, id) && Moves(last, id) {
      var i :| 0 <= i < |events| && events[i].TaskReady? && events[i].taskId == id && UnmovedAfter(events, i, id);
      assert events[|init|] == last;
      assert i == |init|;
    }
    if Moves(last, id) && last.TaskReady? {
      assert events[|init|] == last && UnmovedAfter(events, |init|, id);
    }
    if !Moves(last, id) && LastMovedReady(init, id) {
      var i :| 0 <= i < |init| && init[i].TaskReady? && init[i].taskId == id && UnmovedAfter(init, i, id);
      assert events[i] == init[i];
      forall j | 0 <= i < j < |events| ensures !Moves(events[j], id) {
        assert events[j] == if j < |init| then init[j] else last;
      }
      assert UnmovedAfter(events, i, id);
    }
  }

  /** A task reads as ready exactly when the last event that moved it was its TASK_READY. */
  lemma {:induction false} ReadyFromLog(plan: Plan, events: seq<Event>, id: TaskId)
    ensures StateOf(ProjectState(plan, events).tasks, id).status == Ready <==> LastMovedReady(events, id)
  {
    if events != [] {
      var init, last := events[..|events| - 1], events[|events| - 1];
      ReadyFromLog(plan, init, id);
      assert events == init + [last];
      LastMovedReadySnoc(init, last, id);
      if Moves(last, id) {
        MovedReady(ProjectState(plan, init), last, id);
      } else {
        UnmovedBy(ProjectState(plan, init), last, id);
      }
    }
  }

  // ---- The projection of a task, field by field ----

  /** The value is that of the last event that sets it, and the initial one when none does. */
  ghost predicate LastSets<T>(events: seq<Event>, sets: Event -> Option<T>, initial: T, value: T) {
    && ((forall e <- events :: sets(e).None?) ==> value == initial)
    && forall i :: 0 <= i < |events| && sets(events[i]).Some? && (forall j :: i < j < |events| ==> sets(events[j]).None?) ==>
         value == sets(events[i]).value
  }

  lemma LastSetsSnoc<T>(events: seq<Event>, e: Event, sets: Event -> Option<T>, initial: T, value: T)
    requires LastSets(events, sets, initial, value)
    ensures LastSets(events + [e], sets, initial, if sets(e).Some? then sets(e).value else value)
  {
    var now, last := events + [e], if sets(e).Some? then sets(e).value else value;
    assert now[|events|] == e;
    if forall x <- now :: sets(x).None? {
      assert forall x <- events :: x in now;
    }
    forall i | 0 <= i < |now| && sets(now[i]).Some? && (forall j :: i < j < |now| ==> sets(now[j]).None?) ensures last == sets(now[i]).value {
      if i < |events| {
        assert sets(now[|events|]).None?;
        assert forall j :: i < j < |events| ==> now[j] == events[j];
      }
    }
  }

  /** The status an event gives a task; a removal leaves a completed task completed, so it gives none by itself. */
  function StatusSet(e: Event, id: TaskId): Option<TaskStatus> {
    match e
    case TaskReady(t, _) => if t == id then Some(Ready) else None
    case TaskStarted(t, _) => if t == id then Some(Running) else None
    case TaskCompleted(t, _) => if t == id then Some(Completed) else None
    case TaskFailed(t, _, _) => if t == id then Some(Failed) else None
    case TaskBlocked(t, _, _) => if t == id then Some(Blocked) else None
    case TaskNeedsReplan(t) => if t == id then Some(NeedsReplan) else None
    case PlanAmended(_, added) => if id in added then Some(Pending) else None
    case _ => None
  }

  predicate Removes(e: Event, id: TaskId) {
    e.PlanAmended? && id in e.removed && id !in e.added
  }

  /** The attempt, the failure and the revision an event gives a task. */
  function AttemptSet(e: Event, id: TaskId): Option<nat> {
    match e
    case TaskReady(t, attempt) => if t == id then attempt else None
    case TaskStarted(t, attempt) => if t == id then attempt else None
    case TaskCompleted(t, attempt) => if t == id then attempt else None
    case TaskFailed(t, attempt, _) => if t == id then attempt else None
    case TaskBlocked(t, attempt, _) => if t == id then attempt else None
    case PlanAmended(_, added) => if id in added then Some(0) else None
    case _ => None
  }

  function FailureSet(e: Event, id: TaskId): Option<Option<Failure>> {
    match e
    case TaskCompleted(t, _) => if t == id then Some(None) else None
    case TaskFailed(t, _, error) => if t == id && error.Some? then Some(error) else None
    case TaskBlocked(t, _, error) => if t == id then Some(error) else None
    case TaskNeedsReplan(t) => if t == id then Some(None) else None
    case PlanAmended(_, added) => if id in added then Some(None) else None
    case _ => None
  }

  function RevisionSet(e: Event, id: TaskId): Option<Option<string>> {
    match e
    case TaskCommitted(t, revision) => if t == id && revision.Some? then Some(revision) else None
    case TaskReady(t, _) => if t == id then Some(None) else None
    case TaskStarted(t, _) => if t == id then Some(None) else None
    case TaskFailed(t, _, _) => if t == id then Some(None) else None
    case TaskBlocked(t, _, _) => if t == id then Some(None) else None
    case TaskNeedsReplan(t) => if t == id then Some(None) else None
    case PlanAmended(_, added) => if id in added then Some(None) else None
    case _ => None
  }

  lemma {:induction false} SkipState(tasks: map<TaskId, TaskState>, removed: seq<TaskId>, id: TaskId)
    requires id in tasks
    ensures id in Skip(tasks, removed)
    ensures Skip(tasks, removed)[id] == if id in removed && tasks[id].status != Completed then tasks[id].(status := Skipped) else tasks[id]
  {
    if removed != [] {
      var init, last := removed[..|removed| - 1], removed[|removed| - 1];
      SkipState(tasks, init, id);
      assert removed == init + [last];
    }
  }

  lemma {:induction false} AddKeepsKeys(tasks: map<TaskId, TaskState>, added: seq<TaskId>)
    ensures tasks.Keys <= Add(tasks, added).Keys
  {
    if added != [] {
      AddKeepsKeys(tasks, added[..|added| - 1]);
    }
  }

  /** What one event does to a known task, field by field. */
  lemma EventSets(s: RunState, e: Event, id: TaskId)
    requires id in s.tasks
    ensures id in ApplyEvent(s, e).tasks
    ensures var before, after := s.tasks[id], ApplyEvent(s, e).tasks[id];
            && after.attempt == (if AttemptSet(e, id).Some? then AttemptSet(e, id).value else before.attempt)
            && after.failure == (if FailureSet(e, id).Some? then FailureSet(e, id).value else before.failure)
            && after.revision == (if RevisionSet(e, id).Some? then RevisionSet(e, id).value else before.revision)
            && after.status == (if StatusSet(e, id).Some? then StatusSet(e, id).value
                                else if Removes(e, id) && before.status != Completed then Skipped
                                else before.status)
  {
    if e.PlanAmended? {
      SkipState(s.tasks, e.removed, id);
      AddView(Skip(s.tasks, e.removed), e.added, id);
      AddKeepsKeys(Skip(s.tasks, e.removed), e.added);
    }
  }

  /**
   * The attempt, the failure and the revision of a planned task are those of the last event of its log that sets them. So
   * a failure is that of the last event that brought one, and is gone once the task completes, asks for a replan or is
   * added anew; a commit is gone once the task is launched again or fails.
   */
  lemma {:induction false} FieldsFromLog(plan: Plan, events: seq<Event>, id: TaskId)
    requires id in InitialTasks(plan.tasks)
    ensures id in ProjectState(plan, events).tasks
    ensures var t := ProjectState(plan, events).tasks[id];
            && LastSets(events, (e: Event) => AttemptSet(e, id), 0, t.attempt)
            && LastSets(events, (e: Event) => FailureSet(e, id), None, t.failure)
            && LastSets(events, (e: Event) => RevisionSet(e, id), None, t.revision)
  {
    if events != [] {
      var n := |events| - 1;
      var init, e := events[..n], events[n];
      FieldsFromLog(plan, init, id);
      assert events == init + [e];
      var before := ProjectState(plan, init);
      EventSets(before, e, id);
      hide ApplyEvent, LastSets, AttemptSet, FailureSet, RevisionSet;
      LastSetsSnoc(init, e, (e: Event) => AttemptSet(e, id), 0, before.tasks[id].attempt);
      LastSetsSnoc(init, e, (e: Event) => FailureSet(e, id), None, before.tasks[id].failure);
      LastSetsSnoc(init, e, (e: Event) => RevisionSet(e, id), None, before.tasks[id].revision);
    }
  }

  /**
   * The status of a planned task is the one the last event that sets a status gave it, or pending when none does, except
   * that a task removed after that is skipped unless the status was completed.
   */
  lemma {:induction false} StatusFromLog(plan: Plan, events: seq<Event>, id: TaskId, i: nat)
    requires id in InitialTasks(plan.tasks) && i <= |events|
    requires i == 0 || StatusSet(events[i - 1], id).Some?
    requires forall j :: i <= j < |events| ==> StatusSet(events[j], id).None?
    ensures id in ProjectState(plan, events).tasks
    ensures var given := if i == 0 then Pending else StatusSet(events[i - 1], id).value;
            ProjectState(plan, events).tasks[id].status ==
              if given != Completed && (exists j :: i <= j < |events| && Removes(events[j], id)) then Skipped else given
    decreases |events|
  {
    KnownStays(plan, events, id);
    if events != [] {
      var n := |events| - 1;
      var init := events[..n];
      KnownStays(plan, init, id);
      EventSets(ProjectState(plan, init), events[n], id);
      if i <= n {
        StatusFromLog(plan, init, id, i);
        hide ApplyEvent, StatusSet, Removes;
        assert forall j :: i <= j < n ==> init[j] == events[j];
      }
    }
  }

  lemma {:induction false} KnownStays(plan: Plan, events: seq<Event>, id: TaskId)
    requires id in InitialTasks(plan.tasks)
    ensures id in ProjectState(plan, events).tasks
  {
    if events != [] {
      KnownStays(plan, events[..|events| - 1], id);
      EventSets(ProjectState(plan, events[..|events| - 1]), events[|events| - 1], id);
    }
  }

  /** How many events ask for a replan, and how many record the use of a model. */
  function Requests(events: seq<Event>): nat {
    if events == [] then 0 else (if events[0].ReplanRequested? then 1 else 0) + Requests(events[1..])
  }

  function Uses(events: seq<Event>): nat {
    if events == [] then 0 else (if events[0].Side? && events[0].side.UsageRecorded? then 1 else 0) + Uses(events[1..])
  }

  /** A projection counts the replan requests of its log, applied or not, and the recorded uses of a model. */
  lemma {:induction false} CountsFromLog(s: RunState, events: seq<Event>)
    ensures Fold(s, events).replans == s.replans + Requests(events)
    ensures Fold(s, events).modelCalls == s.modelCalls + Uses(events)
    decreases |events|
  {
    if events != [] {
      FoldAppend(s, events[..1], events[1..]);
      assert events == events[..1] + events[1..];
      assert events[..1] == [events[0]] && [events[0]][..0] == [];
      assert Fold(s, [events[0]]) == ApplyEvent(s, events[0]);
      CountsFromLog(ApplyEvent(s, events[0]), events[1..]);
    }
  }
}
