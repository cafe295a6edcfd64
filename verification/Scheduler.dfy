/**
 * scheduler.ts and driveRun of apply.ts: the sequential run as an object whose state, plan and log change step
 * by step. The ghost fields record what the contracts speak of: the world after each transition, and each launch.
 */
module Scheduler {
  import opened Wrappers
  import opened RunState
  import opened Transitions
  import opened Rounds
  import opened Causes

  datatype SchedulerOutcome = Done | Deadlocked | ReplanFailed | RunnableWorkRemains

  /** How a round ends: with another round, with nothing left to launch, or with a result. */
  datatype Step = Continue | Conclude | Stop(outcome: SchedulerOutcome)

  /** The outcome of asking for an amendment; `side` is what the replanner logs. */
  datatype ReplanAnswer =
    | NoProvider
    | NoAmendment(side: seq<SideEvent>)
    | Gated(plan: Plan, side: seq<SideEvent>)
    | Proposed(plan: Plan, side: seq<SideEvent>)

  predicate CanStart(w: World, t: Task) {
    StatusIn(w, t.id) == Pending && Unhindered(w, t)
  }

  /** The launch is of the first task in plan order that is pending with every dependency completed or skipped. */
  ghost predicate Safe(launch: Launch) {
    exists i :: FirstToStart(launch.before, i) && launch.before.plan.tasks[i].id == launch.id
  }

  predicate FirstToStart(w: World, i: int) {
    0 <= i < |w.plan.tasks| && CanStart(w, w.plan.tasks[i]) && forall j :: 0 <= j < i ==> !CanStart(w, w.plan.tasks[j])
  }

  class Driver {
    const maxTaskRetries: nat
    const maxReplans: nat
    var plan: Plan
    var tasks: map<TaskId, TaskState>
    var replans: nat
    var log: seq<Event>
    var cancellationObserved: bool

    ghost var trace: seq<World>
    ghost var launches: seq<Launch>
    ghost const past: History
    ghost const extra: int

    ghost function Now(): World
      reads this
    {
      World(plan, tasks, replans, log)
    }

    /** The run so far, with what it continues. */
    ghost function Story(): History
      reads this
    {
      Lived(past, trace, launches)
    }

    /** A fresh run: every task pending, only side events in the log. */
    constructor Start(plan: Plan, side: seq<SideEvent>, maxTaskRetries: nat, maxReplans: nat)
      ensures Sound() && Now() == Started(plan, Sides(side))
      ensures this.maxTaskRetries == maxTaskRetries && this.maxReplans == maxReplans && extra == 0
      ensures past == History(Now(), [], [])
      ensures trace == [] && launches == [] && !cancellationObserved
    {
      this.maxTaskRetries, this.maxReplans := maxTaskRetries, maxReplans;
      this.plan, this.tasks, this.replans, this.log := plan, InitialTasks(plan.tasks), 0, Sides(side);
      this.cancellationObserved := false;
      this.trace, this.launches, this.extra := [], [], 0;
      this.past := History(Started(plan, Sides(side)), [], []);
      new;
      StartedIsSimulated(plan, side);
      StartedIsBudgeted(plan, Sides(side), maxTaskRetries);
    }

    /**
     * A resumed run: any plan file and any log. `earlier` is what the log was written by, as far as it explains the
     * blocks the log shows; `spent` are the attempts it shows beyond those of one session. Every log has both.
     */
    constructor Resume(plan: Plan, log: seq<Event>, maxTaskRetries: nat, maxReplans: nat, ghost earlier: History, ghost spent: int)
      requires Budgeted(Resumed(plan, log), maxTaskRetries, spent) && BlocksExplained(earlier, Resumed(plan, log))
      ensures Sound() && Now() == Resumed(plan, log)
      ensures this.maxTaskRetries == maxTaskRetries && this.maxReplans == maxReplans && extra == spent && past == earlier
      ensures trace == [] && launches == [] && !cancellationObserved
    {
      var s := ProjectState(plan, log);
      this.maxTaskRetries, this.maxReplans := maxTaskRetries, maxReplans;
      this.plan, this.tasks, this.replans, this.log := plan, s.tasks, s.replans, log;
      this.cancellationObserved := false;
      this.trace, this.launches := [], [];
      this.past, this.extra := earlier, spent;
      new;
      ResumedIsSimulated(plan, log);
      assert Lived(past, [], []) == past;
    }

    /**
     * Safety over the whole run so far: after every transition the log agrees with the live state, attempts are within
     * budget and every blocked task has a cause; every launch was of a pending task whose dependencies were released.
     */
    ghost predicate Sound()
      reads this
    {
      && Healthy(Now(), maxTaskRetries, extra) && BlocksExplained(Story(), Now())
      && Accounted(Story(), trace, maxTaskRetries, extra)
      && (forall launch :: launch in launches ==> Safe(launch))
    }

    /** Persist a lifecycle transition and record its event. */
    method Transition(id: TaskId, nextIn: TaskState)
      modifies this`tasks, this`log, this`trace
      ensures Now() == Transit(old(Now()), id, nextIn)
      ensures trace == old(trace) + [Now()]
    {
      var previous := StateOf(tasks, id);
      var next := if previous.failure.Some? && nextIn.failure.None? then nextIn.(failure := previous.failure) else nextIn;
      if next.status == Completed && previous.revision.Some? {
        next := next.(revision := previous.revision);
      }
      tasks := tasks[id := next];
      log := log + EventsOf(id, next);
      trace := trace + [Now()];
    }

    /** A task still marked running was interrupted: it goes back to pending. */
    method RecoverInterrupted()
      requires Sound()
      modifies this`tasks, this`log, this`trace
      ensures Sound() && Now() == Recovered(old(Now()), plan.tasks)
      ensures old(trace) <= trace && PlanStands(trace, |old(trace)|, plan)
    {
      hide Healthy, Consistent, Safe, BlocksExplained, Accounted, Continues, Recovered, Transit;
      ghost var start := Now();
      var list := plan.tasks;
      RecoveredNone(start);
      for i := 0 to |list|
        invariant Now() == Recovered(start, list[..i])
        invariant old(trace) <= trace && PlanStands(trace, |old(trace)|, plan)
        invariant BlocksExplained(Story(), start) && Accounted(Story(), trace, maxTaskRetries, extra)
      {
        RecoveredStep(start, i);
        if StateOf(tasks, list[i].id).status == Running {
          ghost var before, seen := Story(), trace;
          Transition(list[i].id, StateOf(tasks, list[i].id).(status := Pending));
          LivedOn(past, seen, launches, Now());
          ExplanationsStay(before, Story(), start);
          RecoveredIsConsistent(start, i + 1, maxTaskRetries, extra);
          RecoveryIsExplained(Story(), start, i + 1);
          AccountGrows(before, Story(), seen, Now(), maxTaskRetries, extra);
        }
      }
      assert list[..|list|] == list;
      RecoveredIsConsistent(start, |list|, maxTaskRetries, extra);
      RecoveryIsExplained(Story(), start, |list|);
    }

    /** Pending tasks behind a dependency that cannot complete become blocked, in one pass. */
    method SweepBlocked()
      requires Sound()
      modifies this`tasks, this`log, this`trace
      ensures Sound() && Now() == Swept(old(Now()), plan.tasks)
      ensures old(trace) <= trace && PlanStands(trace, |old(trace)|, plan)
    {
      hide Healthy, Consistent, Safe, BlocksExplained, Accounted, Continues, Swept, Transit, HasBlockedDependency;
      ghost var start := Now();
      var list := plan.tasks;
      SweptNone(start);
      for i := 0 to |list|
        invariant Now() == Swept(start, list[..i])
        invariant old(trace) <= trace && PlanStands(trace, |old(trace)|, plan)
        invariant BlocksExplained(Story(), Now()) && Accounted(Story(), trace, maxTaskRetries, extra)
      {
        SweptOneMore(start, i);
        var t := list[i];
        if StateOf(tasks, t.id).status == Pending && HasBlockedDependency(World(plan, tasks, replans, log), t) {
          ghost var before, seen, now := Story(), trace, Now();
          Transition(t.id, StateOf(tasks, t.id).(status := Blocked));
          LivedOn(past, seen, launches, Now());
          ExplanationsStay(before, Story(), now);
          SweepIsExplained(Story(), now, t);
          SweptIsConsistent(start, i + 1, maxTaskRetries, extra);
          AccountGrows(before, Story(), seen, Now(), maxTaskRetries, extra);
        }
      }
      assert list[..|list|] == list;
      SweptIsConsistent(start, |list|, maxTaskRetries, extra);
    }

    /** The opening of a round: interrupted work is pending again, and hopeless work is blocked. */
    method Prepare()
      requires Sound()
      modifies this`tasks, this`log, this`trace
      ensures Sound() && old(trace) <= trace && PlanStands(trace, |old(trace)|, plan)
      ensures Calmer(old(Now()), Now(), maxTaskRetries) && NoneRunning(Now())
      ensures UniqueIds(plan) && DependenciesListedFirst(plan) && old(NoneReady(Now())) && HasPending(Now()) ==> HasReady(Now())
    {
      hide Healthy, Consistent, Safe, BlocksExplained, Accounted, Calmer, NoneReady, NoneRunning, HasPending, HasReady, Swept, Recovered;
      PreparationCalms(Now(), maxTaskRetries);
      RecoverInterrupted();
      SweepBlocked();
    }

    /** Launch a task, run it, and record the verdict of its attempt. */
    method RunTask(t: Task, e: Execution)
      requires Sound() && exists i :: FirstToStart(Now(), i) && plan.tasks[i] == t
      modifies this`tasks, this`log, this`trace, this`launches, this`cancellationObserved
      ensures Sound() && Now() == Settled(old(Now()), t.id, e, maxTaskRetries)
      ensures var prior := old(StateOf(tasks, t.id));
              var attempt := prior.attempt + 1;
              && Ends(TaskState(Running, attempt, prior.failure, None), StateOf(tasks, t.id), e, maxTaskRetries)
              && log == old(log) + [TaskReady(t.id, Some(attempt)), TaskStarted(t.id, Some(attempt))]
                        + EndEvents(t.id, StateOf(tasks, t.id), e)
      ensures launches == old(launches) + [Launch(old(Now()), t.id, e)]
      ensures old(trace) <= trace && Now() in trace && PlanStands(trace, |old(trace)|, plan)
      ensures cancellationObserved == (old(cancellationObserved) || Withdrawn(e))
    {
      hide Healthy, Consistent, Safe, Settled, Executed, Verdict, BlocksExplained, Accounted, Continues, Launched, IsReady, Ends, EndEvents,
        FirstToStart;
      ghost var before, launch := Now(), Launch(Now(), t.id, e);
      RoundEnds(before, t.id, e, maxTaskRetries);
      LaunchIsSafe(before, t, e);
      LaunchedOn(past, trace, launches, launch);
      AccountStays(Story(), Lived(past, trace, launches + [launch]), trace, maxTaskRetries, extra);
      ExplanationsStay(Story(), Lived(past, trace, launches + [launch]), before);
      launches := launches + [launch];
      Attempt(t.id, e);
      AttemptIsSound(past, old(trace), launches, before, t.id, e, maxTaskRetries, extra);
      RoundStates(before, t.id, e, maxTaskRetries);
      if ObservesCancellation(e) {
        cancellationObserved := true;
      }
    }

    /** The three transitions of an attempt, as the log and the state see them. */
    method Attempt(id: TaskId, e: Execution)
      modifies this`tasks, this`log, this`trace
      ensures Now() == Settled(old(Now()), id, e, maxTaskRetries)
      ensures trace == old(trace) + [Launched(old(Now()), id), Now()]
    {
      ghost var before := Now();
      var prior := StateOf(tasks, id);
      var attempt := prior.attempt + 1;
      Transition(id, TaskState(Running, attempt, prior.failure, None));
      assert Now() == Launched(before, id);
      LaunchedIsKnown(before, id);
      RoundStates(before, id, e, maxTaskRetries);
      hide Transit, Executed, Verdict, Launched;
      Execute(id, attempt, e);
      Settle(id, attempt, e);
    }

    /** The scheduler's verdict on an attempt. */
    method Settle(id: TaskId, attempt: nat, e: Execution)
      modifies this`tasks, this`log, this`trace
      ensures Now() == Transit(old(Now()), id, Verdict(attempt, e, maxTaskRetries))
      ensures trace == old(trace) + [Now()]
    {
      match StatusOfExecution(e) {
        case ECompleted =>
          Transition(id, TaskState(Completed, attempt, None, None));
        case EFailed =>
          var failure := if FailureOf(e).Some? then FailureOf(e) else Some(Failure("TASK_FAILED", e.summary));
          if attempt - 1 < maxTaskRetries {
            Transition(id, TaskState(Pending, attempt, failure, None));
          } else {
            Transition(id, TaskState(Failed, attempt, failure, None));
          }
        case EBlocked =>
          var failure := if FailureOf(e).Some? then FailureOf(e) else Some(Failure("TASK_BLOCKED", e.summary));
          Transition(id, TaskState(Blocked, attempt, failure, None));
        case ENeedsReplan =>
          Transition(id, TaskState(NeedsReplan, attempt, FailureOf(e), None));
      }
    }

    /** executeTaskInRun, seen from the log and the state. */
    method Execute(id: TaskId, attempt: nat, e: Execution)
      requires id in tasks && tasks[id].attempt == attempt
      modifies this`tasks, this`log
      ensures Now() == Executed(old(Now()), id, e)
    {
      log := log + Sides(e.side);
      match e {
        case Finished(status, _, _, _, revision) =>
          if status == ECompleted && revision.Some? {
            var prior := if id in tasks then tasks[id] else TaskState(Running, attempt, None, None);
            tasks := tasks[id := prior.(revision := revision)];
            log := log + [TaskCommitted(id, revision)];
          }
        case Retired(_, _) =>
          log := log + [TaskBlocked(id, Some(attempt), FailureOf(e))];
      }
    }

    method Note(side: seq<SideEvent>)
      requires Sound()
      modifies this`log
      ensures Sound() && Now() == Noted(old(Now()), side)
    {
      hide Healthy, Consistent, Safe, BlocksExplained, Accounted;
      QuietIsHealthy(Now(), Story(), "", side, maxTaskRetries, extra);
      log := log + Sides(side);
    }

    /** Ask for an amendment and apply it, or record why there is none. */
    method OnNeedsReplan(id: TaskId, answer: ReplanAnswer) returns (amended: bool)
      requires Sound()
      modifies this`plan, this`tasks, this`log, this`replans, this`trace
      ensures Sound() && old(trace) <= trace && KeepsCompleted(old(Now()), Now())
      ensures amended <==> answer.Proposed? && old(replans) < maxReplans
                           && forall t <- old(plan).tasks :: old(StateOf(tasks, t.id)).status in {Completed, Running} ==> InPlan(answer.plan, t.id)
      ensures !amended ==> plan == old(plan) && tasks == old(tasks) && replans == old(replans) && trace == old(trace)
      ensures !amended ==>
                log == old(log) + [ReplanRequested(id)] + Sides(Consulted(answer, old(replans) < maxReplans)) + [Side(FollowupCreated)]
      ensures amended ==> plan == answer.plan && replans == old(replans) + 1
      ensures amended ==>
                forall other :: StateOf(tasks, other) == Carried(old(plan), plan, old(StateOf(tasks, other)), other)
      ensures amended && UniqueIds(plan) ==>
                AmendmentLogged(old(log) + [ReplanRequested(id)] + Sides(answer.side), old(Now()), plan, log)
      ensures old(NoneReady(Now())) ==> NoneReady(Now())
    {
      hide Healthy, Consistent, Safe, BlocksExplained, Accounted, Continues;
      QuietIsHealthy(Now(), Story(), id, [], maxTaskRetries, extra);
      log := log + [ReplanRequested(id)];
      var side := if answer.NoProvider? then [] else answer.side;
      if answer.NoProvider? || replans >= maxReplans {
        Note([FollowupCreated]);
        return false;
      }
      Note(side);
      KeepsExecutedMeans(World(plan, tasks, replans, log), answer);
      if answer.NoAmendment? || !KeepsExecuted(World(plan, tasks, replans, log), answer.plan) || answer.Gated? {
        Note([FollowupCreated]);
        return false;
      }
      ghost var before, story := Now(), Story();
      AmendedIsHealthy(before, answer.plan, maxTaskRetries, extra);
      AmendedKeepsCompleted(before, answer.plan);
      AmendmentIsExplained(story, before, answer.plan);
      if NoneReady(before) {
        AmendedNoneReady(before, answer.plan);
      }
      AmendmentMeans(before, answer.plan);
      if UniqueIds(answer.plan) {
        AmendmentLogs(old(Now()), before, answer.plan);
      }
      Amend(answer.plan);
      LivedOn(past, trace, launches, Now());
      ExplanationsStay(story, Lived(past, trace + [Now()], launches), Now());
      AccountGrows(story, Lived(past, trace + [Now()], launches), trace, Now(), maxTaskRetries, extra);
      trace := trace + [Now()];
      return true;
    }

    method Amend(amendedPlan: Plan)
      modifies this`plan, this`tasks, this`log, this`replans
      ensures Now() == Amended(old(Now()), amendedPlan)
    {
      ghost var before := Now();
      var removed := Missing(plan.tasks, amendedPlan.tasks);
      var added := Missing(amendedPlan.tasks, plan.tasks);
      for i := 0 to |added|
        invariant Now() == before.(tasks := Add(before.tasks, added[..i]))
      {
        assert added[..i + 1][..i] == added[..i];
        tasks := tasks[added[i] := FRESH];
      }
      assert added[..|added|] == added;
      ghost var grown := before.(tasks := Add(before.tasks, added));
      var list := amendedPlan.tasks;
      assert Now() == grown;
      assert list[..0] == [];
      for i := 0 to |list|
        invariant Now() == Redispatched(grown, list[..i])
      {
        assert list[..i + 1][..i] == list[..i];
        var prior := StateOf(tasks, list[i].id);
        if prior.status == NeedsReplan {
          tasks := tasks[list[i].id := prior.(status := Pending)];
          log := log + [TaskReady(list[i].id, Some(prior.attempt))];
        }
      }
      assert list[..|list|] == list;
      plan := amendedPlan;
      log := log + [PlanAmended(removed, added)];
      RedispatchedState(grown, list, "");
      replans := replans + 1;
    }

    /**
     * The progress a round makes: the lexicographic measure of the loop (replans left, then work left) drops, or the
     * round is the last one.
     */
    ghost predicate Shrinks(before: World)
      reads this
    {
      || (before.replans < replans <= maxReplans)
      || (replans == before.replans && plan == before.plan
          && Work(tasks, plan.tasks, maxTaskRetries) < Work(before.tasks, plan.tasks, maxTaskRetries))
    }

    /** The second half of a round: launch a ready task, settle it, replan if it asks for that. */
    method Advance(t: Task, e: Execution, answer: ReplanAnswer, failed: seq<TaskId>)
      returns (step: Step, failedTasks: seq<TaskId>)
      requires Sound() && AllExhausted(trace, failed, maxTaskRetries)
      requires exists i :: FirstToStart(Now(), i) && plan.tasks[i] == t
      modifies this
      ensures Sound() && old(trace) <= trace
      ensures launches == old(launches) + [Launch(old(Now()), t.id, e)]
      ensures cancellationObserved == (old(cancellationObserved) || Withdrawn(e))
      ensures step == Stop(ReplanFailed) ==> e.Finished? && e.status == ENeedsReplan
      ensures KeepsCompleted(old(Now()), Now()) && AllExhausted(trace, failedTasks, maxTaskRetries)
      ensures failedTasks == failed + GivenUp([Launch(old(Now()), t.id, e)], maxTaskRetries)
      ensures (old(NoneReady(Now())) ==> NoneReady(Now())) && KeepsSettled(old(Now()), Now())
      ensures replans == old(replans) && !FailedLaunch(Launch(old(Now()), t.id, e)) ==> StatusIn(Now(), t.id) !in {Pending, Running}
      ensures replans == old(replans) ==> PlanStands(trace, |old(trace)|, plan)
      ensures replans == old(replans) || old(replans) < replans <= maxReplans
      ensures if step == Continue then Shrinks(old(Now())) else step == Stop(ReplanFailed)
    {
      hide Healthy, Consistent, Safe, BlocksExplained, Accounted, KeepsCompleted, NoneReady, Settled, IsReady, AllExhausted, Work;
      failedTasks := failed;
      ghost var before := Now();
      OneGivenUp(Launch(before, t.id, e), maxTaskRetries);
      RoundKeepsCompleted(before, t.id, e, maxTaskRetries);
      RunTask(t, e);
      ExhaustionsCarry(old(trace), trace, failedTasks, maxTaskRetries);
      if StateOf(tasks, t.id).status == Failed {
        OneMoreExhausted(trace, failedTasks, before, t.id, e, maxTaskRetries);
        failedTasks := failedTasks + [t.id];
      }
      if StatusOfExecution(e) == ENeedsReplan {
        ghost var settled, seen := Now(), trace;
        var amended := OnNeedsReplan(t.id, answer);
        CompletedTwice(before, settled, Now());
        ExhaustionsCarry(seen, trace, failedTasks, maxTaskRetries);
        step := if amended then Continue else Stop(ReplanFailed);
      } else {
        RoundUsesWork(before, t, e, maxTaskRetries);
        step := Continue;
      }
    }

    /** One round of the loop. */
    method Round(e: Execution, answer: ReplanAnswer, failed: seq<TaskId>) returns (step: Step, failedTasks: seq<TaskId>)
      requires Sound() && AllExhausted(trace, failed, maxTaskRetries)
      modifies this
      ensures Sound() && old(trace) <= trace && old(launches) <= launches
      ensures KeepsCompleted(old(Now()), Now()) && AllExhausted(trace, failedTasks, maxTaskRetries)
      ensures failedTasks == failed + GivenUp(launches[|old(launches)|..], maxTaskRetries)
      ensures replans == old(replans) ==> LaunchSettles(old(Now()), old(launches), launches, Now())
      ensures SparesCompleted(old(Now()), launches, |old(launches)|)
      ensures LaunchesOne(old(launches), launches, e) && (step == Continue ==> |launches| == |old(launches)| + 1)
      ensures old(cancellationObserved) ==> launches == old(launches)
      ensures cancellationObserved == (old(cancellationObserved) || (|launches| > |old(launches)| && Withdrawn(e)))
      ensures step == Stop(ReplanFailed) ==> |launches| > |old(launches)| && e.Finished? && e.status == ENeedsReplan
      ensures (old(NoneReady(Now())) ==> NoneReady(Now())) && KeepsSettled(old(Now()), Now())
      ensures replans == old(replans) ==> PlanStands(trace, |old(trace)|, plan)
      ensures replans == old(replans) || old(replans) < replans <= maxReplans
      ensures step == Continue ==> Shrinks(old(Now()))
      ensures step == Conclude ==> forall id :: InPlan(plan, id) ==> StatusIn(Now(), id) !in {Pending, Running}
      ensures step == Stop(Deadlocked) ==> HasPending(Now()) && !HasReady(Now())
      ensures step == Stop(Deadlocked) && old(NoneReady(Now())) ==> !(UniqueIds(plan) && DependenciesListedFirst(plan))
      ensures step == Stop(Done) ==> cancellationObserved
      ensures step.Stop? ==> step.outcome != RunnableWorkRemains
    {
      hide Healthy, Consistent, Safe, BlocksExplained, Accounted, KeepsCompleted, NoneReady, NoneRunning, IsReady, AllExhausted, Work,
        UniqueIds, DependenciesListedFirst, HasPending, HasReady, Calmer, KeepsSettled, FirstToStart, CanStart, Withdrawn,
        FailedLaunch;
      failedTasks := failed;
      Prepare();
      assert launches[|launches|..] == [] && GivenUp([], maxTaskRetries) == [] && failed + [] == failed;
      CalmerMeans(old(Now()), Now(), maxTaskRetries);
      ghost var swept := Now();
      ExhaustionsCarry(old(trace), trace, failed, maxTaskRetries);

      var now := World(plan, tasks, replans, log);
      var pends := (t: Task) => StateOf(now.tasks, t.id).status == Pending;
      var starts := (t: Task) => IsReady(now, t);
      var pending := Filter(plan.tasks, pends);
      if pending == [] {
        ConcludedStatuses(Now(), pending);
        return Conclude, failedTasks;
      }
      var ready := Filter(pending, starts);
      StalledWork(Now(), pending, ready);
      if ready == [] {
        return Stop(Deadlocked), failedTasks;
      }
      if cancellationObserved {
        return Stop(Done), failedTasks;
      }
      var t := ready[0];
      FirstStarts(Now(), pends, starts);
      step, failedTasks := Advance(t, e, answer, failedTasks);
      assert launches[|old(launches)|..] == [Launch(swept, t.id, e)];
      CompletedTwice(old(Now()), swept, Now());
      SettledTwice(old(Now()), swept, Now());
      RoundLaunches(old(Now()), swept, old(launches), launches, Launch(swept, t.id, e), Now());
      hide LaunchesOne, LaunchSettles, SparesCompleted, Shrinks;
    }

    /**
     * The scheduler's loop, for every sequence of task outcomes and replanning answers. It terminates; the run stays
     * sound; completed work is neither dropped nor launched again; and each result means what it says.
     */
    method RunScheduler(outcomes: nat -> Execution, answers: nat -> ReplanAnswer)
      returns (outcome: SchedulerOutcome, failedTasks: seq<TaskId>)
      requires Sound()
      modifies this
      ensures Sound() && old(trace) <= trace && old(launches) <= launches
      ensures KeepsCompleted(old(Now()), Now()) && SparesCompleted(old(Now()), launches, |old(launches)|)
      ensures forall k :: |old(launches)| <= k < |launches| ==> !CompletedIn(old(Now()), launches[k].id)
      ensures Follow(launches, |old(launches)|, outcomes)
      ensures replans == old(replans) || old(replans) < replans <= maxReplans
      ensures replans == old(replans) ==> plan == old(plan) && PlanStands(trace, |old(trace)|, plan)
      ensures AllExhausted(trace, failedTasks, maxTaskRetries)
      ensures failedTasks == GivenUp(launches[|old(launches)|..], maxTaskRetries)
      ensures replans == old(replans) ==> OnlyFailuresAgain(launches, |old(launches)|)
      ensures StopsOnce(launches, |old(launches)|, old(cancellationObserved), cancellationObserved)
      ensures outcome == ReplanFailed ==>
                launches != [] && StatusOfExecution(launches[|launches| - 1].execution) == ENeedsReplan
      ensures outcome == Deadlocked ==> HasPending(Now()) && !HasReady(Now())
      ensures outcome == Deadlocked && old(NoneReady(Now())) ==> !(UniqueIds(plan) && DependenciesListedFirst(plan))
      ensures outcome == Done && !cancellationObserved ==> (AllEnded(Now()) <==> NoneReady(Now()))
      ensures (old(NoneReady(Now())) ==> NoneReady(Now())) && KeepsSettled(old(Now()), Now())
      ensures outcome == Done && !cancellationObserved && replans == old(replans) ==> (AllEnded(Now()) <==> old(NoneReady(Now())))
      ensures outcome == RunnableWorkRemains ==> exists id :: InPlan(plan, id) && StatusIn(Now(), id) == NeedsReplan
    {
      hide Healthy, Consistent, Safe, BlocksExplained, Accounted, KeepsCompleted, NoneReady, AllExhausted, Work, UniqueIds,
        DependenciesListedFirst, HasPending, HasReady, SparesCompleted, KeepsSettled, LaunchSettles, OnlyFailuresAgain, Chronicle, GivenUp,
        Follow, LaunchesOne, StopsOnce, Withdrawn, Ran;
      failedTasks := [];
      var i := 0;
      ghost var start, n, observed := Now(), |launches|, cancellationObserved;
      NoneExhausted(trace, maxTaskRetries);
      NothingRan(start, launches, observed, outcomes, maxTaskRetries);
      while true
        invariant Sound() && old(trace) <= trace && old(launches) <= launches
        invariant replans == old(replans) || old(replans) < replans <= maxReplans
        invariant replans == old(replans) ==> PlanStands(trace, |old(trace)|, plan)
        invariant old(NoneReady(Now())) ==> NoneReady(Now())
        invariant AllExhausted(trace, failedTasks, maxTaskRetries)
        invariant |launches| == n + i
        invariant Ran(start, n, observed, Now(), launches, cancellationObserved, outcomes, failedTasks, maxTaskRetries)
        decreases if replans < maxReplans then maxReplans - replans else 0, Work(tasks, plan.tasks, maxTaskRetries)
      {
        ghost var head, launched, gone, seen := Now(), launches, failedTasks, cancellationObserved;
        var step;
        step, failedTasks := Round(outcomes(i), answers(i), failedTasks);
        RanOn(start, n, observed, head, launched, seen, gone, Now(), launches, cancellationObserved, failedTasks, outcomes, maxTaskRetries);
        if step.Conclude? {
          break;
        }
        if step.Stop? {
          RanMeans(start, n, observed, Now(), launches, cancellationObserved, outcomes, failedTasks, maxTaskRetries);
          return step.outcome, failedTasks;
        }
        i := i + 1;
      }
      var current := tasks;
      var parked := Filter(plan.tasks, (t: Task) => StateOf(current, t.id).status == NeedsReplan);
      ParkedWork(Now(), parked);
      RanMeans(start, n, observed, Now(), launches, cancellationObserved, outcomes, failedTasks, maxTaskRetries);
      if parked == [] {
        EndedOrReady(Now());
      }
      return if parked != [] then RunnableWorkRemains else Done, failedTasks;
    }
  }

  // ---- Whole runs ----

  /**
   * driveRun of a fresh run. As long as no amendment is applied, every task that is blocked at any time was blocked by
   * its own outcome or has a transitive dependency that was, or that failed, was cancelled or asked for a replan.
   */
  method FreshRun(plan: Plan, side: seq<SideEvent>, maxTaskRetries: nat, maxReplans: nat, outcomes: nat -> Execution,
                  answers: nat -> ReplanAnswer) returns (run: Driver, outcome: SchedulerOutcome)
    ensures fresh(run) && run.Sound() && run.maxTaskRetries == maxTaskRetries && run.extra == 0
    ensures run.replans <= maxReplans && NoneReady(run.Now())
    ensures run.past == History(Started(plan, Sides(side)), [], []) && Follow(run.launches, 0, outcomes)
    ensures run.replans == 0 ==> run.plan == plan && forall w, id :: w in run.trace && InPlan(plan, id) && StatusIn(w, id) == Blocked ==>
              Rooted(run.Story(), plan, id)
    ensures run.replans == 0 ==> OnlyFailuresAgain(run.launches, 0)
    ensures StopsOnce(run.launches, 0, false, run.cancellationObserved)
    ensures outcome == Done && !run.cancellationObserved ==> AllEnded(run.Now())
  {
    run := new Driver.Start(plan, side, maxTaskRetries, maxReplans);
    StartedNoneReady(plan, side);
    ghost var start := run.Now();
    var failed;
    outcome, failed := run.RunScheduler(outcomes, answers);
    if run.replans == 0 {
      AllRooted(run.Story(), run.trace, plan, maxTaskRetries, 0);
    }
  }

  /**
   * resumeRun: whatever the crash left of plan file and log, no task that was completed when the process died is
   * launched again, and all of them are completed in the end.
   */
  method ResumeRun(ghost interrupted: World, plan: Plan, log: seq<Event>, maxTaskRetries: nat, maxReplans: nat,
                   outcomes: nat -> Execution, answers: nat -> ReplanAnswer) returns (run: Driver, outcome: SchedulerOutcome)
    requires Simulated(interrupted) && LeftBehind(interrupted, plan, log)
    ensures fresh(run) && run.Sound() && KeepsCompleted(interrupted, run.Now())
    ensures forall k :: 0 <= k < |run.launches| ==> !CompletedIn(interrupted, run.launches[k].id)
    ensures outcome == Done && !run.cancellationObserved && (forall t <- plan.tasks :: !LastMovedReady(log, t.id)) ==> AllEnded(run.Now())
    ensures outcome == Done && !run.cancellationObserved && run.replans == ProjectState(plan, log).replans ==>
              (AllEnded(run.Now()) <==> forall t <- plan.tasks :: !LastMovedReady(log, t.id))
  {
    ghost var start := Resumed(plan, log);
    ghost var spent := AnyLogIsBudgeted(start, maxTaskRetries);
    StartExplainsItself(start);
    run := new Driver.Resume(plan, log, maxTaskRetries, maxReplans, History(start, [], []), spent);
    ResumeKeepsCompleted(interrupted, plan, log);
    NoneReadyFromLog(plan, log);
    hide *;
    var failed;
    outcome, failed := run.RunScheduler(outcomes, answers);
    CompletedTwice(interrupted, start, run.Now());
    SparedThrough(interrupted, start, run.launches);
  }

  lemma StartedNoneReady(plan: Plan, side: seq<SideEvent>)
    ensures NoneReady(Started(plan, Sides(side)))
  {}

  lemma StartExplainsItself(w: World)
    ensures BlocksExplained(History(w, [], []), w)
  {
    forall id | InPlan(w.plan, id) && StatusIn(w, id) == Blocked ensures Explained(History(w, [], []), id) {
      assert Justifies(History(w, [], []), AtStart, id);
    }
  }

  lemma NoneReadyFromLog(plan: Plan, log: seq<Event>)
    ensures NoneReady(Resumed(plan, log)) <==> forall t <- plan.tasks :: !LastMovedReady(log, t.id)
  {
    forall t | t in plan.tasks ensures StatusIn(Resumed(plan, log), t.id) == Ready <==> LastMovedReady(log, t.id) {
      ReadyFromLog(plan, log, t.id);
    }
  }

  lemma AllRooted(h: History, trace: seq<World>, plan: Plan, maxTaskRetries: nat, extra: int)
    requires Accounted(h, trace, maxTaskRetries, extra) && PlanStands(trace, 0, plan) && h.start.plan == plan && h.worlds == trace
    ensures forall w, id :: w in trace && InPlan(plan, id) && StatusIn(w, id) == Blocked ==> Rooted(h, plan, id)
  {
    forall w, id | w in trace && InPlan(plan, id) && StatusIn(w, id) == Blocked ensures Rooted(h, plan, id) {
      BlocksAreRooted(h, plan, w, id);
    }
  }

  lemma SparedThrough(a: World, b: World, launches: seq<Launch>)
    requires KeepsCompleted(a, b) && forall k :: 0 <= k < |launches| ==> !CompletedIn(b, launches[k].id)
    ensures forall k :: 0 <= k < |launches| ==> !CompletedIn(a, launches[k].id)
  {}

  // ---- What the filtered lists of the loop say about the run ----

  lemma ConcludedStatuses(w: World, pending: seq<Task>)
    requires NoneRunning(w) && forall t :: t in w.plan.tasks && StatusIn(w, t.id) == Pending ==> t in pending
    requires pending == []
    ensures forall id :: InPlan(w.plan, id) ==> StatusIn(w, id) !in {Pending, Running}
  {}

  lemma ParkedWork(w: World, parked: seq<Task>)
    requires forall t :: t in parked <==> t in w.plan.tasks && StatusIn(w, t.id) == NeedsReplan
    ensures parked != [] <==> exists id :: InPlan(w.plan, id) && StatusIn(w, id) == NeedsReplan
  {
    if parked != [] {
      assert parked[0] in parked;
      assert InPlan(w.plan, parked[0].id);
    }
  }

  lemma StalledWork(w: World, pending: seq<Task>, ready: seq<Task>)
    requires forall t :: t in pending <==> t in w.plan.tasks && StatusIn(w, t.id) == Pending
    requires forall t :: t in ready <==> t in pending && IsReady(w, t)
    requires pending != []
    ensures HasPending(w) && (ready == [] ==> !HasReady(w))
  {
    assert pending[0] in pending;
    var k :| 0 <= k < |w.plan.tasks| && w.plan.tasks[k] == pending[0];
    assert Pends(w, w.plan.tasks[k]);
  }

  lemma NoneExhausted(trace: seq<World>, maxTaskRetries: nat)
    ensures AllExhausted(trace, [], maxTaskRetries)
  {}

  lemma LaunchIsSafe(w: World, t: Task, e: Execution)
    requires exists i :: FirstToStart(w, i) && w.plan.tasks[i] == t
    ensures Safe(Launch(w, t.id, e)) && InPlan(w.plan, t.id) && t in w.plan.tasks && StatusIn(w, t.id) == Pending
  {
    var i :| FirstToStart(w, i) && w.plan.tasks[i] == t;
    assert w.plan.tasks[i].id == t.id;
  }

  lemma SafeMeans(launch: Launch)
    requires Safe(launch)
    ensures InPlan(launch.before.plan, launch.id) && StatusIn(launch.before, launch.id) == Pending
  {}

  /** The first of the ready tasks of a round. */
  lemma FirstStarts(w: World, pends: Task -> bool, starts: Task -> bool)
    requires forall t :: pends(t) <==> StatusIn(w, t.id) == Pending
    requires forall t :: starts(t) <==> IsReady(w, t)
    requires Filter(Filter(w.plan.tasks, pends), starts) != []
    ensures exists i :: FirstToStart(w, i) && w.plan.tasks[i] == Filter(Filter(w.plan.tasks, pends), starts)[0]
  {
    FirstKept(w.plan.tasks, pends, starts);
    hide Filter;
    FirstOfStarts(w, pends, starts, Filter(Filter(w.plan.tasks, pends), starts)[0]);
  }

  lemma FirstOfStarts(w: World, pends: Task -> bool, starts: Task -> bool, first: Task)
    requires forall t :: pends(t) <==> StatusIn(w, t.id) == Pending
    requires forall t :: starts(t) <==> IsReady(w, t)
    requires FirstOf(w.plan.tasks, pends, starts, first)
    ensures exists i :: FirstToStart(w, i) && w.plan.tasks[i] == first
  {
    forall t: Task ensures CanStart(w, t) <==> pends(t) && starts(t) {
      HinderedMeans(w, t);
    }
    hide CanStart;
    var i :| 0 <= i < |w.plan.tasks| && w.plan.tasks[i] == first && pends(first) && starts(first)
             && forall j :: 0 <= j < i ==> !(pends(w.plan.tasks[j]) && starts(w.plan.tasks[j]));
    assert FirstToStart(w, i);
  }

  // ---- What an amendment leaves ----

  /** What the replanner logs, when it is asked. */
  function Consulted(answer: ReplanAnswer, budgetLeft: bool): seq<SideEvent> {
    if answer.NoProvider? || !budgetLeft then [] else answer.side
  }

  /** A task that came with the new plan starts afresh; one that waited for a replan and is kept is pending again. */
  function Carried(plan: Plan, amended: Plan, s: TaskState, id: TaskId): TaskState {
    if InPlan(amended, id) && !InPlan(plan, id) then TaskState(Pending, 0, None, None)
    else if InPlan(amended, id) && s.status == NeedsReplan then s.(status := Pending)
    else s
  }

  ghost predicate AmendmentLogged(log: seq<Event>, w: World, amended: Plan, after: seq<Event>) {
    exists removed, added ::
      && after == log + ReadyEvents(w, amended.tasks) + [PlanAmended(removed, added)]
      && (forall id :: id in removed <==> InPlan(w.plan, id) && !InPlan(amended, id))
      && (forall id :: id in added <==> InPlan(amended, id) && !InPlan(w.plan, id))
  }

  lemma AmendmentMeans(w: World, amended: Plan)
    ensures forall id :: StateOf(Amended(w, amended).tasks, id) == Carried(w.plan, amended, StateOf(w.tasks, id), id)
  {
    forall id ensures StateOf(Amended(w, amended).tasks, id) == Carried(w.plan, amended, StateOf(w.tasks, id), id) {
      AmendedState(w, amended, id);
    }
  }

  /** `before` is the world the replan was asked in: only the log has grown since. */
  lemma AmendmentLogs(before: World, w: World, amended: Plan)
    requires before.plan == w.plan && before.tasks == w.tasks && UniqueIds(amended)
    ensures AmendmentLogged(w.log, before, amended, Amended(w, amended).log)
  {
    AmendedLog(w, amended);
    ReadyEventsSame(before, w, amended.tasks);
    hide Amended, ReadyEvents, InPlan;
    var removed, added :| Amended(w, amended).log == w.log + ReadyEvents(w, amended.tasks) + [PlanAmended(removed, added)]
      && (forall id :: id in removed <==> InPlan(w.plan, id) && !InPlan(amended, id))
      && (forall id :: id in added <==> InPlan(amended, id) && !InPlan(w.plan, id));
  }

  lemma KeepsExecutedMeans(w: World, answer: ReplanAnswer)
    requires !answer.NoProvider?
    ensures answer.Proposed? || answer.Gated? ==>
              (KeepsExecuted(w, answer.plan) <==>
               forall t <- w.plan.tasks :: StateOf(w.tasks, t.id).status in {Completed, Running} ==> InPlan(answer.plan, t.id))
  {}

  // ---- The steps of a round, as the methods need them ----

  /** The worlds an attempt adds to the story are accounted for, and so is the one it ends in. */
  lemma AttemptIsSound(past: History, trace: seq<World>, launches: seq<Launch>, w: World, id: TaskId, e: Execution,
                       maxTaskRetries: nat, extra: int)
    requires Healthy(w, maxTaskRetries, extra) && InPlan(w.plan, id) && StatusIn(w, id) == Pending
    requires Launch(w, id, e) in Lived(past, trace, launches).launches && BlocksExplained(Lived(past, trace, launches), w)
    requires Accounted(Lived(past, trace, launches), trace, maxTaskRetries, extra)
    ensures var longer := trace + [Launched(w, id), Settled(w, id, e, maxTaskRetries)];
            && Accounted(Lived(past, longer, launches), longer, maxTaskRetries, extra)
            && BlocksExplained(Lived(past, longer, launches), Settled(w, id, e, maxTaskRetries))
            && Healthy(Settled(w, id, e, maxTaskRetries), maxTaskRetries, extra)
  {
    hide Healthy, Consistent, BlocksExplained, Accounted, Continues, Launched, Settled, Lived;
    RoundIsHealthy(w, id, e, maxTaskRetries, extra);
    var launched, settled := Launched(w, id), Settled(w, id, e, maxTaskRetries);
    var h0 := Lived(past, trace, launches);
    var h1 := Lived(past, trace + [launched], launches);
    var h2 := Lived(past, (trace + [launched]) + [settled], launches);
    RoundIsExplained(h0, w, id, e, maxTaskRetries);
    LivedOn(past, trace, launches, launched);
    ExplanationsStay(h0, h1, launched);
    ExplanationsStay(h0, h1, settled);
    AccountGrows(h0, h1, trace, launched, maxTaskRetries, extra);
    LivedOn(past, trace + [launched], launches, settled);
    ExplanationsStay(h1, h2, settled);
    AccountGrows(h1, h2, trace + [launched], settled, maxTaskRetries, extra);
    assert (trace + [launched]) + [settled] == trace + [launched, settled];
  }

  // ---- What the invariants of the loop come to ----

  /** The worlds from the n-th on have this plan. */
  ghost predicate PlanStands(trace: seq<World>, n: nat, plan: Plan) {
    forall k :: n <= k < |trace| ==> trace[k].plan == plan
  }

  /** At most one more launch, of this execution. */
  ghost predicate LaunchesOne(before: seq<Launch>, after: seq<Launch>, e: Execution) {
    before <= after && |after| <= |before| + 1 && (|after| == |before| + 1 ==> after[|before|].execution == e)
  }

  /** A launch that was made left its task settled, unless it failed. */
  ghost predicate LaunchSettles(w: World, before: seq<Launch>, after: seq<Launch>, now: World) {
    after == before || (|after| > |before| && KeepsSettled(w, after[|before|].before) && after[|before|].before.replans == w.replans
                        && KeepsSettled(after[|before|].before, now)
                        && (!FailedLaunch(after[|before|]) ==> StatusIn(now, after[|before|].id) !in {Pending, Running}))
  }

  /** What a round says of its one launch. */
  lemma RoundLaunches(w: World, swept: World, before: seq<Launch>, after: seq<Launch>, launch: Launch, now: World)
    requires after == before + [launch] && launch.before == swept && KeepsSettled(w, swept) && KeepsCompleted(w, swept)
    requires KeepsSettled(swept, now) && swept.replans == w.replans
    requires now.replans == swept.replans && !FailedLaunch(launch) ==> StatusIn(now, launch.id) !in {Pending, Running}
    ensures LaunchesOne(before, after, launch.execution) && SparesCompleted(w, after, |before|)
    ensures now.replans == w.replans ==> LaunchSettles(w, before, after, now)
  {
    hide KeepsSettled, KeepsCompleted;
  }

  lemma RoundRelaunches(w: World, before: seq<Launch>, after: seq<Launch>, now: World, n: nat)
    requires n <= |before| <= |after| <= |before| + 1 && before <= after && Relaunches(w, before, n)
    requires LaunchSettles(w, before, after, now) && KeepsSettled(w, now) && now.replans == w.replans
    requires forall launch :: launch in after ==> Safe(launch)
    ensures Relaunches(now, after, n)
  {
    hide Relaunches, KeepsSettled;
    if after == before {
      RelaunchesKept(w, now, before, n);
    } else {
      var launch := after[|before|];
      assert launch in after && after == before + [launch];
      OneMoreLaunch(w, before, launch, now, n);
    }
  }

  /** What the launches from the n-th on amount to: those of the outcomes, retries of failures, and the tasks given up. */
  ghost predicate Chronicle(w: World, samePlan: bool, launches: seq<Launch>, n: nat, outcomes: nat -> Execution, failed: seq<TaskId>,
                            maxTaskRetries: nat) {
    && n <= |launches| && Follow(launches, n, outcomes) && failed == GivenUp(launches[n..], maxTaskRetries)
    && (samePlan ==> Relaunches(w, launches, n))
  }

  lemma ChronicleStarts(w: World, launches: seq<Launch>, outcomes: nat -> Execution, maxTaskRetries: nat)
    ensures Chronicle(w, true, launches, |launches|, outcomes, [], maxTaskRetries)
  {
    assert launches[|launches|..] == [];
  }

  lemma ChronicleMeans(w: World, samePlan: bool, launches: seq<Launch>, n: nat, outcomes: nat -> Execution, failed: seq<TaskId>,
                       maxTaskRetries: nat)
    requires Chronicle(w, samePlan, launches, n, outcomes, failed, maxTaskRetries)
    ensures n <= |launches| && Follow(launches, n, outcomes) && failed == GivenUp(launches[n..], maxTaskRetries)
    ensures samePlan ==> OnlyFailuresAgain(launches, n)
  {}

  lemma ChronicleGoesOn(w: World, now: World, replans: nat, before: seq<Launch>, after: seq<Launch>, n: nat,
                        outcomes: nat -> Execution, gone: seq<TaskId>, failed: seq<TaskId>, maxTaskRetries: nat)
    requires n <= |before| && Chronicle(w, w.replans == replans, before, n, outcomes, gone, maxTaskRetries)
    requires LaunchesOne(before, after, outcomes(|before| - n)) && failed == gone + GivenUp(after[|before|..], maxTaskRetries)
    requires now.replans == w.replans ==> LaunchSettles(w, before, after, now)
    requires KeepsSettled(w, now) && replans <= w.replans && forall launch :: launch in after ==> Safe(launch)
    ensures Chronicle(now, now.replans == replans, after, n, outcomes, failed, maxTaskRetries)
  {
    hide KeepsSettled, LaunchSettles, Safe, Relaunches, GivenUp;
    GivenUpConcat(before[n..], after[|before|..], maxTaskRetries);
    assert after[n..] == before[n..] + after[|before|..];
    if now.replans == replans {
      assert w.replans == replans by {
        KeptPlan(w, now, now) by {
          SettledSelf(now);
        }
      }
      RoundRelaunches(w, before, after, now, n);
    }
  }

  /** Nothing is launched once a cancellation is observed, and it is observed from the withdrawn requests of the launches. */
  ghost predicate StopsOnce(launches: seq<Launch>, n: nat, before: bool, observed: bool) {
    && n <= |launches| && (before ==> |launches| == n) && NothingAfterWithdrawal(launches, n)
    && (observed <==> before || SomeWithdrawn(launches, n))
  }

  lemma NotStoppedYet(launches: seq<Launch>, observed: bool)
    ensures StopsOnce(launches, |launches|, observed, observed)
  {
    NoneWithdrawnYet(launches);
  }

  lemma OneWithdrawn(before: seq<Launch>, after: seq<Launch>, e: Execution, n: nat, observedBefore: bool, observed: bool, now: bool)
    requires before <= after && LaunchesOne(before, after, e) && StopsOnce(before, n, observedBefore, observed)
    requires (observed ==> after == before) && now == (observed || (|after| > |before| && Withdrawn(e)))
    ensures StopsOnce(after, n, observedBefore, now)
    ensures |after| > |before| ==> after[|after| - 1].execution == e
  {
    if |after| > |before| {
      assert after == before + [after[|before|]];
      WithdrawnOrNot(before, after[|before|], n);
    } else {
      assert after == before;
    }
    hide Withdrawn, SomeWithdrawn, NothingAfterWithdrawal;
  }

  /** All that a run that started from `w` keeps, round after round. */
  ghost predicate Ran(w: World, n: nat, observed: bool, now: World, launches: seq<Launch>, observedNow: bool,
                      outcomes: nat -> Execution, failed: seq<TaskId>, maxTaskRetries: nat) {
    && KeepsCompleted(w, now) && SparesCompleted(w, launches, n) && KeepsSettled(w, now)
    && StopsOnce(launches, n, observed, observedNow)
    && Chronicle(now, now.replans == w.replans, launches, n, outcomes, failed, maxTaskRetries)
  }

  lemma NothingRan(w: World, launches: seq<Launch>, observed: bool, outcomes: nat -> Execution, maxTaskRetries: nat)
    ensures Ran(w, |launches|, observed, w, launches, observed, outcomes, [], maxTaskRetries)
  {
    CompletedSelf(w);
    SettledSelf(w);
    NoneSpared(w, launches);
    NotStoppedYet(launches, observed);
    ChronicleStarts(w, launches, outcomes, maxTaskRetries);
  }

  lemma RanOn(w: World, n: nat, observed: bool, head: World, before: seq<Launch>, seen: bool, gone: seq<TaskId>,
              now: World, after: seq<Launch>, seenNow: bool, failed: seq<TaskId>, outcomes: nat -> Execution, maxTaskRetries: nat)
    requires Ran(w, n, observed, head, before, seen, outcomes, gone, maxTaskRetries)
    requires n <= |before| && before <= after && LaunchesOne(before, after, outcomes(|before| - n))
    requires KeepsCompleted(head, now) && KeepsSettled(head, now) && SparesCompleted(head, after, |before|)
    requires now.replans == head.replans ==> LaunchSettles(head, before, after, now)
    requires (seen ==> after == before) && seenNow == (seen || (|after| > |before| && Withdrawn(outcomes(|before| - n))))
    requires failed == gone + GivenUp(after[|before|..], maxTaskRetries) && forall launch :: launch in after ==> Safe(launch)
    ensures Ran(w, n, observed, now, after, seenNow, outcomes, failed, maxTaskRetries)
    ensures |after| > |before| ==> after[|after| - 1].execution == outcomes(|before| - n)
    ensures w.replans <= head.replans <= now.replans && (now.replans == w.replans ==> w.plan == head.plan == now.plan)
  {
    hide KeepsCompleted, KeepsSettled, SparesCompleted, StopsOnce, Chronicle, LaunchesOne, LaunchSettles, GivenUp, Safe, Withdrawn;
    CompletedTwice(w, head, now);
    SettledTwice(w, head, now);
    SparedTwice(w, head, before, n, after);
    KeptPlan(w, head, now);
    OneWithdrawn(before, after, outcomes(|before| - n), n, observed, seen, seenNow);
    ChronicleGoesOn(head, now, w.replans, before, after, n, outcomes, gone, failed, maxTaskRetries);
  }

  lemma RanMeans(w: World, n: nat, observed: bool, now: World, launches: seq<Launch>, observedNow: bool,
                 outcomes: nat -> Execution, failed: seq<TaskId>, maxTaskRetries: nat)
    requires Ran(w, n, observed, now, launches, observedNow, outcomes, failed, maxTaskRetries)
    requires forall launch :: launch in launches ==> Safe(launch)
    ensures KeepsCompleted(w, now) && SparesCompleted(w, launches, n) && KeepsSettled(w, now) && StopsOnce(launches, n, observed, observedNow)
    ensures forall k :: n <= k < |launches| ==> !CompletedIn(w, launches[k].id)
    ensures n <= |launches| && Follow(launches, n, outcomes) && failed == GivenUp(launches[n..], maxTaskRetries)
    ensures now.replans == w.replans ==> OnlyFailuresAgain(launches, n)
    ensures now.replans == w.replans ==> now.plan == w.plan && (NoneReady(now) ==> NoneReady(w))
  {
    KeptPlan(w, now, now) by {
      SettledSelf(now);
    }
    hide KeepsCompleted, KeepsSettled, SparesCompleted, StopsOnce, Chronicle, GivenUp, Safe, Follow, OnlyFailuresAgain, NoneReady, CompletedIn;
    ChronicleMeans(now, now.replans == w.replans, launches, n, outcomes, failed, maxTaskRetries);
    SparedMeans(w, launches, n);
    KeptMeansNoneReady(w, now);
  }

  lemma {:induction false} GivenUpConcat(xs: seq<Launch>, ys: seq<Launch>, maxTaskRetries: nat)
    ensures GivenUp(xs + ys, maxTaskRetries) == GivenUp(xs, maxTaskRetries) + GivenUp(ys, maxTaskRetries)
  {
    if ys == [] {
      assert xs + ys == xs;
    } else {
      assert (xs + ys)[..|xs + ys| - 1] == xs + ys[..|ys| - 1];
      GivenUpConcat(xs, ys[..|ys| - 1], maxTaskRetries);
    }
  }

  lemma OneGivenUp(launch: Launch, maxTaskRetries: nat)
    ensures GivenUp([launch], maxTaskRetries)
            == if FailedLaunch(launch) && StateOf(launch.before.tasks, launch.id).attempt >= maxTaskRetries then [launch.id] else []
  {
    assert [launch][..0] == [];
  }

  /** The launches from the n-th on are those of the outcomes, one for each, in order. */
  ghost predicate Follow(launches: seq<Launch>, n: nat, outcomes: nat -> Execution) {
    forall k: nat :: n <= k < |launches| ==> launches[k].execution == outcomes(k - n)
  }

  ghost predicate CompletedIn(w: World, id: TaskId) {
    InPlan(w.plan, id) && StatusIn(w, id) == Completed
  }

  /** Every task of the plan has come to an end. */
  ghost predicate AllEnded(w: World) {
    forall id :: InPlan(w.plan, id) ==> StatusIn(w, id) in {Completed, Failed, Blocked, Skipped, Cancelled}
  }

  lemma KeptPlan(a: World, b: World, c: World)
    requires KeepsSettled(a, b) && KeepsSettled(b, c)
    ensures a.replans <= b.replans <= c.replans
    ensures a.replans == c.replans ==> a.plan == b.plan == c.plan
  {}

  lemma KeptMeansNoneReady(w: World, after: World)
    requires KeepsSettled(w, after)
    ensures after.replans == w.replans && NoneReady(after) ==> NoneReady(w)
  {
    if after.replans == w.replans && NoneReady(after) {
      KeptNoneReady(w, after);
    }
  }

  lemma NoneSpared(w: World, launches: seq<Launch>)
    ensures SparesCompleted(w, launches, |launches|)
  {}

  lemma SparedMeans(w: World, launches: seq<Launch>, n: nat)
    requires SparesCompleted(w, launches, n) && forall launch :: launch in launches ==> Safe(launch)
    ensures forall k :: n <= k < |launches| ==> !CompletedIn(w, launches[k].id)
  {
    forall k | n <= k < |launches| ensures !CompletedIn(w, launches[k].id) {
      assert launches[k] in launches && KeepsCompleted(w, launches[k].before);
    }
  }

  lemma EndedOrReady(w: World)
    requires forall id :: InPlan(w.plan, id) ==> StatusIn(w, id) !in {Pending, Running, NeedsReplan}
    ensures AllEnded(w) <==> NoneReady(w)
  {
    if AllEnded(w) {
      forall i | 0 <= i < |w.plan.tasks| ensures StatusIn(w, w.plan.tasks[i].id) != Ready {
        assert InPlan(w.plan, w.plan.tasks[i].id);
      }
    }
  }
}
