/**
 * apply.ts: the parallel driver, without replanning.
 *
 * The environment decides which tasks in flight settle, in which order and how. What a task does while it is in
 * flight is outside the model, except for the paths its write scope lets it change.
 */
module Parallel {
  import opened Wrappers
  import opened RunState
  import opened Transitions
  import opened Rounds
  import opened Scope

  /** How a task settles; the revision of a completed one is what its patch was merged as. */
  type Settling = e: Execution | StatusOfExecution(e) != ENeedsReplan witness Retired("", [])

  datatype Finish = Finish(id: TaskId, outcome: Settling)

  datatype DriverOutcome = Done | Deadlocked

  /** The write targets of the tasks in flight. */
  type InFlight = map<TaskId, seq<string>>

  // ---- Disjoint writes ----

  /** Two tasks in flight either have a scope that accepts nothing, or no two of their targets overlap. */
  predicate Apart(inFlight: InFlight) {
    forall i, j :: i in inFlight && j in inFlight && i != j ==> !Overlapping(inFlight[i], inFlight[j])
  }

  /** The overlap test protects the targets of different tasks from one another. */
  predicate KeptApart(inFlight: InFlight) {
    forall i, j :: i in inFlight && j in inFlight && i != j ==> AllProtected(inFlight[i], inFlight[j])
  }

  /** No changed path is within the write scope of two tasks in flight. */
  ghost predicate NoSharedPath(inFlight: InFlight) {
    forall i, j, raw :: i in inFlight && j in inFlight && i != j ==> !(InScope(inFlight[i], raw) && InScope(inFlight[j], raw))
  }

  lemma ApartMeansNoSharedPath(inFlight: InFlight)
    requires Apart(inFlight)
    ensures NoSharedPath(inFlight) <==> KeptApart(inFlight)
  {
    hide AllProtected, InScope, Overlapping;
    forall i, j | i in inFlight && j in inFlight && i != j
      ensures (forall raw :: !(InScope(inFlight[i], raw) && InScope(inFlight[j], raw))) <==> AllProtected(inFlight[i], inFlight[j])
    {
      ScopesDisjoint(inFlight[i], inFlight[j]);
    }
  }

  // ---- Potential: what bounds the number of launches and settlements ----

  function LaunchesLeft(s: TaskState, flying: bool, maxTaskRetries: nat): nat {
    if s.attempt <= maxTaskRetries then maxTaskRetries + 1 - s.attempt else if flying then 0 else 1
  }

  function Charge(s: TaskState, flying: bool, maxTaskRetries: nat): nat {
    if s.status in {Pending, Running} then 2 * LaunchesLeft(s, flying, maxTaskRetries) + (if flying then 1 else 0) else 0
  }

  function Potential(tasks: map<TaskId, TaskState>, flying: set<TaskId>, list: seq<Task>, maxTaskRetries: nat): nat {
    if list == [] then 0
    else
      var id := list[|list| - 1].id;
      Potential(tasks, flying, list[..|list| - 1], maxTaskRetries) + Charge(StateOf(tasks, id), id in flying, maxTaskRetries)
  }

  lemma {:induction false} PotentialDrops(before: map<TaskId, TaskState>, flew: set<TaskId>, after: map<TaskId, TaskState>,
                                          flying: set<TaskId>, list: seq<Task>, maxTaskRetries: nat)
    requires forall id :: Charge(StateOf(after, id), id in flying, maxTaskRetries)
                       <= Charge(StateOf(before, id), id in flew, maxTaskRetries)
    ensures Potential(after, flying, list, maxTaskRetries) <= Potential(before, flew, list, maxTaskRetries)
    ensures (exists i :: 0 <= i < |list| && Charge(StateOf(after, list[i].id), list[i].id in flying, maxTaskRetries)
                                         < Charge(StateOf(before, list[i].id), list[i].id in flew, maxTaskRetries))
            ==> Potential(after, flying, list, maxTaskRetries) < Potential(before, flew, list, maxTaskRetries)
  {
    if list != [] {
      PotentialDrops(before, flew, after, flying, list[..|list| - 1], maxTaskRetries);
      assert forall i :: 0 <= i < |list| - 1 ==> list[..|list| - 1][i] == list[i];
    }
  }

  // ---- Worlds with tasks in flight ----

  /** A dependency is read from the state alone here, whether or not the plan lists it. */
  predicate Hopeless(w: World, t: Task) {
    exists i :: 0 <= i < |t.dependsOn| && Blocking(StatusIn(w, t.dependsOn[i]))
  }

  /** A dependency failed, is blocked, was cancelled or waits for a replan. */
  predicate Hindered(w: World, t: Task) {
    exists i :: 0 <= i < |t.dependsOn| && StatusIn(w, t.dependsOn[i]) in {Failed, Blocked, Cancelled, NeedsReplan}
  }

  lemma HopelessMeans(w: World, t: Task)
    ensures Hopeless(w, t) <==> Hindered(w, t)
  {
    if Hopeless(w, t) {
      var i :| 0 <= i < |t.dependsOn| && Blocking(StatusIn(w, t.dependsOn[i]));
    }
    if Hindered(w, t) {
      var i :| 0 <= i < |t.dependsOn| && StatusIn(w, t.dependsOn[i]) in {Failed, Blocked, Cancelled, NeedsReplan};
      assert Blocking(StatusIn(w, t.dependsOn[i]));
    }
  }

  /** Every task that was blocked since `start` has a dependency that keeps it from running. */
  ghost predicate BlockedForCause(start: World, w: World) {
    forall t <- w.plan.tasks :: StatusIn(w, t.id) == Blocked && StatusIn(start, t.id) != Blocked ==> Hindered(w, t)
  }

  lemma CauseStays(start: World, w: World, t: Task, status: TaskStatus)
    requires BlockedForCause(start, w) && t in w.plan.tasks && UniqueIds(w.plan) && StatusIn(w, t.id) in {Pending, Running}
    requires status == Pending || (status == Blocked && Hopeless(w, t))
    ensures BlockedForCause(start, Transit(w, t.id, StateOf(w.tasks, t.id).(status := status)))
  {
    var after := Transit(w, t.id, StateOf(w.tasks, t.id).(status := status));
    HopelessMeans(w, t);
    TransitFacts(w, t.id, StateOf(w.tasks, t.id).(status := status));
    hide Transit;
    forall u | u in w.plan.tasks && StatusIn(after, u.id) == Blocked && StatusIn(start, u.id) != Blocked ensures Hindered(after, u) {
      if u.id == t.id {
        var i :| 0 <= i < |w.plan.tasks| && w.plan.tasks[i] == t;
        var j :| 0 <= j < |w.plan.tasks| && w.plan.tasks[j] == u;
        assert i == j;
      }
      assert Hindered(w, u);
      var m :| 0 <= m < |u.dependsOn| && StatusIn(w, u.dependsOn[m]) in {Failed, Blocked, Cancelled, NeedsReplan};
      assert u.dependsOn[m] != t.id;
    }
  }

  predicate Free(w: World, t: Task) {
    forall i :: 0 <= i < |t.dependsOn| ==> Released(StatusIn(w, t.dependsOn[i]))
  }

  /** A task in flight can be marked pending by a later round, but nothing else: its dependencies stay released. */
  ghost predicate FlightsUndisturbed(w: World, inFlight: InFlight) {
    && (forall id :: id in inFlight ==> InPlan(w.plan, id) && id in w.tasks && StatusIn(w, id) in {Pending, Running})
    && forall i :: 0 <= i < |w.plan.tasks| && w.plan.tasks[i].id in inFlight ==> Free(w, w.plan.tasks[i])
  }

  /** Nothing changes but the status of tasks that were pending or running, and never out of a settled status. */
  ghost predicate Quiet(w: World, after: World) {
    && after.plan == w.plan
    && (forall id :: StateOf(after.tasks, id) == StateOf(w.tasks, id).(status := StatusIn(after, id)))
    && (forall id :: StatusIn(after, id) == StatusIn(w, id)
                  || (StatusIn(w, id) in {Pending, Running} && StatusIn(after, id) in {Pending, Blocked}))
  }

  function SettledWorld(w: World, id: TaskId, outcome: Settling, maxTaskRetries: nat): World {
    Transit(Executed(w, id, outcome), id, Verdict(StateOf(w.tasks, id).attempt, outcome, maxTaskRetries))
  }

  lemma ExecutedFacts(w: World, id: TaskId, outcome: Settling)
    requires Simulated(w) && id in w.tasks
    ensures var executed := Executed(w, id, outcome);
            && executed.plan == w.plan && executed.replans == w.replans && executed.tasks.Keys == w.tasks.Keys
            && ViewOf(executed.tasks, id) == ViewOf(w.tasks, id)
            && (forall other :: other != id ==> StateOf(executed.tasks, other) == StateOf(w.tasks, other))
            && (forall other :: InPlan(w.plan, other) && (other != id || outcome.Finished?) ==> AgreesAt(executed, other))
  {
    ExecutedState(w, id, outcome);
    forall other | InPlan(w.plan, other) && (other != id || outcome.Finished?) ensures AgreesAt(Executed(w, id, outcome), other) {
      ExecutedAgrees(w, id, outcome, other);
    }
  }

  /** The task has the status of its outcome; the other tasks are untouched. */
  lemma SettledFacts(w: World, id: TaskId, outcome: Settling, maxTaskRetries: nat)
    requires Simulated(w) && InPlan(w.plan, id) && id in w.tasks && StatusIn(w, id) in {Pending, Running}
    ensures var after := SettledWorld(w, id, outcome, maxTaskRetries);
            && Simulated(after) && after.plan == w.plan && w.tasks.Keys <= after.tasks.Keys
            && StateOf(after.tasks, id).attempt == StateOf(w.tasks, id).attempt
            && StatusIn(after, id) == Verdict(StateOf(w.tasks, id).attempt, outcome, maxTaskRetries).status
            && forall other :: other != id ==> StateOf(after.tasks, other) == StateOf(w.tasks, other)
  {
    ExecutedFacts(w, id, outcome);
    var executed, next := Executed(w, id, outcome), Verdict(StateOf(w.tasks, id).attempt, outcome, maxTaskRetries);
    VerdictFacts(StateOf(w.tasks, id).attempt, outcome, maxTaskRetries);
    TransitFacts(executed, id, next);
    hide AgreesAt, Executed, Transit, Simulated, Verdict;
    TransitKeepsSimulation(executed, id, next);
  }

  lemma VerdictFacts(attempt: nat, outcome: Settling, maxTaskRetries: nat)
    ensures var next := Verdict(attempt, outcome, maxTaskRetries);
            && next.attempt == attempt && next.status in {Completed, Failed, Blocked, Pending}
            && (next.status in {Completed, Failed, Pending} ==> outcome.Finished?)
            && (next.status == Completed <==> outcome.Finished? && outcome.status == ECompleted)
  {}

  lemma TransitFacts(w: World, id: TaskId, next: TaskState)
    ensures var after := Transit(w, id, next);
            && after.plan == w.plan && after.tasks.Keys == w.tasks.Keys + {id}
            && StateOf(after.tasks, id).attempt == next.attempt && StatusIn(after, id) == next.status
            && forall other :: other != id ==> StateOf(after.tasks, other) == StateOf(w.tasks, other)
  {}

  lemma FlightMeans(w: World, inFlight: InFlight, id: TaskId)
    requires FlightsUndisturbed(w, inFlight) && id in inFlight
    ensures InPlan(w.plan, id) && id in w.tasks && StatusIn(w, id) in {Pending, Running}
  {}

  /** Settling one task does not disturb the others in flight, since none of them waits for it. */
  lemma {:induction false} SettleUndisturbed(w: World, inFlight: InFlight, id: TaskId, outcome: Settling, maxTaskRetries: nat)
    requires FlightsUndisturbed(w, inFlight) && id in inFlight && Simulated(w)
    ensures FlightsUndisturbed(SettledWorld(w, id, outcome, maxTaskRetries), inFlight - {id})
  {
    hide Simulated, SettledWorld, Verdict, InPlan;
    FlightMeans(w, inFlight, id);
    SettledFacts(w, id, outcome, maxTaskRetries);
    var after := SettledWorld(w, id, outcome, maxTaskRetries);
    forall i | 0 <= i < |w.plan.tasks| && w.plan.tasks[i].id in inFlight - {id} ensures Free(after, w.plan.tasks[i]) {
      assert Free(w, w.plan.tasks[i]);
      forall k | 0 <= k < |w.plan.tasks[i].dependsOn| ensures Released(StatusIn(after, w.plan.tasks[i].dependsOn[k])) {
        assert Released(StatusIn(w, w.plan.tasks[i].dependsOn[k]));
      }
    }
  }

  lemma SettleDrops(w: World, flying: set<TaskId>, id: TaskId, outcome: Settling, maxTaskRetries: nat)
    requires Simulated(w) && InPlan(w.plan, id) && id in w.tasks && StatusIn(w, id) in {Pending, Running} && id in flying
    ensures Potential(SettledWorld(w, id, outcome, maxTaskRetries).tasks, flying - {id}, w.plan.tasks, maxTaskRetries)
            < Potential(w.tasks, flying, w.plan.tasks, maxTaskRetries)
  {
    SettledFacts(w, id, outcome, maxTaskRetries);
    var after := SettledWorld(w, id, outcome, maxTaskRetries);
    forall other
      ensures Charge(StateOf(after.tasks, other), other in flying - {id}, maxTaskRetries)
           <= Charge(StateOf(w.tasks, other), other in flying, maxTaskRetries)
    {}
    PotentialDrops(w.tasks, flying, after.tasks, flying - {id}, w.plan.tasks, maxTaskRetries);
  }

  /** A launch touches only its own task, which nothing in flight waits for. */
  lemma {:induction false} LaunchUndisturbed(w: World, inFlight: InFlight, t: Task, writes: seq<string>)
    requires FlightsUndisturbed(w, inFlight) && t in w.plan.tasks && UniqueIds(w.plan)
    requires StatusIn(w, t.id) == Pending && Free(w, t)
    ensures FlightsUndisturbed(Launched(w, t.id), inFlight[t.id := writes])
    ensures forall other :: other != t.id ==> StateOf(Launched(w, t.id).tasks, other) == StateOf(w.tasks, other)
  {
    RoundStates(w, t.id, Retired("", []), 0);
    var after := Launched(w, t.id);
    var position :| 0 <= position < |w.plan.tasks| && w.plan.tasks[position] == t;
    assert InPlan(w.plan, t.id);
    forall i | 0 <= i < |w.plan.tasks| && w.plan.tasks[i].id in inFlight[t.id := writes] ensures Free(after, w.plan.tasks[i]) {
      assert i == position || w.plan.tasks[i].id != t.id;
      assert Free(w, w.plan.tasks[i]);
      forall k | 0 <= k < |w.plan.tasks[i].dependsOn| ensures Released(StatusIn(after, w.plan.tasks[i].dependsOn[k])) {
        assert Released(StatusIn(w, w.plan.tasks[i].dependsOn[k]));
      }
    }
  }

  lemma LaunchDrops(w: World, flying: set<TaskId>, t: Task, maxTaskRetries: nat)
    requires t in w.plan.tasks && StatusIn(w, t.id) == Pending && t.id !in flying
    ensures Potential(Launched(w, t.id).tasks, flying + {t.id}, w.plan.tasks, maxTaskRetries)
            <= Potential(w.tasks, flying, w.plan.tasks, maxTaskRetries)
  {
    RoundStates(w, t.id, Retired("", []), 0);
    var after := Launched(w, t.id);
    forall other
      ensures Charge(StateOf(after.tasks, other), other in flying + {t.id}, maxTaskRetries)
           <= Charge(StateOf(w.tasks, other), other in flying, maxTaskRetries)
    {}
    PotentialDrops(w.tasks, flying, after.tasks, flying + {t.id}, w.plan.tasks, maxTaskRetries);
  }

  /** Each configuration the run has been in: few enough tasks in flight, and their targets apart. */
  predicate Admitted(flights: InFlight, maxParallel: nat, writesOf: TaskId -> seq<string>) {
    |flights| <= maxParallel && Apart(flights) && forall id :: id in flights ==> flights[id] == writesOf(id)
  }

  lemma AdmittedGrows(inFlight: InFlight, id: TaskId, maxParallel: nat, writesOf: TaskId -> seq<string>)
    requires Admitted(inFlight, maxParallel, writesOf) && id !in inFlight && |inFlight| < maxParallel
    requires forall other :: other in inFlight ==> !Overlapping(writesOf(id), inFlight[other])
    ensures Admitted(inFlight[id := writesOf(id)], maxParallel, writesOf)
    ensures inFlight[id := writesOf(id)].Keys == inFlight.Keys + {id}
  {
    var grown := inFlight[id := writesOf(id)];
    forall i, j | i in grown && j in grown && i != j ensures !Overlapping(grown[i], grown[j]) {
      if j == id {
        OverlapIsSymmetric(writesOf(id), inFlight[i]);
      }
    }
  }

  lemma AdmittedShrinks(inFlight: InFlight, id: TaskId, maxParallel: nat, writesOf: TaskId -> seq<string>)
    requires Admitted(inFlight, maxParallel, writesOf) && id in inFlight
    ensures Admitted(inFlight - {id}, maxParallel, writesOf) && (inFlight - {id}).Keys == inFlight.Keys - {id}
  {
    hide Overlapping;
    assert inFlight == (inFlight - {id})[id := inFlight[id]];
  }

  /** The targets of a ready task overlap those of a task that was in flight before the round or is launched before it. */
  ghost predicate HeldBack(ready: seq<Task>, i: nat, before: set<TaskId>, inFlight: InFlight, writesOf: TaskId -> seq<string>)
    requires i < |ready|
  {
    exists id :: id in inFlight && (id in before || ListedBefore(ready, i, id)) && Overlapping(writesOf(ready[i].id), inFlight[id])
  }

  predicate ListedBefore(ready: seq<Task>, i: nat, id: TaskId)
    requires i <= |ready|
  {
    exists k :: 0 <= k < i && ready[k].id == id
  }

  /** The next task was launched: it is running, one attempt on, and nothing else has changed. */
  ghost predicate OneLaunched(t: Task, flew: InFlight, inFlight: InFlight, tasks: map<TaskId, TaskState>, after: map<TaskId, TaskState>,
                              writesOf: TaskId -> seq<string>) {
    && t.id !in flew && inFlight == flew[t.id := writesOf(t.id)]
    && (forall id :: id in flew ==> !Overlapping(writesOf(t.id), flew[id]))
    && (forall other :: other != t.id ==> StateOf(after, other) == StateOf(tasks, other))
    && StateOf(after, t.id).status == Running && StateOf(after, t.id).attempt == StateOf(tasks, t.id).attempt + 1
  }

  ghost predicate Chosen(ready: seq<Task>, i: nat, before: set<TaskId>, inFlight: InFlight, writesOf: TaskId -> seq<string>)
    requires i <= |ready|
  {
    forall k :: 0 <= k < i ==> (ready[k].id in inFlight <==> !HeldBack(ready, k, before, inFlight, writesOf))
  }

  ghost predicate Grown(ready: seq<Task>, i: nat, flew: InFlight, inFlight: InFlight, writesOf: TaskId -> seq<string>)
    requires i <= |ready|
  {
    && (forall id :: id in flew ==> id in inFlight && inFlight[id] == flew[id])
    && (forall id :: id in inFlight && id !in flew ==> inFlight[id] == writesOf(id) && ListedBefore(ready, i, id))
  }

  /** The tasks that are in flight and were not are running, one attempt on; the other states are as they were. */
  ghost predicate Started(flew: set<TaskId>, flying: set<TaskId>, tasks: map<TaskId, TaskState>, after: map<TaskId, TaskState>) {
    && (forall id :: id !in flying || id in flew ==> StateOf(after, id) == StateOf(tasks, id))
    && (forall id :: id in flying && id !in flew ==>
          StateOf(after, id).status == Running && StateOf(after, id).attempt == StateOf(tasks, id).attempt + 1)
  }

  /**
   * Of the first i ready tasks exactly those that are not held back are in flight now, running and one attempt on; nothing
   * else was launched, and no other task was touched.
   */
  ghost predicate Dispatched(ready: seq<Task>, i: nat, flew: InFlight, inFlight: InFlight, tasks: map<TaskId, TaskState>,
                             after: map<TaskId, TaskState>, writesOf: TaskId -> seq<string>)
    requires i <= |ready|
  {
    && Grown(ready, i, flew, inFlight, writesOf)
    && Chosen(ready, i, flew.Keys, inFlight, writesOf)
    && Started(flew.Keys, inFlight.Keys, tasks, after)
  }

  lemma DispatchedNone(ready: seq<Task>, flew: InFlight, tasks: map<TaskId, TaskState>, writesOf: TaskId -> seq<string>)
    ensures Dispatched(ready, 0, flew, flew, tasks, tasks, writesOf)
  {}

  predicate DistinctReady(ready: seq<Task>, flew: InFlight) {
    && (forall i :: 0 <= i < |ready| ==> ready[i].id !in flew)
    && forall i, j :: 0 <= i < j < |ready| ==> ready[i].id != ready[j].id
  }

  lemma SkipsHeldBack(ready: seq<Task>, i: nat, flew: InFlight, inFlight: InFlight, tasks: map<TaskId, TaskState>,
                      after: map<TaskId, TaskState>, writesOf: TaskId -> seq<string>)
    requires i < |ready| && DistinctReady(ready, flew) && Dispatched(ready, i, flew, inFlight, tasks, after, writesOf)
    requires exists id :: id in inFlight && Overlapping(writesOf(ready[i].id), inFlight[id])
    ensures Dispatched(ready, i + 1, flew, inFlight, tasks, after, writesOf)
  {
    hide Overlapping, HeldBack, Started, StateOf;
    NotListedYet(ready, i, flew, inFlight);
    HeldBackNow(ready, i, flew, inFlight, writesOf);
    ChosenOneMore(ready, i, flew.Keys, inFlight, writesOf);
    ListedGrows(ready, i);
    hide Overlapping, HeldBack, ListedBefore, Chosen, Started, DistinctReady;
  }

  lemma HeldBackNow(ready: seq<Task>, i: nat, flew: InFlight, inFlight: InFlight, writesOf: TaskId -> seq<string>)
    requires i < |ready| && Grown(ready, i, flew, inFlight, writesOf)
    requires exists id :: id in inFlight && Overlapping(writesOf(ready[i].id), inFlight[id])
    ensures HeldBack(ready, i, flew.Keys, inFlight, writesOf)
  {
    hide Overlapping, ListedBefore;
    var id :| id in inFlight && Overlapping(writesOf(ready[i].id), inFlight[id]);
    assert id in flew || ListedBefore(ready, i, id);
  }

  lemma NotListedYet(ready: seq<Task>, i: nat, flew: InFlight, inFlight: InFlight)
    requires i < |ready| && DistinctReady(ready, flew)
    requires forall id :: id in inFlight && id !in flew ==> ListedBefore(ready, i, id)
    ensures ready[i].id !in inFlight
  {}

  lemma ChosenOneMore(ready: seq<Task>, i: nat, before: set<TaskId>, inFlight: InFlight, writesOf: TaskId -> seq<string>)
    requires i < |ready| && Chosen(ready, i, before, inFlight, writesOf)
    requires ready[i].id in inFlight <==> !HeldBack(ready, i, before, inFlight, writesOf)
    ensures Chosen(ready, i + 1, before, inFlight, writesOf)
  {
    hide HeldBack;
  }

  lemma HeldBackByEarlier(ready: seq<Task>, k: nat, i: nat, flew: InFlight, inFlight: InFlight, writesOf: TaskId -> seq<string>)
    requires k < i < |ready| && DistinctReady(ready, flew)
    ensures HeldBack(ready, k, flew.Keys, inFlight[ready[i].id := writesOf(ready[i].id)], writesOf)
       <==> HeldBack(ready, k, flew.Keys, inFlight - {ready[i].id}, writesOf)
  {
    hide Overlapping;
    var next := ready[i].id;
    var later, earlier := inFlight[next := writesOf(next)], inFlight - {next};
    assert next !in flew && !ListedBefore(ready, k, next);
    if HeldBack(ready, k, flew.Keys, later, writesOf) {
      var id :| id in later && (id in flew.Keys || ListedBefore(ready, k, id)) && Overlapping(writesOf(ready[k].id), later[id]);
      assert id in earlier && earlier[id] == later[id];
    }
    if HeldBack(ready, k, flew.Keys, earlier, writesOf) {
      var id :| id in earlier && (id in flew.Keys || ListedBefore(ready, k, id)) && Overlapping(writesOf(ready[k].id), earlier[id]);
      assert id in later && earlier[id] == later[id];
    }
  }

  lemma ListedGrows(ready: seq<Task>, i: nat)
    requires i < |ready|
    ensures ListedBefore(ready, i + 1, ready[i].id)
    ensures forall id :: ListedBefore(ready, i, id) ==> ListedBefore(ready, i + 1, id)
  {
    forall other | ListedBefore(ready, i, other) ensures ListedBefore(ready, i + 1, other) {
      var k :| 0 <= k < i && ready[k].id == other;
    }
  }

  lemma ChosenLaunched(ready: seq<Task>, i: nat, flew: InFlight, inFlight: InFlight, writesOf: TaskId -> seq<string>)
    requires i < |ready| && DistinctReady(ready, flew) && Chosen(ready, i, flew.Keys, inFlight, writesOf) && ready[i].id !in inFlight
    requires forall id :: id in inFlight ==> !Overlapping(writesOf(ready[i].id), inFlight[id])
    ensures Chosen(ready, i + 1, flew.Keys, inFlight[ready[i].id := writesOf(ready[i].id)], writesOf)
  {
    hide Overlapping;
    var next := ready[i].id;
    var later := inFlight[next := writesOf(next)];
    assert inFlight - {next} == inFlight;
    assert !HeldBack(ready, i, flew.Keys, later, writesOf) by {
      assert !ListedBefore(ready, i, next);
    }
    hide HeldBack;
    forall k | 0 <= k < i ensures ready[k].id in later <==> !HeldBack(ready, k, flew.Keys, later, writesOf) {
      HeldBackByEarlier(ready, k, i, flew, inFlight, writesOf);
    }
  }

  lemma GrownLaunched(ready: seq<Task>, i: nat, flew: InFlight, inFlight: InFlight, writesOf: TaskId -> seq<string>)
    requires i < |ready| && Grown(ready, i, flew, inFlight, writesOf) && ready[i].id !in inFlight
    ensures Grown(ready, i + 1, flew, inFlight[ready[i].id := writesOf(ready[i].id)], writesOf)
  {
    ListedGrows(ready, i);
    hide ListedBefore;
  }

  lemma StartedLaunched(flew: set<TaskId>, flying: set<TaskId>, next: TaskId, tasks: map<TaskId, TaskState>,
                        after: map<TaskId, TaskState>, last: map<TaskId, TaskState>)
    requires Started(flew, flying, tasks, after) && next !in flying && flew <= flying
    requires forall other :: other != next ==> StateOf(last, other) == StateOf(after, other)
    requires StateOf(last, next).status == Running && StateOf(last, next).attempt == StateOf(after, next).attempt + 1
    ensures Started(flew, flying + {next}, tasks, last)
  {
    hide StateOf;
  }

  lemma LaunchesNext(ready: seq<Task>, i: nat, flew: InFlight, inFlight: InFlight, later: InFlight, tasks: map<TaskId, TaskState>,
                     after: map<TaskId, TaskState>, last: map<TaskId, TaskState>, writesOf: TaskId -> seq<string>)
    requires i < |ready| && DistinctReady(ready, flew) && Dispatched(ready, i, flew, inFlight, tasks, after, writesOf)
    requires OneLaunched(ready[i], inFlight, later, after, last, writesOf)
    ensures Dispatched(ready, i + 1, flew, later, tasks, last, writesOf)
  {
    ChosenLaunched(ready, i, flew, inFlight, writesOf);
    GrownLaunched(ready, i, flew, inFlight, writesOf);
    assert ready[i].id !in flew;
    assert later.Keys == inFlight.Keys + {ready[i].id};
    hide Overlapping, HeldBack, ListedBefore, Chosen, Grown, StateOf, DistinctReady;
    StartedLaunched(flew.Keys, inFlight.Keys, ready[i].id, tasks, after, last);
  }

  /** The ready tasks that were not looked at yet are still to be launched. */
  ghost predicate Waiting(w: World, ready: seq<Task>, i: nat, flying: set<TaskId>)
    requires i <= |ready|
  {
    forall k :: i <= k < |ready| ==>
      ready[k] in w.plan.tasks && ready[k].id !in flying && StatusIn(w, ready[k].id) == Pending && Free(w, ready[k])
  }

  lemma AllWait(w: World, ready: seq<Task>, flying: InFlight)
    requires forall t <- ready :: t in w.plan.tasks && t.id !in flying && StateOf(w.tasks, t.id).status == Pending && Free(w, t)
    requires forall i, j :: 0 <= i < j < |ready| ==> ready[i].id != ready[j].id
    ensures Waiting(w, ready, 0, flying.Keys) && DistinctReady(ready, flying)
  {
    hide Free;
  }

  lemma NextWaits(w: World, ready: seq<Task>, i: nat, flying: set<TaskId>)
    requires i < |ready| && Waiting(w, ready, i, flying)
    ensures ready[i] in w.plan.tasks && ready[i].id !in flying && StatusIn(w, ready[i].id) == Pending && Free(w, ready[i])
    ensures Waiting(w, ready, i + 1, flying)
  {
    hide Free;
  }

  lemma StillWaiting(w: World, after: World, ready: seq<Task>, i: nat, flew: InFlight, flying: InFlight, first: InFlight,
                     writesOf: TaskId -> seq<string>)
    requires i < |ready| && Waiting(w, ready, i, flew.Keys) && after.plan == w.plan
    requires DistinctReady(ready, first)
    requires OneLaunched(ready[i], flew, flying, w.tasks, after.tasks, writesOf)
    requires forall u :: Free(w, u) ==> Free(after, u)
    ensures Waiting(after, ready, i + 1, flying.Keys)
  {
    hide Free, Overlapping;
  }

  lemma LaunchFrees(w: World, id: TaskId)
    requires StatusIn(w, id) == Pending
    ensures forall u :: Free(w, u) ==> Free(Launched(w, id), u)
  {
    RoundStates(w, id, Retired("", []), 0);
    forall u | Free(w, u) ensures Free(Launched(w, id), u) {
      forall k | 0 <= k < |u.dependsOn| ensures Released(StatusIn(Launched(w, id), u.dependsOn[k])) {
        assert Released(StatusIn(w, u.dependsOn[k]));
      }
    }
  }

  lemma OverlapIsSymmetric(xs: seq<string>, ys: seq<string>)
    ensures Overlapping(xs, ys) ==> Overlapping(ys, xs)
  {
    if Overlapping(xs, ys) {
      var i, j :| 0 <= i < |xs| && 0 <= j < |ys| && PatternsOverlap(xs[i], ys[j]);
      assert PatternsOverlap(ys[j], xs[i]);
    }
  }

  // ---- The driver ----

  /** A launch: the world it was decided on, and whether a cancellation had been observed. */
  datatype Departure = Departure(before: World, id: TaskId, cancelled: bool)

  /** It is of a pending task whose dependencies all completed or were skipped, and no cancellation had been observed. */
  ghost predicate OnTime(d: Departure) {
    && !d.cancelled && StatusIn(d.before, d.id) == Pending
    && exists t :: t in d.before.plan.tasks && t.id == d.id
         && forall i :: 0 <= i < |t.dependsOn| ==> StatusIn(d.before, t.dependsOn[i]) in {Completed, Skipped}
  }

  ghost predicate AllOnTime(departures: seq<Departure>) {
    forall d <- departures :: OnTime(d)
  }

  lemma LaunchIsOne(w: World, t: Task, flew: InFlight, writesOf: TaskId -> seq<string>)
    requires t.id !in flew && forall id :: id in flew ==> !Overlapping(writesOf(t.id), flew[id])
    ensures OneLaunched(t, flew, flew[t.id := writesOf(t.id)], w.tasks, Launched(w, t.id).tasks, writesOf)
  {
    hide Overlapping;
    RoundStates(w, t.id, Retired("", []), 0);
  }

  lemma DepartsOnTime(w: World, t: Task, departures: seq<Departure>)
    requires t in w.plan.tasks && StatusIn(w, t.id) == Pending && Free(w, t)
    requires AllOnTime(departures)
    ensures AllOnTime(departures + [Departure(w, t.id, false)])
  {
    assert OnTime(Departure(w, t.id, false)) by {
      assert forall i :: 0 <= i < |t.dependsOn| ==> Released(StatusIn(w, t.dependsOn[i]));
    }
    hide OnTime;
  }

  class Driver {
    const maxParallel: nat
    const maxTaskRetries: nat
    const plan: Plan
    const replans: nat
    const writesOf: TaskId -> seq<string>
    var tasks: map<TaskId, TaskState>
    var log: seq<Event>
    var inFlight: InFlight
    var cancellationObserved: bool
    ghost var trace: seq<InFlight>
    ghost var departures: seq<Departure>

    ghost function Now(): World
      reads this
    {
      World(plan, tasks, replans, log)
    }

    constructor (w: World, writesOf: TaskId -> seq<string>, parallelism: nat, maxTaskRetries: nat)
      requires Simulated(w) && UniqueIds(w.plan)
      ensures Valid() && Now() == w && this.writesOf == writesOf && inFlight == map[] && departures == [] && !cancellationObserved
      ensures maxParallel == if parallelism < 1 then 1 else parallelism
    {
      this.maxParallel := if parallelism < 1 then 1 else parallelism;
      this.maxTaskRetries, this.plan, this.replans, this.writesOf := maxTaskRetries, w.plan, w.replans, writesOf;
      this.tasks, this.log, this.inFlight, this.trace, this.departures := w.tasks, w.log, map[], [], [];
      this.cancellationObserved := false;
    }

    ghost predicate Valid()
      reads this
    {
      && maxParallel >= 1 && UniqueIds(plan)
      && Simulated(Now()) && FlightsUndisturbed(Now(), inFlight)
      && Admitted(inFlight, maxParallel, writesOf)
      && (forall flights :: flights in trace ==> Admitted(flights, maxParallel, writesOf))
      && AllOnTime(departures)
    }

    ghost function Fuel(): nat
      reads this
    {
      Potential(tasks, inFlight.Keys, plan.tasks, maxTaskRetries)
    }

    method Transition(id: TaskId, nextIn: TaskState)
      modifies this`tasks, this`log
      ensures Now() == Transit(old(Now()), id, nextIn)
    {
      var previous := StateOf(tasks, id);
      var next := if previous.failure.Some? && nextIn.failure.None? then nextIn.(failure := previous.failure) else nextIn;
      if next.status == Completed && previous.revision.Some? {
        next := next.(revision := previous.revision);
      }
      tasks := tasks[id := next];
      log := log + EventsOf(id, next);
    }

    /** The two passes that open a round: running tasks, even those in flight, read as pending; hopeless ones block. */
    method Housekeep()
      requires Valid()
      modifies this`tasks, this`log
      ensures Valid() && Quiet(old(Now()), Now()) && Fuel() <= old(Fuel())
      ensures NoneRunning(Now()) && BlockedForCause(old(Now()), Now())
      ensures DependenciesListedFirst(plan) ==> NoneMissed(Now(), |plan.tasks|)
    {
      hide Simulated, UniqueIds, FlightsUndisturbed, Admitted, Potential, DependenciesListedFirst, NoneMissed, Quiet, Transit, Hopeless, AllOnTime,
        BlockedForCause;
      ghost var start := Now();
      QuietSelf(start);
      NothingBlockedYet(start);
      for i := 0 to |plan.tasks|
        invariant Simulated(Now()) && Quiet(start, Now()) && FlightsUndisturbed(Now(), inFlight) && BlockedForCause(start, Now())
        invariant forall k :: 0 <= k < i ==> StatusIn(Now(), plan.tasks[k].id) != Running
      {
        var id := plan.tasks[i].id;
        if StateOf(tasks, id).status == Running {
          ghost var before := Now();
          QuietStep(start, before, inFlight, plan.tasks[i], Pending);
          CauseStays(start, before, plan.tasks[i], Pending);
          StatusMoved(before, id, Pending);
          Transition(id, StateOf(tasks, id).(status := Pending));
        }
      }
      NoneMissedYet(Now());
      for i := 0 to |plan.tasks|
        invariant Simulated(Now()) && Quiet(start, Now()) && FlightsUndisturbed(Now(), inFlight) && BlockedForCause(start, Now())
        invariant NoneRunning(Now())
        invariant DependenciesListedFirst(plan) ==> NoneMissed(Now(), i)
      {
        var t := plan.tasks[i];
        if DependenciesListedFirst(plan) {
          NoneMissedNext(Now(), i);
        }
        if StateOf(tasks, t.id).status == Pending && Hopeless(World(plan, tasks, replans, log), t) {
          ghost var before := Now();
          QuietStep(start, before, inFlight, t, Blocked);
          CauseStays(start, before, t, Blocked);
          StatusMoved(before, t.id, Blocked);
          Transition(t.id, StateOf(tasks, t.id).(status := Blocked));
        }
      }
      QuietDrops(start, Now(), inFlight.Keys, maxTaskRetries);
    }

    /** Launch ready tasks, in plan order, while there is room and their targets are apart from those in flight. */
    method LaunchRound(ready: seq<Task>)
      requires Valid() && !cancellationObserved
      requires Waiting(Now(), ready, 0, inFlight.Keys) && DistinctReady(ready, inFlight)
      modifies this`tasks, this`log, this`inFlight, this`trace, this`departures
      ensures Valid() && old(trace) <= trace && Fuel() <= old(Fuel())
      ensures exists n: nat :: n <= |ready| && (n < |ready| ==> |inFlight| >= maxParallel) &&
                Dispatched(ready, n, old(inFlight), inFlight, old(tasks), tasks, writesOf)
      ensures old(departures) <= departures && (ready != [] ==> inFlight != map[])
      ensures old(NoneReady(Now())) ==> NoneReady(Now())
    {
      hide Simulated, UniqueIds, FlightsUndisturbed, Overlapping, Potential, Free, NoneReady, Dispatched, Admitted, Waiting, DistinctReady,
        OneLaunched, AllOnTime;
      DispatchedNone(ready, inFlight, tasks, writesOf);
      ghost var seen := 0;
      for i := 0 to |ready|
        invariant seen == i && Valid() && old(trace) <= trace && Fuel() <= old(Fuel())
        invariant Dispatched(ready, i, old(inFlight), inFlight, old(tasks), tasks, writesOf)
        invariant Waiting(Now(), ready, i, inFlight.Keys)
        invariant old(departures) <= departures && (i > 0 ==> inFlight != map[])
        invariant old(NoneReady(Now())) ==> NoneReady(Now())
      {
        var t := ready[i];
        if |inFlight| >= maxParallel {
          break;
        }
        NextWaits(Now(), ready, i, inFlight.Keys);
        var writes := writesOf(t.id);
        var overlaps := exists id :: id in inFlight && Overlapping(writes, inFlight[id]);
        if overlaps {
          SkipsHeldBack(ready, i, old(inFlight), inFlight, old(tasks), tasks, writesOf);
        } else {
          ghost var flew, before := inFlight, Now();
          Launch(t);
          LaunchesNext(ready, i, old(inFlight), flew, inFlight, old(tasks), before.tasks, tasks, writesOf);
          StillWaiting(before, Now(), ready, i, flew, inFlight, old(inFlight), writesOf);
        }
        seen := i + 1;
      }
    }

    method Launch(t: Task)
      requires Valid() && t in plan.tasks && StatusIn(Now(), t.id) == Pending && Free(Now(), t) && t.id !in inFlight
      requires |inFlight| < maxParallel && forall id :: id in inFlight ==> !Overlapping(writesOf(t.id), inFlight[id])
      requires !cancellationObserved
      modifies this`tasks, this`log, this`inFlight, this`trace, this`departures
      ensures departures == old(departures) + [Departure(old(Now()), t.id, cancellationObserved)]
      ensures Valid() && trace == old(trace) + [inFlight] && Fuel() <= old(Fuel())
      ensures inFlight == old(inFlight)[t.id := writesOf(t.id)]
      ensures OneLaunched(t, old(inFlight), inFlight, old(tasks), tasks, writesOf) && inFlight != map[]
      ensures forall u :: Free(old(Now()), u) ==> Free(Now(), u)
      ensures old(NoneReady(Now())) ==> NoneReady(Now())
    {
      hide Simulated, UniqueIds, FlightsUndisturbed, Overlapping, Admitted, Potential, Transit, Free, NoneReady, AllOnTime, OneLaunched,
        StateOf;
      LaunchedNoneReady(Now(), t.id);
      ghost var before := Now();
      var writes := writesOf(t.id);
      LaunchSimulates(before, t.id);
      LaunchUndisturbed(before, inFlight, t, writes);
      LaunchDrops(before, inFlight.Keys, t, maxTaskRetries);
      LaunchFrees(before, t.id);
      AdmittedGrows(inFlight, t.id, maxParallel, writesOf);
      DepartsOnTime(before, t, departures);
      departures := departures + [Departure(before, t.id, cancellationObserved)];
      var prior := StateOf(tasks, t.id);
      LaunchIsOne(before, t, inFlight, writesOf);
      inFlight := inFlight[t.id := writes];
      Transition(t.id, TaskState(Running, prior.attempt + 1, prior.failure, None));
      trace := trace + [inFlight];
    }

    /** A task in flight settles and leaves. */
    method Settle(id: TaskId, outcome: Settling)
      requires Valid() && id in inFlight
      modifies this`tasks, this`log, this`inFlight, this`trace, this`cancellationObserved
      ensures Valid() && trace == old(trace) + [inFlight] && Fuel() < old(Fuel())
      ensures inFlight == old(inFlight) - {id} && Now() == SettledWorld(old(Now()), id, outcome, maxTaskRetries)
      ensures Ends(old(StateOf(tasks, id)), StateOf(tasks, id), outcome, maxTaskRetries)
      ensures log == old(log) + EndEvents(id, StateOf(tasks, id), outcome)
      ensures forall other :: other != id ==> StateOf(tasks, other) == old(StateOf(tasks, other))
      ensures cancellationObserved == (old(cancellationObserved) || Withdrawn(outcome))
      ensures old(NoneReady(Now())) ==> NoneReady(Now())
    {
      hide Simulated, UniqueIds, FlightsUndisturbed, Potential, Transit, Admitted, Verdict, InPlan, NoneReady, Ends, EndEvents, AllOnTime;
      ghost var before := Now();
      FlightMeans(before, inFlight, id);
      VerdictEnds(before, id, outcome, maxTaskRetries);
      SettledFacts(before, id, outcome, maxTaskRetries);
      SettleUndisturbed(before, inFlight, id, outcome, maxTaskRetries);
      SettleDrops(before, inFlight.Keys, id, outcome, maxTaskRetries);
      AdmittedShrinks(inFlight, id, maxParallel, writesOf);
      SettledNoneReady(before, id, outcome, maxTaskRetries);
      var attempt := StateOf(tasks, id).attempt;
      Record(id, attempt, outcome);
      if FailureOf(outcome).Some? && FailureOf(outcome).value.code == REQUEST_RETIRED {
        cancellationObserved := true;
      }
      Conclude(id, attempt, outcome);
      inFlight := inFlight - {id};
      trace := trace + [inFlight];
    }

    /** What a task logs in flight, and the merge of its patch when it completed. */
    method Record(id: TaskId, attempt: nat, outcome: Settling)
      requires id in tasks && tasks[id].attempt == attempt
      modifies this`tasks, this`log
      ensures Now() == Executed(old(Now()), id, outcome)
    {
      log := log + Sides(outcome.side);
      match outcome {
        case Finished(status, _, _, _, revision) =>
          if status == ECompleted && revision.Some? {
            tasks := tasks[id := tasks[id].(revision := revision)];
            log := log + [TaskCommitted(id, revision)];
          }
        case Retired(_, _) =>
          log := log + [TaskBlocked(id, Some(attempt), FailureOf(outcome))];
      }
    }

    method Conclude(id: TaskId, attempt: nat, outcome: Settling)
      modifies this`tasks, this`log
      ensures Now() == Transit(old(Now()), id, Verdict(attempt, outcome, maxTaskRetries))
    {
      match StatusOfExecution(outcome) {
        case ECompleted =>
          Transition(id, TaskState(Completed, attempt, None, None));
        case EFailed =>
          var failure := if FailureOf(outcome).Some? then FailureOf(outcome) else Some(Failure("TASK_FAILED", outcome.summary));
          if attempt - 1 < maxTaskRetries {
            Transition(id, TaskState(Pending, attempt, failure, None));
          } else {
            Transition(id, TaskState(Failed, attempt, failure, None));
          }
        case EBlocked =>
          var failure := if FailureOf(outcome).Some? then FailureOf(outcome) else Some(Failure("TASK_BLOCKED", outcome.summary));
          Transition(id, TaskState(Blocked, attempt, failure, None));
      }
    }

    /** `Promise.race`: at least one task in flight settles before the loop goes on, perhaps several. */
    method Race(finishes: seq<Finish>, otherwise: Settling)
      requires Valid() && inFlight != map[]
      modifies this`tasks, this`log, this`inFlight, this`trace, this`cancellationObserved
      ensures Valid() && old(trace) <= trace && Fuel() < old(Fuel())
      ensures old(NoneReady(Now())) ==> NoneReady(Now())
      ensures old(cancellationObserved) ==> cancellationObserved
    {
      hide NoneReady, Simulated, UniqueIds, FlightsUndisturbed, Potential, Admitted, AllOnTime, Withdrawn, Ends;
      var settled := false;
      for i := 0 to |finishes|
        invariant Valid() && old(trace) <= trace && Fuel() <= old(Fuel())
        invariant old(NoneReady(Now())) ==> NoneReady(Now())
        invariant if settled then Fuel() < old(Fuel()) else inFlight == old(inFlight)
        invariant old(cancellationObserved) ==> cancellationObserved
      {
        if finishes[i].id in inFlight {
          Settle(finishes[i].id, finishes[i].outcome);
          settled := true;
        }
      }
      if !settled {
        var id :| id in inFlight;
        Settle(id, otherwise);
      }
    }

    /**
     * In every configuration of the run the limit is kept, and no changed path is in the write scope of two tasks in
     * flight if and only if the overlap test protects their targets from one another.
     */
    lemma RunIsSafe()
      requires Valid()
      ensures forall flights :: flights in trace ==> |flights| <= maxParallel
      ensures forall flights :: flights in trace ==> (NoSharedPath(flights) <==> KeptApart(flights))
    {
      hide KeptApart, NoSharedPath;
      forall flights | flights in trace ensures NoSharedPath(flights) <==> KeptApart(flights) {
        ApartMeansNoSharedPath(flights);
      }
    }

    /**
     * The whole parallel run, for every order in which tasks settle and every outcome. It terminates, and every
     * configuration on the way keeps the bound on tasks in flight and their targets apart. Unless it observes a
     * cancellation it leaves nothing pending or running, and a plan that lists dependencies first never deadlocks.
     */
    method Run(finishes: nat -> seq<Finish>, otherwise: nat -> Settling) returns (outcome: DriverOutcome)
      requires Valid()
      modifies this`tasks, this`log, this`inFlight, this`trace, this`departures, this`cancellationObserved
      ensures Valid() && old(trace) <= trace && old(departures) <= departures && inFlight == map[]
      ensures old(cancellationObserved) ==> cancellationObserved && departures == old(departures)
      ensures outcome == Done && !cancellationObserved ==>
                forall id :: InPlan(plan, id) ==> StatusIn(Now(), id) !in {Pending, Running}
      ensures outcome == Deadlocked ==> !cancellationObserved && Stuck(Now())
      ensures outcome == Deadlocked && old(NoneReady(Now())) ==> !DependenciesListedFirst(plan)
      ensures old(NoneReady(Now())) ==> NoneReady(Now())
    {
      hide Simulated, UniqueIds, FlightsUndisturbed, Overlapping, Potential, Free, Hopeless, Quiet, Admitted, NoneReady, NoneRunning,
        DependenciesListedFirst, NoneMissed, AllOnTime, Dispatched, Waiting, DistinctReady, Stuck;
      var i := 0;
      while true
        invariant Valid() && old(trace) <= trace && old(departures) <= departures
        invariant old(NoneReady(Now())) ==> NoneReady(Now())
        invariant old(cancellationObserved) ==> cancellationObserved && departures == old(departures)
        decreases Fuel()
      {
        ghost var head := Now();
        Housekeep();
        QuietNoneReady(head, Now());
        var now, flying := World(plan, tasks, replans, log), inFlight;
        var pending := Filter(plan.tasks, (t: Task) => StateOf(now.tasks, t.id).status == Pending && t.id !in flying);
        if pending == [] && inFlight == map[] {
          NothingLeft(now);
          return Done;
        }
        var ready := Filter(pending, (t: Task) => Free(now, t));
        if cancellationObserved {
          if inFlight == map[] {
            return Done;
          }
        } else if ready != [] {
          FilteredDistinct(plan, pending, ready);
          assert forall t <- ready :: t in pending && Free(now, t);
          AllWait(now, ready, flying);
          LaunchRound(ready);
        }
        if inFlight == map[] {
          assert pending != [] && ready == [];
          NoneFree(now, pending);
          if NoneReady(now) && DependenciesListedFirst(plan) {
            OneIsFree(now, pending[0]);
          }
          return Deadlocked;
        }
        Race(finishes(i), otherwise(i));
        i := i + 1;
      }
    }
  }

  // ---- What is left, and when nothing can be launched ----

  /** Some task is pending, and each that is has a dependency that neither completed nor was skipped. */
  ghost predicate Stuck(w: World) {
    && (exists t <- w.plan.tasks :: StatusIn(w, t.id) == Pending)
    && forall t <- w.plan.tasks :: StatusIn(w, t.id) == Pending ==>
         exists i :: 0 <= i < |t.dependsOn| && StatusIn(w, t.dependsOn[i]) !in {Completed, Skipped}
  }

  lemma NoneFree(w: World, pending: seq<Task>)
    requires pending != [] && forall t :: t in pending <==> t in w.plan.tasks && StatusIn(w, t.id) == Pending
    requires forall t <- pending :: !Free(w, t)
    ensures Stuck(w) && pending[0] in pending
  {
    assert pending[0] in pending;
    forall t | t in w.plan.tasks && StatusIn(w, t.id) == Pending
      ensures exists i :: 0 <= i < |t.dependsOn| && StatusIn(w, t.dependsOn[i]) !in {Completed, Skipped}
    {
      var i :| 0 <= i < |t.dependsOn| && !Released(StatusIn(w, t.dependsOn[i]));
    }
  }

  lemma NothingLeft(w: World)
    requires NoneRunning(w) && forall t <- w.plan.tasks :: StatusIn(w, t.id) != Pending
    ensures forall id :: InPlan(w.plan, id) ==> StatusIn(w, id) !in {Pending, Running}
  {
    forall id | InPlan(w.plan, id) ensures StatusIn(w, id) !in {Pending, Running} {
      var i :| 0 <= i < |w.plan.tasks| && w.plan.tasks[i].id == id;
      assert w.plan.tasks[i] in w.plan.tasks;
    }
  }

  /** Of the first n tasks none is pending behind a dependency that blocks: the pass missed nothing. */
  ghost predicate NoneMissed(w: World, n: nat) {
    forall k :: 0 <= k < n && k < |w.plan.tasks| && StatusIn(w, w.plan.tasks[k].id) == Pending ==> !Hindered(w, w.plan.tasks[k])
  }

  lemma NoneMissedYet(w: World)
    ensures NoneMissed(w, 0)
    ensures (forall k :: 0 <= k < |w.plan.tasks| ==> StatusIn(w, w.plan.tasks[k].id) != Running) ==> NoneRunning(w)
  {}

  lemma StatusMoved(w: World, id: TaskId, status: TaskStatus)
    ensures var after := Transit(w, id, StateOf(w.tasks, id).(status := status));
            after.plan == w.plan && StatusIn(after, id) == status && forall other :: other != id ==> StatusIn(after, other) == StatusIn(w, other)
  {}

  /** The next step of the pass blocks the next task or has no reason to, and changes no dependency of an earlier one. */
  lemma NoneMissedNext(w: World, i: nat)
    requires i < |w.plan.tasks| && NoneMissed(w, i) && UniqueIds(w.plan) && DependenciesListedFirst(w.plan)
    ensures var t := w.plan.tasks[i];
            NoneMissed(if StatusIn(w, t.id) == Pending && Hopeless(w, t) then Transit(w, t.id, StateOf(w.tasks, t.id).(status := Blocked))
                       else w, i + 1)
  {
    var t := w.plan.tasks[i];
    if StatusIn(w, t.id) == Pending && Hopeless(w, t) {
      var after := Transit(w, t.id, StateOf(w.tasks, t.id).(status := Blocked));
      StatusMoved(w, t.id, Blocked);
      hide Transit;
      forall k | 0 <= k < i && StatusIn(after, w.plan.tasks[k].id) == Pending ensures !Hopeless(after, w.plan.tasks[k]) {
        var u := w.plan.tasks[k];
        assert !Hopeless(w, u);
        forall m | 0 <= m < |u.dependsOn| ensures !Blocking(StatusIn(after, u.dependsOn[m])) {
          var j := Position(w.plan.tasks[..k], u.dependsOn[m]);
          assert w.plan.tasks[j].id == u.dependsOn[m];
        }
      }
    }
  }

  /** With nothing missed, the first pending task of a plan that lists dependencies first can be launched. */
  lemma OneIsFree(w: World, t: Task)
    requires DependenciesListedFirst(w.plan) && NoneReady(w) && NoneRunning(w) && NoneMissed(w, |w.plan.tasks|)
    requires t in w.plan.tasks && StatusIn(w, t.id) == Pending
    ensures exists u :: u in w.plan.tasks && StatusIn(w, u.id) == Pending && Free(w, u)
  {
    var i :| 0 <= i < |w.plan.tasks| && w.plan.tasks[i] == t;
    assert Pends(w, w.plan.tasks[i]);
    var k := FirstPending(w, w.plan.tasks);
    var u := w.plan.tasks[k];
    assert !Hopeless(w, u);
    forall m | 0 <= m < |u.dependsOn| ensures Released(StatusIn(w, u.dependsOn[m])) {
      var j := Position(w.plan.tasks[..k], u.dependsOn[m]);
      assert w.plan.tasks[j].id == u.dependsOn[m] && !Pends(w, w.plan.tasks[j]);
      assert !Blocking(StatusIn(w, u.dependsOn[m]));
    }
    assert u in w.plan.tasks && Free(w, u);
  }

  lemma QuietNoneReady(w: World, after: World)
    requires Quiet(w, after)
    ensures NoneReady(w) ==> NoneReady(after)
  {}

  lemma LaunchedNoneReady(w: World, id: TaskId)
    ensures NoneReady(w) ==> NoneReady(Launched(w, id))
  {
    RoundStates(w, id, Retired("", []), 0);
  }

  lemma SettledNoneReady(w: World, id: TaskId, outcome: Settling, maxTaskRetries: nat)
    requires Simulated(w) && InPlan(w.plan, id) && id in w.tasks && StatusIn(w, id) in {Pending, Running}
    ensures NoneReady(w) ==> NoneReady(SettledWorld(w, id, outcome, maxTaskRetries))
  {
    SettledFacts(w, id, outcome, maxTaskRetries);
    hide SettledWorld;
  }

  /** Filtering a plan with unique ids leaves a list with unique ids. */
  lemma FilteredDistinct(plan: Plan, pending: seq<Task>, ready: seq<Task>)
    requires UniqueIds(plan) && forall t :: t in ready ==> t in plan.tasks
    requires NoRepeats(plan.tasks) ==> NoRepeats(pending)
    requires NoRepeats(pending) ==> NoRepeats(ready)
    ensures forall i, j :: 0 <= i < j < |ready| ==> ready[i].id != ready[j].id
  {
    forall i, j | 0 <= i < j < |ready| ensures ready[i].id != ready[j].id {
      assert ready[i] in ready && ready[j] in ready;
      var a :| 0 <= a < |plan.tasks| && plan.tasks[a] == ready[i];
      var b :| 0 <= b < |plan.tasks| && plan.tasks[b] == ready[j];
    }
  }

  // ---- Housekeeping ----

  lemma NothingBlockedYet(w: World)
    ensures BlockedForCause(w, w)
  {}

  lemma QuietSelf(w: World)
    ensures Quiet(w, w)
  {}

  lemma QuietStep(start: World, w: World, inFlight: InFlight, t: Task, status: TaskStatus)
    requires Quiet(start, w) && Simulated(w) && FlightsUndisturbed(w, inFlight) && t in w.plan.tasks
    requires (status == Pending && StatusIn(w, t.id) == Running)
          || (status == Blocked && StatusIn(w, t.id) == Pending && Hopeless(w, t))
    ensures var after := Transit(w, t.id, StateOf(w.tasks, t.id).(status := status));
            Quiet(start, after) && Simulated(after) && FlightsUndisturbed(after, inFlight)
  {
    var position :| 0 <= position < |w.plan.tasks| && w.plan.tasks[position] == t;
    assert w.plan.tasks[position].id == t.id;
    TransitKeepsSimulation(w, t.id, StateOf(w.tasks, t.id).(status := status));
    StepUndisturbed(w, inFlight, position, status);
    StepQuiet(start, w, t.id, status);
  }

  lemma StepQuiet(start: World, w: World, id: TaskId, status: TaskStatus)
    requires Quiet(start, w) && status in {Pending, Blocked} && StatusIn(w, id) in {Pending, Running}
    ensures Quiet(start, Transit(w, id, StateOf(w.tasks, id).(status := status)))
  {
    var after := Transit(w, id, StateOf(w.tasks, id).(status := status));
    forall other
      ensures StatusIn(after, other) == StatusIn(start, other)
           || (StatusIn(start, other) in {Pending, Running} && StatusIn(after, other) in {Pending, Blocked})
    {
      assert StatusIn(w, other) == StatusIn(start, other) || StatusIn(start, other) in {Pending, Running};
    }
  }

  /** A hopeless task is not in flight, since one in flight has all its dependencies released. */
  lemma StepUndisturbed(w: World, inFlight: InFlight, position: nat, status: TaskStatus)
    requires position < |w.plan.tasks| && FlightsUndisturbed(w, inFlight)
    requires StatusIn(w, w.plan.tasks[position].id) in {Pending, Running}
    requires status == Pending || (status == Blocked && Hopeless(w, w.plan.tasks[position]))
    ensures FlightsUndisturbed(Transit(w, w.plan.tasks[position].id,
                                       StateOf(w.tasks, w.plan.tasks[position].id).(status := status)), inFlight)
  {
    var t := w.plan.tasks[position];
    var after := Transit(w, t.id, StateOf(w.tasks, t.id).(status := status));
    if status == Blocked {
      var i :| 0 <= i < |t.dependsOn| && Blocking(StatusIn(w, t.dependsOn[i]));
      assert !Free(w, t);
      assert t.id !in inFlight;
    }
    forall i | 0 <= i < |w.plan.tasks| && w.plan.tasks[i].id in inFlight ensures Free(after, w.plan.tasks[i]) {
      assert Free(w, w.plan.tasks[i]);
      forall k | 0 <= k < |w.plan.tasks[i].dependsOn| ensures Released(StatusIn(after, w.plan.tasks[i].dependsOn[k])) {
        assert Released(StatusIn(w, w.plan.tasks[i].dependsOn[k]));
      }
    }
  }

  lemma QuietDrops(w: World, after: World, flying: set<TaskId>, maxTaskRetries: nat)
    requires Quiet(w, after)
    ensures Potential(after.tasks, flying, w.plan.tasks, maxTaskRetries) <= Potential(w.tasks, flying, w.plan.tasks, maxTaskRetries)
  {
    forall id
      ensures Charge(StateOf(after.tasks, id), id in flying, maxTaskRetries) <= Charge(StateOf(w.tasks, id), id in flying, maxTaskRetries)
    {
      assert StatusIn(after, id) == StatusIn(w, id) || StatusIn(after, id) in {Pending, Blocked};
    }
    PotentialDrops(w.tasks, flying, after.tasks, flying, w.plan.tasks, maxTaskRetries);
  }
}
