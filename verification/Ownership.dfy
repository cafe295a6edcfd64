/**
 * apply-ownership.ts, recovery.ts and the boundary in apply.ts: who may work in a workspace, as a state machine over
 * the atomic steps of any number of processes, each of which may die between any two of its steps.
 */
module Ownership {
  import opened Wrappers

  type Pid = nat

  type RunId = string

  /** Before it knows its run id, an apply publishes its intent under this one. */
  const UNNAMED: RunId := ""

  datatype Entry = Fresh | Resume(run: RunId)

  /** Where a process stands. A process that has died, thrown or finished is idle. */
  datatype Pc =
    | Idle
    // An apply or a resume
    | Locked(entry: Entry)
    | Owner(entry: Entry)
    | Prepared(run: RunId)
    | Announced(run: RunId)
    | Resuming(run: RunId)
    | Working(run: RunId)
    | Cleared(run: RunId)
    | Completed(run: RunId)
    // A recovery, and the run its intent names
    | RecoveryLocked
    | FoundIntent(run: RunId)
    | WorkersStopped(run: RunId)
    | LoadedLog(run: RunId, completions: nat)
    | TerminalWritten(run: RunId)
    | AllVerified(run: RunId)
    | BlockCleared

  /**
   * The kernel lock, the intent record (the run it names), the run directories, how many RUN_COMPLETED events each run's
   * log holds, and the processes. The directory of the unnamed run is the runs directory itself.
   */
  datatype World = World(
    lock: Option<Pid>, intent: Option<RunId>, dirs: set<RunId>, completions: map<RunId, nat>, procs: map<Pid, Pc>)

  function Count(w: World, run: RunId): nat {
    if run in w.completions then w.completions[run] else 0
  }

  function PcOf(w: World, p: Pid): Pc {
    if p in w.procs then w.procs[p] else Idle
  }

  function At(w: World, p: Pid, pc: Pc): World {
    w.(procs := w.procs[p := pc])
  }

  /** Leaving the critical section: by returning, throwing or dying. The intent record stays as it is. */
  function Released(w: World, p: Pid): World {
    At(w.(lock := None), p, Idle)
  }

  function OneMore(w: World, run: RunId): World {
    w.(completions := w.completions[run := Count(w, run) + 1])
  }

  datatype Step =
    | TryApply(p: Pid, entry: Entry)
    | CheckBlock(p: Pid)
    | MakeRun(p: Pid, run: RunId)
    | WriteIntent(p: Pid)
    | NameIntent(p: Pid, written: bool)
    | CheckUnfinished(p: Pid)
    | ClearIntent(p: Pid)
    | AppendCompleted(p: Pid)
    | Return(p: Pid)
    | Throw(p: Pid)
    | Die(p: Pid)
    | TryRecovery(p: Pid)
    | ReadIntent(p: Pid)
    | VerifyWorkers(p: Pid, ok: bool)
    | LoadLog(p: Pid)
    | WriteTerminal(p: Pid)
    | FinishRecovery(p: Pid, ok: bool)
    | ClearBlock(p: Pid)

  predicate Holding(pc: Pc) {
    !pc.Idle?
  }

  /** Past the safety block: allowed to execute. */
  predicate Owns(pc: Pc) {
    pc.Owner? || pc.Prepared? || pc.Announced? || pc.Resuming? || pc.Working? || pc.Cleared? || pc.Completed?
  }

  /** A run id is fresh; everything else is decided by the step itself. */
  predicate Enabled(w: World, s: Step) {
    var pc := PcOf(w, s.p);
    match s
    case TryApply(_, entry) => pc.Idle? && (entry.Resume? ==> entry.run in w.dirs && entry.run != UNNAMED)
    case CheckBlock(_) => pc.Locked?
    case MakeRun(_, run) => pc == Owner(Fresh) && run !in w.dirs && run != UNNAMED
    case WriteIntent(_) => pc.Prepared? || (pc.Owner? && pc.entry.Resume?)
    case NameIntent(_, _) => pc.Announced?
    case CheckUnfinished(_) => pc.Resuming?
    case ClearIntent(_) => pc.Working?
    case AppendCompleted(_) => pc.Cleared?
    case Return(_) => pc.Completed? || pc.BlockCleared?
    case Throw(_) => Owns(pc)
    case Die(_) => Holding(pc)
    case TryRecovery(_) => pc.Idle?
    case ReadIntent(_) => pc.RecoveryLocked?
    case VerifyWorkers(_, _) => pc.FoundIntent?
    case LoadLog(_) => pc.WorkersStopped?
    case WriteTerminal(_) => pc.LoadedLog?
    case FinishRecovery(_, _) => pc.TerminalWritten?
    case ClearBlock(_) => pc.AllVerified?
  }

  function Next(w: World, s: Step): World
    requires Enabled(w, s)
  {
    var p, pc := s.p, PcOf(w, s.p);
    match s
    // acquireOwnership: the lock, then the block; each refusal leaves nothing behind
    case TryApply(_, entry) => if w.lock.Some? then w else At(w.(lock := Some(p)), p, Locked(entry))
    case CheckBlock(_) => if w.intent.Some? then Released(w, p) else At(w, p, Owner(pc.entry))
    // applyPlan and resumeRun
    case MakeRun(_, run) => At(w.(dirs := w.dirs + {run, UNNAMED}), p, Prepared(run))
    case WriteIntent(_) =>
      if pc.Prepared? then At(w.(intent := Some(UNNAMED)), p, Announced(pc.run))
      else At(w.(intent := Some(pc.entry.run)), p, Resuming(pc.entry.run))
    case NameIntent(_, written) => At(if written then w.(intent := Some(pc.run)) else w, p, Working(pc.run))
    case CheckUnfinished(_) => if Count(w, pc.run) == 0 then At(w, p, Working(pc.run)) else Released(w, p)
    // finalize
    case ClearIntent(_) => At(w.(intent := None), p, Cleared(pc.run))
    case AppendCompleted(_) => At(OneMore(w, pc.run), p, Completed(pc.run))
    case Return(_) => Released(w, p)
    case Throw(_) => Released(w, p)
    case Die(_) => Released(w, p)
    // runRecovery: a step that fails leaves the block in place
    case TryRecovery(_) => if w.lock.Some? then w else At(w.(lock := Some(p)), p, RecoveryLocked)
    case ReadIntent(_) => if w.intent.Some? then At(w, p, FoundIntent(w.intent.value)) else Released(w, p)
    case VerifyWorkers(_, ok) => if ok then At(w, p, WorkersStopped(pc.run)) else Released(w, p)
    case LoadLog(_) => if pc.run in w.dirs then At(w, p, LoadedLog(pc.run, Count(w, pc.run))) else Released(w, p)
    case WriteTerminal(_) => At(if pc.completions == 0 then OneMore(w, pc.run) else w, p, TerminalWritten(pc.run))
    case FinishRecovery(_, ok) => if ok then At(w, p, AllVerified(pc.run)) else Released(w, p)
    case ClearBlock(_) => At(w.(intent := None), p, BlockCleared)
  }

  predicate Possible(w: World, steps: seq<Step>)
    decreases |steps|, 0
  {
    steps == []
    || (var init := steps[..|steps| - 1]; Possible(w, init) && Enabled(Run(w, init), steps[|steps| - 1]))
  }

  function Run(w: World, steps: seq<Step>): World
    requires Possible(w, steps)
    decreases |steps|, 1
  {
    if steps == [] then w else Next(Run(w, steps[..|steps| - 1]), steps[|steps| - 1])
  }

  // ---- What every step keeps ----

  predicate OwnRun(w: World, run: RunId) {
    run in w.dirs && run != UNNAMED
  }

  predicate KnownRun(w: World, entry: Entry) {
    entry.Resume? ==> OwnRun(w, entry.run)
  }

  /** What the lock holder may rely on, wherever it stands. */
  predicate Settled(w: World, pc: Pc) {
    match pc
    case Idle => false
    case Locked(entry) => KnownRun(w, entry)
    case Owner(entry) => w.intent.None? && KnownRun(w, entry)
    case Prepared(run) => w.intent.None? && Count(w, run) == 0 && OwnRun(w, run)
    case Announced(run) => w.intent == Some(UNNAMED) && Count(w, run) == 0 && OwnRun(w, run)
    case Resuming(run) => w.intent == Some(run) && OwnRun(w, run)
    case Working(run) => w.intent in {Some(run), Some(UNNAMED)} && Count(w, run) == 0 && OwnRun(w, run)
    case Cleared(run) => w.intent.None? && Count(w, run) == 0 && OwnRun(w, run)
    case Completed(run) => w.intent.None? && Count(w, run) == 1 && OwnRun(w, run)
    case RecoveryLocked => true
    case FoundIntent(run) => w.intent == Some(run)
    case WorkersStopped(run) => w.intent == Some(run)
    case LoadedLog(run, n) => w.intent == Some(run) && n == Count(w, run) && run in w.dirs
    case TerminalWritten(run) => w.intent == Some(run) && Count(w, run) == 1 && run in w.dirs
    case AllVerified(run) => w.intent == Some(run) && Count(w, run) == 1 && run in w.dirs
    case BlockCleared => w.intent.None?
  }

  /**
   * The lock is held by the one process that is not idle, and no log has two terminal events. A workspace without
   * processes whose logs have at most one each is such a world.
   */
  predicate Inv(w: World) {
    && (forall p <- w.procs :: Holding(w.procs[p]) ==> w.lock == Some(p))
    && (w.lock.Some? ==> w.lock.value in w.procs && Settled(w, w.procs[w.lock.value]))
    && (forall run <- w.completions :: w.completions[run] <= 1)
    && w.completions.Keys <= w.dirs && Rooted(w)
  }

  /** A run's directory lies in the runs directory. */
  predicate Rooted(w: World) {
    w.dirs != {} ==> UNNAMED in w.dirs
  }

  lemma CountBound(w: World, run: RunId)
    requires forall r <- w.completions :: w.completions[r] <= 1
    ensures Count(w, run) <= 1
  {}

  lemma HolderSettled(w: World, p: Pid)
    requires Inv(w) && Holding(PcOf(w, p))
    ensures w.lock == Some(p) && p in w.procs && Settled(w, PcOf(w, p))
    ensures forall q <- w.procs :: q != p ==> w.procs[q].Idle?
  {}

  lemma ReleasedInv(w: World, p: Pid)
    requires Inv(w) && Holding(PcOf(w, p))
    ensures Inv(Released(w, p))
  {
    HolderSettled(w, p);
  }

  /** The holder moves on; whatever it changed of the intent, the logs and the directories, it is settled again. */
  lemma MovedInv(w: World, now: World, p: Pid, pc: Pc)
    requires Inv(w) && (Holding(PcOf(w, p)) || w.lock.None?)
    requires now.lock == Some(p) && now.procs == w.procs[p := pc] && Settled(now, pc)
    requires (forall run <- now.completions :: now.completions[run] <= 1) && now.completions.Keys <= now.dirs && Rooted(now)
    ensures Inv(now)
  {}

  lemma {:induction false} NextKeepsInv(w: World, s: Step)
    requires Inv(w) && Enabled(w, s)
    ensures Inv(Next(w, s))
  {
    var p, pc, now := s.p, PcOf(w, s.p), Next(w, s);
    if Holding(pc) {
      HolderSettled(w, p);
      ReleasedInv(w, p);
      if now != Released(w, p) {
        HolderMoves(w, s);
        hide Next, Enabled, Settled;
        MovedInv(w, now, p, PcOf(now, p));
      }
    } else if w.lock.None? {
      hide Inv;
      MovedInv(w, now, p, PcOf(now, p)) by {
        assert Inv(w);
        InvParts(w);
      }
    }
  }

  lemma InvParts(w: World)
    requires Inv(w)
    ensures (forall run <- w.completions :: w.completions[run] <= 1) && w.completions.Keys <= w.dirs && Rooted(w)
  {}

  /** What a step of the holder that does not leave the critical section hands on. */
  predicate Moved(w: World, now: World, p: Pid) {
    && now.lock == Some(p) && p in now.procs && now.procs == w.procs[p := PcOf(now, p)]
    && Settled(now, PcOf(now, p))
    && (forall run <- now.completions :: now.completions[run] <= 1) && now.completions.Keys <= now.dirs && Rooted(now)
  }

  predicate OfRecovery(s: Step) {
    s.ReadIntent? || s.VerifyWorkers? || s.LoadLog? || s.WriteTerminal? || s.FinishRecovery? || s.ClearBlock?
  }

  lemma HolderMoves(w: World, s: Step)
    requires Inv(w) && Enabled(w, s) && Holding(PcOf(w, s.p)) && Next(w, s) != Released(w, s.p)
    ensures Moved(w, Next(w, s), s.p)
  {
    if OfRecovery(s) {
      RecoveryMoves(w, s);
    } else {
      OwnerMoves(w, s);
    }
  }

  lemma OwnerMoves(w: World, s: Step)
    requires Inv(w) && Enabled(w, s) && Holding(PcOf(w, s.p)) && Next(w, s) != Released(w, s.p) && !OfRecovery(s)
    ensures Moved(w, Next(w, s), s.p)
  {
    HolderSettled(w, s.p);
  }

  lemma RecoveryMoves(w: World, s: Step)
    requires Inv(w) && Enabled(w, s) && Holding(PcOf(w, s.p)) && Next(w, s) != Released(w, s.p) && OfRecovery(s)
    ensures Moved(w, Next(w, s), s.p)
  {
    HolderSettled(w, s.p);
    if s.LoadLog? {
      CountBound(w, PcOf(w, s.p).run);
    }
  }

  /** Over every run: from a workspace where it holds, it holds ever after. */
  lemma {:induction false} RunKeepsInv(w: World, steps: seq<Step>)
    requires Inv(w) && Possible(w, steps)
    ensures Inv(Run(w, steps))
  {
    if steps != [] {
      hide Inv, Next, Enabled;
      RunKeepsInv(w, steps[..|steps| - 1]);
      NextKeepsInv(Run(w, steps[..|steps| - 1]), steps[|steps| - 1]);
    }
  }

  // ---- Mutual exclusion ----

  /** Whatever any processes do, in any order, dying anywhere: at most one is past the lock. */
  lemma AtMostOneOwner(w: World, steps: seq<Step>, p: Pid, q: Pid)
    requires Inv(w) && Possible(w, steps)
    requires Holding(PcOf(Run(w, steps), p)) && Holding(PcOf(Run(w, steps), q))
    ensures p == q
  {
    RunKeepsInv(w, steps);
  }

  // ---- The safety block ----

  /** An intent is on record and no living process stands behind it. */
  predicate Blocked(w: World) {
    w.intent.Some? && forall p <- w.procs :: !Owns(w.procs[p])
  }

  /** An owner that dies or throws between writing its intent and clearing it leaves the workspace blocked. */
  lemma {:induction false} InterruptionBlocks(w: World, p: Pid)
    requires Inv(w)
    requires PcOf(w, p).Announced? || PcOf(w, p).Resuming? || PcOf(w, p).Working?
    ensures Blocked(Next(w, Die(p))) && Blocked(Next(w, Throw(p)))
    ensures Next(w, Die(p)).intent == w.intent == Next(w, Throw(p)).intent
  {
    HolderSettled(w, p);
  }

  lemma BlockedStep(w: World, s: Step)
    requires Inv(w) && Blocked(w) && Enabled(w, s) && !s.ClearBlock?
    ensures Blocked(Next(w, s)) && Next(w, s).intent == w.intent
  {}

  /** Until a recovery clears the record, no apply or resume becomes owner and the record does not change. */
  lemma {:induction false} BlockedUntilCleared(w: World, steps: seq<Step>)
    requires Inv(w) && Blocked(w) && Possible(w, steps)
    requires forall s <- steps :: !s.ClearBlock?
    ensures Blocked(Run(w, steps)) && Run(w, steps).intent == w.intent
  {
    if steps != [] {
      hide Inv, Next, Enabled, Blocked;
      var init := steps[..|steps| - 1];
      assert forall s <- init :: s in steps;
      BlockedUntilCleared(w, init);
      RunKeepsInv(w, init);
      BlockedStep(Run(w, init), steps[|steps| - 1]);
    }
  }

  /** A record goes only by its owner's own finalization, or by a recovery once its log holds exactly one terminal event. */
  lemma ClearedWhenTerminal(w: World, steps: seq<Step>, s: Step)
    requires Inv(w) && Possible(w, steps) && Enabled(Run(w, steps), s)
    requires Run(w, steps).intent.Some? && Next(Run(w, steps), s).intent.None?
    ensures var before := Run(w, steps);
            || (s.ClearIntent? && PcOf(before, s.p).Working?)
            || (s.ClearBlock? && Count(before, before.intent.value) == 1)
  {
    RunKeepsInv(w, steps);
    if s.ClearBlock? {
      HolderSettled(Run(w, steps), s.p);
    }
    hide Run, Possible;
  }

  /** Apply, resume and recovery, which hold the lock, share one RUN_COMPLETED: no log ever gets a second from them. */
  lemma NeverTwoTerminalEvents(w: World, steps: seq<Step>, run: RunId)
    requires Inv(w) && Possible(w, steps)
    ensures Count(Run(w, steps), run) <= 1
  {
    RunKeepsInv(w, steps);
    hide Run, Possible;
  }

  // ---- Recovery gets there ----

  lemma RunSnoc(w: World, steps: seq<Step>, before: World, s: Step) returns (more: seq<Step>)
    requires Possible(w, steps) && Run(w, steps) == before && Enabled(before, s)
    ensures more == steps + [s] && Possible(w, more) && Run(w, more) == Next(before, s)
  {
    more := steps + [s];
    assert more[..|steps|] == steps;
  }

  function Recovery(p: Pid): seq<Step> {
    [TryRecovery(p), ReadIntent(p), VerifyWorkers(p, true), LoadLog(p), WriteTerminal(p), FinishRecovery(p, true), ClearBlock(p)]
  }

  /** A recovery underway. */
  function Underway(w: World, p: Pid, pc: Pc): World {
    At(w.(lock := Some(p)), p, pc)
  }

  lemma Onward(w: World, p: Pid, pc: Pc, next: Pc)
    ensures At(Underway(w, p, pc), p, next) == Underway(w, p, next)
    ensures PcOf(Underway(w, p, pc), p) == pc && forall run :: Count(Underway(w, p, pc), run) == Count(w, run)
  {}

  lemma RecoveryLoads(w: World, p: Pid) returns (steps: seq<Step>)
    requires PcOf(w, p).Idle? && w.lock.None? && w.intent.Some? && w.intent.value in w.dirs
    ensures steps == Recovery(p)[..4] && Possible(w, steps)
    ensures Run(w, steps) == Underway(w, p, LoadedLog(w.intent.value, Count(w, w.intent.value)))
  {
    var run := w.intent.value;
    Onward(w, p, RecoveryLocked, FoundIntent(run));
    Onward(w, p, FoundIntent(run), WorkersStopped(run));
    Onward(w, p, WorkersStopped(run), LoadedLog(run, Count(w, run)));
    assert Next(w, TryRecovery(p)) == Underway(w, p, RecoveryLocked);
    assert Next(Underway(w, p, RecoveryLocked), ReadIntent(p)) == Underway(w, p, FoundIntent(run));
    assert Next(Underway(w, p, FoundIntent(run)), VerifyWorkers(p, true)) == Underway(w, p, WorkersStopped(run));
    assert Next(Underway(w, p, WorkersStopped(run)), LoadLog(p)) == Underway(w, p, LoadedLog(run, Count(w, run)));
    assert Enabled(w, TryRecovery(p)) && Enabled(Underway(w, p, RecoveryLocked), ReadIntent(p));
    assert Enabled(Underway(w, p, FoundIntent(run)), VerifyWorkers(p, true));
    assert Enabled(Underway(w, p, WorkersStopped(run)), LoadLog(p));
    hide Next, Enabled, Underway;
    steps := RunSnoc(w, [], w, TryRecovery(p));
    steps := RunSnoc(w, steps, Underway(w, p, RecoveryLocked), ReadIntent(p));
    steps := RunSnoc(w, steps, Underway(w, p, FoundIntent(run)), VerifyWorkers(p, true));
    steps := RunSnoc(w, steps, Underway(w, p, WorkersStopped(run)), LoadLog(p));
  }

  /** The block as recovery leaves it. */
  ghost predicate Unblocked(w: World, run: RunId, after: World) {
    && after.intent.None? && Count(after, run) == 1
    && forall other :: other != run ==> Count(after, other) == Count(w, other)
  }

  lemma RecoveryEnds(w: World, p: Pid, before: World, steps: seq<Step>, run: RunId) returns (more: seq<Step>)
    requires Possible(w, steps) && Run(w, steps) == before && PcOf(before, p) == LoadedLog(run, Count(before, run))
    requires Count(before, run) <= 1
    ensures more == steps + [WriteTerminal(p), FinishRecovery(p, true), ClearBlock(p)]
    ensures Possible(w, more) && Unblocked(before, run, Run(w, more))
  {
    var w5 := Next(before, WriteTerminal(p));
    var w6 := Next(w5, FinishRecovery(p, true));
    var w7 := Next(w6, ClearBlock(p));
    assert Unblocked(before, run, w7);
    hide Next, Enabled, Unblocked;
    more := RunSnoc(w, steps, before, WriteTerminal(p));
    more := RunSnoc(w, more, w5, FinishRecovery(p, true));
    more := RunSnoc(w, more, w6, ClearBlock(p));
  }

  /** With the lock free and the run's directory there, a recovery whose steps succeed clears the block. */
  lemma RecoveryClears(w: World, p: Pid)
    requires Inv(w) && w.lock.None? && w.intent.Some? && w.intent.value in w.dirs
    ensures Possible(w, Recovery(p)) && Unblocked(w, w.intent.value, Run(w, Recovery(p)))
  {
    var run := w.intent.value;
    CountBound(w, run);
    var steps := RecoveryLoads(w, p);
    var before := Run(w, steps);
    Onward(w, p, LoadedLog(run, Count(w, run)), BlockCleared);
    hide Run, Possible, Inv, Underway, Next, Enabled, Unblocked, Settled;
    var more := RecoveryEnds(w, p, before, steps, run);
    assert more == Recovery(p);
  }

  /** How far a recovery has come, by where its process stands. */
  function Progress(pc: Pc): nat {
    match pc
    case RecoveryLocked => 1
    case FoundIntent(_) => 2
    case WorkersStopped(_) => 3
    case LoadedLog(_, _) => 4
    case TerminalWritten(_) => 5
    case AllVerified(_) => 6
    case BlockCleared => 7
    case _ => 0
  }

  /** The steps of a process from its last attempt to recover on. */
  function SinceAttempt(steps: seq<Step>, p: Pid): seq<Step> {
    if steps == [] then []
    else
      var before, last := SinceAttempt(steps[..|steps| - 1], p), steps[|steps| - 1];
      if last == TryRecovery(p) then [last] else if last.p == p then before + [last] else before
  }

  lemma StepProgress(w: World, s: Step)
    requires Enabled(w, s)
    ensures var before, after := Progress(PcOf(w, s.p)), Progress(PcOf(Next(w, s), s.p));
            after > 0 && s != TryRecovery(s.p) ==> after == before + 1 && before > 0 && s == Recovery(s.p)[before]
    ensures s == TryRecovery(s.p) ==> Progress(PcOf(Next(w, s), s.p)) <= 1
    ensures forall q :: q != s.p ==> PcOf(Next(w, s), q) == PcOf(w, q)
  {}

  /**
   * In every run, wherever a recovery stands it has taken the steps before, each with success and in this order: it found the
   * intent, its workers had stopped, the log was read, the terminal event was there or written, and the rest was verified.
   */
  lemma {:induction false} RecoveryInOrder(w: World, steps: seq<Step>, p: Pid)
    requires Possible(w, steps) && PcOf(w, p).Idle?
    ensures var k := Progress(PcOf(Run(w, steps), p)); k > 0 ==> SinceAttempt(steps, p) == Recovery(p)[..k]
  {
    if steps != [] {
      var init, last := steps[..|steps| - 1], steps[|steps| - 1];
      RecoveryInOrder(w, init, p);
      StepProgress(Run(w, init), last);
      hide Next, Enabled;
    }
  }

  /** So a record is cleared only by a recovery that has taken all of them, or by an apply that comes to its end. */
  lemma ClearedAfterChecks(w: World, steps: seq<Step>, s: Step)
    requires Possible(w, steps) && Enabled(Run(w, steps), s) && PcOf(w, s.p).Idle?
    requires Run(w, steps).intent.Some? && Next(Run(w, steps), s).intent.None?
    ensures s.ClearIntent? || SinceAttempt(steps, s.p) + [s] == Recovery(s.p)
  {
    RecoveryInOrder(w, steps, s.p);
  }

  // ---- An apply and a resume get there ----

  function FreshApply(p: Pid, run: RunId, written: bool): seq<Step> {
    [TryApply(p, Fresh), CheckBlock(p), MakeRun(p, run), WriteIntent(p), NameIntent(p, written), ClearIntent(p), AppendCompleted(p),
     Return(p)]
  }

  function Resumption(p: Pid, run: RunId): seq<Step> {
    [TryApply(p, Resume(run)), CheckBlock(p), WriteIntent(p), CheckUnfinished(p), ClearIntent(p), AppendCompleted(p), Return(p)]
  }

  /** The run has one terminal event more than before, and nothing is left behind. */
  ghost predicate Ended(w: World, p: Pid, run: RunId, after: World) {
    && after.lock.None? && after.intent.None? && PcOf(after, p).Idle?
    && Count(after, run) == Count(w, run) + 1 && forall other :: other != run ==> Count(after, other) == Count(w, other)
  }

  lemma Finalizes(w: World, steps: seq<Step>, start: World, p: Pid, run: RunId) returns (more: seq<Step>)
    requires Possible(start, steps) && Run(start, steps) == w && PcOf(w, p) == Working(run)
    ensures more == steps + [ClearIntent(p), AppendCompleted(p), Return(p)]
    ensures Possible(start, more) && Ended(w, p, run, Run(start, more)) && Run(start, more).dirs == w.dirs
  {
    var w1 := Next(w, ClearIntent(p));
    var w2 := Next(w1, AppendCompleted(p));
    var w3 := Next(w2, Return(p));
    assert Ended(w, p, run, w3) && w3.dirs == w.dirs;
    hide Next, Enabled, Ended;
    more := RunSnoc(start, steps, w, ClearIntent(p));
    more := RunSnoc(start, more, w1, AppendCompleted(p));
    more := RunSnoc(start, more, w2, Return(p));
  }

  /** The lock and the block: an apply or a resume is past them, or it leaves all as it was. */
  lemma EntersOrLeaves(w: World, p: Pid, entry: Entry) returns (steps: seq<Step>)
    requires w.lock.None? && PcOf(w, p).Idle? && (entry.Resume? ==> OwnRun(w, entry.run))
    ensures steps == [TryApply(p, entry), CheckBlock(p)] && Possible(w, steps)
    ensures w.intent.None? ==> Run(w, steps) == Underway(w, p, Owner(entry))
    ensures w.intent.Some? ==> Run(w, steps) == At(w, p, Idle)
  {
    var w1 := Next(w, TryApply(p, entry));
    Onward(w, p, Locked(entry), Owner(entry));
    assert w1 == Underway(w, p, Locked(entry));
    assert Next(w1, CheckBlock(p)) == if w.intent.Some? then At(w, p, Idle) else Underway(w, p, Owner(entry));
    assert Enabled(w, TryApply(p, entry)) && Enabled(w1, CheckBlock(p));
    hide Next, Enabled, Underway;
    steps := RunSnoc(w, [], w, TryApply(p, entry));
    steps := RunSnoc(w, steps, w1, CheckBlock(p));
  }

  function WithRun(w: World, run: RunId, intent: Option<RunId>): World {
    w.(dirs := w.dirs + {run, UNNAMED}, intent := intent)
  }

  lemma WithRunFacts(w: World, run: RunId, intent: Option<RunId>)
    ensures var v := WithRun(w, run, intent);
            v.intent == intent && v.dirs == w.dirs + {run, UNNAMED} && v.completions == w.completions
  {}

  lemma MakesRun(w: World, p: Pid, run: RunId)
    requires run !in w.dirs && run != UNNAMED
    ensures var w2 := Underway(w, p, Owner(Fresh));
            Enabled(w2, MakeRun(p, run)) && Next(w2, MakeRun(p, run)) == Underway(WithRun(w, run, w.intent), p, Prepared(run))
  {
    Onward(w, p, Owner(Fresh), Prepared(run));
  }

  lemma Announces(w: World, p: Pid, run: RunId, written: bool)
    ensures var w3, w4 := Underway(w, p, Prepared(run)), Underway(w.(intent := Some(UNNAMED)), p, Announced(run));
            && Enabled(w3, WriteIntent(p)) && Next(w3, WriteIntent(p)) == w4 && Enabled(w4, NameIntent(p, written))
            && Next(w4, NameIntent(p, written)) == Underway(w.(intent := Some(if written then run else UNNAMED)), p, Working(run))
  {
    Onward(w.(intent := Some(UNNAMED)), p, Prepared(run), Announced(run));
    Onward(w.(intent := Some(UNNAMED)), p, Announced(run), Working(run));
    Onward(w.(intent := Some(run)), p, Announced(run), Working(run));
  }

  lemma StartsWork(w: World, p: Pid, run: RunId, written: bool, start: World, before: seq<Step>) returns (steps: seq<Step>)
    requires Possible(start, before) && Run(start, before) == Underway(w, p, Owner(Fresh)) && run !in w.dirs && run != UNNAMED
    ensures steps == before + [MakeRun(p, run), WriteIntent(p), NameIntent(p, written)] && Possible(start, steps)
    ensures Run(start, steps) == Underway(WithRun(w, run, Some(if written then run else UNNAMED)), p, Working(run))
  {
    MakesRun(w, p, run);
    var made := WithRun(w, run, w.intent);
    Announces(made, p, run, written);
    assert made.(intent := Some(if written then run else UNNAMED)) == WithRun(w, run, Some(if written then run else UNNAMED));
    hide Next, Enabled, Underway, WithRun, Run, Possible;
    steps := RunSnoc(start, before, Underway(w, p, Owner(Fresh)), MakeRun(p, run));
    steps := RunSnoc(start, steps, Underway(made, p, Prepared(run)), WriteIntent(p));
    steps := RunSnoc(start, steps, Underway(made.(intent := Some(UNNAMED)), p, Announced(run)), NameIntent(p, written));
  }

  lemma UnderwayFacts(w: World, p: Pid, pc: Pc)
    ensures PcOf(Underway(w, p, pc), p) == pc && Underway(w, p, pc).intent == w.intent && Underway(w, p, pc).dirs == w.dirs
    ensures Underway(w, p, pc).completions == w.completions
  {}

  lemma EndedFrom(w: World, from: World, p: Pid, run: RunId, after: World)
    requires Ended(from, p, run, after) && from.completions == w.completions
    ensures Ended(w, p, run, after)
  {
    assert forall other :: Count(from, other) == Count(w, other);
  }

  /**
   * With the lock free a fresh apply goes through, from its lock to its terminal event, if no intent record blocks it; while it
   * works, the record names its run, or none if the name was not written. A blocked one leaves all as it was.
   */
  lemma ApplyRuns(w: World, p: Pid, run: RunId, written: bool)
    requires w.lock.None? && PcOf(w, p).Idle? && run !in w.dirs && run != UNNAMED
    ensures Possible(w, FreshApply(p, run, written)[..2])
    ensures w.intent.Some? ==> Run(w, FreshApply(p, run, written)[..2]) == At(w, p, Idle)
    ensures w.intent.None? ==>
              && Possible(w, FreshApply(p, run, written)[..5])
              && PcOf(Run(w, FreshApply(p, run, written)[..5]), p) == Working(run)
              && Run(w, FreshApply(p, run, written)[..5]).intent == Some(if written then run else UNNAMED)
              && Possible(w, FreshApply(p, run, written)) && Ended(w, p, run, Run(w, FreshApply(p, run, written)))
              && Run(w, FreshApply(p, run, written)).dirs == w.dirs + {run, UNNAMED}
  {
    hide Run, Possible, Underway, Ended, WithRun, PcOf;
    var steps := EntersOrLeaves(w, p, Fresh);
    assert steps == FreshApply(p, run, written)[..2];
    if w.intent.None? {
      steps := StartsWork(w, p, run, written, w, steps);
      assert steps == FreshApply(p, run, written)[..5];
      var named := Some(if written then run else UNNAMED);
      UnderwayFacts(WithRun(w, run, named), p, Working(run));
      WithRunFacts(w, run, named);
      var working := Run(w, steps);
      steps := Finalizes(working, steps, w, p, run);
      assert steps == FreshApply(p, run, written);
      EndedFrom(w, working, p, run, Run(w, steps));
    }
  }

  lemma Resumes(w: World, p: Pid, run: RunId) returns (steps: seq<Step>)
    requires w.lock.None? && w.intent.None? && PcOf(w, p).Idle? && OwnRun(w, run)
    ensures steps == Resumption(p, run)[..4] && Possible(w, steps) && Possible(w, steps[..3])
    ensures Run(w, steps[..3]).intent == Some(run)
    ensures Run(w, steps) == if Count(w, run) == 0 then Underway(w.(intent := Some(run)), p, Working(run))
                             else At(w.(intent := Some(run)), p, Idle)
  {
    steps := EntersOrLeaves(w, p, Resume(run));
    var announced := w.(intent := Some(run));
    var w2, w3 := Underway(w, p, Owner(Resume(run))), Underway(announced, p, Resuming(run));
    var w4 := if Count(w, run) == 0 then Underway(announced, p, Working(run)) else At(announced, p, Idle);
    assert Enabled(w2, WriteIntent(p)) && Next(w2, WriteIntent(p)) == w3;
    assert Enabled(w3, CheckUnfinished(p)) && Next(w3, CheckUnfinished(p)) == w4 by {
      Onward(announced, p, Resuming(run), Working(run));
      assert Count(w3, run) == Count(w, run);
    }
    UnderwayFacts(announced, p, Resuming(run));
    hide Next, Enabled, Underway, Run, Possible;
    steps := RunSnoc(w, steps, w2, WriteIntent(p));
    var three := steps;
    steps := RunSnoc(w, steps, w3, CheckUnfinished(p));
    assert steps[..3] == three && steps == Resumption(p, run)[..4];
  }

  /**
   * A resume of a run without a terminal event goes through likewise. One of a run that has one is refused after it published
   * its intent, and the record stays.
   */
  lemma ResumeRuns(w: World, p: Pid, run: RunId)
    requires w.lock.None? && w.intent.None? && PcOf(w, p).Idle? && OwnRun(w, run)
    ensures Possible(w, Resumption(p, run)) <==> Count(w, run) == 0
    ensures Count(w, run) == 0 ==> Ended(w, p, run, Run(w, Resumption(p, run)))
    ensures Possible(w, Resumption(p, run)[..3]) && Run(w, Resumption(p, run)[..3]).intent == Some(run)
    ensures Possible(w, Resumption(p, run)[..4])
    ensures Count(w, run) != 0 ==> Run(w, Resumption(p, run)[..4]) == At(w.(intent := Some(run)), p, Idle)
  {
    hide Run, Possible, Underway, Ended, PcOf, Count;
    var steps := Resumes(w, p, run);
    assert steps[..3] == Resumption(p, run)[..3];
    var announced, four := w.(intent := Some(run)), Run(w, steps);
    if Count(w, run) == 0 {
      UnderwayFacts(announced, p, Working(run));
      steps := Finalizes(four, steps, w, p, run);
      assert steps == Resumption(p, run);
      EndedFrom(w, four, p, run, Run(w, steps));
    } else {
      RefusedStops(w, p, run, announced);
    }
  }

  lemma RefusedStops(w: World, p: Pid, run: RunId, announced: World)
    requires Possible(w, Resumption(p, run)[..4]) && Run(w, Resumption(p, run)[..4]) == At(announced, p, Idle)
    ensures !Possible(w, Resumption(p, run))
  {
    var five := Resumption(p, run)[..5];
    assert five[..4] == Resumption(p, run)[..4] && five[4] == ClearIntent(p);
    assert !Enabled(At(announced, p, Idle), ClearIntent(p));
    PossiblePrefix(w, Resumption(p, run), 5);
    hide Enabled, Run, At;
  }

  lemma {:induction false} PossiblePrefix(w: World, steps: seq<Step>, n: nat)
    requires n <= |steps|
    ensures Possible(w, steps) ==> Possible(w, steps[..n])
  {
    if n < |steps| {
      PossiblePrefix(w, steps[..|steps| - 1], n);
      assert steps[..|steps| - 1][..n] == steps[..n];
    } else {
      assert steps[..n] == steps;
    }
  }

  // ---- A cancellation ends the run itself ----

  ghost predicate AtMostOneEver(w: World, run: RunId) {
    forall steps: seq<Step> :: Possible(w, steps) ==> Count(Run(w, steps), run) <= 1
  }

  /** Past its last look at the run's log, with the terminal event still to write. */
  predicate Committed(pc: Pc, run: RunId) {
    pc in {Prepared(run), Announced(run), Working(run), Cleared(run), LoadedLog(run, 0)}
  }

  function StepsLeft(pc: Pc): nat {
    match pc
    case Prepared(_) => 4
    case Announced(_) => 3
    case Working(_) => 2
    case Cleared(_) => 1
    case LoadedLog(_, _) => 1
    case _ => 0
  }

  function StepOn(p: Pid, pc: Pc): Step {
    match pc
    case Prepared(_) => WriteIntent(p)
    case Announced(_) => NameIntent(p, true)
    case Working(_) => ClearIntent(p)
    case LoadedLog(_, _) => WriteTerminal(p)
    case _ => AppendCompleted(p)
  }

  lemma {:induction false} EndsTwice(w: World, steps: seq<Step>, now: World, p: Pid, run: RunId) returns (more: seq<Step>)
    requires Possible(w, steps) && Run(w, steps) == now && Committed(PcOf(now, p), run) && Count(now, run) == 1
    ensures Possible(w, more) && Count(Run(w, more), run) == 2
    decreases StepsLeft(PcOf(now, p))
  {
    var pc := PcOf(now, p);
    var s := StepOn(p, pc);
    var next := Next(now, s);
    more := RunSnoc(w, steps, now, s);
    hide Run, Possible;
    if !pc.Cleared? && !pc.LoadedLog? {
      more := EndsTwice(w, more, next, p, run);
    }
  }

  /**
   * A cancellation whose wait for the owner is over appends RUN_COMPLETED too, without the lock and whatever the log
   * holds. After that append the log stays at one terminal event, over every run, if and only if it had none before and
   * no process was past its last look at that log with its own still to write.
   */
  lemma CancellationEndsOnceExactly(w: World, run: RunId)
    requires Inv(w) && OwnRun(w, run)
    ensures AtMostOneEver(OneMore(w, run), run) <==> Count(w, run) == 0 && forall p <- w.procs :: !Committed(w.procs[p], run)
  {
    var cancelled := OneMore(w, run);
    CountBound(w, run);
    assert Possible(cancelled, []) && Run(cancelled, []) == cancelled;
    if Count(w, run) == 0 {
      if p :| p in w.procs && Committed(w.procs[p], run) {
        assert PcOf(cancelled, p) == w.procs[p];
        var steps := EndsTwice(cancelled, [], cancelled, p, run);
      } else {
        CancelledInv(w, run);
        forall steps: seq<Step> | Possible(cancelled, steps) ensures Count(Run(cancelled, steps), run) <= 1 {
          NeverTwoTerminalEvents(cancelled, steps, run);
        }
      }
    }
  }

  lemma CancelledInv(w: World, run: RunId)
    requires Inv(w) && OwnRun(w, run) && Count(w, run) == 0 && forall p <- w.procs :: !Committed(w.procs[p], run)
    ensures Inv(OneMore(w, run))
  {
    var cancelled := OneMore(w, run);
    if w.lock.Some? {
      var pc := w.procs[w.lock.value];
      assert Settled(w, pc) && !Committed(pc, run);
      assert Settled(cancelled, pc);
    }
  }

  // ---- Two windows ----

  /** An owner at work on a run. */
  predicate OnRun(pc: Pc, run: RunId) {
    pc in {Prepared(run), Announced(run), Resuming(run), Working(run), Cleared(run), Completed(run)}
  }

  /**
   * Finalization clears the intent first. An owner that dies or throws leaves its run with neither a block nor a terminal
   * event if and only if it has announced nothing yet, or has cleared its intent and not yet written the event. (No
   * writer of the record acts in between; RepublishedIntentBlocks is about one that does.)
   */
  lemma {:induction false} FinalizeWindow(w: World, p: Pid, run: RunId)
    requires Inv(w) && OnRun(PcOf(w, p), run)
    ensures var dead := Next(w, Die(p));
            && dead == Next(w, Throw(p)) && dead.lock.None? && run in dead.dirs
            && (dead.intent.None? && Count(dead, run) == 0 <==> PcOf(w, p).Prepared? || PcOf(w, p).Cleared?)
  {
    HolderSettled(w, p);
  }

  /** The rest of a finalization that has cleared its intent. */
  function Finished(w: World, p: Pid): World
    requires PcOf(w, p).Cleared? || PcOf(w, p).Completed?
  {
    if PcOf(w, p).Cleared? then Next(Next(w, AppendCompleted(p)), Return(p)) else Next(w, Return(p))
  }

  /**
   * A writer that read the record before it was cleared publishes it again. Then an owner that dies in the window leaves
   * a block after all; one that finishes leaves its finished run to block the workspace, until a recovery, which finds the
   * terminal event and clears the block without a second one.
   */
  lemma RepublishedIntentBlocks(w: World, p: Pid, run: RunId)
    requires Inv(w) && PcOf(w, p) in {Cleared(run), Completed(run)}
    ensures var again := w.(intent := Some(run));
            && Blocked(Next(again, Die(p))) && Blocked(Finished(again, p)) && Inv(Finished(again, p))
            && Count(Finished(again, p), run) == 1 && Possible(Finished(again, p), Recovery(p))
            && Unblocked(Finished(again, p), run, Run(Finished(again, p), Recovery(p)))
  {
    var again := w.(intent := Some(run));
    HolderSettled(w, p);
    FinishedFacts(w, p, run);
    var finished := Finished(again, p);
    assert Blocked(Next(again, Die(p))) && Blocked(finished) by {
      hide Finished, Inv, Settled;
    }
    hide Run, Possible, Recovery, Unblocked, Inv, Finished, Next, Blocked;
    RecoveryClears(finished, p);
  }

  lemma FinishedFacts(w: World, p: Pid, run: RunId)
    requires Inv(w) && PcOf(w, p) in {Cleared(run), Completed(run)}
    ensures var finished := Finished(w.(intent := Some(run)), p);
            && Inv(finished) && PcOf(finished, p).Idle? && finished.lock.None? && finished.intent == Some(run)
            && run in finished.dirs && Count(finished, run) == 1
            && forall q <- finished.procs :: finished.procs[q].Idle?
  {
    HolderSettled(w, p);
  }

  /**
   * A recovery ends the log its block names. Wherever an owner dies or throws while its intent is on record, a recovery
   * whose steps succeed is possible and clears the block, and the run's own log then holds its terminal event if and only
   * if the intent had been given the run's name. Otherwise the event goes to a log in the runs directory.
   */
  lemma RecoveryEndsNamedRuns(w: World, p: Pid, run: RunId)
    requires Inv(w) && PcOf(w, p) in {Announced(run), Resuming(run), Working(run)}
    ensures var dead := Next(w, Die(p));
            && dead == Next(w, Throw(p)) && Possible(dead, Recovery(p))
            && var after := Run(dead, Recovery(p));
               && after.intent.None?
               && (Count(after, run) == 1 <==> w.intent == Some(run))
               && (Count(after, UNNAMED) == 1 && Count(after, run) == 0 <==> w.intent == Some(UNNAMED))
  {
    DeadFacts(w, p, run);
    hide Run, Possible, Recovery, Inv, Next, Enabled, Settled;
    RecoveryClears(Next(w, Die(p)), p);
  }

  lemma DeadFacts(w: World, p: Pid, run: RunId)
    requires Inv(w) && PcOf(w, p) in {Announced(run), Resuming(run), Working(run)}
    ensures var dead := Next(w, Die(p));
            && Inv(dead) && dead == Next(w, Throw(p)) && dead.lock.None? && PcOf(dead, p).Idle?
            && dead.intent == w.intent && w.intent in {Some(run), Some(UNNAMED)} && w.intent.value in dead.dirs && run != UNNAMED
            && Count(dead, run) == Count(w, run) && (w.intent == Some(UNNAMED) ==> Count(w, run) == 0)
  {
    HolderSettled(w, p);
    ReleasedInv(w, p);
  }
}
