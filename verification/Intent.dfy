/**
 * execution-intent.ts: the interruption cause and the worker list, one shared record read and rewritten by any number of
 * processes under the arbitration lock, each of which may die between any two of its steps.
 */
module Intent {
  import opened Wrappers

  type Pid = nat

  datatype Cause = NoCause | CancelRequested | CancelEscalated

  function Order(cause: Cause): nat {
    match cause case NoCause => 0 case CancelRequested => 1 case CancelEscalated => 2
  }

  /** The parts of the record that are rewritten: every writer copies the others from what it read. */
  datatype Record = Record(cause: Cause, workers: seq<string>, runId: string)

  /** What a process asked for. */
  datatype Request = Transition(from: Cause, to: Cause) | Register(worker: string)

  datatype Pc =
    | Idle
    | Locked(request: Request)
    | Read(request: Request, current: Record)
    | Done(request: Request)
    // The coordinator naming its run, outside the lock
    | Naming(runId: string, current: Record)

  /** The lock, the published record, the processes, and (for the proof) the requests that were answered with success. */
  datatype World = World(lock: Option<Pid>, record: Option<Record>, procs: map<Pid, Pc>, answered: seq<Request>)

  function PcOf(w: World, p: Pid): Pc {
    if p in w.procs then w.procs[p] else Idle
  }

  function At(w: World, p: Pid, pc: Pc): World {
    w.(procs := w.procs[p := pc])
  }

  function Released(w: World, p: Pid): World {
    At(w.(lock := None), p, Idle)
  }

  datatype Step =
    | Ask(p: Pid, request: Request)
    | ReadRecord(p: Pid)
    | WriteRecord(p: Pid)
    | Unlock(p: Pid)
    | Die(p: Pid)
    | ReadToName(p: Pid, runId: string)
    | WriteName(p: Pid)
    | Clear(p: Pid)

  predicate UnderLock(pc: Pc) {
    pc.Locked? || pc.Read? || pc.Done?
  }

  predicate Enabled(w: World, s: Step) {
    var pc := PcOf(w, s.p);
    match s
    case Ask(_, _) => pc.Idle?
    case ReadRecord(_) => pc.Locked?
    case WriteRecord(_) => pc.Read?
    case Unlock(_) => pc.Done?
    case Die(_) => !pc.Idle?
    case ReadToName(_, _) => pc.Idle? && w.record.Some?
    case WriteName(_) => pc.Naming?
    case Clear(_) => pc.Idle?
  }

  function Rewritten(current: Record, request: Request): Record {
    match request
    case Transition(_, to) => current.(cause := to)
    case Register(worker) => current.(workers := current.workers + [worker])
  }

  /** A transition that is not forward is refused before the lock; one whose `from` is not the cause, after the read. */
  function Next(w: World, s: Step): World
    requires Enabled(w, s)
  {
    var p, pc := s.p, PcOf(w, s.p);
    match s
    case Ask(_, request) =>
      if request.Transition? && Order(request.to) <= Order(request.from) then w
      else if w.lock.Some? then w
      else At(w.(lock := Some(p)), p, Locked(request))
    case ReadRecord(_) =>
      if w.record.None? then Released(w, p)
      else if pc.request.Transition? && w.record.value.cause != pc.request.from then Released(w, p)
      else At(w, p, Read(pc.request, w.record.value))
    case WriteRecord(_) =>
      At(w.(record := Some(Rewritten(pc.current, pc.request)), answered := w.answered + [pc.request]), p, Done(pc.request))
    case Unlock(_) => Released(w, p)
    case Die(_) => if UnderLock(pc) then Released(w, p) else At(w, p, Idle)
    case ReadToName(_, runId) => At(w, p, Naming(runId, w.record.value))
    case WriteName(_) => At(w.(record := Some(pc.current.(runId := pc.runId))), p, Idle)
    // clearIntent: the file is removed, without the lock
    case Clear(_) => w.(record := None)
  }

  predicate Possible(w: World, steps: seq<Step>)
    decreases |steps|, 0
  {
    steps == []
    || (var init := steps[..|steps| - 1]; Possible(w, init) && Enabled(Run(w, init), steps[|steps| - 1]))
  }

  function Run(w: World, steps: seq<Step>): World
    requires Possible(w, steps)
    decreases |steps|, 1
  {
    if steps == [] then w else Next(Run(w, steps[..|steps| - 1]), steps[|steps| - 1])
  }

  predicate Unlocked(s: Step) {
    s.WriteName? || s.Clear?
  }

  /** Only transitionCause and registerWorker write; a coordinator may be about to name its run, but does not yet. */
  predicate Arbitrated(steps: seq<Step>) {
    forall s <- steps :: !Unlocked(s)
  }

  // ---- What every step keeps ----

  /** The one process under the lock has read what is still published, and its transition is forward from it. */
  predicate Inv(w: World) {
    && (forall p <- w.procs :: UnderLock(w.procs[p]) ==> w.lock == Some(p))
    && (forall p <- w.procs :: Fair(w, w.procs[p]))
  }

  predicate Fair(w: World, pc: Pc) {
    match pc
    case Idle => true
    case Locked(request) => request.Transition? ==> Order(request.from) < Order(request.to)
    case Read(request, current) =>
      && w.record == Some(current)
      && (request.Transition? ==> current.cause == request.from && Order(request.from) < Order(request.to))
    case Done(_) => true
    case Naming(_, _) => true
  }

  lemma NextKeepsInv(w: World, s: Step)
    requires Inv(w) && Enabled(w, s) && !Unlocked(s)
    ensures Inv(Next(w, s))
  {
    var now := Next(w, s);
    forall p | p in now.procs ensures (UnderLock(now.procs[p]) ==> now.lock == Some(p)) && Fair(now, now.procs[p]) {
      if p != s.p {
        assert now.procs[p] == w.procs[p];
      }
    }
  }

  /** The record after a list of requests, and whether each transition among them started at the cause it met. */
  function Replayed(record: Record, requests: seq<Request>): Record {
    if requests == [] then record
    else Rewritten(Replayed(record, requests[..|requests| - 1]), requests[|requests| - 1])
  }

  predicate Accepted(record: Record, requests: seq<Request>) {
    requests == []
    || (var init, last := requests[..|requests| - 1], requests[|requests| - 1];
        && Accepted(record, init)
        && (last.Transition? ==> last.from == Replayed(record, init).cause && Order(last.from) < Order(last.to)))
  }

  /** How many of the requests are transitions, and the workers the others register. */
  function Forward(requests: seq<Request>): nat {
    if requests == [] then 0
    else Forward(requests[..|requests| - 1]) + if requests[|requests| - 1].Transition? then 1 else 0
  }

  function Added(requests: seq<Request>): seq<string> {
    if requests == [] then []
    else Added(requests[..|requests| - 1]) + if requests[|requests| - 1].Register? then [requests[|requests| - 1].worker] else []
  }

  lemma {:induction false} ReplayedMeans(record: Record, requests: seq<Request>)
    requires Accepted(record, requests)
    ensures var after := Replayed(record, requests);
            && after.runId == record.runId && after.workers == record.workers + Added(requests)
            && Order(after.cause) >= Order(record.cause) + Forward(requests)
    ensures |requests| == Forward(requests) + |Added(requests)|
  {
    if requests != [] {
      ReplayedMeans(record, requests[..|requests| - 1]);
    }
  }

  function Since(w: World, now: World): seq<Request> {
    if |w.answered| <= |now.answered| then now.answered[|w.answered|..] else []
  }

  /** The record's history since `w`: the published record is the old one with exactly the requests answered since. */
  predicate Grown(w: World, now: World) {
    && |w.answered| <= |now.answered| && now.answered[..|w.answered|] == w.answered
    && var since := Since(w, now);
       if w.record.None? then now.record.None? && since == []
       else now.record == Some(Replayed(w.record.value, since)) && Accepted(w.record.value, since)
  }

  lemma GrownOnce(w: World, before: World, s: Step)
    requires Inv(before) && Grown(w, before) && Enabled(before, s) && !Unlocked(s)
    ensures Grown(w, Next(before, s))
  {
    var now := Next(before, s);
    if s.WriteRecord? {
      var request, n := PcOf(before, s.p).request, |w.answered|;
      assert Fair(before, PcOf(before, s.p));
      var since := before.answered[n..];
      assert now.answered[n..] == since + [request];
      assert (since + [request])[..|since|] == since;
      assert now.answered[..n] == before.answered[..n];
    }
  }

  /**
   * For every interleaving, with deaths anywhere: the record is the old one with the answered requests applied in order.
   * None is lost or overwritten, and no transition was answered that did not move the cause it met forward.
   */
  lemma {:induction false} RecordOnlyGrows(w: World, steps: seq<Step>)
    requires Inv(w) && Possible(w, steps) && Arbitrated(steps)
    ensures Inv(Run(w, steps)) && Grown(w, Run(w, steps))
  {
    if steps == [] {
      assert w.answered[|w.answered|..] == [];
    } else {
      hide Inv, Grown, Next, Enabled;
      var init := steps[..|steps| - 1];
      assert forall s <- init :: s in steps;
      RecordOnlyGrows(w, init);
      NextKeepsInv(Run(w, init), steps[|steps| - 1]);
      GrownOnce(w, Run(w, init), steps[|steps| - 1]);
    }
  }

  /** A worker whose registration was answered is on record for good. */
  lemma RegisteredForGood(w: World, steps: seq<Step>, worker: string)
    requires Inv(w) && w.record.Some? && Possible(w, steps) && Arbitrated(steps)
    requires worker in w.record.value.workers || Register(worker) in Since(w, Run(w, steps))
    ensures Run(w, steps).record.Some? && worker in Run(w, steps).record.value.workers
  {
    RecordOnlyGrows(w, steps);
    AddedAll(Since(w, Run(w, steps)), worker);
    ReplayedMeans(w.record.value, Since(w, Run(w, steps)));
    hide Run, Possible;
  }

  lemma {:induction false} AddedAll(requests: seq<Request>, worker: string)
    ensures worker in Added(requests) <==> Register(worker) in requests
  {
    if requests != [] {
      AddedAll(requests[..|requests| - 1], worker);
      assert requests == requests[..|requests| - 1] + [requests[|requests| - 1]];
    }
  }

  /** Whoever asks, and however often, at most two transitions are ever answered. */
  lemma AtMostTwoTransitions(w: World, steps: seq<Step>)
    requires Inv(w) && Possible(w, steps) && Arbitrated(steps)
    ensures Forward(Since(w, Run(w, steps))) <= 2
  {
    RecordOnlyGrows(w, steps);
    if w.record.Some? {
      ReplayedMeans(w.record.value, Since(w, Run(w, steps)));
    }
    hide Run, Possible;
  }

  // ---- What is done outside the lock ----

  predicate Without(steps: seq<Step>, p: Pid) {
    forall s <- steps :: s.p != p
  }

  lemma {:induction false} Bystander(w: World, steps: seq<Step>, p: Pid)
    requires Possible(w, steps) && Without(steps, p)
    ensures PcOf(Run(w, steps), p) == PcOf(w, p)
  {
    if steps != [] {
      var init := steps[..|steps| - 1];
      assert forall s <- init :: s in steps;
      Bystander(w, init, p);
    }
  }

  /**
   * Naming the run reads and rewrites the record without the lock. Whatever the others do between the read and the write,
   * the write publishes what was read: the cause and the workers on record survive it if and only if no request was
   * answered in between.
   */
  lemma NamingKeepsTheRecord(w: World, p: Pid, runId: string, steps: seq<Step>)
    requires Inv(w) && Enabled(w, ReadToName(p, runId))
    requires Possible(Next(w, ReadToName(p, runId)), steps) && Arbitrated(steps) && Without(steps, p)
    ensures var before := Run(Next(w, ReadToName(p, runId)), steps);
            && Enabled(before, WriteName(p)) && before.record.Some?
            && var after := Next(before, WriteName(p)).record;
               && after == Some(w.record.value.(runId := runId))
               && (after.value.cause == before.record.value.cause && after.value.workers == before.record.value.workers
                   <==> Since(w, before) == [])
  {
    var read := Next(w, ReadToName(p, runId));
    NextKeepsInv(w, ReadToName(p, runId));
    Bystander(read, steps, p);
    RecordOnlyGrows(read, steps);
    var before := Run(read, steps);
    assert Since(w, before) == Since(read, before);
    ReplayedMeans(w.record.value, Since(read, before));
    hide Run, Possible, Inv;
  }

  /** A cancellation fits in between: it is answered, and then its cause is gone. */
  lemma NamingCanLoseACause(w: World, p: Pid, q: Pid, runId: string)
    requires p != q && w.lock.None? && PcOf(w, p).Idle? && PcOf(w, q).Idle?
    requires w.record.Some? && w.record.value.cause == NoCause
    ensures var ask := Transition(NoCause, CancelRequested);
            var read := Next(w, ReadToName(p, runId));
            var cancelling := Next(Next(read, Ask(q, ask)), ReadRecord(q));
            var cancelled := Next(Next(cancelling, WriteRecord(q)), Unlock(q));
            var named := Next(cancelled, WriteName(p));
            && cancelled.record == Some(w.record.value.(cause := CancelRequested)) && cancelled.answered == w.answered + [ask]
            && named.answered == cancelled.answered && named.record == Some(w.record.value.(runId := runId))
  {
    var read := Next(w, ReadToName(p, runId));
    assert PcOf(read, p) == Naming(runId, w.record.value) && PcOf(read, q).Idle?;
  }

  // ---- A request alone ----

  /** A registration is granted on any record; a transition exactly when it moves the cause on record forward. */
  predicate Granted(w: World, request: Request) {
    && w.record.Some?
    && match request
       case Register(_) => true
       case Transition(from, to) =>
         w.record.value.cause == from && ((from == NoCause && to != NoCause) || (from == CancelRequested && to == CancelEscalated))
  }

  /**
   * With the lock free a request is answered if and only if it is granted, and then the record has the new cause or the worker
   * at the end of its list, and everything else as before; a refused one leaves record and lock as they were.
   */
  lemma AskedAlone(w: World, p: Pid, request: Request)
    requires w.lock.None? && PcOf(w, p).Idle?
    ensures Enabled(w, Ask(p, request))
    ensures var asked := Next(w, Ask(p, request));
            && (Granted(w, request) ==> Enabled(asked, ReadRecord(p)) && Enabled(Next(asked, ReadRecord(p)), WriteRecord(p)))
            && (!Granted(w, request) ==>
                  (asked == w || (Enabled(asked, ReadRecord(p)) && Next(asked, ReadRecord(p)) == At(w, p, Idle))))
    ensures Granted(w, request) ==>
              var written := Next(Next(Next(w, Ask(p, request)), ReadRecord(p)), WriteRecord(p));
              && Enabled(written, Unlock(p))
              && var after := Next(written, Unlock(p));
                 && after.lock.None? && PcOf(after, p).Idle? && after.answered == w.answered + [request]
                 && after.record == Some(match request
                                         case Register(worker) => w.record.value.(workers := w.record.value.workers + [worker])
                                         case Transition(_, to) => w.record.value.(cause := to))
  {
    var asked := Next(w, Ask(p, request));
    if Granted(w, request) {
      assert PcOf(asked, p) == Locked(request);
      assert PcOf(Next(asked, ReadRecord(p)), p) == Read(request, w.record.value);
    } else if asked != w {
      assert PcOf(asked, p) == Locked(request);
      assert Next(asked, ReadRecord(p)) == At(w, p, Idle);
    }
  }

  /** Nobody stands between reading the record and writing it back. */
  predicate NobodyReading(w: World) {
    forall q <- w.procs :: !w.procs[q].Read?
  }

  ghost predicate NameStays(w: World, runId: string) {
    forall steps: seq<Step> :: Possible(w, steps) && Arbitrated(steps) ==>
      Run(w, steps).record.Some? && Run(w, steps).record.value.runId == runId
  }

  /**
   * The other way round, a request that was read before the name was written publishes the record without it. The name
   * stays on record, whatever arbitrated steps follow, if and only if nobody was between a read and a write.
   */
  lemma NameStaysUnlessRead(w: World, p: Pid)
    requires Inv(w) && Enabled(w, WriteName(p)) && w.record.Some? && w.record.value.runId != PcOf(w, p).runId
    ensures NameStays(Next(w, WriteName(p)), PcOf(w, p).runId) <==> NobodyReading(w)
  {
    var runId, named := PcOf(w, p).runId, Next(w, WriteName(p));
    if NobodyReading(w) {
      UnreadKeepsInv(w, p);
      forall steps: seq<Step> | Possible(named, steps) && Arbitrated(steps)
        ensures Run(named, steps).record.Some? && Run(named, steps).record.value.runId == runId
      {
        RecordOnlyGrows(named, steps);
        ReplayedMeans(named.record.value, Since(named, Run(named, steps)));
        hide Run, Possible, Inv, Arbitrated;
      }
    } else {
      var q :| q in w.procs && w.procs[q].Read?;
      assert Fair(w, w.procs[q]);
      assert PcOf(named, q) == w.procs[q];
      var steps := [WriteRecord(q)];
      assert steps[..0] == [];
      assert Possible(named, []) && Run(named, []) == named;
      assert Possible(named, steps) && Arbitrated(steps);
      assert Run(named, steps).record.value.runId == w.record.value.runId;
    }
  }

  lemma UnreadKeepsInv(w: World, p: Pid)
    requires Inv(w) && Enabled(w, WriteName(p)) && NobodyReading(w)
    ensures Inv(Next(w, WriteName(p)))
  {}

  ghost predicate AbsentForGood(w: World) {
    forall steps: seq<Step> :: Possible(w, steps) && Arbitrated(steps) ==> Run(w, steps).record.None?
  }

  /**
   * Finalization removes the record without the lock. It stays away, whatever arbitrated steps follow, if and only if
   * nobody was between a read and a write; otherwise the write publishes the record of a finished run again.
   */
  lemma AbsenceStaysUnlessRead(w: World, p: Pid)
    requires Inv(w) && Enabled(w, Clear(p))
    ensures AbsentForGood(Next(w, Clear(p))) <==> NobodyReading(w)
  {
    var cleared := Next(w, Clear(p));
    if NobodyReading(w) {
      assert Inv(cleared);
      forall steps: seq<Step> | Possible(cleared, steps) && Arbitrated(steps) ensures Run(cleared, steps).record.None? {
        RecordOnlyGrows(cleared, steps);
        hide Run, Possible, Inv, Arbitrated;
      }
    } else {
      var q :| q in w.procs && w.procs[q].Read?;
      var steps := [WriteRecord(q)];
      assert steps[..0] == [];
      assert Possible(cleared, []) && Run(cleared, []) == cleared;
      assert Possible(cleared, steps) && Arbitrated(steps);
      assert Run(cleared, steps).record.Some?;
    }
  }
}
