/**
 * harness.ts and store.ts: a provider whose model is an external agent. The provider polls a file store for the answer
 * to one request; agents answer it, and a cancellation may retire it, while the provider sleeps.
 */
module Harness {
  import opened Wrappers

  type Value = string

  const POLL_INTERVAL: nat := 1000
  const MAX_REQUEUE_REFRESHES: nat := 5

  // ---- The store, for one request ----

  /** The pending file: its stamped deadline, and whether it carries a lastError. */
  datatype Request = Request(expiresAt: nat, lastError: bool)

  datatype Store = Store(pending: Option<Request>, answered: Option<Value>)

  datatype Admission = Admitted | UnknownRequest | WindowElapsed | AlreadyAnswered

  /** The guards of `answer`. */
  function Guard(st: Store, now: nat): Admission {
    if st.pending.None? then UnknownRequest
    else if st.pending.value.expiresAt <= now then WindowElapsed
    else if st.answered.Some? && !st.pending.value.lastError then AlreadyAnswered
    else Admitted
  }

  function Submitted(st: Store, value: Value, now: nat): Store {
    if Guard(st, now).Admitted? then st.(answered := Some(value)) else st
  }

  /** requeueWithFeedback: the answer file stays where it is. */
  function Requeued(st: Store, deadline: Option<nat>): Store {
    if st.pending.None? then st
    else st.(pending := Some(Request(if deadline.Some? then deadline.value else st.pending.value.expiresAt, true)))
  }

  class HarnessStore {
    var pending: Option<Request>
    var answered: Option<Value>

    constructor ()
      ensures State() == Store(None, None)
    {
      pending, answered := None, None;
    }

    ghost function State(): Store
      reads this
    {
      Store(pending, answered)
    }

    method PutRequest(request: Request)
      modifies this
      ensures State() == old(State()).(pending := Some(request))
    {
      pending := Some(request);
    }

    method Answer(value: Value, now: nat) returns (admission: Admission)
      modifies this
      ensures admission == UnknownRequest <==> old(pending).None?
      ensures admission == WindowElapsed <==> old(pending).Some? && old(pending).value.expiresAt <= now
      ensures admission == AlreadyAnswered <==>
                old(pending).Some? && now < old(pending).value.expiresAt && old(answered).Some? && !old(pending).value.lastError
      ensures pending == old(pending) && answered == if admission == Admitted then Some(value) else old(answered)
      ensures admission == Guard(old(State()), now) && State() == Submitted(old(State()), value, now)
    {
      if pending.None? {
        return UnknownRequest;
      }
      if pending.value.expiresAt <= now {
        return WindowElapsed;
      }
      if answered.Some? && !pending.value.lastError {
        return AlreadyAnswered;
      }
      answered := Some(value);
      return Admitted;
    }

    method RequeueWithFeedback(now: nat, refreshWindow: Option<nat>)
      modifies this
      ensures answered == old(answered) && (pending.Some? <==> old(pending).Some?)
      ensures pending.Some? ==> pending.value.lastError
      ensures pending.Some? ==>
                pending.value.expiresAt == if refreshWindow.Some? then now + refreshWindow.value else old(pending).value.expiresAt
      ensures State() == Requeued(old(State()), if refreshWindow.Some? then Some(now + refreshWindow.value) else None)
    {
      if pending.None? {
        return;
      }
      var request := pending.value.(lastError := true);
      if refreshWindow.Some? {
        request := request.(expiresAt := now + refreshWindow.value);
      }
      pending := Some(request);
    }

    /** clearPending, expirePending and expireForRun, as far as this request's pending file goes. */
    method Remove()
      modifies this
      ensures State() == old(State()).(pending := None)
    {
      pending := None;
    }
  }

  // ---- What happens during a sleep ----

  /** At an offset from the start of the sleep, an agent submits a value or a cancellation retires the request. */
  datatype Arrival = Submit(offset: nat, value: Value) | Retire(offset: nat)

  datatype Happening = Took(value: Value) | Examined(value: Value)

  /** The loop's variables, the store, and (for the proof) the answers admitted and examined so far. */
  datatype Loop = Loop(now: nat, windowStart: nat, invalidAnswers: nat, store: Store, history: seq<Happening>)

  function Arrived(l: Loop, start: nat, a: Arrival): Loop {
    match a
    case Submit(offset, value) =>
      l.(store := Submitted(l.store, value, start + offset),
         history := if Guard(l.store, start + offset).Admitted? then l.history + [Took(value)] else l.history)
    case Retire(_) => l.(store := l.store.(pending := None))
  }

  function AllArrived(l: Loop, start: nat, arrivals: seq<Arrival>): (out: Loop)
    ensures out.now == l.now && out.windowStart == l.windowStart && out.invalidAnswers == l.invalidAnswers
  {
    if arrivals == [] then l else Arrived(AllArrived(l, start, arrivals[..|arrivals| - 1]), start, arrivals[|arrivals| - 1])
  }

  // ---- What the arrivals of a sleep leave in the store ----

  /** A submission before the deadline of a request that nothing before it retired. */
  predicate InTimeFor(store: Store, start: nat, arrivals: seq<Arrival>, i: nat)
    requires i < |arrivals|
  {
    && arrivals[i].Submit? && store.pending.Some? && start + arrivals[i].offset < store.pending.value.expiresAt
    && forall j :: 0 <= j < i ==> !arrivals[j].Retire?
  }

  lemma {:induction false} PendingAfter(l: Loop, start: nat, arrivals: seq<Arrival>)
    ensures AllArrived(l, start, arrivals).store.pending == if exists a <- arrivals :: a.Retire? then None else l.store.pending
  {
    if arrivals != [] {
      var n := |arrivals| - 1;
      PendingAfter(l, start, arrivals[..n]);
      assert arrivals == arrivals[..n] + [arrivals[n]];
    }
  }

  /** The last arrival: what it does to the answer on file. */
  lemma OneMoreArrival(l: Loop, start: nat, arrivals: seq<Arrival>)
    requires arrivals != []
    ensures var n := |arrivals| - 1;
            var before, after := AllArrived(l, start, arrivals[..n]).store.answered, AllArrived(l, start, arrivals).store.answered;
            if InTimeFor(l.store, start, arrivals, n) && (before.None? || l.store.pending.value.lastError)
            then after == Some(arrivals[n].value) else after == before
  {
    var n := |arrivals| - 1;
    PendingAfter(l, start, arrivals[..n]);
    assert forall j :: 0 <= j < n ==> arrivals[..n][j] == arrivals[j];
    assert AllArrived(l, start, arrivals) == Arrived(AllArrived(l, start, arrivals[..n]), start, arrivals[n]);
    if a :| a in arrivals[..n] && a.Retire? {
      var j :| 0 <= j < n && arrivals[j] == a;
    }
    hide AllArrived;
  }

  predicate NoneInTime(store: Store, start: nat, arrivals: seq<Arrival>, from: nat, to: nat) {
    forall i :: from <= i < to && i < |arrivals| ==> !InTimeFor(store, start, arrivals, i)
  }

  lemma InTimeBefore(store: Store, start: nat, arrivals: seq<Arrival>, from: nat, to: nat)
    requires arrivals != []
    ensures forall i :: 0 <= i < |arrivals| - 1 && InTimeFor(store, start, arrivals, i) ==>
              InTimeFor(store, start, arrivals[..|arrivals| - 1], i)
    ensures NoneInTime(store, start, arrivals, from, to) ==> NoneInTime(store, start, arrivals[..|arrivals| - 1], from, to)
  {
    var n := |arrivals| - 1;
    assert forall i :: 0 <= i < n ==> (InTimeFor(store, start, arrivals[..n], i) <==> InTimeFor(store, start, arrivals, i));
  }

  lemma {:induction false} NoneTaken(l: Loop, start: nat, arrivals: seq<Arrival>)
    requires NoneInTime(l.store, start, arrivals, 0, |arrivals|)
          || (l.store.answered.Some? && l.store.pending.Some? && !l.store.pending.value.lastError)
    ensures AllArrived(l, start, arrivals).store.answered == l.store.answered
  {
    if arrivals != [] {
      OneMoreArrival(l, start, arrivals);
      InTimeBefore(l.store, start, arrivals, 0, |arrivals|);
      hide InTimeFor;
      NoneTaken(l, start, arrivals[..|arrivals| - 1]);
    }
  }

  lemma {:induction false} FirstTaken(l: Loop, start: nat, arrivals: seq<Arrival>, i: nat)
    requires l.store.answered.None? && i < |arrivals| && InTimeFor(l.store, start, arrivals, i) && !l.store.pending.value.lastError
    requires NoneInTime(l.store, start, arrivals, 0, i)
    ensures AllArrived(l, start, arrivals).store.answered == Some(arrivals[i].value)
    decreases |arrivals|
  {
    var n := |arrivals| - 1;
    OneMoreArrival(l, start, arrivals);
    InTimeBefore(l.store, start, arrivals, 0, i);
    hide InTimeFor;
    if i < n {
      FirstTaken(l, start, arrivals[..n], i);
    } else {
      NoneTaken(l, start, arrivals[..n]);
    }
  }

  lemma {:induction false} LastTaken(l: Loop, start: nat, arrivals: seq<Arrival>, i: nat)
    requires i < |arrivals| && InTimeFor(l.store, start, arrivals, i) && l.store.pending.value.lastError
    requires NoneInTime(l.store, start, arrivals, i + 1, |arrivals|)
    ensures AllArrived(l, start, arrivals).store.answered == Some(arrivals[i].value)
    decreases |arrivals|
  {
    var n := |arrivals| - 1;
    OneMoreArrival(l, start, arrivals);
    InTimeBefore(l.store, start, arrivals, i + 1, |arrivals|);
    hide InTimeFor;
    if i < n {
      assert !InTimeFor(l.store, start, arrivals, n);
      LastTaken(l, start, arrivals[..n], i);
    }
  }

  /**
   * The answer on file after a sleep. Unless a rejection invited a retry it is never replaced: the one that was there stays,
   * and where there was none the first submission in time is the answer. After a rejection the last one in time is. A
   * submission that comes late, or after the request was retired, changes nothing.
   */
  lemma AnswersMean(l: Loop, start: nat, arrivals: seq<Arrival>)
    ensures var answered, last := AllArrived(l, start, arrivals).store.answered, |arrivals|;
            && (NoneInTime(l.store, start, arrivals, 0, last) ==> answered == l.store.answered)
            && (l.store.pending.Some? && !l.store.pending.value.lastError && l.store.answered.Some? ==> answered == l.store.answered)
            && forall i :: 0 <= i < last && InTimeFor(l.store, start, arrivals, i) ==>
                 if l.store.pending.value.lastError then
                   NoneInTime(l.store, start, arrivals, i + 1, last) ==> answered == Some(arrivals[i].value)
                 else l.store.answered.None? && NoneInTime(l.store, start, arrivals, 0, i) ==> answered == Some(arrivals[i].value)
    ensures AllArrived(l, start, arrivals).store.pending == if exists a <- arrivals :: a.Retire? then None else l.store.pending
  {
    PendingAfter(l, start, arrivals);
    if NoneInTime(l.store, start, arrivals, 0, |arrivals|)
       || (l.store.answered.Some? && l.store.pending.Some? && !l.store.pending.value.lastError) {
      NoneTaken(l, start, arrivals);
    }
    forall i | 0 <= i < |arrivals| && InTimeFor(l.store, start, arrivals, i)
      ensures var answered := AllArrived(l, start, arrivals).store.answered;
              if l.store.pending.value.lastError then
                NoneInTime(l.store, start, arrivals, i + 1, |arrivals|) ==> answered == Some(arrivals[i].value)
              else l.store.answered.None? && NoneInTime(l.store, start, arrivals, 0, i) ==> answered == Some(arrivals[i].value)
    {
      if l.store.pending.value.lastError {
        if NoneInTime(l.store, start, arrivals, i + 1, |arrivals|) {
          LastTaken(l, start, arrivals, i);
        }
      } else if l.store.answered.None? && NoneInTime(l.store, start, arrivals, 0, i) {
        FirstTaken(l, start, arrivals, i);
      }
    }
  }

  // ---- One poll, and the loop ----

  datatype Outcome = Waiting | Accepted(value: Value) | Retired | TimedOut

  function Slept(l: Loop, arrivals: seq<Arrival>): Loop {
    AllArrived(l, l.now, arrivals).(now := l.now + POLL_INTERVAL)
  }

  /** An invalid answer keeps the request pending; the first five polls that find one refresh the window. */
  function Rejected(l: Loop, window: nat): Loop {
    var refresh := l.invalidAnswers + 1 <= MAX_REQUEUE_REFRESHES;
    l.(store := Requeued(l.store, if refresh then Some(l.now + window) else None),
       invalidAnswers := l.invalidAnswers + 1,
       windowStart := if refresh then l.now else l.windowStart)
  }

  function Poll(l: Loop, arrivals: seq<Arrival>, valid: Value -> bool, window: nat): (Outcome, Loop) {
    var slept := Slept(l, arrivals);
    if slept.store.answered.None? then (if slept.store.pending.None? then Retired else Waiting, slept)
    else
      var value := slept.store.answered.value;
      var seen := slept.(history := slept.history + [Examined(value)]);
      if valid(value) then (Accepted(value), seen.(store := seen.store.(pending := None)))
      else (Waiting, Rejected(seen, window))
  }

  function Refreshes(l: Loop): nat {
    if l.invalidAnswers <= MAX_REQUEUE_REFRESHES then MAX_REQUEUE_REFRESHES - l.invalidAnswers else 0
  }

  /** The loop from its n-th poll on; it ends because refreshes run out and, between them, the clock reaches the window. */
  function Awaited(l: Loop, n: nat, arrivals: nat -> seq<Arrival>, valid: Value -> bool, window: nat): (Outcome, Loop)
    decreases Refreshes(l), l.windowStart + window - l.now
  {
    if l.now >= l.windowStart + window then (TimedOut, l.(store := l.store.(pending := None)))
    else
      var (outcome, next) := Poll(l, arrivals(n), valid, window);
      if outcome.Waiting? then Awaited(next, n + 1, arrivals, valid, window) else (outcome, next)
  }

  function Dispatched(now: nat, window: nat, previousRejection: bool): Loop {
    Loop(now, now, 0, Store(Some(Request(now + window, previousRejection)), None), [])
  }

  method Sleep(store: HarnessStore, start: nat, arrivals: seq<Arrival>, ghost l: Loop)
    requires l.store == store.State()
    modifies store
    ensures store.State() == AllArrived(l, start, arrivals).store
  {
    ghost var now := l;
    assert arrivals[..0] == [];
    for i := 0 to |arrivals|
      invariant now == AllArrived(l, start, arrivals[..i]) && store.State() == now.store
    {
      assert arrivals[..i + 1][..i] == arrivals[..i];
      match arrivals[i] {
        case Submit(offset, value) => var _ := store.Answer(value, start + offset);
        case Retire(_) => store.Remove();
      }
      now := Arrived(now, start, arrivals[i]);
    }
    assert arrivals[..|arrivals|] == arrivals;
  }

  /** generateStructured, from the dispatch of the request on. The sleep is the only thing that moves the clock. */
  method GenerateStructured(store: HarnessStore, start: nat, window: nat, previousRejection: bool,
                            arrivals: nat -> seq<Arrival>, valid: Value -> bool) returns (outcome: Outcome)
    requires store.answered == None
    modifies store
    ensures var (o, l) := Awaited(Dispatched(start, window, previousRejection), 0, arrivals, valid, window);
            outcome == o && store.State() == l.store
  {
    hide AllArrived;
    var now, windowStart, invalidAnswers := start, start, 0;
    store.PutRequest(Request(start + window, previousRejection));
    ghost var l := Dispatched(start, window, previousRejection);
    var n := 0;
    while now < windowStart + window
      invariant l.store == store.State() && l.now == now && l.windowStart == windowStart && l.invalidAnswers == invalidAnswers
      invariant Awaited(l, n, arrivals, valid, window) == Awaited(Dispatched(start, window, previousRejection), 0, arrivals, valid, window)
      decreases Refreshes(l), windowStart + window - now
    {
      Sleep(store, now, arrivals(n), l);
      now := now + POLL_INTERVAL;
      ghost var polled := Poll(l, arrivals(n), valid, window);
      if store.answered.None? {
        if store.pending.None? {
          return Retired;
        }
      } else {
        var value := store.answered.value;
        if valid(value) {
          store.Remove();
          return Accepted(value);
        }
        store.RequeueWithFeedback(now, if invalidAnswers + 1 <= MAX_REQUEUE_REFRESHES then Some(window) else None);
        invalidAnswers := invalidAnswers + 1;
        if invalidAnswers <= MAX_REQUEUE_REFRESHES {
          windowStart := now;
        }
      }
      l := polled.1;
      n := n + 1;
    }
    store.Remove();
    return TimedOut;
  }

  // ---- The loop ends in time ----

  /** How many polls have moved the window. */
  function Moves(l: Loop): nat {
    MAX_REQUEUE_REFRESHES - Refreshes(l)
  }

  /**
   * Until the first invalid answer the window stands where it started. From then on an answer is on file, so every poll
   * charges one: the window moves with each of the first five polls, and never again.
   */
  predicate InTime(l: Loop, start: nat, window: nat) {
    && start <= l.windowStart <= l.now < l.windowStart + window + POLL_INTERVAL
    && (l.invalidAnswers == 0 ==> l.windowStart == start)
    && (l.invalidAnswers > 0 ==> l.store.answered.Some? && l.windowStart < start + window + Moves(l) * POLL_INTERVAL)
    && (0 < l.invalidAnswers < MAX_REQUEUE_REFRESHES ==> l.windowStart == l.now)
  }

  lemma {:induction false} AnswerStays(l: Loop, start: nat, arrivals: seq<Arrival>)
    requires l.store.answered.Some?
    ensures AllArrived(l, start, arrivals).store.answered.Some?
  {
    if arrivals != [] {
      AnswerStays(l, start, arrivals[..|arrivals| - 1]);
    }
  }

  lemma PollInTime(l: Loop, arrivals: seq<Arrival>, valid: Value -> bool, window: nat, start: nat)
    requires InTime(l, start, window) && l.now < l.windowStart + window
    ensures var (outcome, next) := Poll(l, arrivals, valid, window); next.now < start + 2 * window + 6 * POLL_INTERVAL
    ensures var (outcome, next) := Poll(l, arrivals, valid, window); outcome.Waiting? ==> InTime(next, start, window)
  {
    if l.invalidAnswers > 0 {
      AnswerStays(l, l.now, arrivals);
    }
    hide AllArrived;
  }

  lemma {:induction false} AwaitInTime(l: Loop, n: nat, arrivals: nat -> seq<Arrival>, valid: Value -> bool, window: nat, start: nat)
    requires InTime(l, start, window)
    ensures Awaited(l, n, arrivals, valid, window).1.now < start + 2 * window + 6 * POLL_INTERVAL
    decreases Refreshes(l), l.windowStart + window - l.now
  {
    if l.now < l.windowStart + window {
      PollInTime(l, arrivals(n), valid, window, start);
      var (outcome, next) := Poll(l, arrivals(n), valid, window);
      hide Poll, InTime;
      if outcome.Waiting? {
        PollGoesOn(l, arrivals(n), valid, window);
        AwaitInTime(next, n + 1, arrivals, valid, window, start);
      }
    }
  }

  /** The measure of the loop. */
  lemma PollGoesOn(l: Loop, arrivals: seq<Arrival>, valid: Value -> bool, window: nat)
    ensures var next := Poll(l, arrivals, valid, window).1;
            Refreshes(next) < Refreshes(l)
            || (Refreshes(next) == Refreshes(l) && next.windowStart == l.windowStart && next.now == l.now + POLL_INTERVAL)
  {
    hide AllArrived;
  }

  /**
   * Whatever agents and cancellations do, the provider gives up or goes on within two windows and six polls. Five
   * refreshes, each of a whole window, would allow six; but they fall on consecutive polls, from the first invalid answer.
   */
  lemma EndsWithinTwoWindows(start: nat, window: nat, previousRejection: bool, arrivals: nat -> seq<Arrival>, valid: Value -> bool)
    ensures var (outcome, l) := Awaited(Dispatched(start, window, previousRejection), 0, arrivals, valid, window);
            l.now < start + 2 * window + 6 * POLL_INTERVAL && !outcome.Waiting?
  {
    var l := Dispatched(start, window, previousRejection);
    AwaitInTime(l, 0, arrivals, valid, window, start);
    AwaitDecides(l, 0, arrivals, valid, window);
    hide Awaited;
  }

  /**
   * In the end the request is out of the queue, so whatever is submitted later is refused. An accepted answer is the one on
   * file, a retirement is reported without one, and a time-out comes when the window is over and not before.
   */
  lemma {:induction false} AwaitDecides(l: Loop, n: nat, arrivals: nat -> seq<Arrival>, valid: Value -> bool, window: nat)
    ensures var (outcome, last) := Awaited(l, n, arrivals, valid, window); !outcome.Waiting? && last.store.pending.None?
    ensures var (_, last) := Awaited(l, n, arrivals, valid, window); forall now: nat :: Guard(last.store, now) == UnknownRequest
    ensures var (outcome, last) := Awaited(l, n, arrivals, valid, window);
            && (outcome.Accepted? ==> valid(outcome.value) && last.store.answered == Some(outcome.value))
            && (outcome.Retired? ==> last.store.answered.None?)
            && (outcome.TimedOut? ==> last.now >= last.windowStart + window)
    decreases Refreshes(l), l.windowStart + window - l.now
  {
    if l.now < l.windowStart + window {
      PollGoesOn(l, arrivals(n), valid, window);
      var (outcome, next) := Poll(l, arrivals(n), valid, window);
      hide AllArrived;
      if outcome.Waiting? {
        AwaitDecides(next, n + 1, arrivals, valid, window);
      }
    }
  }

  // ---- The stamped deadline is the loop's own ----

  /** While the request is pending, its deadline is the end of the provider's window. */
  predicate Stamped(l: Loop, window: nat) {
    l.store.pending.Some? ==> l.store.pending.value.expiresAt == l.windowStart + window
  }

  lemma {:induction false} ArrivalsKeepStamp(l: Loop, start: nat, arrivals: seq<Arrival>, window: nat)
    requires Stamped(l, window)
    ensures Stamped(AllArrived(l, start, arrivals), window)
  {
    if arrivals != [] {
      ArrivalsKeepStamp(l, start, arrivals[..|arrivals| - 1], window);
    }
  }

  /** So the store admits an answer only while the provider will poll again. */
  lemma PollKeepsStamp(l: Loop, arrivals: seq<Arrival>, valid: Value -> bool, window: nat)
    requires Stamped(l, window)
    ensures Stamped(Poll(l, arrivals, valid, window).1, window)
    ensures l.now >= l.windowStart + window ==> !Guard(l.store, l.now).Admitted?
  {
    ArrivalsKeepStamp(l, l.now, arrivals, window);
    hide AllArrived;
  }

  // ---- No admitted answer is overlooked ----

  /** The answer taken at i was replaced by a later one, or examined. */
  predicate LookedAt(history: seq<Happening>, i: nat)
    requires i < |history| && history[i].Took?
  {
    (exists j :: i < j < |history| && history[j].Took?) || (exists j :: i < j < |history| && history[j] == Examined(history[i].value))
  }

  /** Or it is the one in the answer file. */
  predicate Covered(history: seq<Happening>, answered: Option<Value>) {
    && (forall i :: 0 <= i < |history| && history[i].Took? ==> LookedAt(history, i) || answered == Some(history[i].value))
    && (answered.Some? ==> Took(answered.value) in history)
  }

  predicate AllLookedAt(history: seq<Happening>) {
    forall i :: 0 <= i < |history| && history[i].Took? ==> LookedAt(history, i)
  }

  lemma LookedAtStays(history: seq<Happening>, more: Happening, i: nat)
    requires i < |history| && history[i].Took?
    ensures LookedAt(history, i) || more.Took? || more == Examined(history[i].value) ==> LookedAt(history + [more], i)
  {
    var longer := history + [more];
    assert longer[|history|] == more;
    if j :| i < j < |history| && history[j].Took? {
      assert longer[j].Took?;
    }
    if j :| i < j < |history| && history[j] == Examined(history[i].value) {
      assert longer[j] == Examined(history[i].value);
    }
  }

  lemma TookCovers(history: seq<Happening>, answered: Option<Value>, value: Value)
    requires Covered(history, answered)
    ensures Covered(history + [Took(value)], Some(value))
  {
    hide LookedAt;
    forall i | 0 <= i < |history| && history[i].Took? ensures LookedAt(history + [Took(value)], i) {
      LookedAtStays(history, Took(value), i);
    }
  }

  lemma ExaminedCovers(history: seq<Happening>, value: Value)
    requires Covered(history, Some(value))
    ensures AllLookedAt(history + [Examined(value)]) && Covered(history + [Examined(value)], Some(value))
  {
    hide LookedAt;
    forall i | 0 <= i < |history| && history[i].Took? ensures LookedAt(history + [Examined(value)], i) {
      LookedAtStays(history, Examined(value), i);
    }
  }

  lemma {:induction false} ArrivalsCover(l: Loop, start: nat, arrivals: seq<Arrival>)
    requires Covered(l.history, l.store.answered)
    ensures var out := AllArrived(l, start, arrivals); Covered(out.history, out.store.answered)
  {
    if arrivals != [] {
      hide Covered;
      ArrivalsCover(l, start, arrivals[..|arrivals| - 1]);
      var before, a := AllArrived(l, start, arrivals[..|arrivals| - 1]), arrivals[|arrivals| - 1];
      if a.Submit? {
        TookCovers(before.history, before.store.answered, a.value);
      }
    }
  }

  /** Only values that are not valid have been examined. */
  predicate NoneValid(history: seq<Happening>, valid: Value -> bool) {
    forall h <- history :: h.Examined? ==> !valid(h.value)
  }

  lemma {:induction false} ArrivalsKeepNone(l: Loop, start: nat, arrivals: seq<Arrival>, valid: Value -> bool)
    requires NoneValid(l.history, valid)
    ensures NoneValid(AllArrived(l, start, arrivals).history, valid)
  {
    if arrivals != [] {
      ArrivalsKeepNone(l, start, arrivals[..|arrivals| - 1], valid);
    }
  }

  /** Between polls everything admitted has been looked at, and nothing valid was seen. */
  predicate Caught(l: Loop, valid: Value -> bool) {
    Covered(l.history, l.store.answered) && AllLookedAt(l.history) && NoneValid(l.history, valid)
  }

  lemma PollCatches(l: Loop, arrivals: seq<Arrival>, valid: Value -> bool, window: nat)
    requires Caught(l, valid)
    ensures var (outcome, next) := Poll(l, arrivals, valid, window);
            && AllLookedAt(next.history)
            && (outcome.Accepted? ==> valid(outcome.value) && Took(outcome.value) in next.history)
            && (!outcome.Accepted? ==> Caught(next, valid))
  {
    ArrivalsCover(l, l.now, arrivals);
    ArrivalsKeepNone(l, l.now, arrivals, valid);
    var slept := Slept(l, arrivals);
    if slept.store.answered.Some? {
      ExaminedCovers(slept.history, slept.store.answered.value);
    }
    hide AllArrived, LookedAt;
  }

  lemma {:induction false} AwaitCatches(l: Loop, n: nat, arrivals: nat -> seq<Arrival>, valid: Value -> bool, window: nat)
    requires Caught(l, valid)
    ensures var (outcome, last) := Awaited(l, n, arrivals, valid, window);
            && AllLookedAt(last.history)
            && (outcome.Accepted? ==> valid(outcome.value) && Took(outcome.value) in last.history)
            && (!outcome.Accepted? ==> NoneValid(last.history, valid))
    decreases Refreshes(l), l.windowStart + window - l.now
  {
    if l.now < l.windowStart + window {
      PollCatches(l, arrivals(n), valid, window);
      PollGoesOn(l, arrivals(n), valid, window);
      var (outcome, next) := Poll(l, arrivals(n), valid, window);
      hide Poll, AllLookedAt, Covered, NoneValid;
      if outcome.Waiting? {
        AwaitCatches(next, n + 1, arrivals, valid, window);
      } else if !outcome.Accepted? {
        CaughtMeans(next, valid);
      }
    }
  }

  lemma CaughtMeans(l: Loop, valid: Value -> bool)
    requires Caught(l, valid)
    ensures NoneValid(l.history, valid) && AllLookedAt(l.history)
  {}

  /**
   * An answer the store admits is examined or replaced by a later one it admits; an accepted answer is a valid one that
   * was admitted; and when the provider gives up, every valid answer it missed had been replaced.
   */
  lemma NoAnswerOverlooked(start: nat, window: nat, previousRejection: bool, arrivals: nat -> seq<Arrival>, valid: Value -> bool)
    ensures var (outcome, last) := Awaited(Dispatched(start, window, previousRejection), 0, arrivals, valid, window);
            && AllLookedAt(last.history)
            && (outcome.Accepted? ==> valid(outcome.value) && Took(outcome.value) in last.history)
            && (!outcome.Accepted? ==> forall i :: 0 <= i < |last.history| && last.history[i].Took? && valid(last.history[i].value) ==>
                  exists j :: i < j < |last.history| && last.history[j].Took?)
  {
    var (outcome, last) := Awaited(Dispatched(start, window, previousRejection), 0, arrivals, valid, window);
    AwaitCatches(Dispatched(start, window, previousRejection), 0, arrivals, valid, window);
    hide Awaited;
    forall i | !outcome.Accepted? && 0 <= i < |last.history| && last.history[i].Took? && valid(last.history[i].value)
      ensures exists j :: i < j < |last.history| && last.history[j].Took?
    {
      assert LookedAt(last.history, i);
    }
  }

  // ---- What the store's documentation promises and the code does not do ----

  /** At most k polls from the n-th on: an outcome that ends the loop ends them too. */
  function Polled(l: Loop, n: nat, k: nat, arrivals: nat -> seq<Arrival>, valid: Value -> bool, window: nat): (Outcome, Loop)
    decreases k
  {
    if k == 0 then (Waiting, l)
    else
      var (outcome, next) := Poll(l, arrivals(n), valid, window);
      if outcome.Waiting? then Polled(next, n + 1, k - 1, arrivals, valid, window) else (outcome, next)
  }

  /** With an answer on file a poll accepts, or it charges one invalid answer and leaves an answer on file. */
  lemma PollCharges(l: Loop, arrivals: seq<Arrival>, valid: Value -> bool, window: nat)
    requires l.store.answered.Some?
    ensures var (outcome, next) := Poll(l, arrivals, valid, window);
            && (outcome.Accepted? || outcome.Waiting?) && next.store.answered.Some? && next.now == l.now + POLL_INTERVAL
            && next.invalidAnswers == (if outcome.Accepted? then l.invalidAnswers else l.invalidAnswers + 1)
            && next.windowStart == (if outcome.Waiting? && Refreshes(l) > 0 then next.now else l.windowStart)
            && (outcome.Waiting? && next.store.pending.Some? ==> next.store.pending.value.lastError)
  {
    AnswerStays(l, l.now, arrivals);
    hide AllArrived;
  }

  /** And the answer it charges is the one it charged before, exactly when nothing was admitted during the sleep. */
  lemma {:induction false} ChargedAgain(l: Loop, start: nat, arrivals: seq<Arrival>)
    ensures var out := AllArrived(l, start, arrivals);
            && |out.history| >= |l.history| && out.history[..|l.history|] == l.history
            && (out.history == l.history ==> out.store.answered == l.store.answered)
            && (out.history != l.history ==>
                  out.history[|out.history| - 1].Took? && out.store.answered == Some(out.history[|out.history| - 1].value))
  {
    if arrivals != [] {
      ChargedAgain(l, start, arrivals[..|arrivals| - 1]);
    }
  }

  /**
   * requeueWithFeedback is documented as moving the answer back to pending, and the refreshes as one for each invalid
   * answer. The answer file stays, so the next poll meets it again. Exactly: from the first invalid answer on, whatever is
   * submitted or retired meanwhile, k polls spend k refreshes if and only if none of them accepts an answer.
   */
  lemma {:induction false} EveryPollSpendsARefresh(
      l: Loop, n: nat, k: nat, arrivals: nat -> seq<Arrival>, valid: Value -> bool, window: nat)
    requires l.store.answered.Some? && k <= Refreshes(l)
    ensures var (outcome, last) := Polled(l, n, k, arrivals, valid, window);
            && (Refreshes(last) == Refreshes(l) - k <==> !outcome.Accepted?)
            && (!outcome.Accepted? ==>
                  && outcome.Waiting? && last.store.answered.Some? && last.now == l.now + k * POLL_INTERVAL
                  && last.windowStart == if k == 0 then l.windowStart else last.now)
    ensures Refreshes(Polled(l, n, k, arrivals, valid, window).1) >= Refreshes(l) - k
    decreases k
  {
    if k > 0 {
      PollCharges(l, arrivals(n), valid, window);
      var (outcome, next) := Poll(l, arrivals(n), valid, window);
      hide Poll;
      if outcome.Waiting? {
        EveryPollSpendsARefresh(next, n + 1, k - 1, arrivals, valid, window);
      }
    }
  }

  /** Once they are spent nothing moves the window any more: what is left of it is all the time there is. */
  lemma {:induction false} SpentStaysSpent(
      l: Loop, n: nat, k: nat, arrivals: nat -> seq<Arrival>, valid: Value -> bool, window: nat)
    requires Refreshes(l) == 0
    ensures var (_, last) := Polled(l, n, k, arrivals, valid, window); Refreshes(last) == 0 && last.windowStart == l.windowStart
    decreases k
  {
    if k > 0 {
      var (outcome, next) := Poll(l, arrivals(n), valid, window);
      assert Refreshes(next) == 0 && next.windowStart == l.windowStart by {
        hide AllArrived;
      }
      hide Poll;
      if outcome.Waiting? {
        SpentStaysSpent(next, n + 1, k - 1, arrivals, valid, window);
      }
    }
  }

  lemma {:induction false} NothingAdmittedOnceRetired(l: Loop, start: nat, arrivals: seq<Arrival>)
    requires l.store.pending.None?
    ensures AllArrived(l, start, arrivals).store == l.store
  {
    if arrivals != [] {
      NothingAdmittedOnceRetired(l, start, arrivals[..|arrivals| - 1]);
    }
  }

  /** What becomes of a request that was retired while its window was open: the answer on file alone decides. */
  function AfterRetirement(answered: Option<Value>, valid: Value -> bool): Outcome {
    match answered
    case None => Retired
    case Some(value) => if valid(value) then Accepted(value) else TimedOut
  }

  /**
   * A retired request is to end the wait at once. It does if and only if no answer is on file; with an invalid one there
   * the provider waits on, to a time-out, for an answer the store will refuse.
   */
  lemma {:induction false} RetirementIsNoticed(
      l: Loop, n: nat, arrivals: nat -> seq<Arrival>, valid: Value -> bool, window: nat)
    requires l.store.pending.None? && l.now < l.windowStart + window
    ensures Poll(l, arrivals(n), valid, window).0.Retired? <==> l.store.answered.None?
    ensures Awaited(l, n, arrivals, valid, window).0 == AfterRetirement(l.store.answered, valid)
    decreases Refreshes(l), l.windowStart + window - l.now
  {
    NothingAdmittedOnceRetired(l, l.now, arrivals(n));
    PollGoesOn(l, arrivals(n), valid, window);
    var (outcome, next) := Poll(l, arrivals(n), valid, window);
    hide AllArrived;
    if outcome.Waiting? && next.now < next.windowStart + window {
      RetirementIsNoticed(next, n + 1, arrivals, valid, window);
    }
  }
}
