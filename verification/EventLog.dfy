/**
 * events.ts: the event store. One store writes a run's log at a time.
 */
module EventLog {
  import opened Wrappers
  import opened LogFile

  type EventFile = Log<Event>

  type State = Loaded<Event>

  const EMPTY: State := Loaded([], None, None)

  function HeadOf(events: seq<Event>): Option<Digest> {
    if events == [] then None else Some(OfEvent(events[|events| - 1]))
  }

  // ---- load ----

  function Accept(st: State, e: Event): State {
    Admit(st, e, e.chain, HeadOf(st.records))
  }

  function LoadLines(st: State, lines: seq<Line<Event>>): State {
    ReadLines(st, lines, Accept)
  }

  function Load(st: State, file: EventFile): State {
    ReadFile(st, file, Accept)
  }

  predicate Loads(file: EventFile) {
    Load(EMPTY, file).error.None?
  }

  // ---- append ----

  /** What a caller, the random source and the clock supply. */
  datatype Draft = Draft(id: string, kind: string, runId: string, timestamp: string, payload: string)

  function Minted(st: State, draft: Draft): Event {
    var chain :=
      if st.status == Some(Legacy) then None
      else if st.records == [] then Some(Genesis)
      else Some(OfEvent(st.records[|st.records| - 1]));
    Event(|st.records| + 1, draft.id, draft.kind, draft.runId, draft.timestamp, draft.payload, chain)
  }

  class EventStore {
    const disk: Disk<Event>
    var events: seq<Event>
    var chainState: Option<ChainStatus>

    constructor (disk: Disk<Event>)
      ensures this.disk == disk && Held() == EMPTY
    {
      this.disk := disk;
      this.events, this.chainState := [], None;
    }

    ghost function Held(): State
      reads this
    {
      Loaded(events, chainState, None)
    }

    /** Fail-closed replay; on an error the events read so far stay. */
    method LoadFile() returns (error: Option<LoadError>)
      modifies this
      ensures var st := Load(old(Held()), disk.file);
              error == st.error && events == st.records && chainState == st.status
    {
      var st := ReadThrough(Loaded(events, chainState, None), disk.file, Accept);
      events, chainState := st.records, st.status;
      return st.error;
    }

    /** Unlike the evidence store, it leaves the chain kind as it was and does not look at the file. */
    method Append(draft: Draft) returns (event: Event)
      modifies this, disk
      ensures event.seqNo == |old(events)| + 1 && event.id == draft.id && event.kind == draft.kind && event.runId == draft.runId
      ensures event.timestamp == draft.timestamp && event.payload == draft.payload
      ensures event.chain == if old(chainState) == Some(Legacy) then None
                             else if old(events) == [] then Some(Genesis)
                             else Some(OfEvent(old(events)[|old(events)| - 1]))
      ensures event == Minted(old(Held()), draft)
      ensures events == old(events) + [event] && chainState == old(chainState)
      ensures disk.file == Appended(old(disk.file), event)
    {
      event := Minted(Loaded(events, chainState, None), draft);
      events := events + [event];
      disk.file := Appended(disk.file, event);
    }

    method ChainHead() returns (head: Option<Digest>)
      ensures head == HeadOf(events)
    {
      if events == [] {
        return None;
      }
      return Some(OfEvent(events[|events| - 1]));
    }
  }

  // ---- Reloading gives back what the store holds ----

  datatype Session = Session(store: State, file: EventFile)

  /** Appends through one store. */
  function Run(s: Session, drafts: seq<Draft>): Session {
    if drafts == [] then s
    else
      var before := Run(s, drafts[..|drafts| - 1]);
      var event := Minted(before.store, drafts[|drafts| - 1]);
      Session(before.store.(records := before.store.records + [event]), Appended(before.file, event))
  }

  /** The file reloads to the store's events; a fresh store's kind is unset although the file is already chained. */
  predicate InStep(s: Session) {
    && s.file.tail.Blank? && s.store.error.None? && Loads(s.file)
    && Load(EMPTY, s.file).records == s.store.records
    && (s.store.status == Some(Legacy) <==> Load(EMPTY, s.file).status == Some(Legacy))
  }

  lemma LoadedShape(lines: seq<Line<Event>>)
    requires LoadLines(EMPTY, lines).error.None?
    ensures var st := LoadLines(EMPTY, lines); st.records == [] <==> st.status.None?
  {
    if lines != [] {
      LoadedShape(lines[..|lines| - 1]);
    }
  }

  lemma AppendStaysInStep(s: Session, draft: Draft)
    requires InStep(s)
    ensures var event := Minted(s.store, draft);
            InStep(Session(s.store.(records := s.store.records + [event]), Appended(s.file, event)))
  {
    LoadedShape(s.file.lines);
    var event := Minted(s.store, draft);
    assert (s.file.lines + [Record(event)])[..|s.file.lines|] == s.file.lines;
  }

  lemma {:induction false} RunStaysInStep(s: Session, drafts: seq<Draft>)
    requires InStep(s)
    ensures InStep(Run(s, drafts))
  {
    if drafts != [] {
      hide InStep, Minted;
      RunStaysInStep(s, drafts[..|drafts| - 1]);
      AppendStaysInStep(Run(s, drafts[..|drafts| - 1]), drafts[|drafts| - 1]);
    }
  }

  lemma {:induction false} LinesOnlyGrow(s: Session, drafts: seq<Draft>)
    ensures s.file.lines <= Run(s, drafts).file.lines
    ensures drafts != [] && !s.file.tail.Blank? ==>
              |s.file.lines| < |Run(s, drafts).file.lines| && Run(s, drafts).file.lines[|s.file.lines|].Broken?
  {
    if drafts != [] {
      LinesOnlyGrow(s, drafts[..|drafts| - 1]);
    }
  }

  /**
   * A process loads the log and appends to it. A later process reads exactly the events the first one held, if and
   * only if the log ended in a newline (or nothing but white space) when it was loaded.
   */
  lemma ReloadRoundTrip(file: EventFile, drafts: seq<Draft>)
    requires Loads(file) && drafts != []
    ensures var after := Run(Session(Load(EMPTY, file), file), drafts);
            (Loads(after.file) && Load(EMPTY, after.file).records == after.store.records) <==> file.tail.Blank?
  {
    var s := Session(Load(EMPTY, file), file);
    if file.tail.Blank? {
      RunStaysInStep(s, drafts);
    } else {
      LinesOnlyGrow(s, drafts);
      BrokenLineFails(EMPTY, Run(s, drafts).file.lines, |file.lines|, Accept);
    }
  }

  /** The same for a run's first process, whose log starts empty. */
  lemma {:induction false} FreshLogReloads(drafts: seq<Draft>)
    ensures var after := Run(Session(EMPTY, Log([], Blank)), drafts);
            && Loads(after.file) && Load(EMPTY, after.file).records == after.store.records
            && (drafts != [] ==> Load(EMPTY, after.file).status == Some(Chained))
  {
    var s := Session(EMPTY, Log([], Blank));
    RunStaysInStep(s, drafts);
    var after := Run(s, drafts);
    KindStays(s, drafts);
    LoadedShape(after.file.lines);
  }

  lemma {:induction false} KindStays(s: Session, drafts: seq<Draft>)
    ensures Run(s, drafts).store.status == s.store.status
    ensures |Run(s, drafts).store.records| == |s.store.records| + |drafts|
    ensures s.store.records <= Run(s, drafts).store.records
  {
    if drafts != [] {
      hide Minted;
      KindStays(s, drafts[..|drafts| - 1]);
    }
  }

  // ---- Tampering ----

  /** The first event points at genesis, every other one at the event before it. */
  predicate WellChained(events: seq<Event>) {
    events == []
    || (var init := events[..|events| - 1];
        WellChained(init) && events[|events| - 1].chain == Some(if init == [] then Genesis else OfEvent(init[|init| - 1])))
  }

  predicate Unchained(events: seq<Event>) {
    forall e <- events :: e.chain.None?
  }

  lemma {:induction false} LinesAreChained(lines: seq<Line<Event>>)
    requires LoadLines(EMPTY, lines).error.None?
    ensures var st := LoadLines(EMPTY, lines);
            && (st.records == [] <==> st.status.None?)
            && if st.status == Some(Chained) then WellChained(st.records) else Unchained(st.records)
  {
    if lines != [] {
      var init, last := lines[..|lines| - 1], lines[|lines| - 1];
      LinesAreChained(init);
      ReadIsChained(LoadLines(EMPTY, init), last, false);
    }
  }

  lemma ReadIsChained(st: State, line: Line<Event>, tornTail: bool)
    requires (st.records == [] <==> st.status.None?) && st.error.None?
    requires if st.status == Some(Chained) then WellChained(st.records) else Unchained(st.records)
    ensures var now := ReadLine(st, line, tornTail, Accept);
            now.error.None? ==>
              && (now.records == [] <==> now.status.None?)
              && if now.status == Some(Chained) then WellChained(now.records) else Unchained(now.records)
  {
    var now := ReadLine(st, line, tornTail, Accept);
    if now.error.None? && line.Record? {
      assert now.records[..|now.records| - 1] == st.records;
      assert st.status == Some(Chained) || st.status == Some(Legacy) || st.status.None? by {
        match st.status { case None => case Some(kind) => match kind { case Chained => case Legacy => } }
      }
    }
  }

  lemma LoadedIsChained(file: EventFile)
    requires Loads(file)
    ensures var st := Load(EMPTY, file);
            && (st.records == [] <==> st.status.None?)
            && if st.status == Some(Chained) then WellChained(st.records) else Unchained(st.records)
  {
    LinesAreChained(file.lines);
    ReadIsChained(LoadLines(EMPTY, file.lines), file.tail, true);
  }

  // ---- Which files load, and what stops the others ----

  predicate OneKind(events: seq<Event>) {
    WellChained(events) || Unchained(events)
  }

  function KindOf(events: seq<Event>): Option<ChainStatus> {
    if events == [] then None else if WellChained(events) then Some(Chained) else Some(Legacy)
  }

  lemma OneKindSnoc(events: seq<Event>, e: Event)
    ensures WellChained(events + [e]) <==>
              WellChained(events) && e.chain == Some(if events == [] then Genesis else OfEvent(events[|events| - 1]))
    ensures Unchained(events + [e]) <==> Unchained(events) && e.chain.None?
    ensures events != [] ==> !(WellChained(events) && Unchained(events))
  {
    var all := events + [e];
    assert all[..|events|] == events && all[|events|] == e;
    assert forall x <- events :: x in all;
    if events != [] {
      assert events[|events| - 1] in events;
    }
  }

  /** One more line: a blank one changes nothing, and a record is taken exactly if it goes on with the chain, or with none. */
  lemma ReadMeans(st: State, line: Line<Event>, tornTail: bool)
    requires st.error.None? && OneKind(st.records) && st.status == KindOf(st.records)
    ensures var now := ReadLine(st, line, tornTail, Accept);
            match line
            case Blank => now == st
            case Broken => now == if tornTail then st else st.(error := Some(CorruptLine))
            case Record(e) =>
              if OneKind(st.records + [e]) then now == Loaded(st.records + [e], KindOf(st.records + [e]), None)
              else
                && now.records == st.records
                && now.error == Some(if st.records == [] then MissingGenesis
                                     else if WellChained(st.records) && e.chain.Some? then ChainBreak
                                     else MixedChain)
  {
    if line.Record? {
      OneKindSnoc(st.records, line.value);
      hide WellChained, Unchained;
    }
  }

  lemma {:induction false} LinesMean(lines: seq<Line<Event>>)
    ensures LoadLines(EMPTY, lines).error.None? <==> NoneBroken(lines) && OneKind(Values(lines))
    ensures LoadLines(EMPTY, lines).error.None? ==> LoadLines(EMPTY, lines) == Loaded(Values(lines), KindOf(Values(lines)), None)
  {
    hide WellChained, Unchained, NoneBroken;
    if lines == [] {
      NoLines();
    } else {
      var init, last := lines[..|lines| - 1], lines[|lines| - 1];
      LinesMean(init);
      assert lines == init + [last];
      BrokenSnoc(init, last);
      ValuesSnoc(init, last);
      LineMeans(init, last);
    }
  }

  lemma NoLines()
    ensures NoneBroken<Event>([]) && OneKind([]) && KindOf([]).None?
  {}

  lemma LineMeans(init: seq<Line<Event>>, last: Line<Event>)
    requires LoadLines(EMPTY, init).error.None? <==> NoneBroken(init) && OneKind(Values(init))
    requires LoadLines(EMPTY, init).error.None? ==> LoadLines(EMPTY, init) == Loaded(Values(init), KindOf(Values(init)), None)
    ensures var now := ReadLine(LoadLines(EMPTY, init), last, false, Accept);
            LoadLines(EMPTY, init).error.None? ==>
              && (now.error.None? <==> !last.Broken? && (last.Record? ==> OneKind(Values(init) + [last.value])))
              && (now.error.None? && last.Record? ==>
                    now == Loaded(Values(init) + [last.value], KindOf(Values(init) + [last.value]), None))
              && (last.Blank? ==> now == LoadLines(EMPTY, init))
    ensures last.Record? && OneKind(Values(init) + [last.value]) ==> OneKind(Values(init))
  {
    if last.Record? {
      OneKindSnoc(Values(init), last.value);
    }
    hide WellChained, Unchained, NoneBroken, KindOf, LoadLines;
    if LoadLines(EMPTY, init).error.None? {
      ReadMeans(LoadLines(EMPTY, init), last, false);
    }
  }

  /**
   * A log loads if and only if no newline-terminated line is broken and its records, the unterminated last one included, are
   * chained from genesis on or unchained throughout; and then exactly these records are read.
   */
  lemma LoadMeans(file: EventFile)
    ensures var events := Values(file.lines + [file.tail]);
            && (Loads(file) <==> NoneBroken(file.lines) && OneKind(events))
            && (Loads(file) ==> Load(EMPTY, file) == Loaded(events, KindOf(events), None))
  {
    LinesMean(file.lines);
    ValuesSnoc(file.lines, file.tail);
    if file.tail.Record? {
      OneKindSnoc(Values(file.lines), file.tail.value);
    }
    if LoadLines(EMPTY, file.lines).error.None? {
      hide WellChained, Unchained, KindOf, NoneBroken;
      ReadMeans(LoadLines(EMPTY, file.lines), file.tail, true);
    }
  }

  /** The first line that does not go on says why the load stops, and nothing after it is read. */
  lemma FaultMeans(lines: seq<Line<Event>>, i: nat)
    requires i < |lines| && NoneBroken(lines[..i]) && OneKind(Values(lines[..i]))
    requires !(NoneBroken(lines[..i + 1]) && OneKind(Values(lines[..i + 1])))
    ensures !lines[i].Blank?
    ensures var st, before := LoadLines(EMPTY, lines), Values(lines[..i]);
            && st.records == before
            && st.error == Some(if lines[i].Broken? then CorruptLine
                                else if before == [] then MissingGenesis
                                else if WellChained(before) && lines[i].value.chain.Some? then ChainBreak
                                else MixedChain)
  {
    hide WellChained, Unchained, KindOf, NoneBroken, ReadLines, ReadLine, Values;
    LinesMean(lines[..i]);
    ReadStep(EMPTY, lines, i, Accept);
    assert lines[..i + 1] == lines[..i] + [lines[i]];
    BrokenSnoc(lines[..i], lines[i]);
    ValuesSnoc(lines[..i], lines[i]);
    ReadMeans(LoadLines(EMPTY, lines[..i]), lines[i], false);
    ErrorStays(EMPTY, lines, i + 1, Accept);
  }

  /** Two chained logs whose heads have the same digest are the same, event by event. */
  lemma {:induction false} SameHeadSameEvents(xs: seq<Event>, ys: seq<Event>)
    requires WellChained(xs) && WellChained(ys) && HeadOf(xs) == HeadOf(ys)
    ensures xs == ys
  {
    if xs != [] {
      var a, b := xs[..|xs| - 1], ys[..|ys| - 1];
      assert xs == a + [xs[|xs| - 1]] && ys == b + [ys[|ys| - 1]];
      if a != [] && b != [] {
        SameHeadSameEvents(a, b);
      }
    }
  }

  lemma {:induction false} PrefixIsChained(events: seq<Event>, n: nat)
    requires WellChained(events) && n <= |events|
    ensures WellChained(events[..n])
  {
    if n < |events| {
      assert events[..|events| - 1][..n] == events[..n];
      PrefixIsChained(events[..|events| - 1], n);
    } else {
      assert events[..n] == events;
    }
  }
}
