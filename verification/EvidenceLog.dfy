/**
 * stores.ts: the evidence store, a hash chain that any number of store instances may extend.
 */
module EvidenceLog {
  import opened Wrappers
  import opened LogFile

  type EvidenceFile = Log<Evidence>

  type State = Loaded<Evidence>

  const EMPTY: State := Loaded([], None, None)

  function HeadOf(records: seq<Evidence>): Option<Digest> {
    if records == [] then None else Some(records[|records| - 1].digest)
  }

  function DigestOf(e: Evidence): Digest {
    OfEvidence(e.id, e.body, e.chain)
  }

  // ---- load ----

  function Accept(st: State, e: Evidence): State {
    if DigestOf(e) != e.digest then st.(error := Some(DigestMismatch))
    else Admit(st, e, e.chain, HeadOf(st.records))
  }

  function LoadLines(st: State, lines: seq<Line<Evidence>>): State {
    ReadLines(st, lines, Accept)
  }

  function Load(st: State, file: EvidenceFile): State {
    ReadFile(st, file, Accept)
  }

  predicate Loads(file: EvidenceFile) {
    Load(EMPTY, file).error.None?
  }

  // ---- add ----

  /** A record as its caller drafts it; the store sets the chain and the digest. */
  datatype Draft = Draft(id: EvidenceId, body: string)

  function LastNonBlank(lines: seq<Line<Evidence>>): Line<Evidence> {
    if lines == [] then Blank
    else if lines[|lines| - 1].Blank? then LastNonBlank(lines[..|lines| - 1])
    else lines[|lines| - 1]
  }

  /** The last stored line, when it is a record. */
  function DiskTail(file: EvidenceFile): Option<Evidence> {
    var last := LastNonBlank(file.lines + [file.tail]);
    if last.Record? then Some(last.value) else None
  }

  /** adoptDiskTail: a record this instance has not seen becomes its predecessor, and its id is continued. */
  function Adopted(st: State, file: EvidenceFile): State {
    var tail := DiskTail(file);
    if tail.None? || HeadOf(st.records) == Some(tail.value.digest) then st
    else
      Loaded(st.records + [tail.value],
             if tail.value.chain.None? then Some(Legacy) else if st.status != Some(Legacy) then Some(Chained) else st.status,
             st.error)
  }

  function AdoptedDraft(st: State, file: EvidenceFile, draft: Draft): Draft {
    var tail := DiskTail(file);
    if tail.None? || HeadOf(st.records) == Some(tail.value.digest) then draft
    else if tail.value.id.EV? then draft.(id := EV(tail.value.id.number + 1))
    else draft
  }

  function Sealed(st: State, draft: Draft): Evidence {
    var chain :=
      if st.status == Some(Legacy) then None
      else if st.records == [] then Some(Genesis)
      else Some(st.records[|st.records| - 1].digest);
    Evidence(draft.id, draft.body, chain, OfEvidence(draft.id, draft.body, chain))
  }

  /** The record that `add` stores. */
  function Minted(st: State, file: EvidenceFile, draft: Draft): Evidence {
    Sealed(Adopted(st, file), AdoptedDraft(st, file, draft))
  }

  function AfterAdd(st: State, file: EvidenceFile, draft: Draft): State {
    var adopted := Adopted(st, file);
    Loaded(adopted.records + [Minted(st, file, draft)], if adopted.status.None? then Some(Chained) else adopted.status, st.error)
  }

  // ---- The store object ----

  class EvidenceStore {
    const disk: Disk<Evidence>
    var records: seq<Evidence>
    var chainState: Option<ChainStatus>

    constructor (disk: Disk<Evidence>)
      ensures this.disk == disk && Held() == EMPTY
    {
      this.disk := disk;
      this.records, this.chainState := [], None;
    }

    ghost function Held(): State
      reads this
    {
      Loaded(records, chainState, None)
    }

    /** Fail-closed replay; on an error the records read so far stay. */
    method LoadFile() returns (error: Option<LoadError>)
      modifies this
      ensures var st := Load(old(Held()), disk.file);
              error == st.error && records == st.records && chainState == st.status
    {
      var st := ReadThrough(Loaded(records, chainState, None), disk.file, Accept);
      records, chainState := st.records, st.status;
      return st.error;
    }

    method Add(draft: Draft) returns (full: Evidence)
      modifies this, disk
      ensures Held() == AfterAdd(old(Held()), old(disk.file), draft)
      ensures full == Minted(old(Held()), old(disk.file), draft)
      ensures disk.file == Appended(old(disk.file), full)
    {
      var st := Loaded(records, chainState, None);
      var record := AdoptedDraft(st, disk.file, draft);
      var adopted := Adopted(st, disk.file);
      records, chainState := adopted.records, adopted.status;
      full := Sealed(adopted, record);
      records := records + [full];
      if chainState.None? {
        chainState := Some(Chained);
      }
      disk.file := Appended(disk.file, full);
    }
  }

  // ---- One add ----

  /** An instance knows nothing yet, or it knows the kind of the file's chain. */
  predicate Follows(st: State, file: EvidenceFile) {
    && (st.records == [] <==> st.status.None?)
    && (st.status.Some? ==> st.status == Load(EMPTY, file).status)
  }

  lemma LoadedShape(lines: seq<Line<Evidence>>)
    requires LoadLines(EMPTY, lines).error.None?
    ensures var st := LoadLines(EMPTY, lines);
            && (st.records == [] <==> st.status.None?)
            && (LastNonBlank(lines).Record? <==> st.records != [])
            && (LastNonBlank(lines).Blank? <==> st.records == [])
            && (st.records != [] ==>
                  && LastNonBlank(lines).value == st.records[|st.records| - 1]
                  && (st.records[|st.records| - 1].chain.Some? <==> st.status == Some(Chained)))
  {
    if lines != [] {
      LoadedShape(lines[..|lines| - 1]);
    }
  }

  /** On a clean file, whatever the instance has missed, adopting the tail puts it exactly where the file ends. */
  lemma AdoptedCatchesUp(st: State, file: EvidenceFile)
    requires Loads(file) && file.tail.Blank? && Follows(st, file)
    ensures var whole, adopted := LoadLines(EMPTY, file.lines), Adopted(st, file);
            && HeadOf(adopted.records) == HeadOf(whole.records)
            && (whole.records != [] ==> adopted.status == whole.status && adopted.records != [])
            && (whole.records == [] ==> adopted == st && st.records == [])
            && adopted.error == st.error
  {
    CleanLoad(file);
    LoadedShape(file.lines);
    hide LoadLines, LastNonBlank;
    var whole, tail := LoadLines(EMPTY, file.lines), DiskTail(file);
    if whole.records != [] {
      assert tail == Some(whole.records[|whole.records| - 1]);
      assert whole.status.Some?;
      match whole.status.value {
        case Chained =>
        case Legacy =>
      }
    }
  }

  lemma CleanLoad(file: EvidenceFile)
    requires file.tail.Blank?
    ensures Load(EMPTY, file) == LoadLines(EMPTY, file.lines)
    ensures LastNonBlank(file.lines + [file.tail]) == LastNonBlank(file.lines)
  {
    assert (file.lines + [file.tail])[..|file.lines|] == file.lines;
  }

  /** A record that carries its own digest and the right pointer is read after what was read before. */
  lemma LoadSnoc(lines: seq<Line<Evidence>>, full: Evidence)
    requires LoadLines(EMPTY, lines).error.None? && full.digest == DigestOf(full)
    requires var st := LoadLines(EMPTY, lines);
             if full.chain.None? then st.status != Some(Chained)
             else st.status != Some(Legacy) && full.chain == (if st.records == [] then Some(Genesis) else HeadOf(st.records))
    ensures LoadLines(EMPTY, lines + [Record(full)])
            == Loaded(LoadLines(EMPTY, lines).records + [full], Some(if full.chain.Some? then Chained else Legacy), None)
  {
    assert (lines + [Record(full)])[..|lines|] == lines;
  }

  /** One atomic add to a clean file: the chain goes on, nothing stored before changes, and the kind stays. */
  lemma AddKeepsChain(st: State, file: EvidenceFile, draft: Draft)
    requires Loads(file) && file.tail.Blank? && Follows(st, file)
    ensures var full := Minted(st, file, draft);
            var after := Appended(file, full);
            && Loads(after) && after.tail.Blank?
            && Load(EMPTY, after).records == Load(EMPTY, file).records + [full]
            && Load(EMPTY, after).status == (if Load(EMPTY, file).status.None? then Some(Chained) else Load(EMPTY, file).status)
            && Follows(AfterAdd(st, file, draft), after)
  {
    AdoptedCatchesUp(st, file);
    LoadedShape(file.lines);
    CleanLoad(file);
    var full := Minted(st, file, draft);
    var after := Appended(file, full);
    CleanLoad(after);
    hide LoadLines, LastNonBlank, Adopted, AdoptedDraft, Load;
    var whole := LoadLines(EMPTY, file.lines);
    if whole.status.Some? {
      match whole.status.value {
        case Chained =>
        case Legacy =>
      }
    }
    LoadSnoc(file.lines, full);
  }

  /**
   * What an add stores, and what the instance then holds. A file end the instance has not seen is taken over first, and its
   * number continued if it has one; otherwise the record keeps the id its caller drafted.
   */
  lemma AddMeans(st: State, file: EvidenceFile, draft: Draft)
    requires Loads(file) && file.tail.Blank? && Follows(st, file)
    ensures var records, full := Load(EMPTY, file).records, Minted(st, file, draft);
            var unseen := records != [] && (st.records == [] || st.records[|st.records| - 1].digest != records[|records| - 1].digest);
            && full.body == draft.body
            && full.id == (if unseen && records[|records| - 1].id.EV? then EV(records[|records| - 1].id.number + 1) else draft.id)
            && full.chain == (if Load(EMPTY, file).status == Some(Legacy) then None
                              else if records == [] then Some(Genesis)
                              else Some(records[|records| - 1].digest))
            && full.digest == OfEvidence(full.id, full.body, full.chain)
            && AfterAdd(st, file, draft).records == st.records + (if unseen then [records[|records| - 1]] else []) + [full]
  {
    AdoptedCatchesUp(st, file);
    LoadedShape(file.lines);
    CleanLoad(file);
    hide LoadLines, LastNonBlank, Load;
    var whole := LoadLines(EMPTY, file.lines);
    if whole.status.Some? {
      match whole.status.value {
        case Chained =>
        case Legacy =>
      }
    }
  }

  /** The records are numbered from 1 on, in order. */
  predicate Numbered(records: seq<Evidence>) {
    forall i :: 0 <= i < |records| ==> records[i].id == EV(i + 1)
  }

  /**
   * Every caller drafts the number after those its instance holds. On a numbered log the stored record continues the
   * numbering if and only if the instance has not seen the end of the file, or holds all of it.
   */
  lemma NumberContinues(st: State, file: EvidenceFile, body: string)
    requires Loads(file) && file.tail.Blank? && Follows(st, file) && Numbered(Load(EMPTY, file).records)
    ensures var records := Load(EMPTY, file).records;
            Minted(st, file, Draft(EV(|st.records| + 1), body)).id == EV(|records| + 1)
            <==> HeadOf(st.records) != HeadOf(records) || |st.records| == |records|
  {
    AddMeans(st, file, Draft(EV(|st.records| + 1), body));
    LoadedShape(file.lines);
    CleanLoad(file);
    hide LoadLines, LastNonBlank, Load, Minted;
    var records := Load(EMPTY, file).records;
    assert records != [] ==> records[|records| - 1].id == EV(|records|);
  }

  /** One instance adds a record, numbered as its caller does. */
  function Numbering(w: Workspace, store: nat, body: string): (after: Workspace)
    requires store < |w.stores|
    ensures |after.stores| == |w.stores|
  {
    Next(w, Step(store, Draft(EV(|w.stores[store].records| + 1), body)))
  }

  lemma NumberingAdds(w: Workspace, store: nat, body: string) returns (full: Evidence)
    requires store < |w.stores| && Loads(w.file) && w.file.tail.Blank? && AllFollow(w)
    ensures var held, records, after := w.stores[store].records, Load(EMPTY, w.file).records, Numbering(w, store, body);
            var unseen := records != [] && (held == [] || held[|held| - 1].digest != records[|records| - 1].digest);
            && Loads(after.file) && after.file.tail.Blank? && AllFollow(after)
            && (forall i :: 0 <= i < |w.stores| && i != store ==> after.stores[i] == w.stores[i])
            && Load(EMPTY, after.file).records == records + [full]
            && full.id == (if unseen && records[|records| - 1].id.EV? then EV(records[|records| - 1].id.number + 1) else EV(|held| + 1))
            && after.stores[store].records == held + (if unseen then [records[|records| - 1]] else []) + [full]
  {
    full := NextAdds(w, Step(store, Draft(EV(|w.stores[store].records| + 1), body)));
  }

  /** One of two instances adds two records to an empty log. */
  function Two(a: string, b: string): (w: Workspace)
    ensures |w.stores| == 2
  {
    Numbering(Numbering(Workspace([EMPTY, EMPTY], Log([], Blank)), 0, a), 0, b)
  }

  lemma TwoAdded(a: string, b: string) returns (r1: Evidence, r2: Evidence)
    ensures var w := Two(a, b);
            && Loads(w.file) && w.file.tail.Blank? && AllFollow(w) && w.stores[1] == EMPTY
            && Load(EMPTY, w.file).records == [r1, r2] && r1.id == EV(1) && r2.id == EV(2)
  {
    var start := Workspace([EMPTY, EMPTY], Log([], Blank));
    assert Load(EMPTY, start.file) == EMPTY && Loads(start.file) && AllFollow(start);
    hide Load, Loads, AllFollow, Next, Numbering;
    r1 := NumberingAdds(start, 0, a);
    r2 := NumberingAdds(Numbering(start, 0, a), 0, b);
  }

  /**
   * So numbers can repeat: when the other instance then adds two, it takes over the second record, and both of its own read
   * EV(3).
   */
  lemma NumbersCanRepeat(a: string, b: string, c: string, d: string)
    ensures var file := Numbering(Numbering(Two(a, b), 1, c), 1, d).file;
            Loads(file) && exists r1, r2, r3, r4 :: Load(EMPTY, file).records == [r1, r2, r3, r4] && r3.id == r4.id == EV(3)
  {
    var r1, r2 := TwoAdded(a, b);
    hide Load, Loads, AllFollow, Numbering, Two;
    var third := Numbering(Two(a, b), 1, c);
    var r3 := NumberingAdds(Two(a, b), 1, c);
    assert third.stores[1].records == [r2, r3] && Load(EMPTY, third.file).records == [r1, r2, r3];
    var r4 := NumberingAdds(third, 1, d);
    assert Load(EMPTY, Numbering(third, 1, d).file).records == [r1, r2, r3, r4];
  }

  /** Other instances are not confused by it. */
  lemma OthersFollow(other: State, file: EvidenceFile, after: EvidenceFile)
    requires Follows(other, file)
    requires Load(EMPTY, file).status.Some? ==> Load(EMPTY, after).status == Load(EMPTY, file).status
    ensures Follows(other, after)
  {}

  lemma MintedBody(st: State, file: EvidenceFile, draft: Draft)
    ensures Minted(st, file, draft).body == draft.body
  {}

  // ---- Any interleaving of adds ----

  /** Which instance adds next, and what. */
  datatype Step = Step(store: nat, draft: Draft)

  datatype Workspace = Workspace(stores: seq<State>, file: EvidenceFile)

  function Next(w: Workspace, step: Step): Workspace
    requires step.store < |w.stores|
  {
    var st := w.stores[step.store];
    Workspace(w.stores[step.store := AfterAdd(st, w.file, step.draft)], Appended(w.file, Minted(st, w.file, step.draft)))
  }

  function Run(w: Workspace, steps: seq<Step>): (after: Workspace)
    requires forall i :: 0 <= i < |steps| ==> steps[i].store < |w.stores|
    ensures |after.stores| == |w.stores|
  {
    if steps == [] then w else Next(Run(w, steps[..|steps| - 1]), steps[|steps| - 1])
  }

  /** The records read before, then one for each step, in order. */
  predicate Extends(before: seq<Evidence>, after: seq<Evidence>, steps: seq<Step>) {
    && |after| == |before| + |steps| && before <= after
    && forall k :: 0 <= k < |steps| ==> after[|before| + k].body == steps[k].draft.body
  }

  lemma NothingAdded(records: seq<Evidence>)
    ensures Extends(records, records, [])
  {}

  lemma ExtendsOnce(start: seq<Evidence>, before: seq<Evidence>, after: seq<Evidence>, steps: seq<Step>, step: Step)
    requires Extends(start, before, steps)
    requires |after| == |before| + 1 && after[..|before|] == before && after[|before|].body == step.draft.body
    ensures Extends(start, after, steps + [step])
  {
    assert forall k :: 0 <= k < |before| ==> after[k] == after[..|before|][k];
  }

  predicate AllFollow(w: Workspace) {
    forall i :: 0 <= i < |w.stores| ==> Follows(w.stores[i], w.file)
  }

  /** The file loads, holds what it held and then the added records, and keeps its kind of chain. */
  predicate Grown(w: Workspace, steps: seq<Step>, after: Workspace) {
    && Loads(after.file) && after.file.tail.Blank? && AllFollow(after)
    && Extends(Load(EMPTY, w.file).records, Load(EMPTY, after.file).records, steps)
    && (Load(EMPTY, w.file).status.Some? ==> Load(EMPTY, after.file).status == Load(EMPTY, w.file).status)
  }

  lemma GrownOnce(w: Workspace, steps: seq<Step>, before: Workspace, step: Step)
    requires Grown(w, steps, before) && step.store < |before.stores|
    ensures Grown(w, steps + [step], Next(before, step))
  {
    hide Loads, Load, AllFollow, Next, Extends;
    NextKeepsChain(before, step);
    ExtendsOnce(Load(EMPTY, w.file).records, Load(EMPTY, before.file).records, Load(EMPTY, Next(before, step).file).records,
                steps, step);
  }

  /**
   * Every instance is new, or has loaded the file at some earlier time, or has added to it: any interleaving of their
   * adds leaves a file that loads, extends what was there by exactly the added records, and has one kind of chain.
   */
  lemma {:induction false} InterleavingsLoad(w: Workspace, steps: seq<Step>)
    requires forall i :: 0 <= i < |steps| ==> steps[i].store < |w.stores|
    requires Loads(w.file) && w.file.tail.Blank? && AllFollow(w)
    ensures Grown(w, steps, Run(w, steps))
  {
    hide Next;
    if steps == [] {
      NothingAdded(Load(EMPTY, w.file).records);
    } else {
      hide Grown;
      var init, last := steps[..|steps| - 1], steps[|steps| - 1];
      InterleavingsLoad(w, init);
      GrownOnce(w, init, Run(w, init), last);
      assert steps == init + [last];
    }
  }

  lemma NextKeepsChain(w: Workspace, step: Step)
    requires step.store < |w.stores| && Loads(w.file) && w.file.tail.Blank? && AllFollow(w)
    ensures var after := Next(w, step);
            var before, now := Load(EMPTY, w.file), Load(EMPTY, after.file);
            && Loads(after.file) && after.file.tail.Blank? && AllFollow(after) && |after.stores| == |w.stores|
            && |now.records| == |before.records| + 1 && now.records[..|before.records|] == before.records
            && now.records[|before.records|].body == step.draft.body
            && (before.status.Some? ==> now.status == before.status)
  {
    var st := w.stores[step.store];
    var after := Next(w, step);
    MintedBody(st, w.file, step.draft);
    AddKeepsChain(st, w.file, step.draft);
    hide Load, Minted, AfterAdd;
    forall i | 0 <= i < |after.stores| ensures Follows(after.stores[i], after.file) {
      if i != step.store {
        OthersFollow(w.stores[i], w.file, after.file);
      }
    }
  }

  lemma NextAdds(w: Workspace, step: Step) returns (full: Evidence)
    requires step.store < |w.stores| && Loads(w.file) && w.file.tail.Blank? && AllFollow(w)
    ensures var st, records, after := w.stores[step.store], Load(EMPTY, w.file).records, Next(w, step);
            var unseen := records != [] && (st.records == [] || st.records[|st.records| - 1].digest != records[|records| - 1].digest);
            && Loads(after.file) && after.file.tail.Blank? && AllFollow(after) && |after.stores| == |w.stores|
            && (forall i :: 0 <= i < |w.stores| && i != step.store ==> after.stores[i] == w.stores[i])
            && Load(EMPTY, after.file).records == records + [full]
            && full.id == (if unseen && records[|records| - 1].id.EV? then EV(records[|records| - 1].id.number + 1) else step.draft.id)
            && after.stores[step.store].records == st.records + (if unseen then [records[|records| - 1]] else []) + [full]
  {
    NextKeepsChain(w, step);
    AddMeans(w.stores[step.store], w.file, step.draft);
    AddKeepsChain(w.stores[step.store], w.file, step.draft);
    full := Minted(w.stores[step.store], w.file, step.draft);
    hide Load, Minted, AfterAdd, Loads, AllFollow;
  }

  /** An instance that loaded the file follows it, whatever was added since. */
  lemma LoadedFollows(file: EvidenceFile)
    requires Loads(file) && file.tail.Blank?
    ensures Follows(Load(EMPTY, file), file) && Follows(EMPTY, file)
  {
    LoadedShape(file.lines);
  }

  // ---- The torn tail ----

  lemma {:induction false} LinesOnlyGrow(w: Workspace, steps: seq<Step>)
    requires forall i :: 0 <= i < |steps| ==> steps[i].store < |w.stores|
    ensures w.file.lines <= Run(w, steps).file.lines
    ensures steps != [] && !w.file.tail.Blank? ==>
              |w.file.lines| < |Run(w, steps).file.lines| && Run(w, steps).file.lines[|w.file.lines|].Broken?
  {
    if steps != [] {
      LinesOnlyGrow(w, steps[..|steps| - 1]);
    }
  }

  /**
   * Loading tolerates a torn tail, but adding after one does not: from a loadable file, the file loads after one or more
   * adds if and only if it ended in a newline (or in nothing but white space) before them.
   */
  lemma {:induction false} AddsNeedCleanTail(w: Workspace, steps: seq<Step>)
    requires forall i :: 0 <= i < |steps| ==> steps[i].store < |w.stores|
    requires Loads(w.file) && AllFollow(w) && steps != []
    ensures Loads(Run(w, steps).file) <==> w.file.tail.Blank?
  {
    if w.file.tail.Blank? {
      InterleavingsLoad(w, steps);
    } else {
      LinesOnlyGrow(w, steps);
      BrokenLineFails(EMPTY, Run(w, steps).file.lines, |w.file.lines|, Accept);
    }
  }

  /** A run interrupted in its first append, then resumed: the log loads before the resume and never again. */
  lemma {:induction false} TornTailPoisons(draft: Draft)
    ensures var torn := Log([], Broken);
            Loads(torn) && !Loads(Run(Workspace([EMPTY], torn), [Step(0, draft)]).file)
  {
    var torn: EvidenceFile := Log([], Broken);
    AddsNeedCleanTail(Workspace([EMPTY], torn), [Step(0, draft)]);
  }

  // ---- Tampering ----

  /** Each record sealed by its own digest, and each chained one pointing at the one before. */
  predicate WellSealed(records: seq<Evidence>, status: ChainStatus) {
    records == []
    || (var init, last := records[..|records| - 1], records[|records| - 1];
        && WellSealed(init, status) && last.digest == DigestOf(last)
        && last.chain == (if status == Legacy then None else if init == [] then Some(Genesis) else HeadOf(init)))
  }

  // ---- Which files load, and what stops the others ----

  predicate OneKind(records: seq<Evidence>) {
    WellSealed(records, Chained) || WellSealed(records, Legacy)
  }

  function KindOf(records: seq<Evidence>): Option<ChainStatus> {
    if records == [] then None else if WellSealed(records, Chained) then Some(Chained) else Some(Legacy)
  }

  lemma OneKindSnoc(records: seq<Evidence>, e: Evidence)
    ensures WellSealed(records + [e], Chained) <==>
              && WellSealed(records, Chained) && e.digest == OfEvidence(e.id, e.body, e.chain)
              && e.chain == Some(if records == [] then Genesis else records[|records| - 1].digest)
    ensures WellSealed(records + [e], Legacy) <==>
              WellSealed(records, Legacy) && e.digest == OfEvidence(e.id, e.body, e.chain) && e.chain.None?
    ensures records != [] ==> !(WellSealed(records, Chained) && WellSealed(records, Legacy))
  {
    var all := records + [e];
    assert all[..|records|] == records && all[|records|] == e;
  }

  /** One more line: a record is taken exactly if its digest is its own and it goes on with the chain, or with none. */
  lemma ReadMeans(st: State, line: Line<Evidence>, tornTail: bool)
    requires st.error.None? && OneKind(st.records) && st.status == KindOf(st.records)
    ensures var now := ReadLine(st, line, tornTail, Accept);
            match line
            case Blank => now == st
            case Broken => now == if tornTail then st else st.(error := Some(CorruptLine))
            case Record(e) =>
              if OneKind(st.records + [e]) then now == Loaded(st.records + [e], KindOf(st.records + [e]), None)
              else
                && now.records == st.records
                && now.error == Some(if e.digest != OfEvidence(e.id, e.body, e.chain) then DigestMismatch
                                     else if st.records == [] then MissingGenesis
                                     else if WellSealed(st.records, Chained) && e.chain.Some? then ChainBreak
                                     else MixedChain)
  {
    if line.Record? {
      OneKindSnoc(st.records, line.value);
      hide WellSealed;
    }
  }

  lemma NoLines()
    ensures NoneBroken<Evidence>([]) && OneKind([]) && KindOf([]).None?
  {}

  lemma LineMeans(init: seq<Line<Evidence>>, last: Line<Evidence>)
    requires LoadLines(EMPTY, init).error.None? <==> NoneBroken(init) && OneKind(Values(init))
    requires LoadLines(EMPTY, init).error.None? ==> LoadLines(EMPTY, init) == Loaded(Values(init), KindOf(Values(init)), None)
    ensures var now := ReadLine(LoadLines(EMPTY, init), last, false, Accept);
            LoadLines(EMPTY, init).error.None? ==>
              && (now.error.None? <==> !last.Broken? && (last.Record? ==> OneKind(Values(init) + [last.value])))
              && (now.error.None? && last.Record? ==>
                    now == Loaded(Values(init) + [last.value], KindOf(Values(init) + [last.value]), None))
              && (last.Blank? ==> now == LoadLines(EMPTY, init))
    ensures last.Record? && OneKind(Values(init) + [last.value]) ==> OneKind(Values(init))
  {
    if last.Record? {
      OneKindSnoc(Values(init), last.value);
    }
    hide WellSealed, NoneBroken, KindOf, LoadLines;
    if LoadLines(EMPTY, init).error.None? {
      ReadMeans(LoadLines(EMPTY, init), last, false);
    }
  }

  lemma {:induction false} LinesMean(lines: seq<Line<Evidence>>)
    ensures LoadLines(EMPTY, lines).error.None? <==> NoneBroken(lines) && OneKind(Values(lines))
    ensures LoadLines(EMPTY, lines).error.None? ==> LoadLines(EMPTY, lines) == Loaded(Values(lines), KindOf(Values(lines)), None)
  {
    hide WellSealed, NoneBroken;
    if lines == [] {
      NoLines();
    } else {
      var init, last := lines[..|lines| - 1], lines[|lines| - 1];
      LinesMean(init);
      assert lines == init + [last];
      BrokenSnoc(init, last);
      ValuesSnoc(init, last);
      LineMeans(init, last);
    }
  }

  /**
   * A log loads if and only if no newline-terminated line is broken and its records, the unterminated last one included, each
   * carry their own digest and are chained from genesis on or unchained throughout; and then exactly these records are read.
   */
  lemma LoadMeans(file: EvidenceFile)
    ensures var records := Values(file.lines + [file.tail]);
            && (Loads(file) <==> NoneBroken(file.lines) && OneKind(records))
            && (Loads(file) ==> Load(EMPTY, file) == Loaded(records, KindOf(records), None))
  {
    LinesMean(file.lines);
    ValuesSnoc(file.lines, file.tail);
    if file.tail.Record? {
      OneKindSnoc(Values(file.lines), file.tail.value);
    }
    if LoadLines(EMPTY, file.lines).error.None? {
      hide WellSealed, KindOf, NoneBroken;
      ReadMeans(LoadLines(EMPTY, file.lines), file.tail, true);
    }
  }

  /** The first line that does not go on says why the load stops, and nothing after it is read. */
  lemma FaultMeans(lines: seq<Line<Evidence>>, i: nat)
    requires i < |lines| && NoneBroken(lines[..i]) && OneKind(Values(lines[..i]))
    requires !(NoneBroken(lines[..i + 1]) && OneKind(Values(lines[..i + 1])))
    ensures !lines[i].Blank?
    ensures var st, before := LoadLines(EMPTY, lines), Values(lines[..i]);
            && st.records == before
            && st.error == Some(if lines[i].Broken? then CorruptLine
                                else if lines[i].value.digest != DigestOf(lines[i].value) then DigestMismatch
                                else if before == [] then MissingGenesis
                                else if WellSealed(before, Chained) && lines[i].value.chain.Some? then ChainBreak
                                else MixedChain)
  {
    hide WellSealed, KindOf, NoneBroken, ReadLines, ReadLine, Values;
    LinesMean(lines[..i]);
    ReadStep(EMPTY, lines, i, Accept);
    assert lines[..i + 1] == lines[..i] + [lines[i]];
    BrokenSnoc(lines[..i], lines[i]);
    ValuesSnoc(lines[..i], lines[i]);
    ReadMeans(LoadLines(EMPTY, lines[..i]), lines[i], false);
    ErrorStays(EMPTY, lines, i + 1, Accept);
  }

  lemma LoadedIsSealed(file: EvidenceFile)
    requires Loads(file)
    ensures var st := Load(EMPTY, file); if st.status.None? then st.records == [] else WellSealed(st.records, st.status.value)
  {
    LoadMeans(file);
    hide WellSealed, Load;
  }

  /** Two chained evidence logs that load and end in the same digest hold the same records. */
  lemma {:induction false} SameHeadSameRecords(xs: seq<Evidence>, ys: seq<Evidence>)
    requires WellSealed(xs, Chained) && WellSealed(ys, Chained)
    requires xs != [] && ys != [] && xs[|xs| - 1].digest == ys[|ys| - 1].digest
    ensures xs == ys
  {
    var a, b := xs[..|xs| - 1], ys[..|ys| - 1];
    var x, y := xs[|xs| - 1], ys[|ys| - 1];
    assert xs == a + [x] && ys == b + [y] && x == y;
    if a != [] && b != [] {
      SameHeadSameRecords(a, b);
    }
  }
}
