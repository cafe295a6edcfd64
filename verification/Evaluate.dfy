/**
 * evaluate.ts: requirement states derived from the evidence, with the red-to-green rule; and the flips a run inherits
 * from its ancestors (apply.ts).
 */
module Evaluate {
  import opened Wrappers

  datatype Outcome = Supports | Contradicts | Inconclusive

  /**
   * `waives` marks a human record whose payload waives. `eligible` is what isEligibleRed answers for the record.
   * Timestamps have one textual form, so their order is that of numbers.
   */
  datatype Record = Record(
    id: string, criterionId: Option<string>, properties: set<string>, outcome: Outcome, timestamp: nat,
    red: bool, waives: bool, eligible: bool)

  datatype CriterionKind = Command | File | Suite | Agent | Human

  datatype Criterion = Criterion(id: string, kind: CriterionKind, discriminating: bool)

  datatype Priority = Must | Should | May

  datatype Property = Property(id: string, priority: Priority, acceptance: seq<Criterion>)

  datatype Options = Options(allowAgentOnly: bool, inProgress: set<string>, requireRedPhase: bool, inheritedFlips: map<string, string>)

  datatype Status = Satisfied | Waived | Unsatisfied | Indeterminate | InProgress | Unknown

  datatype RedPhase = Flipped | PassedAtBase | NoRedEvidence

  /** `about` is the criterion or criteria its reason names. */
  datatype RequirementState = RequirementState(
    propertyId: string, status: Status, evidenceIds: seq<string>, weakEvidence: bool, redPhase: Option<RedPhase>,
    about: seq<string>)

  datatype VerdictStatus = Pass | Fail | Undecided | Unevaluated

  datatype Verdict = Verdict(criterion: Criterion, status: VerdictStatus, redPhase: Option<RedPhase>, inherited: bool)

  predicate Deterministic(c: Criterion) {
    c.kind.Command? || c.kind.File? || c.kind.Suite?
  }

  predicate Discriminating(c: Criterion) {
    Deterministic(c) && c.discriminating
  }

  // ---- The newest record of a criterion ----

  function Newest(evidence: seq<Record>, c: string): Option<Record> {
    if evidence == [] then None
    else
      var e, before := evidence[|evidence| - 1], Newest(evidence[..|evidence| - 1], c);
      if e.criterionId == Some(c) && (before.None? || e.timestamp >= before.value.timestamp) then Some(e) else before
  }

  /** No record of the criterion is newer, and of equally new ones it was recorded last. */
  predicate IsNewest(evidence: seq<Record>, c: string, i: nat)
    requires i < |evidence|
  {
    evidence[i].criterionId == Some(c)
    && forall j :: 0 <= j < |evidence| && evidence[j].criterionId == Some(c) ==>
         if j <= i then evidence[j].timestamp <= evidence[i].timestamp else evidence[j].timestamp < evidence[i].timestamp
  }

  lemma {:induction false} NewestIsNewest(evidence: seq<Record>, c: string)
    ensures Newest(evidence, c).None? <==> forall e <- evidence :: e.criterionId != Some(c)
    ensures Newest(evidence, c).Some? ==> exists i :: 0 <= i < |evidence| && IsNewest(evidence, c, i) && Newest(evidence, c) == Some(evidence[i])
  {
    if evidence != [] {
      var n := |evidence| - 1;
      var init, e := evidence[..n], evidence[n];
      NewestIsNewest(init, c);
      assert evidence == init + [e];
      if Newest(init, c).Some? {
        var i :| 0 <= i < |init| && IsNewest(init, c, i) && Newest(init, c) == Some(init[i]);
        if Newest(evidence, c) == Newest(init, c) && !(e.criterionId == Some(c) && e.timestamp >= init[i].timestamp) {
          assert IsNewest(evidence, c, i);
        } else {
          assert IsNewest(evidence, c, n);
        }
      } else if e.criterionId == Some(c) {
        assert IsNewest(evidence, c, n);
      }
    }
  }

  /** latestByCriterion. */
  method LatestByCriterion(evidence: seq<Record>) returns (latest: map<string, Record>)
    ensures forall c :: c in latest <==> Newest(evidence, c).Some?
    ensures forall c <- latest :: Newest(evidence, c) == Some(latest[c])
  {
    latest := map[];
    for i := 0 to |evidence|
      invariant forall c :: c in latest <==> Newest(evidence[..i], c).Some?
      invariant forall c <- latest :: Newest(evidence[..i], c) == Some(latest[c])
    {
      assert evidence[..i + 1][..i] == evidence[..i];
      var e := evidence[i];
      if e.criterionId.Some? {
        var c := e.criterionId.value;
        if c !in latest || e.timestamp >= latest[c].timestamp {
          latest := latest[c := e];
        }
      }
    }
    assert evidence[..|evidence|] == evidence;
  }

  // ---- One property ----

  function Relevant(property: Property, evidence: seq<Record>): seq<Record> {
    Filter(evidence, (e: Record) => property.id in e.properties)
  }

  function ResultRecords(records: seq<Record>): seq<Record> {
    Filter(records, (e: Record) => !e.red)
  }

  function RedRecords(records: seq<Record>): seq<Record> {
    Filter(records, (e: Record) => e.red)
  }

  function FirstWaiver(records: seq<Record>): Option<Record> {
    if records == [] then None else if records[0].waives then Some(records[0]) else FirstWaiver(records[1..])
  }

  function Judge(c: Criterion, newest: Option<Record>, red: Option<Record>, options: Options): Verdict {
    var status :=
      if newest.None? then Unevaluated
      else match newest.value.outcome case Supports => Pass case Contradicts => Fail case Inconclusive => Undecided;
    if options.requireRedPhase && Discriminating(c) && status == Pass then
      if red.None? then Verdict(c, Undecided, Some(NoRedEvidence), false)
      else
        match red.value.outcome
        case Supports =>
          if c.id in options.inheritedFlips then Verdict(c, Pass, Some(Flipped), true)
          else Verdict(c, Undecided, Some(PassedAtBase), false)
        case Contradicts =>
          if red.value.eligible then Verdict(c, Pass, Some(Flipped), false)
          else Verdict(c, Undecided, Some(NoRedEvidence), false)
        case Inconclusive => Verdict(c, Undecided, Some(NoRedEvidence), false)
    else Verdict(c, status, None, false)
  }

  function NewestRed(records: seq<Record>, c: string, options: Options): Option<Record> {
    if options.requireRedPhase then Newest(RedRecords(records), c) else None
  }

  function Verdicts(acceptance: seq<Criterion>, records: seq<Record>, options: Options): (vs: seq<Verdict>)
    ensures |vs| == |acceptance|
    ensures forall i :: 0 <= i < |vs| ==>
              vs[i] == Judge(acceptance[i], Newest(ResultRecords(records), acceptance[i].id),
                             NewestRed(records, acceptance[i].id, options), options)
  {
    seq(|acceptance|, i requires 0 <= i < |acceptance| =>
      Judge(acceptance[i], Newest(ResultRecords(records), acceptance[i].id), NewestRed(records, acceptance[i].id, options), options))
  }

  /** The records the verdicts rest on, criterion by criterion. */
  function UsedIds(acceptance: seq<Criterion>, results: seq<Record>): seq<string> {
    if acceptance == [] then []
    else
      var n := |acceptance| - 1;
      var e := Newest(results, acceptance[n].id);
      UsedIds(acceptance[..n], results) + if e.Some? then [e.value.id] else []
  }

  /** Array.prototype.find on the verdicts. */
  function First(vs: seq<Verdict>, status: VerdictStatus): Option<Verdict> {
    if vs == [] then None else if vs[0].status == status then Some(vs[0]) else First(vs[1..], status)
  }

  function RedSummary(acceptance: seq<Criterion>, vs: seq<Verdict>, options: Options): Option<RedPhase> {
    if !(options.requireRedPhase && exists c <- acceptance :: Discriminating(c)) then None
    else if exists v <- vs :: v.redPhase == Some(PassedAtBase) then Some(PassedAtBase)
    else if exists v <- vs :: v.redPhase == Some(NoRedEvidence) then Some(NoRedEvidence)
    else Some(Flipped)
  }

  function InheritedNames(vs: seq<Verdict>): seq<string> {
    if vs == [] then []
    else InheritedNames(vs[..|vs| - 1]) + if vs[|vs| - 1].inherited then [vs[|vs| - 1].criterion.id] else []
  }

  function Concluded(property: Property, vs: seq<Verdict>, used: seq<string>, options: Options): RequirementState {
    var red := RedSummary(property.acceptance, vs, options);
    var fail, undecided, unevaluated := First(vs, Fail), First(vs, Undecided), First(vs, Unevaluated);
    var deterministic := exists v <- vs :: v.status == Pass && Deterministic(v.criterion);
    if fail.Some? then RequirementState(property.id, Unsatisfied, used, false, red, [fail.value.criterion.id])
    else if undecided.Some? then RequirementState(property.id, Indeterminate, used, false, red, [undecided.value.criterion.id])
    else if unevaluated.Some? then
      RequirementState(property.id, if property.id in options.inProgress then InProgress else Unknown, used, false, red,
                       [unevaluated.value.criterion.id])
    else if !deterministic && (exists v <- vs :: v.status == Pass && v.criterion.kind.Agent?) && !options.allowAgentOnly then
      RequirementState(property.id, Indeterminate, used, true, red, [])
    else RequirementState(property.id, Satisfied, used, !deterministic, red, InheritedNames(vs))
  }

  function Evaluated(property: Property, evidence: seq<Record>, options: Options): RequirementState {
    var records := Relevant(property, evidence);
    var waiver := FirstWaiver(records);
    if waiver.Some? then RequirementState(property.id, Waived, [waiver.value.id], false, None, [])
    else
      Concluded(property, Verdicts(property.acceptance, records, options),
                UsedIds(property.acceptance, ResultRecords(records)), options)
  }

  /** evaluateProperty. */
  method EvaluateProperty(property: Property, evidence: seq<Record>, options: Options) returns (state: RequirementState)
    ensures state == Evaluated(property, evidence, options)
  {
    hide Newest, Judge, Concluded, Relevant, ResultRecords, RedRecords, FirstWaiver, Discriminating;
    var records := Relevant(property, evidence);
    var waiver := FirstWaiver(records);
    if waiver.Some? {
      return RequirementState(property.id, Waived, [waiver.value.id], false, None, []);
    }
    var latest := LatestByCriterion(ResultRecords(records));
    var latestRed: map<string, Record> := map[];
    if options.requireRedPhase {
      latestRed := LatestByCriterion(RedRecords(records));
    }
    var verdicts: seq<Verdict>, used: seq<string> := [], [];
    for i := 0 to |property.acceptance|
      invariant verdicts == Verdicts(property.acceptance[..i], records, options)
      invariant used == UsedIds(property.acceptance[..i], ResultRecords(records))
    {
      var c := property.acceptance[i];
      assert property.acceptance[..i + 1][..i] == property.acceptance[..i];
      var e := if c.id in latest then Some(latest[c.id]) else None;
      var red := if c.id in latestRed then Some(latestRed[c.id]) else None;
      if e.Some? {
        used := used + [e.value.id];
      }
      verdicts := verdicts + [Judge(c, e, red, options)];
    }
    assert property.acceptance[..|property.acceptance|] == property.acceptance;
    state := Concluded(property, verdicts, used, options);
  }

  // ---- What a state means ----

  predicate Waiving(property: Property, evidence: seq<Record>) {
    exists e <- evidence :: e.waives && property.id in e.properties
  }

  lemma {:induction false} WaiverFound(records: seq<Record>)
    ensures FirstWaiver(records).Some? <==> exists e <- records :: e.waives
  {
    if records != [] {
      WaiverFound(records[1..]);
      assert forall e :: e in records <==> e == records[0] || e in records[1..];
    }
  }

  /** A record of the criterion that bears on the property: of the result tree, or (red) of the base revision. */
  predicate About(property: Property, e: Record, c: Criterion, red: bool) {
    e.criterionId == Some(c.id) && property.id in e.properties && e.red == red
  }

  /** No such record is newer, and of equally new ones it was recorded last. */
  predicate NewestAbout(property: Property, evidence: seq<Record>, c: Criterion, red: bool, i: nat)
    requires i < |evidence|
  {
    About(property, evidence[i], c, red)
    && forall j :: 0 <= j < |evidence| && About(property, evidence[j], c, red) ==>
         if j <= i then evidence[j].timestamp <= evidence[i].timestamp else evidence[j].timestamp < evidence[i].timestamp
  }

  /** The newest record about a criterion has this outcome. */
  predicate NewestSays(property: Property, evidence: seq<Record>, c: Criterion, red: bool, outcome: Outcome) {
    exists i :: 0 <= i < |evidence| && NewestAbout(property, evidence, c, red, i) && evidence[i].outcome == outcome
  }

  predicate NoneAbout(property: Property, evidence: seq<Record>, c: Criterion, red: bool) {
    forall e <- evidence :: !About(property, e, c, red)
  }

  predicate Passes(property: Property, evidence: seq<Record>, c: Criterion) {
    NewestSays(property, evidence, c, false, Supports)
  }

  predicate Contradicted(property: Property, evidence: seq<Record>, c: Criterion) {
    NewestSays(property, evidence, c, false, Contradicts)
  }

  /** The newest base record contradicts the criterion and is eligible. */
  predicate ShownRed(property: Property, evidence: seq<Record>, c: Criterion) {
    exists i :: 0 <= i < |evidence| && NewestAbout(property, evidence, c, true, i)
                && evidence[i].outcome == Contradicts && evidence[i].eligible
  }

  /** A demonstrated red, here or inherited by a criterion that already passed at the base. */
  predicate Earned(property: Property, evidence: seq<Record>, c: Criterion, flips: map<string, string>) {
    ShownRed(property, evidence, c) || (NewestSays(property, evidence, c, true, Supports) && c.id in flips)
  }

  /** The records the evaluator looks up. */
  function NewestRecord(property: Property, evidence: seq<Record>, c: Criterion, red: bool): Option<Record> {
    var records := Relevant(property, evidence);
    Newest(if red then RedRecords(records) else ResultRecords(records), c.id)
  }

  lemma {:induction false} RelevantSnoc(property: Property, evidence: seq<Record>, e: Record)
    ensures Relevant(property, evidence + [e]) == Relevant(property, evidence) + if property.id in e.properties then [e] else []
  {
    if evidence == [] {
      assert [] + [e] == [e] && [e][1..] == [];
    } else {
      assert (evidence + [e])[0] == evidence[0] && (evidence + [e])[1..] == evidence[1..] + [e];
      RelevantSnoc(property, evidence[1..], e);
    }
  }

  lemma {:induction false} PhaseSnoc(records: seq<Record>, e: Record)
    ensures ResultRecords(records + [e]) == ResultRecords(records) + if e.red then [] else [e]
    ensures RedRecords(records + [e]) == RedRecords(records) + if e.red then [e] else []
  {
    if records == [] {
      assert [] + [e] == [e] && [e][1..] == [];
    } else {
      assert (records + [e])[0] == records[0] && (records + [e])[1..] == records[1..] + [e];
      PhaseSnoc(records[1..], e);
    }
  }

  lemma NewestSnoc(records: seq<Record>, e: Record, c: string)
    ensures Newest(records + [e], c) ==
            var before := Newest(records, c);
            if e.criterionId == Some(c) && (before.None? || e.timestamp >= before.value.timestamp) then Some(e) else before
  {
    assert (records + [e])[..|records|] == records;
  }

  lemma NewestRecordSnoc(property: Property, evidence: seq<Record>, e: Record, c: Criterion, red: bool)
    ensures var before := NewestRecord(property, evidence, c, red);
            NewestRecord(property, evidence + [e], c, red) ==
            if About(property, e, c, red) && (before.None? || e.timestamp >= before.value.timestamp) then Some(e) else before
  {
    var records := Relevant(property, evidence);
    RelevantSnoc(property, evidence, e);
    PhaseSnoc(records, e);
    NewestSnoc(if red then RedRecords(records) else ResultRecords(records), e, c.id);
    assert records + [] == records;
    assert ResultRecords(records) + [] == ResultRecords(records) && RedRecords(records) + [] == RedRecords(records);
    hide Newest, Relevant, RedRecords, ResultRecords;
  }

  /** What is looked up is the newest record about the criterion, where there is one. */
  lemma {:induction false} NewestRecordMeans(property: Property, evidence: seq<Record>, c: Criterion, red: bool)
    ensures var r := NewestRecord(property, evidence, c, red);
            && (r.None? <==> NoneAbout(property, evidence, c, red))
            && (r.Some? ==> exists i :: 0 <= i < |evidence| && NewestAbout(property, evidence, c, red, i) && r == Some(evidence[i]))
  {
    hide NewestRecord;
    if evidence == [] {
      NothingRecorded(property, c, red);
    } else {
      var n := |evidence| - 1;
      var init, e := evidence[..n], evidence[n];
      assert evidence == init + [e];
      NewestRecordMeans(property, init, c, red);
      NewestRecordSnoc(property, init, e, c, red);
      var before := NewestRecord(property, init, c, red);
      if before.Some? {
        var i :| 0 <= i < n && NewestAbout(property, init, c, red, i) && before == Some(init[i]);
        AboutSnoc(property, init, e, c, red, i);
      } else {
        NoneAboutSnoc(property, init, e, c, red);
      }
      hide About, NewestAbout, NoneAbout;
    }
  }

  /** After one more record about the criterion, it or the newest one before is the newest. */
  lemma AboutSnoc(property: Property, init: seq<Record>, e: Record, c: Criterion, red: bool, i: nat)
    requires i < |init| && NewestAbout(property, init, c, red, i)
    ensures NewestAbout(property, init + [e], c, red, if About(property, e, c, red) && e.timestamp >= init[i].timestamp then |init| else i)
    ensures !NoneAbout(property, init + [e], c, red)
  {
    hide About;
    var all := init + [e];
    assert forall j :: 0 <= j < |init| ==> all[j] == init[j];
    assert all[i] in all;
  }

  lemma NoneAboutSnoc(property: Property, init: seq<Record>, e: Record, c: Criterion, red: bool)
    requires NoneAbout(property, init, c, red)
    ensures NoneAbout(property, init + [e], c, red) <==> !About(property, e, c, red)
    ensures About(property, e, c, red) ==> NewestAbout(property, init + [e], c, red, |init|)
  {
    hide About;
    var all := init + [e];
    assert forall j :: 0 <= j < |init| ==> all[j] == init[j] && init[j] in init;
    assert all[|init|] == e;
  }

  lemma NothingRecorded(property: Property, c: Criterion, red: bool)
    ensures NewestRecord(property, [], c, red) == None
  {}

  lemma OneNewest(property: Property, evidence: seq<Record>, c: Criterion, red: bool, i: nat, j: nat)
    requires i < |evidence| && j < |evidence|
    requires NewestAbout(property, evidence, c, red, i) && NewestAbout(property, evidence, c, red, j)
    ensures i == j
  {}

  /** What the evaluator reads off the looked-up record. */
  lemma NewestRecordSays(property: Property, evidence: seq<Record>, c: Criterion)
    ensures var e, red := NewestRecord(property, evidence, c, false), NewestRecord(property, evidence, c, true);
            && (forall outcome :: e.Some? && e.value.outcome == outcome <==> NewestSays(property, evidence, c, false, outcome))
            && (forall outcome :: red.Some? && red.value.outcome == outcome <==> NewestSays(property, evidence, c, true, outcome))
            && (red.Some? && red.value.outcome == Contradicts && red.value.eligible <==> ShownRed(property, evidence, c))
  {
    hide NewestRecord, NewestAbout;
    forall red: bool, outcome
      ensures var e := NewestRecord(property, evidence, c, red);
              e.Some? && e.value.outcome == outcome <==> NewestSays(property, evidence, c, red, outcome)
    {
      NewestIs(property, evidence, c, red);
    }
    NewestIs(property, evidence, c, true);
  }

  lemma NewestIs(property: Property, evidence: seq<Record>, c: Criterion, red: bool)
    ensures forall i :: 0 <= i < |evidence| && NewestAbout(property, evidence, c, red, i) ==>
              NewestRecord(property, evidence, c, red) == Some(evidence[i])
    ensures NewestRecord(property, evidence, c, red).Some? ==> exists i :: 0 <= i < |evidence| && NewestAbout(property, evidence, c, red, i)
  {
    NewestRecordMeans(property, evidence, c, red);
    hide NewestRecord;
    forall i | 0 <= i < |evidence| && NewestAbout(property, evidence, c, red, i)
      ensures NewestRecord(property, evidence, c, red) == Some(evidence[i])
    {
      assert evidence[i] in evidence && !NoneAbout(property, evidence, c, red);
      var j :| 0 <= j < |evidence| && NewestAbout(property, evidence, c, red, j)
               && NewestRecord(property, evidence, c, red) == Some(evidence[j]);
      OneNewest(property, evidence, c, red, i, j);
    }
  }

  /** A command, a file check or a test suite. */
  predicate Mechanical(c: Criterion) {
    c.kind in {Command, File, Suite}
  }

  lemma KindsMean()
    ensures forall c :: Deterministic(c) <==> Mechanical(c)
    ensures forall c :: Discriminating(c) <==> Mechanical(c) && c.discriminating
  {}

  predicate CriterionMet(property: Property, evidence: seq<Record>, c: Criterion, options: Options) {
    Passes(property, evidence, c)
    && (options.requireRedPhase && Mechanical(c) && c.discriminating ==> Earned(property, evidence, c, options.inheritedFlips))
  }

  lemma WaivedMeans(property: Property, evidence: seq<Record>, options: Options)
    ensures Evaluated(property, evidence, options).status == Waived <==> Waiving(property, evidence)
  {
    WaiverFound(Relevant(property, evidence));
    hide First, Verdicts, RedSummary;
  }

  predicate StrongEnough(property: Property, options: Options) {
    (exists c <- property.acceptance :: Mechanical(c)) || !(exists c <- property.acceptance :: c.kind.Agent?) || options.allowAgentOnly
  }

  lemma SatisfiedIds(property: Property, evidence: seq<Record>, options: Options)
    requires Evaluated(property, evidence, options).status == Satisfied
    ensures Evaluated(property, evidence, options).evidenceIds == UsedIds(property.acceptance, ResultRecords(Relevant(property, evidence)))
  {
    hide Verdicts, RedSummary, First, InheritedNames, UsedIds, ResultRecords, Relevant;
  }

  // ---- The whole state, from the evidence ----

  /** Where a criterion stands. */
  function Standing(property: Property, evidence: seq<Record>, c: Criterion, options: Options): VerdictStatus {
    if Contradicted(property, evidence, c) then Fail
    else if NoneAbout(property, evidence, c, false) then Unevaluated
    else if CriterionMet(property, evidence, c, options) then Pass
    else Undecided
  }

  /** It passed, and the red phase asks of it a red it has not shown: it passed at the base too, or nothing was shown. */
  predicate Undiscriminating(property: Property, evidence: seq<Record>, c: Criterion, options: Options) {
    && options.requireRedPhase && Mechanical(c) && c.discriminating && Passes(property, evidence, c)
    && NewestSays(property, evidence, c, true, Supports) && c.id !in options.inheritedFlips
  }

  predicate Undemonstrated(property: Property, evidence: seq<Record>, c: Criterion, options: Options) {
    && options.requireRedPhase && Mechanical(c) && c.discriminating && Passes(property, evidence, c)
    && !NewestSays(property, evidence, c, true, Supports) && !ShownRed(property, evidence, c)
  }

  predicate ByInheritance(property: Property, evidence: seq<Record>, c: Criterion, options: Options) {
    && options.requireRedPhase && Mechanical(c) && c.discriminating && Passes(property, evidence, c)
    && NewestSays(property, evidence, c, true, Supports) && c.id in options.inheritedFlips
  }

  lemma VerdictStands(property: Property, evidence: seq<Record>, i: nat, options: Options)
    requires i < |property.acceptance|
    ensures var v, c := Verdicts(property.acceptance, Relevant(property, evidence), options)[i], property.acceptance[i];
            && v.criterion == c && v.status == Standing(property, evidence, c, options)
            && (v.redPhase == Some(PassedAtBase) <==> Undiscriminating(property, evidence, c, options))
            && (v.redPhase == Some(NoRedEvidence) <==> Undemonstrated(property, evidence, c, options))
            && (v.inherited <==> ByInheritance(property, evidence, c, options))
  {
    var c := property.acceptance[i];
    var newest, red := NewestRecord(property, evidence, c, false), NewestRecord(property, evidence, c, true);
    var vs := Verdicts(property.acceptance, Relevant(property, evidence), options);
    assert vs[i] == Judge(c, newest, if options.requireRedPhase then red else None, options);
    NewestRecordSays(property, evidence, c);
    NewestRecordMeans(property, evidence, c, false);
    hide Newest, Relevant, ResultRecords, RedRecords, Verdicts, NewestRecord;
    JudgeMeans(property, evidence, c, newest, red, options);
  }

  lemma JudgeMeans(property: Property, evidence: seq<Record>, c: Criterion, newest: Option<Record>, red: Option<Record>, options: Options)
    requires newest.None? <==> NoneAbout(property, evidence, c, false)
    requires forall outcome :: newest.Some? && newest.value.outcome == outcome <==> NewestSays(property, evidence, c, false, outcome)
    requires forall outcome :: red.Some? && red.value.outcome == outcome <==> NewestSays(property, evidence, c, true, outcome)
    requires red.Some? && red.value.outcome == Contradicts && red.value.eligible <==> ShownRed(property, evidence, c)
    ensures var v := Judge(c, newest, if options.requireRedPhase then red else None, options);
            && v.criterion == c && v.status == Standing(property, evidence, c, options)
            && (v.redPhase == Some(PassedAtBase) <==> Undiscriminating(property, evidence, c, options))
            && (v.redPhase == Some(NoRedEvidence) <==> Undemonstrated(property, evidence, c, options))
            && (v.inherited <==> ByInheritance(property, evidence, c, options))
  {
    hide NewestSays, ShownRed, NewestAbout, NoneAbout;
    assert Passes(property, evidence, c) <==> newest.Some? && newest.value.outcome == Supports;
    assert Contradicted(property, evidence, c) <==> newest.Some? && newest.value.outcome == Contradicts;
  }

  /** Some criterion stands like this, and of all that do it is the first. */
  predicate FirstStanding(property: Property, evidence: seq<Record>, options: Options, status: VerdictStatus, i: nat)
    requires i < |property.acceptance|
  {
    && Standing(property, evidence, property.acceptance[i], options) == status
    && forall j :: 0 <= j < i ==> Standing(property, evidence, property.acceptance[j], options) != status
  }

  lemma {:induction false} FirstVerdict(vs: seq<Verdict>, status: VerdictStatus)
    ensures First(vs, status).Some? ==> exists i :: 0 <= i < |vs| && vs[i].status == status && First(vs, status) == Some(vs[i])
                                                  && forall j :: 0 <= j < i ==> vs[j].status != status
    ensures First(vs, status).None? ==> forall i :: 0 <= i < |vs| ==> vs[i].status != status
  {
    if vs != [] && vs[0].status != status {
      FirstVerdict(vs[1..], status);
      if First(vs[1..], status).Some? {
        var i :| 0 <= i < |vs[1..]| && vs[1..][i].status == status && First(vs[1..], status) == Some(vs[1..][i])
                 && forall j :: 0 <= j < i ==> vs[1..][j].status != status;
        assert vs[i + 1] == vs[1..][i];
        assert forall j :: 0 < j <= i ==> vs[j] == vs[1..][j - 1];
      } else {
        assert forall j :: 0 < j < |vs| ==> vs[j] == vs[1..][j - 1];
      }
    }
  }

  lemma FirstStands(property: Property, evidence: seq<Record>, options: Options, status: VerdictStatus)
    ensures var first := First(Verdicts(property.acceptance, Relevant(property, evidence), options), status);
            && (first.None? <==> forall c <- property.acceptance :: Standing(property, evidence, c, options) != status)
            && (first.Some? ==> exists i :: 0 <= i < |property.acceptance| && FirstStanding(property, evidence, options, status, i)
                                           && first.value.criterion == property.acceptance[i])
  {
    hide Standing, First, FirstStanding;
    var vs := Verdicts(property.acceptance, Relevant(property, evidence), options);
    forall i | 0 <= i < |vs| ensures vs[i].status == Standing(property, evidence, property.acceptance[i], options)
                                     && vs[i].criterion == property.acceptance[i]
    {
      VerdictStands(property, evidence, i, options);
    }
    FirstVerdict(vs, status);
    hide Verdicts, Relevant;
    var first := First(vs, status);
    if first.Some? {
      var i :| 0 <= i < |vs| && vs[i].status == status && first == Some(vs[i]) && forall j :: 0 <= j < i ==> vs[j].status != status;
      FirstMeans(property, evidence, options, status, i);
      assert property.acceptance[i] in property.acceptance;
    } else {
      forall c | c in property.acceptance ensures Standing(property, evidence, c, options) != status {
        var i :| 0 <= i < |vs| && property.acceptance[i] == c;
      }
    }
  }

  lemma FirstMeans(property: Property, evidence: seq<Record>, options: Options, status: VerdictStatus, i: nat)
    requires i < |property.acceptance| && Standing(property, evidence, property.acceptance[i], options) == status
    requires forall j :: 0 <= j < i ==> Standing(property, evidence, property.acceptance[j], options) != status
    ensures FirstStanding(property, evidence, options, status, i)
  {}

  predicate SomeStands(property: Property, evidence: seq<Record>, options: Options, status: VerdictStatus) {
    exists c <- property.acceptance :: Standing(property, evidence, c, options) == status
  }

  /** The worst standing decides, and where none is bad, whether more than agents vouch for it. */
  lemma StatusMeans(property: Property, evidence: seq<Record>, options: Options)
    ensures Evaluated(property, evidence, options).status ==
            if Waiving(property, evidence) then Waived
            else if SomeStands(property, evidence, options, Fail) then Unsatisfied
            else if SomeStands(property, evidence, options, Undecided) then Indeterminate
            else if SomeStands(property, evidence, options, Unevaluated) then
              if property.id in options.inProgress then InProgress else Unknown
            else if StrongEnough(property, options) then Satisfied
            else Indeterminate
  {
    WaivedMeans(property, evidence, options);
    StatusOfVerdicts(property, evidence, options);
    hide Verdicts, First, Standing, Relevant, Waiving, FirstStanding, Evaluated;
    FirstStands(property, evidence, options, Fail);
    FirstStands(property, evidence, options, Undecided);
    FirstStands(property, evidence, options, Unevaluated);
    if forall c <- property.acceptance :: Standing(property, evidence, c, options) == Pass {
      PassingKinds(property, evidence, options);
    } else {
      var c :| c in property.acceptance && Standing(property, evidence, c, options) != Pass;
      match Standing(property, evidence, c, options) case Fail => case Undecided => case Unevaluated => case Pass =>
    }
  }

  lemma StatusOfVerdicts(property: Property, evidence: seq<Record>, options: Options)
    ensures var vs := Verdicts(property.acceptance, Relevant(property, evidence), options);
            Evaluated(property, evidence, options).status != Waived ==>
              Evaluated(property, evidence, options).status ==
              if First(vs, Fail).Some? then Unsatisfied
              else if First(vs, Undecided).Some? then Indeterminate
              else if First(vs, Unevaluated).Some? then if property.id in options.inProgress then InProgress else Unknown
              else if (exists v <- vs :: v.status == Pass && Deterministic(v.criterion))
                      || !(exists v <- vs :: v.status == Pass && v.criterion.kind.Agent?) || options.allowAgentOnly then Satisfied
              else Indeterminate
  {
    hide Verdicts, First, RedSummary, Relevant, UsedIds, InheritedNames, ResultRecords, FirstWaiver;
  }

  lemma KindsShown(property: Property, vs: seq<Verdict>)
    requires |vs| == |property.acceptance|
    requires forall i :: 0 <= i < |vs| ==> vs[i].status == Pass && vs[i].criterion == property.acceptance[i]
    ensures (exists v <- vs :: v.status == Pass && Deterministic(v.criterion)) <==> exists c <- property.acceptance :: Deterministic(c)
    ensures (exists v <- vs :: v.status == Pass && v.criterion.kind.Agent?) <==> exists c <- property.acceptance :: c.kind.Agent?
  {
    hide Deterministic;
    forall c | c in property.acceptance ensures exists v <- vs :: v.status == Pass && v.criterion == c {
      var i :| 0 <= i < |vs| && property.acceptance[i] == c;
      assert vs[i] in vs;
    }
  }

  lemma PassingKinds(property: Property, evidence: seq<Record>, options: Options)
    requires forall c <- property.acceptance :: Standing(property, evidence, c, options) == Pass
    ensures var vs := Verdicts(property.acceptance, Relevant(property, evidence), options);
            && ((exists v <- vs :: v.status == Pass && Deterministic(v.criterion)) <==> exists c <- property.acceptance :: Mechanical(c))
            && ((exists v <- vs :: v.status == Pass && v.criterion.kind.Agent?) <==> exists c <- property.acceptance :: c.kind.Agent?)
  {
    var vs := Verdicts(property.acceptance, Relevant(property, evidence), options);
    forall i | 0 <= i < |vs| ensures vs[i].status == Pass && vs[i].criterion == property.acceptance[i] {
      VerdictStands(property, evidence, i, options);
      assert property.acceptance[i] in property.acceptance;
    }
    hide Verdicts, Relevant, Standing;
    KindsMean();
    KindsShown(property, vs);
  }

  lemma StandingPasses(property: Property, evidence: seq<Record>, options: Options)
    ensures (forall c <- property.acceptance :: CriterionMet(property, evidence, c, options)) <==>
            && !SomeStands(property, evidence, options, Fail) && !SomeStands(property, evidence, options, Undecided)
            && !SomeStands(property, evidence, options, Unevaluated)
  {
    forall c | c in property.acceptance
      ensures CriterionMet(property, evidence, c, options) <==> Standing(property, evidence, c, options) == Pass
    {
      NewestRecordSays(property, evidence, c);
      NewestRecordMeans(property, evidence, c, false);
      hide NewestRecord, NewestSays, NoneAbout, Earned;
    }
    hide CriterionMet, Standing;
    forall c | c in property.acceptance && Standing(property, evidence, c, options) != Pass
      ensures SomeStands(property, evidence, options, Fail) || SomeStands(property, evidence, options, Undecided)
              || SomeStands(property, evidence, options, Unevaluated)
    {
      match Standing(property, evidence, c, options) case Fail => case Undecided => case Unevaluated => case Pass =>
    }
  }

  /**
   * So a property is satisfied exactly when it is not waived, the newest result record about every criterion supports it,
   * every discriminating criterion shows a red (when the red phase is required), and agents are not its only witnesses
   * (unless that is allowed).
   */
  lemma SatisfiedMeans(property: Property, evidence: seq<Record>, options: Options)
    ensures Evaluated(property, evidence, options).status == Satisfied <==>
            && !Waiving(property, evidence) && StrongEnough(property, options)
            && forall c <- property.acceptance :: CriterionMet(property, evidence, c, options)
  {
    StatusMeans(property, evidence, options);
    StandingPasses(property, evidence, options);
    hide Evaluated, CriterionMet, SomeStands, StrongEnough, Waiving;
  }

  /** And unsatisfied exactly when the newest result record about some criterion contradicts it; red records play no part. */
  lemma UnsatisfiedMeans(property: Property, evidence: seq<Record>, options: Options)
    ensures Evaluated(property, evidence, options).status == Unsatisfied <==>
            && !Waiving(property, evidence)
            && exists c <- property.acceptance :: Contradicted(property, evidence, c)
  {
    StatusMeans(property, evidence, options);
    hide Evaluated, CriterionMet, StrongEnough, Waiving, Contradicted, NoneAbout;
  }

  /** The criterion a reason names is the first that stands that way. */
  lemma AboutMeans(property: Property, evidence: seq<Record>, options: Options)
    ensures var state := Evaluated(property, evidence, options);
            var status := if state.status == Unsatisfied then Fail else if state.status == Indeterminate then Undecided else Unevaluated;
            state.status in {Unsatisfied, Indeterminate, InProgress, Unknown} && SomeStands(property, evidence, options, status) ==>
              exists i :: 0 <= i < |property.acceptance| && FirstStanding(property, evidence, options, status, i)
                          && state.about == [property.acceptance[i].id]
  {
    StatusMeans(property, evidence, options);
    WaivedMeans(property, evidence, options);
    FirstStands(property, evidence, options, Fail);
    FirstStands(property, evidence, options, Undecided);
    FirstStands(property, evidence, options, Unevaluated);
    hide Verdicts, First, RedSummary, Standing, StrongEnough, CriterionMet, Relevant, UsedIds, InheritedNames, Waiving, FirstStanding;
  }

  lemma RedVerdicts(property: Property, evidence: seq<Record>, options: Options)
    ensures var vs := Verdicts(property.acceptance, Relevant(property, evidence), options);
            && ((exists v <- vs :: v.redPhase == Some(PassedAtBase))
                <==> exists c <- property.acceptance :: Undiscriminating(property, evidence, c, options))
            && ((exists v <- vs :: v.redPhase == Some(NoRedEvidence))
                <==> exists c <- property.acceptance :: Undemonstrated(property, evidence, c, options))
  {
    var vs := Verdicts(property.acceptance, Relevant(property, evidence), options);
    forall i | 0 <= i < |vs|
      ensures vs[i].redPhase == Some(PassedAtBase) <==> Undiscriminating(property, evidence, property.acceptance[i], options)
      ensures vs[i].redPhase == Some(NoRedEvidence) <==> Undemonstrated(property, evidence, property.acceptance[i], options)
    {
      VerdictStands(property, evidence, i, options);
    }
    hide Verdicts, Relevant, Undiscriminating, Undemonstrated, ByInheritance;
    Somewhere(property.acceptance, vs, (v: Verdict) => v.redPhase == Some(PassedAtBase),
              (c: Criterion) => Undiscriminating(property, evidence, c, options));
    Somewhere(property.acceptance, vs, (v: Verdict) => v.redPhase == Some(NoRedEvidence),
              (c: Criterion) => Undemonstrated(property, evidence, c, options));
  }

  lemma Somewhere(acceptance: seq<Criterion>, vs: seq<Verdict>, shows: Verdict -> bool, holds: Criterion -> bool)
    requires |vs| == |acceptance| && forall i :: 0 <= i < |vs| ==> (shows(vs[i]) <==> holds(acceptance[i]))
    ensures (exists v <- vs :: shows(v)) <==> exists c <- acceptance :: holds(c)
  {
    if v :| v in vs && shows(v) {
      var i :| 0 <= i < |vs| && vs[i] == v;
      assert acceptance[i] in acceptance;
    }
    if c :| c in acceptance && holds(c) {
      var i :| 0 <= i < |vs| && acceptance[i] == c;
      assert vs[i] in vs;
    }
  }

  /** What the red phase reports of a property: the worst of its discriminating criteria. */
  lemma RedPhaseMeans(property: Property, evidence: seq<Record>, options: Options)
    requires !Waiving(property, evidence)
    ensures Evaluated(property, evidence, options).redPhase ==
            if !options.requireRedPhase || (forall c <- property.acceptance :: !(Mechanical(c) && c.discriminating)) then None
            else if exists c <- property.acceptance :: Undiscriminating(property, evidence, c, options) then Some(PassedAtBase)
            else if exists c <- property.acceptance :: Undemonstrated(property, evidence, c, options) then Some(NoRedEvidence)
            else Some(Flipped)
  {
    KindsMean();
    WaivedMeans(property, evidence, options);
    RedVerdicts(property, evidence, options);
    ConcludedRedPhase(property, evidence, options);
    hide Verdicts, Evaluated, Relevant, Undiscriminating, Undemonstrated, Discriminating, Waiving, ByInheritance;
  }

  lemma ConcludedRedPhase(property: Property, evidence: seq<Record>, options: Options)
    requires Evaluated(property, evidence, options).status != Waived
    ensures Evaluated(property, evidence, options).redPhase ==
            RedSummary(property.acceptance, Verdicts(property.acceptance, Relevant(property, evidence), options), options)
  {
    hide Verdicts, Relevant, RedSummary, First, UsedIds, InheritedNames;
  }

  lemma ConcludedIds(property: Property, evidence: seq<Record>, options: Options)
    requires Evaluated(property, evidence, options).status != Waived
    ensures Evaluated(property, evidence, options).evidenceIds == UsedIds(property.acceptance, ResultRecords(Relevant(property, evidence)))
  {
    hide Verdicts, Relevant, RedSummary, First, UsedIds, InheritedNames, ResultRecords;
  }

  lemma {:induction false} UsedIdsMean(property: Property, evidence: seq<Record>, acceptance: seq<Criterion>, id: string)
    ensures id in UsedIds(acceptance, ResultRecords(Relevant(property, evidence))) <==>
            exists c <- acceptance :: CitesFor(property, evidence, c, id)
  {
    if acceptance != [] {
      var n := |acceptance| - 1;
      var init, c := acceptance[..n], acceptance[n];
      assert acceptance == init + [c];
      UsedIdsMean(property, evidence, init, id);
      NewestIs(property, evidence, c, false);
      assert Newest(ResultRecords(Relevant(property, evidence)), c.id) == NewestRecord(property, evidence, c, false);
      hide Newest, Relevant, ResultRecords, NewestAbout, NewestRecord;
      assert CitesFor(property, evidence, c, id) <==>
        NewestRecord(property, evidence, c, false).Some? && NewestRecord(property, evidence, c, false).value.id == id;
    }
  }

  lemma ConcludedWaiver(property: Property, evidence: seq<Record>, options: Options)
    requires Evaluated(property, evidence, options).status == Waived
    ensures var waiver := FirstWaiver(Relevant(property, evidence));
            waiver.Some? && Evaluated(property, evidence, options).evidenceIds == [waiver.value.id]
  {
    hide Verdicts, Relevant, RedSummary, First, UsedIds, InheritedNames, ResultRecords, FirstWaiver;
  }

  /** The newest result record about the criterion has this id. */
  predicate CitesFor(property: Property, evidence: seq<Record>, c: Criterion, id: string) {
    exists i :: 0 <= i < |evidence| && NewestAbout(property, evidence, c, false, i) && evidence[i].id == id
  }

  /** A state cites the waiver, the first there is; any other cites the newest result record about each criterion. */
  lemma EvidenceIdsMean(property: Property, evidence: seq<Record>, options: Options)
    ensures Waiving(property, evidence) ==>
              exists i :: 0 <= i < |evidence| && FirstWaiving(property, evidence, i)
                          && Evaluated(property, evidence, options).evidenceIds == [evidence[i].id]
    ensures !Waiving(property, evidence) ==>
              forall id :: id in Evaluated(property, evidence, options).evidenceIds <==>
                           exists c <- property.acceptance :: CitesFor(property, evidence, c, id)
  {
    WaivedMeans(property, evidence, options);
    if Waiving(property, evidence) {
      WaiverIsFirst(property, evidence);
      ConcludedWaiver(property, evidence, options);
      hide Evaluated, FirstWaiving, FirstWaiver, Relevant, Waiving;
    } else {
      ConcludedIds(property, evidence, options);
      hide Evaluated, CitesFor, UsedIds;
      forall id: string ensures id in Evaluated(property, evidence, options).evidenceIds <==>
                                exists c <- property.acceptance :: CitesFor(property, evidence, c, id)
      {
        UsedIdsMean(property, evidence, property.acceptance, id);
      }
    }
  }

  predicate FirstWaiving(property: Property, evidence: seq<Record>, i: nat)
    requires i < |evidence|
  {
    && evidence[i].waives && property.id in evidence[i].properties
    && forall j :: 0 <= j < i ==> !(evidence[j].waives && property.id in evidence[j].properties)
  }

  lemma {:induction false} WaiverIsFirst(property: Property, evidence: seq<Record>)
    ensures var waiver := FirstWaiver(Relevant(property, evidence));
            waiver.Some? ==> exists i :: 0 <= i < |evidence| && FirstWaiving(property, evidence, i) && waiver == Some(evidence[i])
  {
    if evidence != [] {
      var e, rest := evidence[0], evidence[1..];
      WaiverIsFirst(property, rest);
      if property.id in e.properties && e.waives {
        assert FirstWaiving(property, evidence, 0);
      } else if FirstWaiver(Relevant(property, rest)).Some? {
        var i :| 0 <= i < |rest| && FirstWaiving(property, rest, i) && FirstWaiver(Relevant(property, rest)) == Some(rest[i]);
        assert forall j :: 0 < j <= i ==> evidence[j] == rest[j - 1];
        assert FirstWaiving(property, evidence, i + 1);
      }
    }
  }

  /** The red phase only withholds: without it a satisfied property stays satisfied, on the same evidence. */
  lemma {:induction false} DroppingRedPhaseKeeps(property: Property, evidence: seq<Record>, options: Options)
    requires Evaluated(property, evidence, options).status == Satisfied
    ensures var without := Evaluated(property, evidence, options.(requireRedPhase := false));
            without.status == Satisfied && without.evidenceIds == Evaluated(property, evidence, options).evidenceIds
  {
    var without := options.(requireRedPhase := false);
    SatisfiedMeans(property, evidence, options);
    SatisfiedMeans(property, evidence, without);
    SatisfiedIds(property, evidence, options);
    SatisfiedIds(property, evidence, without);
    hide Evaluated, Passes, Earned, Waiving;
  }

  /** Evidence is called weak exactly when every criterion passes and none of them is deterministic. */
  lemma WeakMeans(property: Property, evidence: seq<Record>, options: Options)
    ensures Evaluated(property, evidence, options).weakEvidence <==>
            && !Waiving(property, evidence)
            && (forall c <- property.acceptance :: Standing(property, evidence, c, options) == Pass)
            && !exists c <- property.acceptance :: Mechanical(c)
  {
    KindsMean();
    WaivedMeans(property, evidence, options);
    FirstStands(property, evidence, options, Fail);
    FirstStands(property, evidence, options, Undecided);
    FirstStands(property, evidence, options, Unevaluated);
    if forall c <- property.acceptance :: Standing(property, evidence, c, options) == Pass {
      PassingKinds(property, evidence, options);
    }
    hide Verdicts, First, RedSummary, Standing, CriterionMet, Relevant, UsedIds, InheritedNames, Waiving, FirstStanding, Deterministic,
      ResultRecords, FirstWaiver;
  }

  lemma {:induction false} InheritedNamed(vs: seq<Verdict>, id: string)
    ensures id in InheritedNames(vs) <==> exists v <- vs :: v.inherited && v.criterion.id == id
  {
    if vs != [] {
      var n := |vs| - 1;
      InheritedNamed(vs[..n], id);
      assert vs == vs[..n] + [vs[n]];
    }
  }

  lemma ConcludedAbout(property: Property, evidence: seq<Record>, options: Options)
    requires Evaluated(property, evidence, options).status == Satisfied
    ensures Evaluated(property, evidence, options).about == InheritedNames(Verdicts(property.acceptance, Relevant(property, evidence), options))
  {
    hide Verdicts, Relevant, RedSummary, First, UsedIds, InheritedNames, Deterministic, ResultRecords;
  }

  /** A satisfied state names exactly the criteria whose flip is an ancestor's. */
  lemma SatisfiedNames(property: Property, evidence: seq<Record>, options: Options, id: string)
    requires Evaluated(property, evidence, options).status == Satisfied
    ensures id in Evaluated(property, evidence, options).about <==>
            exists c <- property.acceptance :: ByInheritance(property, evidence, c, options) && c.id == id
  {
    ConcludedAbout(property, evidence, options);
    var vs := Verdicts(property.acceptance, Relevant(property, evidence), options);
    InheritedNamed(vs, id);
    forall i | 0 <= i < |vs|
      ensures vs[i].inherited && vs[i].criterion.id == id <==>
              ByInheritance(property, evidence, property.acceptance[i], options) && property.acceptance[i].id == id
    {
      VerdictStands(property, evidence, i, options);
    }
    hide Verdicts, Relevant, Evaluated, InheritedNames, ByInheritance;
    Somewhere(property.acceptance, vs, (v: Verdict) => v.inherited && v.criterion.id == id,
              (c: Criterion) => ByInheritance(property, evidence, c, options) && c.id == id);
  }

  /** What a satisfied state reports beside its status: clean flips, and weak evidence when nothing deterministic passed. */
  lemma {:induction false} SatisfiedReports(property: Property, evidence: seq<Record>, options: Options)
    requires Evaluated(property, evidence, options).status == Satisfied
    ensures var state := Evaluated(property, evidence, options);
            && state.redPhase == (if options.requireRedPhase && exists c <- property.acceptance :: Mechanical(c) && c.discriminating
                                  then Some(Flipped) else None)
            && (state.weakEvidence <==> !exists c <- property.acceptance :: Mechanical(c))
  {
    SatisfiedMeans(property, evidence, options);
    WaivedMeans(property, evidence, options);
    RedPhaseMeans(property, evidence, options);
    WeakMeans(property, evidence, options);
    forall c | c in property.acceptance
      ensures !Undiscriminating(property, evidence, c, options) && !Undemonstrated(property, evidence, c, options)
    {
      MetIsClean(property, evidence, c, options);
    }
    StandingPasses(property, evidence, options);
    assert forall c <- property.acceptance :: Standing(property, evidence, c, options) == Pass by {
      hide Evaluated, Standing, CriterionMet, Undiscriminating, Undemonstrated;
    }
    hide *;
  }

  lemma MetIsClean(property: Property, evidence: seq<Record>, c: Criterion, options: Options)
    requires CriterionMet(property, evidence, c, options)
    ensures !Undiscriminating(property, evidence, c, options) && !Undemonstrated(property, evidence, c, options)
  {
    NewestRecordSays(property, evidence, c);
    hide NewestRecord, NewestSays, ShownRed, Passes;
  }

  // ---- Flips inherited from ancestor runs ----

  type RunId = string

  /** What run metadata says of a run's parent; a run without metadata has none. */
  function ParentOf(parents: map<RunId, Option<RunId>>, run: RunId): Option<RunId> {
    if run in parents then parents[run] else None
  }

  predicate Follows(parents: map<RunId, Option<RunId>>, parent: Option<RunId>, ids: seq<RunId>) {
    forall i :: 0 <= i < |ids| ==> ids[i] != "" && Some(ids[i]) == if i == 0 then parent else ParentOf(parents, ids[i - 1])
  }

  function NextOf(parents: map<RunId, Option<RunId>>, parent: Option<RunId>, ids: seq<RunId>): Option<RunId> {
    if ids == [] then parent else ParentOf(parents, ids[|ids| - 1])
  }

  lemma NoAncestorsYet(parents: map<RunId, Option<RunId>>, parent: Option<RunId>)
    ensures Follows(parents, parent, []) && NextOf(parents, parent, []) == parent
  {}

  lemma NextOfLast(parents: map<RunId, Option<RunId>>, parent: Option<RunId>, ids: seq<RunId>, run: RunId)
    requires Follows(parents, parent, ids) && NextOf(parents, parent, ids) == Some(run) && run != ""
    ensures Follows(parents, parent, ids + [run]) && NextOf(parents, parent, ids + [run]) == ParentOf(parents, run)
  {
    var more := ids + [run];
    assert more[|more| - 1] == run && more != [];
    assert forall i :: 0 <= i < |ids| ==> more[i] == ids[i];
  }

  /** The parent chain, up to a run without a parent or one met before: it ends even when the records form a cycle. */
  method Ancestors(parents: map<RunId, Option<RunId>>, run: RunId, parent: Option<RunId>) returns (ids: seq<RunId>)
    ensures Follows(parents, parent, ids) && NoRepeats([run] + ids)
    ensures var next := NextOf(parents, parent, ids); next.None? || next.value == "" || next.value in [run] + ids
  {
    hide Follows, NextOf;
    ids := [];
    var visited, cursor := {run}, parent;
    NoAncestorsYet(parents, parent);
    while cursor.Some? && cursor.value != "" && cursor.value !in visited
      invariant Follows(parents, parent, ids) && NoRepeats([run] + ids)
      invariant cursor == NextOf(parents, parent, ids)
      invariant forall x :: x in visited <==> x in [run] + ids
      decreases parents.Keys - visited, cursor.Some?
    {
      ghost var before := visited;
      assert [run] + (ids + [cursor.value]) == ([run] + ids) + [cursor.value];
      visited := visited + {cursor.value};
      NextOfLast(parents, parent, ids, cursor.value);
      ids := ids + [cursor.value];
      assert parents.Keys - visited <= parents.Keys - before;
      if cursor.value in parents {
        assert cursor.value in parents.Keys - before && cursor.value !in parents.Keys - visited;
      }
      cursor := ParentOf(parents, cursor.value);
    }
  }

  /** Both an eligible red and a green of the criterion. */
  predicate ShowsFlip(records: seq<Record>, c: string) {
    && c != ""
    && (exists e <- records :: e.criterionId == Some(c) && e.red && e.outcome == Contradicts && e.eligible)
    && (exists e <- records :: e.criterionId == Some(c) && !e.red && e.outcome == Supports)
  }

  /** adoptAncestorFlips: the nearest ancestor comes first, and keeps what it gave. */
  method AdoptAncestorFlips(records: seq<Record>, priorId: RunId, inherited: map<string, RunId>) returns (flips: map<string, RunId>)
    ensures forall c :: c in flips <==> c in inherited || ShowsFlip(records, c)
    ensures forall c <- flips :: flips[c] == if c in inherited then inherited[c] else priorId
  {
    var sawRed: set<string>, sawGreen: set<string> := {}, {};
    for i := 0 to |records|
      invariant forall c :: c in sawRed <==>
                  c != "" && exists e <- records[..i] :: e.criterionId == Some(c) && e.red && e.outcome == Contradicts && e.eligible
      invariant forall c :: c in sawGreen <==>
                  c != "" && exists e <- records[..i] :: e.criterionId == Some(c) && !e.red && e.outcome == Supports
    {
      var e := records[i];
      assert forall x :: x in records[..i + 1] <==> x == e || x in records[..i];
      if e.criterionId.Some? && e.criterionId.value != "" {
        if e.red && e.outcome == Contradicts && e.eligible {
          sawRed := sawRed + {e.criterionId.value};
        }
        if !e.red && e.outcome == Supports {
          sawGreen := sawGreen + {e.criterionId.value};
        }
      }
    }
    assert records[..|records|] == records;
    flips := inherited;
    var todo := sawGreen;
    while todo != {}
      invariant todo <= sawGreen
      invariant forall c :: c in flips <==> c in inherited || (c in sawGreen - todo && c in sawRed)
      invariant forall c <- flips :: flips[c] == if c in inherited then inherited[c] else priorId
    {
      var c :| c in todo;
      if c in sawRed && c !in flips {
        flips := flips[c := priorId];
      }
      todo := todo - {c};
    }
  }

  /** The evidence an ancestor left: absent or unreadable files are no source of flips. */
  predicate ShownBy(logs: map<RunId, seq<Record>>, run: RunId, c: string) {
    run in logs && ShowsFlip(logs[run], c)
  }

  /** Exactly the criteria some ancestor shows, each credited to the nearest that does. */
  ghost predicate InheritedFrom(flips: map<string, RunId>, logs: map<RunId, seq<Record>>, ids: seq<RunId>) {
    && (forall c <- flips :: exists i :: 0 <= i < |ids| && NearestShowing(logs, ids, i, c) && flips[c] == ids[i])
    && (forall i, c :: 0 <= i < |ids| && ShownBy(logs, ids[i], c) ==> c in flips)
  }

  predicate NearestShowing(logs: map<RunId, seq<Record>>, ids: seq<RunId>, i: nat, c: string)
    requires i < |ids|
  {
    ShownBy(logs, ids[i], c) && forall j :: 0 <= j < i ==> !ShownBy(logs, ids[j], c)
  }

  method CollectFlips(logs: map<RunId, seq<Record>>, ids: seq<RunId>) returns (flips: map<string, RunId>)
    ensures InheritedFrom(flips, logs, ids)
  {
    hide ShowsFlip;
    flips := map[];
    for n := 0 to |ids|
      invariant InheritedFrom(flips, logs, ids[..n])
    {
      var before := flips;
      if ids[n] in logs {
        flips := AdoptAncestorFlips(logs[ids[n]], ids[n], flips);
      }
      OneMoreAncestor(before, flips, logs, ids[..n], ids[n]);
      assert ids[..n + 1] == ids[..n] + [ids[n]];
    }
    assert ids[..|ids|] == ids;
  }

  lemma OneMoreAncestor(before: map<string, RunId>, flips: map<string, RunId>, logs: map<RunId, seq<Record>>, ids: seq<RunId>, run: RunId)
    requires InheritedFrom(before, logs, ids)
    requires forall c :: c in flips <==> c in before || ShownBy(logs, run, c)
    requires forall c <- flips :: flips[c] == if c in before then before[c] else run
    ensures InheritedFrom(flips, logs, ids + [run])
  {
    hide ShownBy;
    var more := ids + [run];
    forall c | c in flips ensures exists i :: 0 <= i < |more| && NearestShowing(logs, more, i, c) && flips[c] == more[i] {
      if c in before {
        var i :| 0 <= i < |ids| && NearestShowing(logs, ids, i, c) && before[c] == ids[i];
        assert NearestShowing(logs, more, i, c);
      } else {
        forall j | 0 <= j < |ids| ensures !ShownBy(logs, more[j], c) {
          assert !ShownBy(logs, ids[j], c);
        }
        assert NearestShowing(logs, more, |ids|, c);
      }
    }
    forall i, c | 0 <= i < |more| && ShownBy(logs, more[i], c) ensures c in flips {
      if i < |ids| {
        assert ShownBy(logs, ids[i], c);
      }
    }
  }

  /**
   * Under the red phase every satisfied discriminating criterion has its red: the newest base record contradicts it and
   * is eligible, or an ancestor's evidence holds both an eligible red and a green for it.
   */
  lemma {:induction false} SatisfiedIsEarned(property: Property, evidence: seq<Record>, options: Options,
                                             logs: map<RunId, seq<Record>>, ids: seq<RunId>, c: Criterion)
    requires options.requireRedPhase && InheritedFrom(options.inheritedFlips, logs, ids)
    requires Evaluated(property, evidence, options).status == Satisfied && c in property.acceptance
    requires Mechanical(c) && c.discriminating
    ensures Passes(property, evidence, c)
    ensures ShownRed(property, evidence, c) || exists run <- ids :: ShownBy(logs, run, c.id)
  {
    SatisfiedMeans(property, evidence, options);
    assert CriterionMet(property, evidence, c, options);
    if c.id in options.inheritedFlips {
      var i :| 0 <= i < |ids| && NearestShowing(logs, ids, i, c.id) && options.inheritedFlips[c.id] == ids[i];
      assert ids[i] in ids && ShownBy(logs, ids[i], c.id);
    }
    hide Evaluated, ShownBy, NewestSays, ShownRed, Passes;
  }

  // ---- Completion ----

  /** mustPropertiesSatisfied. */
  predicate MustPropertiesSatisfied(properties: seq<Property>, states: map<string, RequirementState>) {
    forall p <- properties | p.priority == Must :: p.id in states && states[p.id].status in {Satisfied, Waived}
  }

  /** When the states are those the evaluator derives, a complete run has proved or waived every must property. */
  lemma CompletionIsEarned(properties: seq<Property>, evidence: seq<Record>, options: Options, states: map<string, RequirementState>)
    requires forall p <- properties :: p.id in states && states[p.id] == Evaluated(p, evidence, options)
    ensures MustPropertiesSatisfied(properties, states) <==>
            forall p <- properties | p.priority == Must ::
              || Waiving(p, evidence)
              || (StrongEnough(p, options) && forall c <- p.acceptance :: CriterionMet(p, evidence, c, options))
  {
    hide Evaluated, Waiving, StrongEnough, CriterionMet;
    forall p | p in properties
      ensures states[p.id].status in {Satisfied, Waived} <==>
              || Waiving(p, evidence)
              || (StrongEnough(p, options) && forall c <- p.acceptance :: CriterionMet(p, evidence, c, options))
    {
      SatisfiedMeans(p, evidence, options);
      WaivedMeans(p, evidence, options);
    }
  }
}
