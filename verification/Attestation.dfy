/**
 * attestation.ts and the attestation check of replay.ts: a run commits to its log when it completes, and a replay
 * holds the log it finds against that commitment.
 */
module Attestation {
  import opened Wrappers
  import opened LogFile
  import EventLog
  import EvidenceLog

  const RUN_ATTESTED := "RUN_ATTESTED"

  datatype RunAttestation = RunAttestation(eventCount: nat, eventChainHead: Digest, evidenceHead: Digest)

  datatype Verdict = Missing | BrokenPrefix | Verified | ExtendedAfterAttestation

  /** The ordered ids and digests: all the evidence head covers. */
  function Heads(evidence: seq<Evidence>): (heads: seq<(EvidenceId, Digest)>)
    ensures |heads| == |evidence|
    ensures forall i :: 0 <= i < |evidence| ==> heads[i] == (evidence[i].id, evidence[i].digest)
  {
    seq(|evidence|, i requires 0 <= i < |evidence| => (evidence[i].id, evidence[i].digest))
  }

  function EvidenceHeadOf(evidence: seq<Evidence>): Digest {
    OfHeads(Heads(evidence))
  }

  function HeadOrGenesis(events: seq<Event>): Digest {
    if events == [] then Genesis else OfEvent(events[|events| - 1])
  }

  function Commitment(events: seq<Event>, evidence: seq<Evidence>): RunAttestation {
    RunAttestation(|events|, HeadOrGenesis(events), EvidenceHeadOf(evidence))
  }

  /** attestRun: what attestation.json records, and the RUN_ATTESTED event that follows the prefix it covers. */
  method AttestRun(events: EventLog.EventStore, evidence: seq<Evidence>, draft: EventLog.Draft) returns (recorded: RunAttestation)
    requires draft.kind == RUN_ATTESTED
    modifies events, events.disk
    ensures recorded == Commitment(old(events.events), evidence)
    ensures |events.events| == |old(events.events)| + 1 && old(events.events) <= events.events
    ensures events.events[|old(events.events)|].kind == RUN_ATTESTED
    ensures events.disk.file == Appended(old(events.disk.file), events.events[|old(events.events)|])
  {
    var head := events.ChainHead();
    recorded := RunAttestation(|events.events|, if head.Some? then head.value else Genesis, EvidenceHeadOf(evidence));
    var _ := events.Append(draft);
  }

  /** The attestation check of replayRun, over the logs it loaded. */
  method CheckAttestation(attestation: Option<RunAttestation>, all: seq<Event>, evidence: seq<Evidence>) returns (verdict: Verdict)
    ensures verdict == Judged(attestation, all, evidence)
  {
    verdict := Missing;
    if attestation.Some? {
      var recorded := attestation.value;
      var prefix := if |all| < recorded.eventCount then all else all[..recorded.eventCount];
      if |prefix| < recorded.eventCount {
        verdict := BrokenPrefix;
      } else {
        var headAtN := if |prefix| > 0 then OfEvent(prefix[|prefix| - 1]) else Genesis;
        var evHead := EvidenceHeadOf(evidence);
        if headAtN != recorded.eventChainHead || evHead != recorded.evidenceHead {
          verdict := BrokenPrefix;
        } else if |all| > recorded.eventCount {
          var i := recorded.eventCount;
          verdict := Verified;
          while i < |all|
            invariant recorded.eventCount <= i <= |all|
            invariant verdict == Verified || verdict == ExtendedAfterAttestation
            invariant verdict == Verified <==> forall k :: recorded.eventCount <= k < i ==> all[k].kind == RUN_ATTESTED
          {
            if all[i].kind != RUN_ATTESTED {
              verdict := ExtendedAfterAttestation;
            }
            i := i + 1;
          }
        } else {
          verdict := Verified;
        }
      }
    }
  }

  /** Whether the log still holds what was committed to, as the check sees it. */
  predicate Holds(recorded: RunAttestation, all: seq<Event>, evidence: seq<Evidence>) {
    && recorded.eventCount <= |all|
    && recorded == Commitment(all[..recorded.eventCount], evidence)
  }

  function Judged(attestation: Option<RunAttestation>, all: seq<Event>, evidence: seq<Evidence>): Verdict {
    if attestation.None? then Missing
    else if !Holds(attestation.value, all, evidence) then BrokenPrefix
    else if forall k :: attestation.value.eventCount <= k < |all| ==> all[k].kind == RUN_ATTESTED then Verified
    else ExtendedAfterAttestation
  }

  /**
   * Against a commitment made over a chained log, a chained log that loads is judged broken exactly when its first N
   * events are not those committed to, or the evidence ids and digests are not.
   */
  lemma {:induction false} BrokenMeansRewritten(xs: seq<Event>, attested: seq<Evidence>, all: seq<Event>, evidence: seq<Evidence>)
    requires EventLog.WellChained(xs) && EventLog.WellChained(all)
    ensures Judged(Some(Commitment(xs, attested)), all, evidence) == BrokenPrefix
            <==> !(xs <= all && Heads(evidence) == Heads(attested))
  {
    var n := |xs|;
    if xs <= all {
      assert all[..n] == xs;
    }
    if n <= |all| && HeadOrGenesis(all[..n]) == HeadOrGenesis(xs) {
      EventLog.PrefixIsChained(all, n);
      if n > 0 {
        EventLog.SameHeadSameEvents(xs, all[..n]);
      }
      assert xs == all[..n];
    }
  }

  /** The same from the files: the log a replay reads need only load, since a chained N-th event makes it chained. */
  lemma IntactMeansSameRun(xs: seq<Event>, attested: seq<Evidence>, file: EventLog.EventFile, evidence: seq<Evidence>)
    requires EventLog.WellChained(xs) && EventLog.Loads(file)
    ensures var all := EventLog.Load(EventLog.EMPTY, file).records;
            Judged(Some(Commitment(xs, attested)), all, evidence) != BrokenPrefix
            <==> xs <= all && Heads(evidence) == Heads(attested)
  {
    hide EventLog.Load, EventLog.Loads;
    var st := EventLog.Load(EventLog.EMPTY, file);
    EventLog.LoadedIsChained(file);
    if st.status == Some(Chained) {
      BrokenMeansRewritten(xs, attested, st.records, evidence);
    } else if xs == [] {
      assert st.records[..0] == [];
    } else if |xs| <= |st.records| {
      var n := |xs| - 1;
      assert xs[n].chain.Some? && st.records[n].chain.None?;
      assert st.records[..|xs|][n] == st.records[n];
    }
  }

  /** When both evidence logs carry only records sealed by their own digests, equal heads mean equal evidence. */
  lemma {:induction false} SameHeadsSameEvidence(xs: seq<Evidence>, ys: seq<Evidence>)
    requires forall e <- xs + ys :: e.digest == EvidenceLog.DigestOf(e)
    requires Heads(xs) == Heads(ys)
    ensures xs == ys
  {
    assert |Heads(xs)| == |Heads(ys)|;
    forall i | 0 <= i < |xs| ensures xs[i] == ys[i] {
      assert xs[i] in xs + ys && ys[i] in xs + ys;
      assert Heads(xs)[i] == Heads(ys)[i];
    }
  }

  lemma {:induction false} SealedEach(records: seq<Evidence>, status: ChainStatus)
    requires EvidenceLog.WellSealed(records, status)
    ensures forall e <- records :: e.digest == EvidenceLog.DigestOf(e)
  {
    if records != [] {
      SealedEach(records[..|records| - 1], status);
      assert records == records[..|records| - 1] + [records[|records| - 1]];
    }
  }

  /** So a replay that is not "broken" has read the attested events first, and the attested evidence, record by record. */
  lemma IntactMeansSameEvidence(xs: seq<Event>, before: EvidenceLog.EvidenceFile, file: EventLog.EventFile,
                                after: EvidenceLog.EvidenceFile)
    requires EventLog.WellChained(xs) && EventLog.Loads(file)
    requires EvidenceLog.Loads(before) && EvidenceLog.Loads(after)
    ensures var all := EventLog.Load(EventLog.EMPTY, file).records;
            var was, now := EvidenceLog.Load(EvidenceLog.EMPTY, before).records, EvidenceLog.Load(EvidenceLog.EMPTY, after).records;
            Judged(Some(Commitment(xs, was)), all, now) != BrokenPrefix <==> xs <= all && now == was
  {
    hide EventLog.Load, EventLog.Loads, EvidenceLog.Load, EvidenceLog.Loads, Judged, EventLog.WellChained, EvidenceLog.WellSealed;
    var was, now := EvidenceLog.Load(EvidenceLog.EMPTY, before), EvidenceLog.Load(EvidenceLog.EMPTY, after);
    IntactMeansSameRun(xs, was.records, file, now.records);
    EvidenceLog.LoadedIsSealed(before);
    EvidenceLog.LoadedIsSealed(after);
    if was.status.Some? {
      SealedEach(was.records, was.status.value);
    }
    if now.status.Some? {
      SealedEach(now.records, now.status.value);
    }
    if Heads(now.records) == Heads(was.records) {
      SameHeadsSameEvidence(now.records, was.records);
    }
  }

  /** Extension is not rewriting: whatever is appended after the commitment, it holds; other events are reported. */
  lemma {:induction false} ExtensionIsNotRewriting(xs: seq<Event>, more: seq<Event>, evidence: seq<Evidence>)
    ensures Judged(Some(Commitment(xs, evidence)), xs + more, evidence)
            == if forall e <- more :: e.kind == RUN_ATTESTED then Verified else ExtendedAfterAttestation
  {
    assert (xs + more)[..|xs|] == xs;
    if forall e <- more :: e.kind == RUN_ATTESTED {
      forall k | |xs| <= k < |xs + more| ensures (xs + more)[k].kind == RUN_ATTESTED {
        assert (xs + more)[k] == more[k - |xs|];
      }
    } else {
      var i :| 0 <= i < |more| && more[i].kind != RUN_ATTESTED;
      assert (xs + more)[|xs| + i] == more[i];
    }
  }

  /** A log file that holds these events and nothing else. */
  function FileOf(events: seq<Event>): (file: EventLog.EventFile)
    ensures |file.lines| == |events| && file.tail.Blank?
  {
    Log(seq(|events|, i requires 0 <= i < |events| => Record(events[i])), Blank)
  }

  lemma {:induction false} UnchainedLoads(events: seq<Event>)
    requires EventLog.Unchained(events)
    ensures EventLog.Load(EventLog.EMPTY, FileOf(events)) == Loaded(events, if events == [] then None else Some(Legacy), None)
  {
    if events != [] {
      var init := events[..|events| - 1];
      UnchainedLoads(init);
      assert FileOf(events).lines[..|events| - 1] == FileOf(init).lines;
      assert events == init + [events[|events| - 1]];
    }
  }

  /**
   * The chain is what makes the check strong. A legacy log commits to its last event alone: any unchained events load, and
   * whatever stands before the N-th of them, they are judged intact if and only if the N-th is the attested one and the
   * evidence ids and digests are.
   */
  lemma LegacyCommitsToTheLast(xs: seq<Event>, attested: seq<Evidence>, all: seq<Event>, evidence: seq<Evidence>)
    requires EventLog.Unchained(xs) && xs != [] && EventLog.Unchained(all)
    ensures EventLog.Loads(FileOf(all)) && EventLog.Load(EventLog.EMPTY, FileOf(all)).records == all
    ensures Judged(Some(Commitment(xs, attested)), all, evidence) != BrokenPrefix
            <==> |xs| <= |all| && all[|xs| - 1] == xs[|xs| - 1] && Heads(evidence) == Heads(attested)
  {
    UnchainedLoads(all);
    hide EventLog.Load;
    var n := |xs|;
    if n <= |all| {
      assert all[..n][n - 1] == all[n - 1];
    }
  }

  /** So every earlier event can be replaced by any other unchained one, and the changed log is still judged verified. */
  lemma LegacyPrefixCanChange(xs: seq<Event>, i: nat, other: Event, evidence: seq<Evidence>)
    requires EventLog.Unchained(xs) && i < |xs| - 1 && other.chain.None?
    ensures var changed := xs[i := other];
            && EventLog.Loads(FileOf(changed)) && EventLog.Load(EventLog.EMPTY, FileOf(changed)).records == changed
            && Judged(Some(Commitment(xs, evidence)), changed, evidence) == Verified
            && (other != xs[i] ==> !(xs <= changed))
  {
    var changed := xs[i := other];
    forall e | e in changed ensures e.chain.None? {
      var k :| 0 <= k < |changed| && changed[k] == e;
      assert k == i || e == xs[k];
    }
    LegacyCommitsToTheLast(xs, evidence, changed, evidence);
    assert other != xs[i] ==> changed[..|xs|][i] != xs[i];
  }
}
