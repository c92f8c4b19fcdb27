/** Consent, measurement and review times of a production pilot bundle, and the durations they must explain. */
module PilotChronology {
  import opened Options

  /** Microseconds on the UTC time line. */
  type Time = int

  datatype Code =
    | TrustPolicyError | ManifestError | EvidenceUnavailable
    | ParticipantIdInvalid | ConsentRecordDuplicate | ParticipantConsentMissing | AttestationInvalid
    | ConsentAttestationChronologyInvalid | ConsentParticipantSetMismatch
    | CaseError | HumanParticipantMismatch | RecordInvalid | MeasurementIntervalInvalid | EffortPrecisionInvalid
    | ConsentAfterMeasurementStart | BaselineNotPriorToHarness | BaselineDurationEvidenceMismatch
    | HarnessDurationPrecisionInvalid | HarnessActiveDurationNegative | HarnessDurationEvidenceMismatch
    | ReviewError | ReviewAttestationMissing | ReviewChronologyInvalid | ReviewAttestationChronologyInvalid
    | MetricsAggregationFailed | MetricThresholdMissed

  /** participantId is absent when it is no opaque identifier; attestedAt is the issue time of the verified
      attestation, absent when verification fails. */
  datatype ConsentEntry = ConsentEntry(
    participantId: Option<string>, complete: bool, consentedAt: Option<Time>, attestedAt: Option<Time>)

  datatype Effort = Effort(harnessMinutes: real, idleMinutesExcluded: real, manualFixupMinutes: real)

  /** A measurement with its validated record. */
  datatype Measurement<R> = Measurement(startedAt: Option<Time>, endedAt: Option<Time>, record: Option<R>)

  /** otherwiseValid: the checks of identifiers, hashes, keys, flags, headers and attestations find nothing. */
  datatype PilotCase = PilotCase(
    otherwiseValid: bool, measuredBy: string, operatedBy: string,
    baseline: Option<Measurement<real>>, effort: Option<Measurement<Effort>>)

  datatype Review = Review(otherwiseValid: bool, attestedAt: Option<Time>, issuedAt: Option<Time>)

  datatype Bundle = Bundle(
    otherwiseValid: bool, policyLoaded: bool, participants: set<string>,
    consent: Option<seq<ConsentEntry>>, cases: seq<PilotCase>, review: Option<Review>)

  /** The collector's outcome: it may fail, and otherwise some threshold is missed or all are met. */
  datatype Aggregation = AggregationFailed | ThresholdsMissed | ThresholdsMet

  /** Round half away from zero to one decimal place. */
  function RoundMinutes(v: real): real {
    if v >= 0.0 then (v * 10.0 + 0.5).Floor as real / 10.0
    else -((-v * 10.0 + 0.5).Floor as real / 10.0)
  }

  predicate TenthPrecision(v: real) {
    RoundMinutes(v) == v
  }

  function ElapsedMinutes(start: Time, end: Time): real {
    (end - start) as real / 60000000.0
  }

  predicate IsWhole(x: real) {
    x.Floor as real == x
  }

  lemma TenthMeansWhole(v: real)
    ensures TenthPrecision(v) <==> IsWhole(v * 10.0)
  {
    var x := if v >= 0.0 then v * 10.0 else -v * 10.0;
    var k := (x + 0.5).Floor;
    assert TenthPrecision(v) <==> k as real == x;
    if IsWhole(x) {
      assert (x.Floor as real + 0.5).Floor == x.Floor;
    }
    WholeNegates(v * 10.0);
  }

  lemma WholeNegates(x: real)
    ensures IsWhole(x) <==> IsWhole(-x)
  {
    if IsWhole(x) { assert -x == (-x.Floor) as real; }
    if IsWhole(-x) { assert x == (-(-x).Floor) as real; }
  }

  lemma TenthsCombine(harness: real, fixup: real, idle: real)
    requires TenthPrecision(harness) && TenthPrecision(fixup) && TenthPrecision(idle)
    ensures TenthPrecision(harness - fixup + idle)
  {
    TenthMeansWhole(harness);
    TenthMeansWhole(fixup);
    TenthMeansWhole(idle);
    WholesCombine(harness * 10.0, fixup * 10.0, idle * 10.0);
    assert harness * 10.0 - fixup * 10.0 + idle * 10.0 == (harness - fixup + idle) * 10.0;
    TenthMeansWhole(harness - fixup + idle);
  }

  lemma WholesCombine(x: real, y: real, z: real)
    requires IsWhole(x) && IsWhole(y) && IsWhole(z)
    ensures IsWhole(x - y + z)
  {
    assert x - y + z == (x.Floor - y.Floor + z.Floor) as real;
  }

  predicate EffortPrecise(e: Effort) {
    TenthPrecision(e.harnessMinutes) && TenthPrecision(e.idleMinutesExcluded) && TenthPrecision(e.manualFixupMinutes)
  }

  /** The duration check on its own terms. */
  predicate DurationAccepted(e: Effort, elapsed: real) {
    var active := e.harnessMinutes - e.manualFixupMinutes;
    TenthPrecision(elapsed) && active >= 0.0 && elapsed == RoundMinutes(active + e.idleMinutesExcluded)
  }

  /** For a precise record, rounding drops out: the elapsed time is exactly active plus idle time. */
  lemma DurationExact(e: Effort, elapsed: real)
    requires EffortPrecise(e)
    ensures DurationAccepted(e, elapsed) <==>
            && e.harnessMinutes >= e.manualFixupMinutes
            && elapsed == e.harnessMinutes - e.manualFixupMinutes + e.idleMinutesExcluded
  {
    TenthsCombine(e.harnessMinutes, e.manualFixupMinutes, e.idleMinutesExcluded);
  }

  predicate HasInterval<R>(m: Measurement<R>) {
    m.startedAt.Some? && m.endedAt.Some? && m.startedAt.value <= m.endedAt.value
  }

  /** Consent times by participant, as the entries are read in order. */
  function ConsentTimes(entries: seq<ConsentEntry>): map<string, Time> {
    if entries == [] then map[]
    else
      var times, last := ConsentTimes(entries[..|entries| - 1]), entries[|entries| - 1];
      if last.complete && last.consentedAt.Some? && last.participantId.Some?
      then times[last.participantId.value := last.consentedAt.value] else times
  }

  function ConsentIds(entries: seq<ConsentEntry>): set<string> {
    set i | 0 <= i < |entries| && entries[i].participantId.Some? :: entries[i].participantId.value
  }

  ghost predicate EntryHolds(entry: ConsentEntry, policyLoaded: bool) {
    && entry.participantId.Some? && entry.complete && entry.consentedAt.Some?
    && (policyLoaded ==> entry.attestedAt.Some? && entry.consentedAt.value <= entry.attestedAt.value)
  }

  ghost predicate EntriesHold(entries: seq<ConsentEntry>, policyLoaded: bool) {
    && (forall i :: 0 <= i < |entries| ==> EntryHolds(entries[i], policyLoaded))
    && (forall i, j :: 0 <= i < j < |entries| ==> entries[i].participantId != entries[j].participantId)
  }

  ghost predicate ConsentedBy(times: map<string, Time>, participant: string, start: Time) {
    participant in times && times[participant] <= start
  }

  /** What an error-free case means. */
  ghost predicate CaseHolds(c: PilotCase, participants: set<string>, times: map<string, Time>) {
    && c.otherwiseValid && c.measuredBy in participants && c.operatedBy in participants
    && c.baseline.Some? && c.effort.Some?
    && var b, e := c.baseline.value, c.effort.value;
    && HasInterval(b) && HasInterval(e) && b.record.Some? && e.record.Some? && EffortPrecise(e.record.value)
    && ConsentedBy(times, c.measuredBy, b.startedAt.value)
    && ConsentedBy(times, c.operatedBy, e.startedAt.value)
    && b.endedAt.value <= e.startedAt.value
    && b.record.value == RoundMinutes(ElapsedMinutes(b.startedAt.value, b.endedAt.value))
    && DurationAccepted(e.record.value, ElapsedMinutes(e.startedAt.value, e.endedAt.value))
  }

  ghost predicate ReviewHolds(review: Option<Review>, policyLoaded: bool, latestEnd: Option<Time>) {
    && review.Some? && review.value.otherwiseValid && review.value.attestedAt.Some?
    && (latestEnd.Some? ==> latestEnd.value <= review.value.attestedAt.value)
    && (policyLoaded ==> review.value.issuedAt.Some? && review.value.attestedAt.value <= review.value.issuedAt.value)
  }

  function Later(latest: Option<Time>, end: Time): Option<Time> {
    if latest.None? || end > latest.value then Some(end) else latest
  }

  function LaterInterval<R>(latest: Option<Time>, m: Option<Measurement<R>>): Option<Time> {
    if m.Some? && HasInterval(m.value) then Later(latest, m.value.endedAt.value) else latest
  }

  /** The latest end of any valid measurement interval. */
  function LatestEnd(cases: seq<PilotCase>): Option<Time> {
    if cases == [] then None
    else
      var last := cases[|cases| - 1];
      LaterInterval(LaterInterval(LatestEnd(cases[..|cases| - 1]), last.baseline), last.effort)
  }

  ghost predicate ConsentHolds(b: Bundle) {
    && b.consent.Some? && EntriesHold(b.consent.value, b.policyLoaded)
    && ConsentIds(b.consent.value) == b.participants
  }

  ghost predicate CasesHold(cases: seq<PilotCase>, participants: set<string>, times: map<string, Time>) {
    forall i :: 0 <= i < |cases| ==> CaseHolds(cases[i], participants, times)
  }

  ghost predicate EvidenceHolds(b: Bundle) {
    && b.otherwiseValid && b.policyLoaded
    && ConsentHolds(b) && CasesHold(b.cases, b.participants, ConsentTimes(b.consent.value))
  }

  ghost predicate BundleHolds(b: Bundle, aggregation: Aggregation) {
    && EvidenceHolds(b)
    && ReviewHolds(b.review, b.policyLoaded, LatestEnd(b.cases))
    && aggregation == ThresholdsMet
  }

  /** The verifier's running state: the shared error list and what later checks need. */
  class PilotVerifier {
    var errors: seq<Code>
    var consentedAt: map<string, Time>
    var latestMeasurementEnd: Option<Time>
    var paired: nat

    constructor ()
      ensures errors == [] && consentedAt == map[] && latestMeasurementEnd == None && paired == 0
    {
      errors, consentedAt, latestMeasurementEnd, paired := [], map[], None, 0;
    }

    method Report(code: Code)
      modifies this`errors
      ensures errors == old(errors) + [code]
    {
      errors := errors + [code];
    }

    method ReportUnless(condition: bool, code: Code)
      modifies this`errors
      ensures errors == if condition then old(errors) else old(errors) + [code]
    {
      if !condition {
        Report(code);
      }
    }

    method ValidateEntry(entry: ConsentEntry, seen: set<string>, policyLoaded: bool)
      modifies this`errors, this`consentedAt
      ensures |old(errors)| <= |errors|
      ensures |errors| == |old(errors)| <==>
        EntryHolds(entry, policyLoaded) && entry.participantId.value !in seen
      ensures consentedAt == if entry.complete && entry.consentedAt.Some? && entry.participantId.Some?
        then old(consentedAt)[entry.participantId.value := entry.consentedAt.value] else old(consentedAt)
    {
      if entry.participantId.None? {
        Report(ParticipantIdInvalid);
      } else if entry.participantId.value in seen {
        Report(ConsentRecordDuplicate);
      }
      if !entry.complete || entry.consentedAt.None? {
        Report(ParticipantConsentMissing);
      } else if entry.participantId.Some? {
        consentedAt := consentedAt[entry.participantId.value := entry.consentedAt.value];
      }
      if policyLoaded {
        ReportUnless(entry.attestedAt.Some?, AttestationInvalid);
        if entry.consentedAt.Some? && entry.attestedAt.Some? {
          ReportUnless(entry.consentedAt.value <= entry.attestedAt.value, ConsentAttestationChronologyInvalid);
        }
      }
    }

    method ValidateConsent(b: Bundle)
      requires consentedAt == map[]
      modifies this`errors, this`consentedAt
      ensures |old(errors)| <= |errors|
      ensures |errors| == |old(errors)| <==> ConsentHolds(b)
      ensures b.consent.Some? ==> consentedAt == ConsentTimes(b.consent.value)
    {
      if b.consent.None? {
        Report(EvidenceUnavailable);
        return;
      }
      var entries, policyLoaded := b.consent.value, b.policyLoaded;
      var seen: set<string> := {};
      var n := 0;
      while n < |entries|
        invariant 0 <= n <= |entries| && |old(errors)| <= |errors|
        invariant seen == ConsentIds(entries[..n]) && consentedAt == ConsentTimes(entries[..n])
        invariant |errors| == |old(errors)| <==> EntriesHold(entries[..n], policyLoaded)
      {
        var entry := entries[n];
        assert entries[..n + 1][..n] == entries[..n];
        AppendEntry(entries[..n], entry, policyLoaded);
        assert entries[..n + 1] == entries[..n] + [entry];
        ValidateEntry(entry, seen, policyLoaded);
        if entry.participantId.Some? {
          seen := seen + {entry.participantId.value};
        }
        n := n + 1;
      }
      assert entries[..n] == entries;
      ReportUnless(seen == b.participants, ConsentParticipantSetMismatch);
    }

    /** A measurement's interval, unless its times are missing or reversed. */
    method Interval<R>(m: Option<Measurement<R>>) returns (interval: Option<(Time, Time)>)
      modifies this`errors
      ensures errors == old(errors) +
        if m.Some? && !HasInterval(m.value) then [MeasurementIntervalInvalid] else []
      ensures interval == if m.Some? && HasInterval(m.value)
        then Some((m.value.startedAt.value, m.value.endedAt.value)) else None
    {
      if m.None? {
        return None;
      }
      if !HasInterval(m.value) {
        Report(MeasurementIntervalInvalid);
        return None;
      }
      interval := Some((m.value.startedAt.value, m.value.endedAt.value));
    }

    method ValidateConsentChronology(participant: string, interval: Option<(Time, Time)>)
      modifies this`errors
      ensures errors == if interval.Some? && !ConsentedBy(consentedAt, participant, interval.value.0)
        then old(errors) + [ConsentAfterMeasurementStart] else old(errors)
    {
      if interval.None? {
        return;
      }
      ReportUnless(participant in consentedAt && consentedAt[participant] <= interval.value.0,
                   ConsentAfterMeasurementStart);
    }

    method ValidateHarnessDuration(effort: Option<Effort>, interval: Option<(Time, Time)>)
      modifies this`errors
      ensures |old(errors)| <= |errors|
      ensures |errors| == |old(errors)| <==>
        (effort.Some? && interval.Some? ==>
          DurationAccepted(effort.value, ElapsedMinutes(interval.value.0, interval.value.1)))
    {
      if effort.None? || interval.None? {
        return;
      }
      var elapsed := ElapsedMinutes(interval.value.0, interval.value.1);
      if !TenthPrecision(elapsed) {
        Report(HarnessDurationPrecisionInvalid);
        return;
      }
      var active := effort.value.harnessMinutes - effort.value.manualFixupMinutes;
      if active < 0.0 {
        Report(HarnessActiveDurationNegative);
        return;
      }
      ReportUnless(elapsed == RoundMinutes(active + effort.value.idleMinutesExcluded), HarnessDurationEvidenceMismatch);
    }

    /** Evidence that could not be locked, and records that did not validate, are reported where they are read. */
    method ReadRecords(c: PilotCase)
      modifies this`errors
      ensures |old(errors)| <= |errors|
      ensures |errors| == |old(errors)| <==>
        && c.baseline.Some? && c.effort.Some? && c.baseline.value.record.Some?
        && c.effort.value.record.Some? && EffortPrecise(c.effort.value.record.value)
    {
      ReportUnless(c.baseline.Some?, EvidenceUnavailable);
      if c.baseline.Some? {
        ReportUnless(c.baseline.value.record.Some?, RecordInvalid);
      }
      ReportUnless(c.effort.Some?, EvidenceUnavailable);
      if c.effort.Some? {
        ReportUnless(c.effort.value.record.Some?, RecordInvalid);
        if c.effort.value.record.Some? {
          ReportUnless(EffortPrecise(c.effort.value.record.value), EffortPrecisionInvalid);
        }
      }
    }

    method ValidateOrder(c: PilotCase, baseline: Option<(Time, Time)>, effort: Option<(Time, Time)>)
      modifies this`errors
      ensures |old(errors)| <= |errors|
      ensures |errors| == |old(errors)| <==>
        (baseline.Some? && effort.Some? ==>
          && baseline.value.1 <= effort.value.0
          && (c.baseline.Some? && c.baseline.value.record.Some? ==>
               RoundMinutes(ElapsedMinutes(baseline.value.0, baseline.value.1)) == c.baseline.value.record.value))
    {
      if baseline.None? || effort.None? {
        return;
      }
      ReportUnless(baseline.value.1 <= effort.value.0, BaselineNotPriorToHarness);
      if c.baseline.Some? && c.baseline.value.record.Some? {
        ReportUnless(RoundMinutes(ElapsedMinutes(baseline.value.0, baseline.value.1)) == c.baseline.value.record.value,
                     BaselineDurationEvidenceMismatch);
      }
    }

    method ValidatePeople(c: PilotCase, participants: set<string>)
      modifies this`errors
      ensures |old(errors)| <= |errors|
      ensures |errors| == |old(errors)| <==>
        c.otherwiseValid && c.measuredBy in participants && c.operatedBy in participants
    {
      ReportUnless(c.otherwiseValid, CaseError);
      ReportUnless(c.measuredBy in participants, HumanParticipantMismatch);
      ReportUnless(c.operatedBy in participants, HumanParticipantMismatch);
    }

    method VerifyCase(c: PilotCase, participants: set<string>)
      modifies this`errors, this`latestMeasurementEnd, this`paired
      ensures |old(errors)| <= |errors|
      ensures |errors| == |old(errors)| <==> CaseHolds(c, participants, consentedAt)
      ensures latestMeasurementEnd == LaterInterval(LaterInterval(old(latestMeasurementEnd), c.baseline), c.effort)
      ensures paired <= old(paired) + 1
      ensures |errors| == |old(errors)| ==> paired == old(paired) + 1
    {
      ValidatePeople(c, participants);
      ReadRecords(c);
      var baseline := Interval(c.baseline);
      var effort := Interval(c.effort);
      ValidateConsentChronology(c.measuredBy, baseline);
      ValidateConsentChronology(c.operatedBy, effort);
      ValidateHarnessDuration(if c.effort.Some? then c.effort.value.record else None, effort);
      if baseline.Some? {
        latestMeasurementEnd := Later(latestMeasurementEnd, baseline.value.1);
      }
      if effort.Some? {
        latestMeasurementEnd := Later(latestMeasurementEnd, effort.value.1);
      }
      ValidateOrder(c, baseline, effort);
      if c.baseline.Some? && c.baseline.value.record.Some? && c.effort.Some? && c.effort.value.record.Some? {
        paired := paired + 1;
      }
    }

    method ValidateReview(review: Option<Review>, policyLoaded: bool)
      modifies this`errors
      ensures |old(errors)| <= |errors|
      ensures |errors| == |old(errors)| <==> ReviewHolds(review, policyLoaded, latestMeasurementEnd)
    {
      if review.None? {
        Report(EvidenceUnavailable);
        return;
      }
      var attestedAt, issuedAt := review.value.attestedAt, review.value.issuedAt;
      ReportUnless(review.value.otherwiseValid, ReviewError);
      ReportUnless(attestedAt.Some?, ReviewAttestationMissing);
      if latestMeasurementEnd.Some? {
        ReportUnless(attestedAt.Some? && latestMeasurementEnd.value <= attestedAt.value, ReviewChronologyInvalid);
      }
      if policyLoaded {
        ReportUnless(issuedAt.Some?, AttestationInvalid);
        if attestedAt.Some? && issuedAt.Some? {
          ReportUnless(attestedAt.value <= issuedAt.value, ReviewAttestationChronologyInvalid);
        }
      }
    }

    method VerifyCases(cases: seq<PilotCase>, participants: set<string>)
      requires latestMeasurementEnd == None && paired == 0
      modifies this`errors, this`latestMeasurementEnd, this`paired
      ensures |old(errors)| <= |errors|
      ensures |errors| == |old(errors)| <==>
        CasesHold(cases, participants, consentedAt)
      ensures latestMeasurementEnd == LatestEnd(cases)
      ensures |errors| == |old(errors)| ==> paired == |cases|
    {
      var n := 0;
      while n < |cases|
        invariant 0 <= n <= |cases| && |old(errors)| <= |errors|
        invariant |errors| == |old(errors)| <==> forall i :: 0 <= i < n ==> CaseHolds(cases[i], participants,
            consentedAt)
        invariant latestMeasurementEnd == LatestEnd(cases[..n])
        invariant |errors| == |old(errors)| ==> paired == n
      {
        assert cases[..n + 1][..n] == cases[..n];
        VerifyCase(cases[n], participants);
        n := n + 1;
      }
      assert cases[..n] == cases;
    }

    /** Everything up to the metrics. */
    method VerifyEvidence(b: Bundle)
      requires errors == [] && consentedAt == map[] && latestMeasurementEnd == None && paired == 0
      modifies this
      ensures errors == [] <==> EvidenceHolds(b)
      ensures latestMeasurementEnd == LatestEnd(b.cases)
      ensures errors == [] ==> paired == |b.cases|
    {
      ReportUnless(b.policyLoaded, TrustPolicyError);
      ReportUnless(b.otherwiseValid, ManifestError);
      ValidateConsent(b);
      VerifyCases(b.cases, b.participants);
    }

    /** Verify a whole bundle. The metrics are aggregated only over an error-free, fully paired bundle. */
    method Verify(b: Bundle, aggregation: Aggregation) returns (passed: bool)
      requires errors == [] && consentedAt == map[] && latestMeasurementEnd == None && paired == 0
      modifies this
      ensures passed <==> BundleHolds(b, aggregation)
    {
      VerifyEvidence(b);
      var metrics := AggregationFailed;
      if errors == [] && paired == |b.cases| {
        metrics := aggregation;
        ReportUnless(!metrics.AggregationFailed?, MetricsAggregationFailed);
      }
      ValidateReview(b.review, b.policyLoaded);
      if metrics == ThresholdsMissed {
        Report(MetricThresholdMissed);
      }
      passed := errors == [] && !metrics.AggregationFailed?;
    }
  }

  lemma AppendEntry(entries: seq<ConsentEntry>, entry: ConsentEntry, policyLoaded: bool)
    ensures ConsentIds(entries + [entry]) ==
            ConsentIds(entries) + if entry.participantId.Some? then {entry.participantId.value} else {}
    ensures EntriesHold(entries + [entry], policyLoaded) <==>
            && EntriesHold(entries, policyLoaded) && EntryHolds(entry, policyLoaded)
            && entry.participantId.value !in ConsentIds(entries)
  {
    var all := entries + [entry];
    assert all[|entries|] == entry && forall i :: 0 <= i < |entries| ==> all[i] == entries[i];
    forall id ensures id in ConsentIds(all) <==> id in ConsentIds(entries) || entry.participantId == Some(id) {
      if id in ConsentIds(entries) {
        var i :| 0 <= i < |entries| && entries[i].participantId == Some(id);
        assert all[i].participantId == Some(id);
      }
      if entry.participantId == Some(id) {
        assert all[|entries|].participantId == Some(id);
      }
    }
  }

  lemma {:induction false} ConsentOnRecord(entries: seq<ConsentEntry>, participant: string) returns (i: nat)
    requires participant in ConsentTimes(entries)
    ensures i < |entries| && entries[i].participantId == Some(participant) && entries[i].complete
    ensures entries[i].consentedAt == Some(ConsentTimes(entries)[participant])
  {
    var n := |entries| - 1;
    var last := entries[n];
    if last.complete && last.consentedAt.Some? && last.participantId == Some(participant) {
      i := n;
    } else {
      i := ConsentOnRecord(entries[..n], participant);
    }
  }

  lemma {:induction false} EndsBeforeLatest(cases: seq<PilotCase>, i: nat)
    requires i < |cases| && cases[i].baseline.Some? && cases[i].effort.Some?
    requires HasInterval(cases[i].baseline.value) && HasInterval(cases[i].effort.value)
    ensures LatestEnd(cases).Some?
    ensures cases[i].baseline.value.endedAt.value <= LatestEnd(cases).value
    ensures cases[i].effort.value.endedAt.value <= LatestEnd(cases).value
    decreases |cases|
  {
    var n := |cases| - 1;
    if i < n {
      EndsBeforeLatest(cases[..n], i);
    }
  }

  /** Some complete consent of the participant was given, and attested, no later than `start`. */
  ghost predicate ConsentPrecedes(entries: seq<ConsentEntry>, participant: string, start: Time) {
    exists i :: 0 <= i < |entries|
      && entries[i].participantId == Some(participant) && entries[i].complete
      && entries[i].consentedAt.Some? && entries[i].attestedAt.Some?
      && entries[i].consentedAt.value <= start && entries[i].consentedAt.value <= entries[i].attestedAt.value
  }

  /** In a passing bundle every case runs through one time line, from both consents over the manual and the
      harness measurement to the review and its attestation, and the harness time is accounted for exactly. */
  lemma PassingTimeLine(b: Bundle, aggregation: Aggregation, i: nat)
    requires BundleHolds(b, aggregation) && i < |b.cases|
    ensures var c := b.cases[i];
      && c.baseline.Some? && c.effort.Some?
      && var m, e := c.baseline.value, c.effort.value;
      && HasInterval(m) && HasInterval(e) && e.record.Some?
      && b.consent.Some? && b.review.Some? && b.review.value.attestedAt.Some? && b.review.value.issuedAt.Some?
      && ConsentPrecedes(b.consent.value, c.measuredBy, m.startedAt.value)
      && ConsentPrecedes(b.consent.value, c.operatedBy, e.startedAt.value)
      && m.startedAt.value <= m.endedAt.value <= e.startedAt.value <= e.endedAt.value
      && e.endedAt.value <= b.review.value.attestedAt.value <= b.review.value.issuedAt.value
      && ElapsedMinutes(e.startedAt.value, e.endedAt.value)
         == e.record.value.harnessMinutes - e.record.value.manualFixupMinutes + e.record.value.idleMinutesExcluded
      && TenthPrecision(ElapsedMinutes(e.startedAt.value, e.endedAt.value)) && EffortPrecise(e.record.value)
      && m.record == Some(RoundMinutes(ElapsedMinutes(m.startedAt.value, m.endedAt.value)))
  {
    var c, entries := b.cases[i], b.consent.value;
    assert CaseHolds(c, b.participants, ConsentTimes(entries));
    var e := c.effort.value;
    EndsBeforeLatest(b.cases, i);
    DurationExact(e.record.value, ElapsedMinutes(e.startedAt.value, e.endedAt.value));
    var x := ConsentOnRecord(entries, c.measuredBy);
    var y := ConsentOnRecord(entries, c.operatedBy);
    assert EntryHolds(entries[x], b.policyLoaded) && EntryHolds(entries[y], b.policyLoaded);
  }

  /** The conditions on a bundle can be met together, by ten manual minutes and two seconds, claimed as ten minutes,
      and five harness minutes of one person with one minute of fix-up and half a minute idle; and the harness time
      must not be off by a tenth. */
  lemma SomeBundlePasses()
    ensures exists b: Bundle :: |b.cases| == 1 && BundleHolds(b, ThresholdsMet)
    ensures forall e: Effort :: EffortPrecise(e) && e.idleMinutesExcluded == 0.5 && e.manualFixupMinutes == 1.0 ==>
              (DurationAccepted(e, 4.5) <==> e.harnessMinutes == 5.0)
  {
    var baseline := Measurement(Some(0), Some(602000000), Some(10.0));
    var effort := Measurement(Some(602000000), Some(872000000), Some(Effort(5.0, 0.5, 1.0)));
    var c := PilotCase(true, "p", "p", Some(baseline), Some(effort));
    var entries := [ConsentEntry(Some("p"), true, Some(0), Some(0))];
    var b := Bundle(true, true, {"p"}, Some(entries), [c], Some(Review(true, Some(872000000), Some(872000000))));
    assert entries[..0] == [] && b.cases[..0] == [];
    assert ConsentTimes(entries) == map["p" := 0];
    assert entries[0].participantId == Some("p");
    assert RoundMinutes(602.0 / 60.0) == 10.0 && RoundMinutes(5.0) == 5.0 && RoundMinutes(0.5) == 0.5;
    assert RoundMinutes(1.0) == 1.0 && RoundMinutes(4.5) == 4.5;
    assert CaseHolds(c, b.participants, ConsentTimes(entries));
    assert BundleHolds(b, ThresholdsMet);
    forall e: Effort | EffortPrecise(e) && e.idleMinutesExcluded == 0.5 && e.manualFixupMinutes == 1.0
      ensures DurationAccepted(e, 4.5) <==> e.harnessMinutes == 5.0
    {
      DurationExact(e, 4.5);
    }
  }

  /** Of the tenths, the rounded value is the nearest, and of two equally near ones the one further from zero. */
  lemma RoundMinutesExactly(v: real, tenths: int)
    ensures RoundMinutes(v) == tenths as real / 10.0 <==>
      if v >= 0.0 then -0.5 <= v * 10.0 - tenths as real < 0.5 else -0.5 < v * 10.0 - tenths as real <= 0.5
  {
    var x := if v >= 0.0 then v * 10.0 else -v * 10.0;
    var k := (x + 0.5).Floor;
    assert k as real <= x + 0.5 < k as real + 1.0;
    var n := if v >= 0.0 then tenths else -tenths;
    assert n as real == if v >= 0.0 then tenths as real else -(tenths as real);
    FloorIs(x + 0.5, n);
    assert RoundMinutes(v) == (if v >= 0.0 then k as real else -(k as real)) / 10.0;
  }

  lemma FloorIs(x: real, n: int)
    ensures x.Floor == n <==> n as real <= x < n as real + 1.0
  {
  }

  /** The latest end is the end of some valid interval. */
  lemma {:induction false} LatestEndIsReached(cases: seq<PilotCase>) returns (i: nat)
    requires LatestEnd(cases).Some?
    ensures i < |cases|
    ensures (cases[i].baseline.Some? && HasInterval(cases[i].baseline.value)
             && cases[i].baseline.value.endedAt == LatestEnd(cases))
            || (cases[i].effort.Some? && HasInterval(cases[i].effort.value)
                && cases[i].effort.value.endedAt == LatestEnd(cases))
  {
    var n := |cases| - 1;
    if LatestEnd(cases) == LatestEnd(cases[..n]) {
      i := LatestEndIsReached(cases[..n]);
    } else {
      i := n;
    }
  }

  /** An interval of so many minutes and seconds lasts that long, whenever it begins. */
  lemma ElapsedExactly(start: Time, minutes: nat, seconds: nat)
    ensures ElapsedMinutes(start,
                           start + (minutes * 60 + seconds) * 1000000) == minutes as real + seconds as real / 60.0
  {
    var us := (minutes * 60 + seconds) * 1000000;
    assert us as real == minutes as real * 60000000.0 + seconds as real * 1000000.0;
  }
}
