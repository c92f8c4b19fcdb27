/** When the desktop lets an engineer approve: the pure gate and the eligibility poll around it. */
module ApprovalGate {
  import opened Options

  datatype Severity = Info | Warning | Error | Blocking

  datatype Finding = Finding(ruleId: string, severity: Severity)

  datatype Stage = PreCommit | OtherStage

  /** A validation report; its severity counts are derived from its findings. */
  datatype Report = Report(
    schemaVersion: string, jobId: string, stage: Stage, planHash: Option<string>, profileRef: Option<string>,
    findings: seq<Finding>)

  datatype JobState =
    | Created | SpecAccepted | Planned | Previewed | Validated | Approved | Committing
    | Committed | UnknownCommitState | Failed | RolledBack | Cancelled

  datatype Job = Job(documentId: string, state: JobState, planHash: Option<string>, expectedRevision: string)

  datatype Plan = Plan(planHash: Option<string>, profileRef: Option<string>)

  /** What the window displays: one job's plan at one revision. */
  datatype Scope = Scope(jobId: string, planHash: string, expectedRevision: string)

  datatype Reason =
    | PlanHashChanged | RevisionChanged | BlockingFindings | WarningsUnacknowledged
    | PreviewNotReady | ValidationMissing | ValidationScopeChanged | JobNotApprovable | ErrorFindings

  datatype Decision = Decision(canApprove: bool, reasons: seq<Reason>)

  const SCHEMA_VERSION := "1.13"

  /** Stands for the current revision when the displayed one is stale. */
  const STALE_REVISION := "revision_changed"

  predicate HasSeverity(report: Report, severity: Severity) {
    exists i :: 0 <= i < |report.findings| && report.findings[i].severity == severity
  }

  predicate WarningsAcknowledged(report: Report, acknowledged: set<string>) {
    forall i :: 0 <= i < |report.findings| && report.findings[i].severity == Warning ==>
      report.findings[i].ruleId in acknowledged
  }

  function When(condition: bool, reason: Reason): seq<Reason> {
    if condition then [reason] else []
  }

  /** The gate: every reason against approval, in a fixed order. */
  function CanApprove(displayedPlanHash: string, currentPlanHash: string,
                      displayedRevision: string, currentRevision: string,
                      report: Report, acknowledged: set<string>): Decision
  {
    var reasons := When(displayedPlanHash != currentPlanHash, PlanHashChanged)
                   + When(displayedRevision != currentRevision, RevisionChanged)
                   + When(HasSeverity(report, Blocking), BlockingFindings)
                   + When(!WarningsAcknowledged(report, acknowledged), WarningsUnacknowledged);
    Decision(reasons == [], reasons)
  }

  /** Everything one eligibility poll reads. */
  datatype Evidence = Evidence(job: Option<Job>, plan: Option<Plan>, report: Option<Report>, revisionIsCurrent: bool)

  predicate ReportInScope(report: Report, scope: Scope, plan: Plan) {
    && report.schemaVersion == SCHEMA_VERSION
    && report.jobId == scope.jobId
    && report.stage == PreCommit
    && report.planHash == plan.planHash
    && report.profileRef == plan.profileRef
  }

  /** The checks that precede the revision poll; they already settle the decision when they fail. */
  function EarlyRefusal(displayed: Option<Scope>, e: Evidence): Option<Reason> {
    if displayed.None? || e.job.None? || e.plan.None? || e.plan.value.planHash.None? then Some(PreviewNotReady)
    else if e.report.None? then Some(ValidationMissing)
    else if e.plan.value.planHash.value != displayed.value.planHash then Some(PlanHashChanged)
    else if !ReportInScope(e.report.value, displayed.value, e.plan.value) then Some(ValidationScopeChanged)
    else None
  }

  function Evaluate(displayed: Option<Scope>, e: Evidence, acknowledged: set<string>): Decision {
    if EarlyRefusal(displayed, e).Some? then Decision(false, [EarlyRefusal(displayed, e).value])
    else
      var scope, report := displayed.value, e.report.value;
      if e.job.value.state != Previewed && e.job.value.state != Validated && e.revisionIsCurrent then
        Decision(false, [JobNotApprovable])
      else
        var currentRevision := if e.revisionIsCurrent then scope.expectedRevision else STALE_REVISION;
        var decision := CanApprove(scope.planHash, e.plan.value.planHash.value,
                                   scope.expectedRevision, currentRevision, report, acknowledged);
        var errors := HasSeverity(report, Error);
        Decision(decision.canApprove && !errors, decision.reasons + When(errors, ErrorFindings))
  }

  /** The evidence supports the displayed scope in every respect but its revision and the job's state. */
  ghost predicate EvidenceSupports(displayed: Option<Scope>, e: Evidence, acknowledged: set<string>) {
    && displayed.Some? && e.job.Some? && e.plan.Some? && e.report.Some?
    && e.plan.value.planHash == Some(displayed.value.planHash)
    && var report := e.report.value;
    && report.schemaVersion == "1.13" && report.jobId == displayed.value.jobId && report.stage == PreCommit
    && report.planHash == Some(displayed.value.planHash) && report.profileRef == e.plan.value.profileRef
    && forall f :: f in report.findings ==>
         && f.severity != Blocking && f.severity != Error
         && (f.severity == Warning ==> f.ruleId in acknowledged)
  }

  ghost predicate FreshAndOpen(e: Evidence) {
    e.revisionIsCurrent && e.job.Some? && (e.job.value.state == Previewed || e.job.value.state == Validated)
  }

  /** Approval is possible exactly when no reason is given, and exactly when the evidence supports the scope and
      either the revision is current and the job open, or the displayed revision is the stale marker itself. */
  lemma EvaluateExact(displayed: Option<Scope>, e: Evidence, acknowledged: set<string>)
    ensures var d := Evaluate(displayed, e, acknowledged);
      && (d.canApprove <==> d.reasons == [])
      && (d.canApprove <==>
           EvidenceSupports(displayed, e, acknowledged)
           && (FreshAndOpen(e) || (!e.revisionIsCurrent && displayed.value.expectedRevision == STALE_REVISION)))
  {
    if e.report.Some? {
      FindingsExactly(e.report.value, acknowledged);
    }
  }

  /** The gate lets nothing but fresh, open, fully supported scopes through exactly when the displayed revision
      is not the text that marks staleness. */
  lemma GateIsExactUnlessMarked(scope: Scope)
    ensures (forall e: Evidence, acknowledged: set<string> :: Evaluate(Some(scope), e, acknowledged).canApprove <==>
               EvidenceSupports(Some(scope), e, acknowledged) && FreshAndOpen(e))
            <==> scope.expectedRevision != STALE_REVISION
  {
    if scope.expectedRevision == STALE_REVISION {
      MarkedScopeApprovedWhenStale(scope);
    } else {
      forall e: Evidence, acknowledged: set<string> ensures Evaluate(Some(scope), e, acknowledged).canApprove <==>
          EvidenceSupports(Some(scope), e, acknowledged) && FreshAndOpen(e)
      {
        EvaluateExact(Some(scope), e, acknowledged);
      }
    }
  }

  /** A scope displayed at the marker revision is approved even though it is stale and its job committed. */
  lemma MarkedScopeApprovedWhenStale(scope: Scope)
    requires scope.expectedRevision == STALE_REVISION
    ensures exists e: Evidence :: !e.revisionIsCurrent && e.job.Some? && e.job.value.state == Committed
                        && Evaluate(Some(scope), e, {}).canApprove
  {
    var report := Report(SCHEMA_VERSION, scope.jobId, PreCommit, Some(scope.planHash), None, []);
    var e := Evidence(Some(Job("doc", Committed, None, "r")), Some(Plan(Some(scope.planHash), None)),
                      Some(report), false);
    EvaluateExact(Some(scope), e, {});
    assert Evaluate(Some(scope), e, {}).canApprove;
  }

  /** Before the revision is polled, exactly one reason is given, by the first check that fails. */
  lemma EarlyReasonsExactly(displayed: Option<Scope>, e: Evidence, acknowledged: set<string>)
    ensures var reasons := Evaluate(displayed, e, acknowledged).reasons;
      if displayed.None? || e.job.None? || e.plan.None? || e.plan.value.planHash.None? then reasons == [PreviewNotReady]
      else if e.report.None? then reasons == [ValidationMissing]
      else if e.plan.value.planHash.value != displayed.value.planHash then reasons == [PlanHashChanged]
      else if !ReportInScope(e.report.value, displayed.value, e.plan.value) then reasons == [ValidationScopeChanged]
      else EarlyRefusal(displayed, e).None?
  {
  }

  lemma FindingsExactly(report: Report, acknowledged: set<string>)
    ensures forall s :: HasSeverity(report, s) <==> exists f :: f in report.findings && f.severity == s
    ensures !WarningsAcknowledged(report, acknowledged) <==>
            exists f :: f in report.findings && f.severity == Warning && f.ruleId !in acknowledged
  {
    forall s ensures HasSeverity(report, s) <==> exists f :: f in report.findings && f.severity == s {
      if f :| f in report.findings && f.severity == s {
        var i :| 0 <= i < |report.findings| && report.findings[i] == f;
      }
      if i :| 0 <= i < |report.findings| && report.findings[i].severity == s {
        assert report.findings[i] in report.findings;
      }
    }
    if f :| f in report.findings && f.severity == Warning && f.ruleId !in acknowledged {
      var i :| 0 <= i < |report.findings| && report.findings[i] == f;
    }
    if i :| 0 <= i < |report.findings| && report.findings[i].severity == Warning
            && report.findings[i].ruleId !in acknowledged {
      assert report.findings[i] in report.findings;
    }
  }

  /** After the revision poll: the closed job alone, or exactly the findings of the gate, in the order of its checks. */
  lemma LateReasonsExactly(displayed: Option<Scope>, e: Evidence, acknowledged: set<string>)
    requires EarlyRefusal(displayed, e).None?
    ensures var reasons, findings := Evaluate(displayed, e, acknowledged).reasons, e.report.value.findings;
      if e.revisionIsCurrent && e.job.value.state != Previewed && e.job.value.state != Validated then
        reasons == [JobNotApprovable]
      else
        reasons == When(!e.revisionIsCurrent && displayed.value.expectedRevision != "revision_changed", RevisionChanged)
                   + When(exists f :: f in findings && f.severity == Blocking, BlockingFindings)
                   + When(exists f :: f in findings && f.severity == Warning && f.ruleId !in acknowledged,
                          WarningsUnacknowledged)
                   + When(exists f :: f in findings && f.severity == Error, ErrorFindings)
  {
    FindingsExactly(e.report.value, acknowledged);
    assert When(false, PlanHashChanged) == [];
  }
}
