/** The engineer desktop controller over a service that may return anything or raise. */
module DesktopController {
  import opened ApprovalGate
  import opened Options
  import opened SessionTrace

  datatype Failure =
    | ApprovalRequired | DocumentNotFound | RollbackRecoveryRequired(retryable: bool) | OtherFailure

  datatype Call<T> = Returned(value: T) | Raised(failure: Failure)

  datatype Spec = Spec(sealedRaster: bool)

  datatype ApprovalOutcome = ApprovalOutcome(approved: bool, approvalId: Option<string>, reasons: seq<Reason>)

  datatype RollbackOutcome = RollbackNotReviewed | RollbackApproved(approvalId: string)

  /** What the service answered to a read. */
  datatype Observation =
    | JobSeen(jobId: string, job: Option<Job>)
    | SpecSeen(jobId: string, spec: Option<Spec>)
    | DocumentSeen(documentId: string)
    | PlanSeen(jobId: string, plan: Option<Plan>)
    | ReportSeen(jobId: string, report: Option<Report>)
    | RevisionSeen(documentId: string, revision: string, isCurrent: bool)
    | HashSeen(stored: Plan, hash: Option<string>, genuine: bool)
    | CompilationSeen(compiled: Spec, jobId: string, revision: string, planHash: Option<Option<string>>)

  /** A call that drives the job's write state machine. */
  datatype Drive = PreviewDriven(jobId: string) | ValidationDriven(jobId: string)

  /** A request that changes something, with all its arguments and the answer. */
  datatype Sent =
    | ApprovalAsked(jobId: string, approvedBy: string, acknowledged: set<string>, planHash: string, revision: string,
                    granted: Call<(string, string)>)
    | CommitAsked(jobId: string, idempotencyKey: string, revision: string, planHash: string, token: string,
                  answer: Call<()>)
    | ScopeAsked(jobId: string, scope: Call<RollbackScope>)
    | RollbackApprovalAsked(jobId: string, approvedBy: string, checkpointId: string, revision: string,
                            granted: Call<(string, string)>)
    | RollbackAsked(jobId: string, checkpointId: string, revision: string, token: string, answer: Call<()>)

  /** The harness service as the controller sees it: every call may return any value, or raise. */
  class Service {
    /** The credential traffic so far. */
    ghost var calls: seq<ServiceCall>
    /** The answered reads so far. */
    ghost var observations: seq<Observation>
    /** The attempted drives so far. */
    ghost var driven: seq<Drive>
    /** What the other calls raised so far. */
    ghost var raised: seq<Failure>
    /** The requests so far. */
    ghost var sent: seq<Sent>

    constructor ()
      ensures calls == [] && observations == [] && driven == [] && raised == [] && sent == []
    {
      calls, observations, driven, raised, sent := [], [], [], [], [];
    }

    ghost method Note<T>(r: Call<T>)
      modifies this`raised
      ensures raised == old(raised) + RaisedBy(r)
    {
      raised := raised + RaisedBy(r);
    }

    method GetJob(jobId: string) returns (r: Call<Option<Job>>)
      modifies this`observations, this`raised
      ensures raised == old(raised) + RaisedBy(r)
      ensures observations == old(observations) + if r.Returned? then [JobSeen(jobId, r.value)] else []
    {
      r := *;
      Note(r);
      if r.Returned? { observations := observations + [JobSeen(jobId, r.value)]; }
    }

    method GetSpec(jobId: string) returns (r: Call<Option<Spec>>)
      modifies this`observations, this`raised
      ensures raised == old(raised) + RaisedBy(r)
      ensures observations == old(observations) + if r.Returned? then [SpecSeen(jobId, r.value)] else []
    {
      r := *;
      Note(r);
      if r.Returned? { observations := observations + [SpecSeen(jobId, r.value)]; }
    }

    method GetPlan(jobId: string) returns (r: Call<Option<Plan>>)
      modifies this`observations, this`raised
      ensures raised == old(raised) + RaisedBy(r)
      ensures observations == old(observations) + if r.Returned? then [PlanSeen(jobId, r.value)] else []
    {
      r := *;
      Note(r);
      if r.Returned? { observations := observations + [PlanSeen(jobId, r.value)]; }
    }

    method GetValidation(jobId: string) returns (r: Call<Option<Report>>)
      modifies this`observations, this`raised
      ensures raised == old(raised) + RaisedBy(r)
      ensures observations == old(observations) + if r.Returned? then [ReportSeen(jobId, r.value)] else []
    {
      r := *;
      Note(r);
      if r.Returned? { observations := observations + [ReportSeen(jobId, r.value)]; }
    }

    method InspectDocument(documentId: string) returns (r: Call<()>)
      modifies this`observations, this`raised
      ensures raised == old(raised) + RaisedBy(r)
      ensures observations == old(observations) + if r.Returned? then [DocumentSeen(documentId)] else []
    {
      r := *;
      Note(r);
      if r.Returned? { observations := observations + [DocumentSeen(documentId)]; }
    }

    /** Whether a stored plan hashes to the given value. */
    method VerifyHash(plan: Plan, hash: Option<string>) returns (r: Call<bool>)
      modifies this`observations, this`raised
      ensures raised == old(raised) + RaisedBy(r)
      ensures observations == old(observations) + if r.Returned? then [HashSeen(plan, hash, r.value)] else []
    {
      r := *;
      Note(r);
      if r.Returned? { observations := observations + [HashSeen(plan, hash, r.value)]; }
    }

    /** Compile the specification again; the result is the compiled plan's hash, if a plan came out. */
    method Compile(spec: Spec, jobId: string, expectedRevision: string) returns (r: Call<Option<Option<string>>>)
      modifies this`observations, this`raised
      ensures raised == old(raised) + RaisedBy(r)
      ensures observations == old(observations)
        + if r.Returned? then [CompilationSeen(spec, jobId, expectedRevision, r.value)] else []
    {
      r := *;
      Note(r);
      if r.Returned? {
        observations := observations + [CompilationSeen(spec, jobId, expectedRevision, r.value)];
      }
    }

    method Preview(jobId: string) returns (r: Call<()>)
      modifies this`driven, this`raised
      ensures raised == old(raised) + RaisedBy(r)
      ensures driven == old(driven) + [PreviewDriven(jobId)]
    {
      driven := driven + [PreviewDriven(jobId)];
      r := *;
      Note(r);
    }

    method Validate(jobId: string) returns (r: Call<Report>)
      modifies this`driven, this`raised
      ensures raised == old(raised) + RaisedBy(r)
      ensures driven == old(driven) + [ValidationDriven(jobId)]
    {
      driven := driven + [ValidationDriven(jobId)];
      r := *;
      Note(r);
    }

    method BuildView(jobId: string) returns (r: Call<()>)
      modifies this`raised
      ensures raised == old(raised) + RaisedBy(r)
    {
      r := *;
      Note(r);
    }

    method ValidateDisplayedRevision(documentId: string, revision: string) returns (r: Call<bool>)
      modifies this`observations, this`raised
      ensures raised == old(raised) + RaisedBy(r)
      ensures observations == old(observations)
        + if r.Returned? then [RevisionSeen(documentId, revision, r.value)] else []
    {
      r := *;
      Note(r);
      if r.Returned? { observations := observations + [RevisionSeen(documentId, revision, r.value)]; }
    }

    method Approve(jobId: string, approvedBy: string, acknowledged: set<string>,
                   displayedPlanHash: string, displayedRevision: string) returns (r: Call<(string, string)>)
      modifies this`calls, this`sent
      ensures sent == old(sent)
        + [ApprovalAsked(jobId, approvedBy, acknowledged, displayedPlanHash, displayedRevision, r)]
      ensures calls == old(calls) + if r.Returned?
        then [ApprovalGranted(jobId, displayedPlanHash, displayedRevision, r.value.1)] else []
    {
      r := *;
      sent := sent + [ApprovalAsked(jobId, approvedBy, acknowledged, displayedPlanHash, displayedRevision, r)];
      if r.Returned? {
        calls := calls + [ApprovalGranted(jobId, displayedPlanHash, displayedRevision, r.value.1)];
      }
    }

    method Commit(jobId: string, idempotencyKey: string, expectedRevision: string, planHash: string,
                  approvalToken: string) returns (r: Call<()>)
      modifies this`calls, this`sent
      ensures sent == old(sent) + [CommitAsked(jobId, idempotencyKey, expectedRevision, planHash, approvalToken, r)]
      ensures calls == old(calls) + [CommitCall(jobId, planHash, expectedRevision, approvalToken)]
    {
      calls := calls + [CommitCall(jobId, planHash, expectedRevision, approvalToken)];
      r := *;
      sent := sent + [CommitAsked(jobId, idempotencyKey, expectedRevision, planHash, approvalToken, r)];
    }

    method RollbackScopeOf(jobId: string) returns (r: Call<RollbackScope>)
      modifies this`sent
      ensures sent == old(sent) + [ScopeAsked(jobId, r)]
    {
      r := *;
      sent := sent + [ScopeAsked(jobId, r)];
    }

    method ApproveRollback(jobId: string, approvedBy: string, displayedCheckpointId: string,
                           displayedCurrentRevision: string) returns (r: Call<(string, string)>)
      modifies this`calls, this`sent
      ensures sent == old(sent)
        + [RollbackApprovalAsked(jobId, approvedBy, displayedCheckpointId, displayedCurrentRevision, r)]
      ensures calls == old(calls) + if r.Returned?
        then [RollbackGranted(jobId, displayedCheckpointId, displayedCurrentRevision, r.value.1)] else []
    {
      r := *;
      sent := sent + [RollbackApprovalAsked(jobId, approvedBy, displayedCheckpointId, displayedCurrentRevision, r)];
      if r.Returned? {
        calls := calls + [RollbackGranted(jobId, displayedCheckpointId, displayedCurrentRevision, r.value.1)];
      }
    }

    method Rollback(jobId: string, checkpointId: string, currentRevision: string, rollbackApprovalToken: string)
      returns (r: Call<()>)
      modifies this`calls, this`sent
      ensures sent == old(sent) + [RollbackAsked(jobId, checkpointId, currentRevision, rollbackApprovalToken, r)]
      ensures calls == old(calls)
        + [RollbackCall(jobId, checkpointId, currentRevision, rollbackApprovalToken, IsRetryable(r))]
    {
      r := *;
      sent := sent + [RollbackAsked(jobId, checkpointId, currentRevision, rollbackApprovalToken, r)];
      calls := calls + [RollbackCall(jobId, checkpointId, currentRevision, rollbackApprovalToken, IsRetryable(r))];
    }
  }

  /** What a call adds to the log of raised failures. */
  function RaisedBy<T>(r: Call<T>): seq<Failure> {
    if r.Raised? then [r.failure] else []
  }

  /** The typed recovery error that keeps a rollback credential alive. */
  predicate IsRetryable(r: Call<()>) {
    r.Raised? && r.failure.RollbackRecoveryRequired? && r.failure.retryable
  }

  predicate IsTerminal(state: JobState) {
    state == Committed || state == Failed || state == RolledBack || state == UnknownCommitState
  }

  /** What a refresh reads about a job. */
  datatype Reading = Reading(job: Job, spec: Spec, plan: Option<Plan>)

  ghost function ReadingSeen(jobId: string, x: Reading): seq<Observation> {
    [JobSeen(jobId, Some(x.job)), SpecSeen(jobId, Some(x.spec)), DocumentSeen(x.job.documentId),
     PlanSeen(jobId, x.plan)]
  }

  /** How the hash of the plan was re-derived, and with what outcome. */
  datatype HashCheck = HashesDiffer | Verified(genuine: bool) | Recompiled(planHash: Option<Option<string>>)

  ghost function CheckSeen(jobId: string, x: Reading, check: HashCheck): seq<Observation>
    requires x.plan.Some? || check.Recompiled?
  {
    match check
    case HashesDiffer => []
    case Verified(genuine) => [HashSeen(x.plan.value, x.job.planHash, genuine)]
    case Recompiled(planHash) => [CompilationSeen(x.spec, jobId, x.job.expectedRevision, planHash)]
  }

  /** The stored plan of a sealed or terminal job is verified; everything else is compiled again. */
  ghost predicate CheckApplies(x: Reading, check: HashCheck) {
    if x.plan.Some? && (x.spec.sealedRaster || x.job.state in {Committed, Failed, RolledBack, UnknownCommitState})
    then if x.plan.value.planHash == x.job.planHash then check.Verified? else check.HashesDiffer?
    else check.Recompiled?
  }

  /** The check confirms the stored plan. */
  ghost predicate Confirms(plan: Plan, check: HashCheck) {
    match check
    case HashesDiffer => false
    case Verified(genuine) => genuine
    case Recompiled(planHash) => planHash == Some(plan.planHash)
  }

  /** What a refresh that gets through leaves on display: the job's stored plan at the job's revision; without a plan
      nothing; and what was there before if the plan carries no hash. */
  ghost function DisplayAfter(before: Option<Scope>, jobId: string, x: Reading): Option<Scope> {
    if x.plan.None? then None
    else if x.plan.value.planHash.None? then before
    else Some(Scope(jobId, x.plan.value.planHash.value, x.job.expectedRevision))
  }

  /** A refresh that gets through leaves another job on display exactly when one was and the stored plan carries
      no hash. */
  lemma ForeignDisplayExactly(before: Option<Scope>, jobId: string, x: Reading)
    ensures var shown := DisplayAfter(before, jobId, x);
      (shown.Some? && shown.value.jobId != jobId) <==>
        (before.Some? && before.value.jobId != jobId && x.plan.Some? && x.plan.value.planHash.None?)
  {
  }

  /** A session that displays one job, and still does after a refresh of another: that one's stored plan carries no
      hash, and neither does the plan that its compilation yields, which confirms it. */
  lemma ForeignDisplayStays()
    ensures var shown := Scope("first", "hash", "r1");
      var x := Reading(Job("doc", Planned, None, "r2"), Spec(false), Some(Plan(None, None)));
      var check := Recompiled(Some(None));
      && After([Shown(shown, "hash")]).displayed == Some(shown) && Legal([Shown(shown, "hash")])
      && CheckApplies(x, check) && Confirms(x.plan.value, check)
      && DisplayAfter(Some(shown), "second", x) == Some(shown)
  {
    TellsNothing();
    TellsMore([], Held(None, None, None, None), [], Shown(Scope("first", "hash", "r1"), "hash"));
    assert [] + [Shown(Scope("first", "hash", "r1"), "hash")] == [Shown(Scope("first", "hash", "r1"), "hash")];
  }

  /** The job turned out not to be stored, or to have no specification. */
  ghost predicate Incomplete(before: seq<Observation>, after: seq<Observation>, jobId: string, failure: Failure) {
    || (after == before + [JobSeen(jobId, None)] && failure == DocumentNotFound)
    || (failure == ApprovalRequired && exists job :: after == before + [JobSeen(jobId, Some(job)), SpecSeen(jobId,
        None)])
  }

  /** Only a plan still open to approval is previewed and validated again. */
  ghost predicate ReopensReview(x: Reading) {
    x.plan.Some? && x.job.state !in {Committed, Failed, RolledBack, UnknownCommitState, Approved}
  }

  /** What was read for the evidence, and in which order: the displayed job's job, plan and report, and once
      these let it pass, whether the displayed revision is that job's document's. */
  ghost function EvidenceSeen(scope: Scope, e: Evidence): seq<Observation> {
    [JobSeen(scope.jobId, e.job), PlanSeen(scope.jobId, e.plan), ReportSeen(scope.jobId, e.report)]
    + if EarlyRefusal(Some(scope), e).Some? then []
      else [RevisionSeen(e.job.value.documentId, scope.expectedRevision, e.revisionIsCurrent)]
  }

  /** The approval request for a scope. */
  function AskedFor(scope: Scope, approvedBy: string, acknowledged: set<string>, granted: Call<(string,
      string)>): Sent {
    ApprovalAsked(scope.jobId, approvedBy, acknowledged, scope.planHash, scope.expectedRevision, granted)
  }

  /** A moment of a session. */
  datatype Snapshot = Snapshot(held: Held, trace: seq<Event>, sent: seq<Sent>,
                               observations: seq<Observation>, raised: seq<Failure>)

  /** The observation at this position is of the job. */
  ghost predicate First(observations: seq<Observation>, position: nat, jobId: string) {
    position < |observations| && observations[position].JobSeen? && observations[position].jobId == jobId
  }

  /** What serving a request does. */
  ghost predicate Effect(request: Request, s: Snapshot, t: Snapshot) {
    match request
    case DoRefresh(jobId) =>
      && t.sent == s.sent && s.observations <= t.observations
      && if t.observations == s.observations then s.raised < t.raised
         else First(t.observations, |s.observations|, jobId)
    case DoApprove(approvedBy, acknowledged) => Approves(approvedBy, acknowledged, s, t)
    case DoCommit(key) =>
      if s.held.approval.None? then t == s
      else
        var Credential(scope, token) := s.held.approval.value;
        && t.trace == s.trace + [CommitSent(scope, token)]
        && exists answer ::
             t.sent == s.sent + [CommitAsked(scope.jobId, key, scope.expectedRevision, scope.planHash, token, answer)]
    case DoClearApproval => t.trace == s.trace + [ApprovalCleared] && t.sent == s.sent
    case DoPrepareRollback(jobId) =>
      exists scope ::
        && t.sent == s.sent + [ScopeAsked(jobId, scope)]
        && t.trace == s.trace + [RollbackCleared] + if scope.Returned? then [RollbackShown(scope.value)] else []
    case DoApproveRollback(approvedBy) =>
      if s.held.reviewed.None? then t == s
      else
        var x := s.held.reviewed.value;
        exists granted ::
          && t.sent == s.sent + [RollbackApprovalAsked(x.jobId, approvedBy, x.checkpointId, x.currentRevision, granted)]
          && t.held.rollbackToken == if granted.Returned? then Some(granted.value.1) else s.held.rollbackToken
    case DoRollback =>
      if s.held.reviewed.None? || s.held.rollbackToken.None? then t == s
      else
        var x, token := s.held.reviewed.value, s.held.rollbackToken.value;
        exists answer ::
          && t.sent == s.sent + [RollbackAsked(x.jobId, x.checkpointId, x.currentRevision, token, answer)]
          && t.trace == s.trace + [RollbackSent(x, token, IsRetryable(answer))]
    case DoClearRollback => t.trace == s.trace + [RollbackCleared] && t.sent == s.sent
  }

  /** The gate runs on evidence read now, unless reading it fails; if it allows the scope, approval is asked for, and
      a granted token is kept with the scope. */
  ghost predicate Approves(approvedBy: string, acknowledged: set<string>, s: Snapshot, t: Snapshot) {
    if s.held.displayed.None? then t.sent == s.sent && t.trace == s.trace
    else
      var scope := s.held.displayed.value;
      || (s.raised < t.raised && t.sent == s.sent && t.trace == s.trace)
      || exists e: Evidence :: t.observations == s.observations + EvidenceSeen(scope, e)
           && if Evaluate(Some(scope), e, acknowledged).canApprove then Asks(scope, approvedBy, acknowledged, s, t)
              else t.sent == s.sent && t.trace == s.trace
  }

  ghost predicate Asks(scope: Scope, approvedBy: string, acknowledged: set<string>, s: Snapshot, t: Snapshot) {
    exists granted ::
      && t.sent == s.sent + [AskedFor(scope, approvedBy, acknowledged, granted)]
      && t.trace == if granted.Returned? then s.trace + [Issued(scope, granted.value.1)] else s.trace
  }

  class EngineerDesktopController {
    const service: Service
    var displayedScope: Option<Scope>
    var approvalToken: Option<string>
    var approvedScope: Option<Scope>
    var rollbackScope: Option<RollbackScope>
    var rollbackApprovalToken: Option<string>

    /** Everything shown, issued, sent and cleared so far. */
    ghost var trace: seq<Event>

    ghost function Fields(): Held
      reads this
    {
      Held(displayedScope,
           if approvalToken.Some? && approvedScope.Some?
           then Some(Credential(approvedScope.value, approvalToken.value)) else None,
           rollbackScope, rollbackApprovalToken)
    }

    /** The credentials in memory are exactly those the trace accounts for, the trace is legal and tells exactly
        what passed between controller and service; an approval token and its scope come and go together. */
    ghost predicate Valid()
      reads this, service
    {
      && Tells(trace, Fields(), service.calls)
      && (approvalToken.Some? <==> approvedScope.Some?)
    }

    ghost function Taken(): Snapshot
      reads this, service
    {
      Snapshot(Fields(), trace, service.sent, service.observations, service.raised)
    }

    constructor (service: Service)
      requires service.calls == []
      ensures Valid() && trace == [] && this.service == service
    {
      this.service := service;
      displayedScope, approvalToken, approvedScope := None, None, None;
      rollbackScope, rollbackApprovalToken := None, None;
      trace := [];
      TellsNothing();
    }

    /** Add the event that led from what was held and had passed before to what is held and has passed now. */
    ghost method Record(before: Held, passed: seq<ServiceCall>, e: Event)
      requires Tells(trace, before, passed) && Allowed(before, e)
      requires Fields() == Step(before, e) && service.calls == passed + CallOf(e)
      modifies this`trace
      ensures trace == old(trace) + [e]
      ensures Tells(trace, Fields(), service.calls)
    {
      TellsMore(trace, before, passed, e);
      trace := trace + [e];
    }

    method Hide()
      requires Valid()
      modifies this`displayedScope, this`trace
      ensures Valid() && displayedScope == None && trace == old(trace) + [Hidden]
    {
      displayedScope := None;
      Record(old(Fields()), old(service.calls), Hidden);
    }

    method Show(scope: Scope, recomputedHash: string)
      requires Valid() && recomputedHash == scope.planHash
      modifies this`displayedScope, this`trace
      ensures Valid() && displayedScope == Some(scope) && trace == old(trace) + [Shown(scope, recomputedHash)]
    {
      displayedScope := Some(scope);
      Record(old(Fields()), old(service.calls), Shown(scope, recomputedHash));
    }

    /** Re-derive the hash of the plan to be displayed: for a sealed or terminal job by verifying the stored plan,
        otherwise by compiling the specification again. A result of None means that the plan no longer matches. */
    method RecomputeHash(jobId: string, x: Reading)
      returns (r: Call<Option<Option<string>>>, ghost check: Option<HashCheck>)
      modifies service`observations, service`raised
      ensures service.raised == old(service.raised) + RaisedBy(r)
      ensures r.Returned? <==> check.Some?
      ensures r.Raised? ==> service.observations == old(service.observations)
      ensures check.Some? ==>
        && CheckApplies(x, check.value)
        && service.observations == old(service.observations) + CheckSeen(jobId, x, check.value)
      ensures r.Returned? && x.plan.Some? ==>
        r.value == if Confirms(x.plan.value, check.value) then Some(x.plan.value.planHash) else None
      ensures r.Returned? && x.plan.None? ==> r.value.Some?
    {
      var Reading(job, spec, plan) := x;
      if (spec.sealedRaster || IsTerminal(job.state)) && plan.Some? {
        if plan.value.planHash != job.planHash {
          return Returned(None), Some(HashesDiffer);
        }
        var verified := service.VerifyHash(plan.value, job.planHash);
        if verified.Raised? {
          return Raised(verified.failure), None;
        }
        return Returned(if verified.value then Some(plan.value.planHash) else None), Some(Verified(verified.value));
      }
      var compiled := service.Compile(spec, jobId, job.expectedRevision);
      if compiled.Raised? {
        return Raised(compiled.failure), None;
      }
      check := Some(Recompiled(compiled.value));
      if plan.Some? && (compiled.value.None? || compiled.value.value != plan.value.planHash) {
        return Returned(None), check;
      }
      r := Returned(Some(if compiled.value.Some? then compiled.value.value else None));
    }

    /** Read current state and decide what is on display. Credentials are never touched. A plan that its check does
        not confirm is withdrawn from display; a confirmed one is displayed for this job at the job's revision. After
        a normal return the display belongs to this job, unless the stored plan carries no hash. */
    method Refresh(jobId: string)
      returns (r: Call<()>, ghost seen: Option<Reading>, ghost check: Option<HashCheck>)
      requires Valid()
      modifies this`displayedScope, this`trace, service`observations, service`driven, service`raised
      ensures Valid()
      ensures check.Some? ==>
        && seen.Some? && CheckApplies(seen.value, check.value)
        && old(service.observations) + ReadingSeen(jobId, seen.value) + CheckSeen(jobId, seen.value, check.value)
           <= service.observations
      ensures old(service.observations) <= service.observations
      ensures if service.observations == old(service.observations) then old(service.raised) < service.raised
              else First(service.observations, |old(service.observations)|, jobId)
      ensures check.None? ==> r.Raised? && displayedScope == old(displayedScope)
      ensures r.Raised? ==>
        || service.raised == old(service.raised) + [r.failure]
        || (check.Some? && seen.value.plan.Some? && !Confirms(seen.value.plan.value, check.value))
        || Incomplete(old(service.observations), service.observations, jobId, r.failure)
      ensures r.Returned? ==> service.raised == old(service.raised)
      ensures check.Some? && seen.value.plan.Some? && !Confirms(seen.value.plan.value, check.value) ==>
        r == Raised(ApprovalRequired) && displayedScope == None
      ensures displayedScope == old(displayedScope) || displayedScope == None
        || (check.Some? && seen.value.plan.Some? && Confirms(seen.value.plan.value, check.value)
            && displayedScope == DisplayAfter(old(displayedScope), jobId, seen.value))
      ensures r.Returned? ==>
        && displayedScope == DisplayAfter(old(displayedScope), jobId, seen.value)
        && (seen.value.plan.Some? ==> Confirms(seen.value.plan.value, check.value))
      ensures check.None? || !ReopensReview(seen.value) ==> service.driven == old(service.driven)
      ensures r.Returned? && ReopensReview(seen.value) ==>
        service.driven == old(service.driven) + [PreviewDriven(jobId), ValidationDriven(jobId)]
    {
      seen, check := None, None;
      var reading := ReadJob(jobId);
      if reading.Raised? { return Raised(reading.failure), seen, check; }
      var x := reading.value;
      seen := Some(x);
      var hash, hashCheck := RecomputeHash(jobId, x);
      check := hashCheck;
      if hash.Raised? { return Raised(hash.failure), seen, check; }
      if hash.value.None? {
        Hide();
        return Raised(ApprovalRequired), seen, check;
      }
      r := Present(jobId, x, hash.value.value);
    }

    /** Preview the confirmed plan, put it on display and build its view. */
    method Present(jobId: string, x: Reading, recomputedHash: Option<string>) returns (r: Call<()>)
      requires Valid() && (x.plan.Some? ==> recomputedHash == x.plan.value.planHash)
      modifies this`displayedScope, this`trace, service`observations, service`driven, service`raised
      ensures Valid() && service.raised == old(service.raised) + RaisedBy(r)
      ensures old(service.observations) <= service.observations
      ensures displayedScope == old(displayedScope) || displayedScope == DisplayAfter(old(displayedScope), jobId, x)
      ensures r.Returned? ==> displayedScope == DisplayAfter(old(displayedScope), jobId, x)
      ensures !ReopensReview(x) ==> service.driven == old(service.driven)
      ensures r.Returned? && ReopensReview(x) ==>
        service.driven == old(service.driven) + [PreviewDriven(jobId), ValidationDriven(jobId)]
    {
      r := PreparePreview(jobId, x);
      if r.Raised? { return; }
      if x.plan.None? {
        Hide();
      } else if x.plan.value.planHash.Some? {
        Show(Scope(jobId, x.plan.value.planHash.value, x.job.expectedRevision), recomputedHash.value);
      }
      r := service.BuildView(jobId);
    }

    /** The stored job, its specification and its plan; the document must be readable. */
    method ReadJob(jobId: string) returns (r: Call<Reading>)
      modifies service`observations, service`raised
      ensures r.Raised? ==>
        || service.raised == old(service.raised) + [r.failure]
        || Incomplete(old(service.observations), service.observations, jobId, r.failure)
      ensures r.Returned? ==> service.raised == old(service.raised)
      ensures old(service.observations) <= service.observations
      ensures if service.observations == old(service.observations) then old(service.raised) < service.raised
              else First(service.observations, |old(service.observations)|, jobId)
      ensures r.Returned? ==> service.observations == old(service.observations) + ReadingSeen(jobId, r.value)
    {
      var job := service.GetJob(jobId);
      if job.Raised? { return Raised(job.failure); }
      if job.value.None? { return Raised(DocumentNotFound); }
      var spec := service.GetSpec(jobId);
      if spec.Raised? { return Raised(spec.failure); }
      if spec.value.None? { return Raised(ApprovalRequired); }
      var snapshot := service.InspectDocument(job.value.value.documentId);
      if snapshot.Raised? { return Raised(snapshot.failure); }
      var plan := service.GetPlan(jobId);
      if plan.Raised? { return Raised(plan.failure); }
      r := Returned(Reading(job.value.value, spec.value.value, plan.value));
    }

    /** Read the stored report and, for a plan still open to approval, preview and validate it again. A terminal or
        approved job is never driven through its write states again. */
    method PreparePreview(jobId: string, x: Reading) returns (r: Call<()>)
      modifies service`observations, service`driven, service`raised
      ensures service.raised == old(service.raised) + RaisedBy(r)
      ensures old(service.observations) <= service.observations
      ensures !ReopensReview(x) ==> service.driven == old(service.driven)
      ensures r.Returned? && ReopensReview(x) ==>
        service.driven == old(service.driven) + [PreviewDriven(jobId), ValidationDriven(jobId)]
    {
      var report := service.GetValidation(jobId);
      if report.Raised? { return Raised(report.failure); }
      if x.plan.Some? && !IsTerminal(x.job.state) && x.job.state != Approved {
        var preview := service.Preview(jobId);
        if preview.Raised? { return preview; }
        var validated := service.Validate(jobId);
        if validated.Raised? { return Raised(validated.failure); }
      }
      r := Returned(());
    }

    /** Poll whether the display could be approved. The ghost result is the evidence that was read, each item for
        the displayed job. */
    method Eligibility(acknowledged: set<string>) returns (r: Call<Decision>, ghost evidence: Evidence)
      modifies service`observations, service`raised
      ensures service.raised == old(service.raised) + RaisedBy(r)
      ensures r.Raised? ==> displayedScope.Some?
      ensures r.Returned? ==> r.value == Evaluate(displayedScope, evidence, acknowledged)
      ensures r.Returned? && displayedScope.Some? ==>
        service.observations == old(service.observations) + EvidenceSeen(displayedScope.value, evidence)
    {
      evidence := Evidence(None, None, None, false);
      if displayedScope.None? {
        return Returned(Decision(false, [PreviewNotReady])), evidence;
      }
      var scope := displayedScope.value;
      var job := service.GetJob(scope.jobId);
      if job.Raised? { return Raised(job.failure), evidence; }
      var plan := service.GetPlan(scope.jobId);
      if plan.Raised? { return Raised(plan.failure), evidence; }
      var report := service.GetValidation(scope.jobId);
      if report.Raised? { return Raised(report.failure), evidence; }
      var seen := Evidence(job.value, plan.value, report.value, false);
      evidence := seen;
      assert service.observations == old(service.observations)
        + [JobSeen(scope.jobId, seen.job), PlanSeen(scope.jobId, seen.plan), ReportSeen(scope.jobId, seen.report)];
      var refusal := EarlyRefusal(displayedScope, seen);
      if refusal.Some? {
        return Returned(Decision(false, [refusal.value])), evidence;
      }
      var current := service.ValidateDisplayedRevision(job.value.value.documentId, scope.expectedRevision);
      if current.Raised? { return Raised(current.failure), evidence; }
      seen := seen.(revisionIsCurrent := current.value);
      evidence := seen;
      r := Returned(Evaluate(displayedScope, seen, acknowledged));
    }

    /** Run the gate again on fresh reads, then obtain one token for exactly the displayed scope. */
    method Approve(approvedBy: string, acknowledged: set<string>)
      returns (r: Call<ApprovalOutcome>, ghost evidence: Evidence)
      requires Valid()
      modifies this`approvalToken, this`approvedScope, this`trace
      modifies service`calls, service`observations, service`raised, service`sent
      ensures Valid()
      ensures r.Returned? ==>
        && service.raised == old(service.raised)
        && var decision := Evaluate(displayedScope, evidence, acknowledged);
        && r.value.approved == decision.canApprove && r.value.reasons == decision.reasons
        && (r.value.approvalId.Some? <==> r.value.approved)
      ensures r.Raised? ==> displayedScope.Some?
      ensures r.Raised? ==>
        || (service.raised == old(service.raised) + [r.failure] && service.sent == old(service.sent))
        || (Evaluate(displayedScope, evidence, acknowledged).canApprove
            && service.observations == old(service.observations) + EvidenceSeen(displayedScope.value, evidence)
            && service.sent == old(service.sent) + [AskedFor(displayedScope.value, approvedBy, acknowledged,
                                                             Raised(r.failure))])
      ensures r.Returned? && !r.value.approved ==> service.sent == old(service.sent)
      ensures r.Returned? && displayedScope.Some? ==>
        service.observations == old(service.observations) + EvidenceSeen(displayedScope.value, evidence)
      ensures r.Returned? && r.value.approved ==>
        && displayedScope.Some? && approvalToken.Some? && Evaluate(displayedScope, evidence, acknowledged).canApprove
        && service.sent == old(service.sent) + [AskedFor(displayedScope.value, approvedBy, acknowledged,
                                                         Returned((r.value.approvalId.value, approvalToken.value)))]
        && service.observations == old(service.observations) + EvidenceSeen(displayedScope.value, evidence)
        && approvedScope == displayedScope
        && trace == old(trace) + [Issued(displayedScope.value, approvalToken.value)]
      ensures !(r.Returned? && r.value.approved) ==>
        trace == old(trace) && approvalToken == old(approvalToken) && approvedScope == old(approvedScope)
    {
      var eligibility, read := Eligibility(acknowledged);
      evidence := read;
      if eligibility.Raised? { return Raised(eligibility.failure), evidence; }
      EvaluateExact(displayedScope, evidence, acknowledged);
      if !eligibility.value.canApprove {
        return Returned(ApprovalOutcome(false, None, eligibility.value.reasons)), evidence;
      }
      var scope := displayedScope.value;
      var issued := service.Approve(scope.jobId, approvedBy, acknowledged, scope.planHash, scope.expectedRevision);
      if issued.Raised? { return Raised(issued.failure), evidence; }
      var (approvalId, token) := issued.value;
      approvalToken := Some(token);
      approvedScope := Some(scope);
      Record(old(Fields()), old(service.calls), Issued(scope, token));
      r := Returned(ApprovalOutcome(true, Some(approvalId), []));
    }

    method ClearApproval()
      requires Valid()
      modifies this`approvalToken, this`approvedScope, this`trace
      ensures Valid() && approvalToken == None && approvedScope == None
      ensures trace == old(trace) + [ApprovalCleared]
    {
      approvalToken := None;
      approvedScope := None;
      Record(old(Fields()), old(service.calls), ApprovalCleared);
    }

    /** Send the held token with exactly its scope, and drop both however the service answers. */
    method CommitApproved(idempotencyKey: string) returns (r: Call<()>)
      requires Valid()
      modifies this`approvalToken, this`approvedScope, this`trace, service`calls, service`sent
      ensures Valid()
      ensures approvalToken == None && approvedScope == None
      ensures old(approvalToken).None? ==>
        r == Raised(ApprovalRequired) && trace == old(trace) && service.sent == old(service.sent)
      ensures old(approvalToken).Some? ==>
        var scope := old(approvedScope).value;
        && service.sent == old(service.sent) + [CommitAsked(scope.jobId, idempotencyKey, scope.expectedRevision,
                                                            scope.planHash, old(approvalToken).value, r)]
      ensures old(approvalToken).Some? ==>
        trace == old(trace) + [CommitSent(old(approvedScope).value, old(approvalToken).value)]
    {
      if approvalToken.None? || approvedScope.None? {
        return Raised(ApprovalRequired);
      }
      var token, scope := approvalToken.value, approvedScope.value;
      r := service.Commit(scope.jobId, idempotencyKey, scope.expectedRevision, scope.planHash, token);
      approvalToken := None;
      approvedScope := None;
      Record(old(Fields()), old(service.calls), CommitSent(scope, token));
    }

    method ClearRollbackApproval()
      requires Valid()
      modifies this`rollbackScope, this`rollbackApprovalToken, this`trace
      ensures Valid() && rollbackScope == None && rollbackApprovalToken == None
      ensures trace == old(trace) + [RollbackCleared]
    {
      rollbackApprovalToken := None;
      rollbackScope := None;
      Record(old(Fields()), old(service.calls), RollbackCleared);
    }

    /** Forget any earlier rollback credential, then put one exact scope under review. */
    method PrepareRollback(jobId: string) returns (r: Call<RollbackScope>)
      requires Valid()
      modifies this`rollbackScope, this`rollbackApprovalToken, this`trace, service`sent
      ensures Valid() && rollbackApprovalToken == None
      ensures service.sent == old(service.sent) + [ScopeAsked(jobId, r)]
      ensures trace == old(trace) + [RollbackCleared] + if r.Returned? then [RollbackShown(r.value)] else []
      ensures rollbackScope == if r.Returned? then Some(r.value) else None
    {
      ClearRollbackApproval();
      r := service.RollbackScopeOf(jobId);
      if r.Returned? {
        Review(r.value);
      }
    }

    method Review(reviewed: RollbackScope)
      requires Valid() && rollbackApprovalToken == None
      modifies this`rollbackScope, this`trace
      ensures Valid() && rollbackScope == Some(reviewed) && trace == old(trace) + [RollbackShown(reviewed)]
    {
      rollbackScope := Some(reviewed);
      Record(old(Fields()), service.calls, RollbackShown(reviewed));
    }

    method ApproveRollback(approvedBy: string) returns (r: Call<RollbackOutcome>)
      requires Valid()
      modifies this`rollbackApprovalToken, this`trace, service`calls, service`sent
      ensures Valid()
      ensures rollbackScope.None? ==> r == Returned(RollbackNotReviewed) && service.sent == old(service.sent)
      ensures rollbackScope.Some? ==>
        && !(r.Returned? && r.value.RollbackNotReviewed?) && (r.Returned? ==> rollbackApprovalToken.Some?)
        && var scope := rollbackScope.value;
        && service.sent == old(service.sent) + [RollbackApprovalAsked(
             scope.jobId, approvedBy, scope.checkpointId, scope.currentRevision,
             if r.Raised? then Raised(r.failure)
             else Returned((r.value.approvalId, rollbackApprovalToken.value)))]
      ensures r.Returned? && r.value.RollbackApproved? ==>
        && rollbackScope.Some? && rollbackApprovalToken.Some?
        && trace == old(trace) + [RollbackIssued(rollbackScope.value, rollbackApprovalToken.value)]
      ensures !(r.Returned? && r.value.RollbackApproved?) ==>
        rollbackApprovalToken == old(rollbackApprovalToken) && trace == old(trace)
    {
      if rollbackScope.None? {
        return Returned(RollbackNotReviewed);
      }
      var scope := rollbackScope.value;
      var issued := service.ApproveRollback(scope.jobId, approvedBy, scope.checkpointId, scope.currentRevision);
      if issued.Raised? { return Raised(issued.failure); }
      var (approvalId, token) := issued.value;
      rollbackApprovalToken := Some(token);
      Record(old(Fields()), old(service.calls), RollbackIssued(scope, token));
      r := Returned(RollbackApproved(approvalId));
    }

    /** Send the rollback token with its reviewed scope; only the retryable recovery error keeps them. */
    method RollbackApprovedScope() returns (r: Call<()>)
      requires Valid()
      modifies this`rollbackScope, this`rollbackApprovalToken, this`trace, service`calls, service`sent
      ensures Valid()
      ensures old(rollbackScope).Some? && old(rollbackApprovalToken).Some? ==>
        var scope := old(rollbackScope).value;
        service.sent == old(service.sent) + [RollbackAsked(scope.jobId, scope.checkpointId, scope.currentRevision,
                                                           old(rollbackApprovalToken).value, r)]
      ensures old(rollbackScope).None? || old(rollbackApprovalToken).None? ==>
        r == Raised(ApprovalRequired) && trace == old(trace) && service.sent == old(service.sent)
        && rollbackScope == old(rollbackScope) && rollbackApprovalToken == old(rollbackApprovalToken)
      ensures old(rollbackScope).Some? && old(rollbackApprovalToken).Some? ==>
        var kept := r == Raised(RollbackRecoveryRequired(true));
        && trace == old(trace) + [RollbackSent(old(rollbackScope).value, old(rollbackApprovalToken).value, kept)]
        && rollbackScope == (if kept then old(rollbackScope) else None)
        && rollbackApprovalToken == (if kept then old(rollbackApprovalToken) else None)
    {
      if rollbackScope.None? || rollbackApprovalToken.None? {
        return Raised(ApprovalRequired);
      }
      var scope, token := rollbackScope.value, rollbackApprovalToken.value;
      r := service.Rollback(scope.jobId, scope.checkpointId, scope.currentRevision, token);
      var kept := IsRetryable(r);
      if !kept {
        rollbackApprovalToken := None;
        rollbackScope := None;
      }
      Record(old(Fields()), old(service.calls), RollbackSent(scope, token, kept));
    }
  }

  datatype Request =
    | DoRefresh(jobId: string)
    | DoApprove(approvedBy: string, acknowledged: set<string>)
    | DoCommit(idempotencyKey: string)
    | DoClearApproval
    | DoPrepareRollback(jobId: string)
    | DoApproveRollback(approvedBy: string)
    | DoRollback
    | DoClearRollback

  /** One window session: any requests in any order, against any service behaviour. Every request has its effect.
      Every commit that the service sees follows its own grant of exactly that approval, with no other grant and no
      other commit in between, and so no commit is seen more often than it was granted; every rollback follows its own
      grant of exactly that rollback, with only retryable attempts of it in between. */
  method RunSession(requests: seq<Request>)
    returns (controller: EngineerDesktopController, ghost moments: seq<Snapshot>)
    ensures fresh(controller) && fresh(controller.service) && controller.Valid()
    ensures |moments| == |requests| + 1 && moments[0] == Snapshot(Held(None, None, None, None), [], [], [], [])
    ensures moments[|requests|] == controller.Taken()
    ensures forall n :: 0 <= n < |requests| ==> Effect(requests[n], moments[n], moments[n + 1])
    ensures forall jobId, planHash, revision, token ::
      CallCount(controller.service.calls, CommitCall(jobId, planHash, revision, token))
      <= CallCount(controller.service.calls, ApprovalGranted(jobId, planHash, revision, token))
    ensures CommitLaw(controller.service.calls) && RollbackLaw(controller.service.calls)
  {
    var service := new Service();
    controller := new EngineerDesktopController(service);
    moments := [controller.Taken()];
    var n := 0;
    while n < |requests|
      invariant 0 <= n <= |requests| && |moments| == n + 1
      invariant fresh(controller) && fresh(controller.service) && controller.Valid()
      invariant moments[0] == Snapshot(Held(None, None, None, None), [], [], [], []) && moments[n] == controller.Taken()
      invariant forall m :: 0 <= m < n ==> Effect(requests[m], moments[m], moments[m + 1])
    {
      Serve(controller, requests[n]);
      moments := moments + [controller.Taken()];
      n := n + 1;
    }
    forall jobId, planHash, revision, token
      ensures CallCount(controller.service.calls, CommitCall(jobId, planHash, revision, token))
              <= CallCount(controller.service.calls, ApprovalGranted(jobId, planHash, revision, token))
    {
      CommitCallsNeverExceedGrants(controller.trace, jobId, planHash, revision, token);
    }
    CommitCallsFollowGrants(controller.trace);
    RollbackCallsFollowGrants(controller.trace);
  }

  method ServeApproval(controller: EngineerDesktopController, approvedBy: string, acknowledged: set<string>)
    requires controller.Valid()
    modifies controller, controller.service
    ensures controller.Valid()
    ensures Approves(approvedBy, acknowledged, old(controller.Taken()), controller.Taken())
  {
    ghost var before := controller.Taken();
    var r, evidence := controller.Approve(approvedBy, acknowledged);
    if before.held.displayed.Some? && !(before.raised < controller.service.raised) {
      ghost var scope := before.held.displayed.value;
      assert controller.service.observations == before.observations + EvidenceSeen(scope, evidence);
      if Evaluate(Some(scope), evidence, acknowledged).canApprove {
        ghost var granted := if r.Raised? then Raised(r.failure)
                             else Returned((r.value.approvalId.value, controller.approvalToken.value));
        assert controller.service.sent == before.sent + [AskedFor(scope, approvedBy, acknowledged, granted)];
        assert Asks(scope, approvedBy, acknowledged, before, controller.Taken());
      }
    }
  }

  method ServeRollbackApproval(controller: EngineerDesktopController, approvedBy: string)
    requires controller.Valid()
    modifies controller, controller.service
    ensures controller.Valid()
    ensures Effect(DoApproveRollback(approvedBy), old(controller.Taken()), controller.Taken())
  {
    ghost var before := controller.Taken();
    var r := controller.ApproveRollback(approvedBy);
    if before.held.reviewed.Some? {
      ghost var granted := if r.Raised? then Raised(r.failure)
                           else Returned((r.value.approvalId, controller.rollbackApprovalToken.value));
      ghost var x := before.held.reviewed.value;
      assert controller.service.sent
          == before.sent + [RollbackApprovalAsked(x.jobId, approvedBy, x.checkpointId, x.currentRevision, granted)];
    }
  }

  method Serve(controller: EngineerDesktopController, request: Request)
    requires controller.Valid()
    modifies controller, controller.service
    ensures controller.Valid()
    ensures Effect(request, old(controller.Taken()), controller.Taken())
  {
    match request
    case DoRefresh(jobId) => var _, _, _ := controller.Refresh(jobId);
    case DoApprove(approvedBy, acknowledged) => ServeApproval(controller, approvedBy, acknowledged);
    case DoCommit(key) => var _ := controller.CommitApproved(key);
    case DoClearApproval => controller.ClearApproval();
    case DoPrepareRollback(jobId) => var _ := controller.PrepareRollback(jobId);
    case DoApproveRollback(approvedBy) => ServeRollbackApproval(controller, approvedBy);
    case DoRollback => var _ := controller.RollbackApprovedScope();
    case DoClearRollback => controller.ClearRollbackApproval();
  }
}
