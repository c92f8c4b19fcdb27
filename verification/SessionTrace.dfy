/** What one approval session showed, was issued and sent, and which credentials it may hold at any moment. */
module SessionTrace {
  import opened ApprovalGate
  import opened Options

  datatype RollbackScope = RollbackScope(
    jobId: string, documentId: string, checkpointId: string, currentRevision: string)

  datatype Event =
    | Shown(scope: Scope, recomputedHash: string)
    | Hidden
    | Issued(scope: Scope, token: string)
    | CommitSent(scope: Scope, token: string)
    | ApprovalCleared
    | RollbackShown(reviewed: RollbackScope)
    | RollbackIssued(reviewed: RollbackScope, token: string)
    | RollbackSent(reviewed: RollbackScope, token: string, retryable: bool)
    | RollbackCleared

  datatype Credential = Credential(scope: Scope, token: string)

  datatype Held = Held(
    displayed: Option<Scope>, approval: Option<Credential>,
    reviewed: Option<RollbackScope>, rollbackToken: Option<string>)

  function Step(h: Held, e: Event): Held {
    match e
    case Shown(scope, _) => h.(displayed := Some(scope))
    case Hidden => h.(displayed := None)
    case Issued(scope, token) => h.(approval := Some(Credential(scope, token)))
    case CommitSent(_, _) => h.(approval := None)
    case ApprovalCleared => h.(approval := None)
    case RollbackShown(reviewed) => h.(reviewed := Some(reviewed), rollbackToken := None)
    case RollbackIssued(_, token) => h.(rollbackToken := Some(token))
    case RollbackSent(_, _, retryable) => if retryable then h else h.(reviewed := None, rollbackToken := None)
    case RollbackCleared => h.(reviewed := None, rollbackToken := None)
  }

  /** What a session holds after a trace. */
  function After(trace: seq<Event>): Held {
    if trace == [] then Held(None, None, None, None)
    else Step(After(trace[..|trace| - 1]), trace[|trace| - 1])
  }

  /** An event may only use what the session holds. */
  predicate Allowed(h: Held, e: Event) {
    match e
    case Shown(scope, hash) => hash == scope.planHash
    case Issued(scope, _) => h.displayed == Some(scope)
    case CommitSent(scope, token) => h.approval == Some(Credential(scope, token))
    case RollbackIssued(reviewed, _) => h.reviewed == Some(reviewed)
    case RollbackSent(reviewed, token, _) => h.reviewed == Some(reviewed) && h.rollbackToken == Some(token)
    case _ => true
  }

  predicate Legal(trace: seq<Event>) {
    trace == [] ||
    (Legal(trace[..|trace| - 1]) && Allowed(After(trace[..|trace| - 1]), trace[|trace| - 1]))
  }

  lemma Extend(trace: seq<Event>, e: Event)
    ensures After(trace + [e]) == Step(After(trace), e)
    ensures Legal(trace + [e]) <==> Legal(trace) && Allowed(After(trace), e)
    ensures Calls(trace + [e]) == Calls(trace) + CallOf(e)
  {
    assert (trace + [e])[..|trace|] == trace;
  }

  lemma {:induction false} PrefixLegal(trace: seq<Event>, n: nat)
    requires Legal(trace) && n <= |trace|
    ensures Legal(trace[..n])
    ensures n < |trace| ==> Allowed(After(trace[..n]), trace[n])
  {
    if n == |trace| {
      assert trace[..n] == trace;
    } else {
      var front := trace[..|trace| - 1];
      PrefixLegal(front, n);
      assert front[..n] == trace[..n];
    }
  }

  /** No event in [from, to) touches the approval credential. */
  ghost predicate ApprovalUntouched(trace: seq<Event>, from: int, to: int) {
    forall k :: from <= k < to && 0 <= k < |trace| ==>
      !trace[k].Issued? && !trace[k].CommitSent? && !trace[k].ApprovalCleared?
  }

  /** A held approval credential stems from the last issuance and nothing has consumed or cleared it since. */
  lemma {:induction false} ApprovalOrigin(trace: seq<Event>) returns (i: nat)
    requires After(trace).approval.Some?
    ensures i < |trace| && ApprovalUntouched(trace, i + 1, |trace|)
    ensures var c := After(trace).approval.value; trace[i] == Issued(c.scope, c.token)
  {
    var n := |trace| - 1;
    if trace[n].Issued? {
      i := n;
    } else {
      i := ApprovalOrigin(trace[..n]);
      assert forall k :: 0 <= k < n ==> trace[..n][k] == trace[k];
    }
  }

  /** Every commit carries exactly what was issued, and uses up that issuance: between the two, nothing else was
      issued, committed or cleared. */
  lemma CommitUsesItsIssuance(trace: seq<Event>, j: nat) returns (i: nat)
    requires Legal(trace) && j < |trace| && trace[j].CommitSent?
    ensures i < j && trace[i] == Issued(trace[j].scope, trace[j].token)
    ensures ApprovalUntouched(trace, i + 1, j)
  {
    PrefixLegal(trace, j);
    i := ApprovalOrigin(trace[..j]);
    assert forall k :: 0 <= k < j ==> trace[..j][k] == trace[k];
  }

  function Count(trace: seq<Event>, e: Event): nat {
    if trace == [] then 0
    else Count(trace[..|trace| - 1], e) + if trace[|trace| - 1] == e then 1 else 0
  }

  /** For every scope and token: commits sent, plus one while the credential is still held, never exceed
      issuances. A token issued once is therefore committed at most once. */
  lemma {:induction false} CommitsNeverExceedIssuances(trace: seq<Event>, scope: Scope, token: string)
    requires Legal(trace)
    ensures Count(trace, CommitSent(scope, token))
            + (if After(trace).approval == Some(Credential(scope, token)) then 1 else 0)
            <= Count(trace, Issued(scope, token))
  {
    if trace != [] {
      CommitsNeverExceedIssuances(trace[..|trace| - 1], scope, token);
    }
  }

  /** No event in [from, to) replaces the display. */
  ghost predicate DisplayUntouched(trace: seq<Event>, from: int, to: int) {
    forall k :: from <= k < to && 0 <= k < |trace| ==> !trace[k].Shown? && !trace[k].Hidden?
  }

  lemma {:induction false} DisplayOrigin(trace: seq<Event>) returns (i: nat)
    requires Legal(trace) && After(trace).displayed.Some?
    ensures i < |trace| && DisplayUntouched(trace, i + 1, |trace|)
    ensures var scope := After(trace).displayed.value; trace[i] == Shown(scope, scope.planHash)
  {
    var n := |trace| - 1;
    if trace[n].Shown? {
      i := n;
    } else {
      i := DisplayOrigin(trace[..n]);
      assert forall k :: 0 <= k < n ==> trace[..n][k] == trace[k];
    }
  }

  /** Whatever is committed was on display, with a recomputed plan hash, when its token was issued. */
  lemma CommitWasDisplayed(trace: seq<Event>, j: nat) returns (s: nat, i: nat)
    requires Legal(trace) && j < |trace| && trace[j].CommitSent?
    ensures s < i < j && trace[i] == Issued(trace[j].scope, trace[j].token)
    ensures trace[s] == Shown(trace[j].scope, trace[j].scope.planHash) && DisplayUntouched(trace, s + 1, i)
  {
    i := CommitUsesItsIssuance(trace, j);
    PrefixLegal(trace, i);
    s := DisplayOrigin(trace[..i]);
    assert forall k :: 0 <= k < i ==> trace[..i][k] == trace[k];
  }

  /** In [from, to) the rollback credential was at most used, and only with retryable outcomes. */
  ghost predicate OnlyRetried(trace: seq<Event>, from: int, to: int) {
    forall k :: from <= k < to && 0 <= k < |trace| ==>
      && !trace[k].RollbackShown? && !trace[k].RollbackIssued? && !trace[k].RollbackCleared?
      && (trace[k].RollbackSent? ==> trace[k].retryable)
  }

  /** A held rollback token was issued for the scope now under review, and every use since was retryable. */
  lemma {:induction false} RollbackOrigin(trace: seq<Event>) returns (i: nat)
    requires Legal(trace) && After(trace).rollbackToken.Some?
    ensures i < |trace| && OnlyRetried(trace, i + 1, |trace|)
    ensures After(trace).reviewed.Some?
    ensures trace[i] == RollbackIssued(After(trace).reviewed.value, After(trace).rollbackToken.value)
  {
    var n := |trace| - 1;
    if trace[n].RollbackIssued? {
      i := n;
    } else {
      i := RollbackOrigin(trace[..n]);
      assert forall k :: 0 <= k < n ==> trace[..n][k] == trace[k];
    }
  }

  /** A rollback token is sent only with the scope it was issued for, and again only after every earlier use of
      it ended in the retryable recovery error. */
  lemma RollbackReusedOnlyAfterRetry(trace: seq<Event>, j: nat) returns (i: nat)
    requires Legal(trace) && j < |trace| && trace[j].RollbackSent?
    ensures i < j && trace[i] == RollbackIssued(trace[j].reviewed, trace[j].token)
    ensures OnlyRetried(trace, i + 1, j)
  {
    PrefixLegal(trace, j);
    i := RollbackOrigin(trace[..j]);
    assert forall k :: 0 <= k < j ==> trace[..j][k] == trace[k];
  }

  /** A call that reaches the service with a credential, or returns one. */
  datatype ServiceCall =
    | ApprovalGranted(jobId: string, planHash: string, revision: string, token: string)
    | CommitCall(jobId: string, planHash: string, revision: string, token: string)
    | RollbackGranted(jobId: string, checkpointId: string, revision: string, token: string)
    | RollbackCall(jobId: string, checkpointId: string, revision: string, token: string, retryable: bool)

  function CallOf(e: Event): seq<ServiceCall> {
    match e
    case Issued(s, token) => [ApprovalGranted(s.jobId, s.planHash, s.expectedRevision, token)]
    case CommitSent(s, token) => [CommitCall(s.jobId, s.planHash, s.expectedRevision, token)]
    case RollbackIssued(s, token) => [RollbackGranted(s.jobId, s.checkpointId, s.currentRevision, token)]
    case RollbackSent(s, token, retryable) =>
      [RollbackCall(s.jobId, s.checkpointId, s.currentRevision, token, retryable)]
    case _ => []
  }

  /** The service calls behind a trace. */
  function Calls(trace: seq<Event>): seq<ServiceCall> {
    if trace == [] then [] else Calls(trace[..|trace| - 1]) + CallOf(trace[|trace| - 1])
  }

  /** The trace is legal and accounts for exactly what is held and for exactly what passed at the service. */
  ghost predicate Tells(trace: seq<Event>, h: Held, calls: seq<ServiceCall>) {
    h == After(trace) && Legal(trace) && calls == Calls(trace)
  }

  lemma TellsNothing()
    ensures Tells([], Held(None, None, None, None), [])
  {
  }

  lemma TellsMore(trace: seq<Event>, h: Held, calls: seq<ServiceCall>, e: Event)
    requires Tells(trace, h, calls) && Allowed(h, e)
    ensures Tells(trace + [e], Step(h, e), calls + CallOf(e))
  {
    Extend(trace, e);
  }

  function CallCount(calls: seq<ServiceCall>, c: ServiceCall): nat {
    if calls == [] then 0 else CallCount(calls[..|calls| - 1], c) + if calls[|calls| - 1] == c then 1 else 0
  }

  lemma CallCountAppend(calls: seq<ServiceCall>, more: seq<ServiceCall>, c: ServiceCall)
    requires |more| <= 1
    ensures CallCount(calls + more, c) == CallCount(calls, c) + if more == [c] then 1 else 0
  {
    if more == [] {
      assert calls + more == calls;
    } else {
      assert (calls + more)[..|calls|] == calls;
    }
  }

  /** An event and the call that only it makes occur equally often. */
  lemma {:induction false} CallsCounted(trace: seq<Event>, e: Event, c: ServiceCall)
    requires forall f :: CallOf(f) == [c] <==> f == e
    ensures CallCount(Calls(trace), c) == Count(trace, e)
  {
    if trace != [] {
      var front, last := trace[..|trace| - 1], trace[|trace| - 1];
      CallsCounted(front, e, c);
      CallCountAppend(Calls(front), CallOf(last), c);
    }
  }

  /** The service never receives a commit more often than it granted that approval. */
  lemma CommitCallsNeverExceedGrants(trace: seq<Event>, jobId: string, planHash: string, revision: string,
                                     token: string)
    requires Legal(trace)
    ensures CallCount(Calls(trace), CommitCall(jobId, planHash, revision, token))
            <= CallCount(Calls(trace), ApprovalGranted(jobId, planHash, revision, token))
  {
    var scope := Scope(jobId, planHash, revision);
    CallsCounted(trace, CommitSent(scope, token), CommitCall(jobId, planHash, revision, token));
    CallsCounted(trace, Issued(scope, token), ApprovalGranted(jobId, planHash, revision, token));
    CommitsNeverExceedIssuances(trace, scope, token);
  }

  /** Before the k-th call, the service granted this approval, and since then it saw no other grant and no commit. */
  ghost predicate ApprovalGrantedBefore(calls: seq<ServiceCall>, k: nat, jobId: string, planHash: string,
                                        revision: string, token: string)
    requires k <= |calls|
  {
    exists i :: 0 <= i < k
      && calls[i] == ApprovalGranted(jobId, planHash, revision, token)
      && forall m :: i < m < k ==> !calls[m].ApprovalGranted? && !calls[m].CommitCall?
  }

  ghost predicate CommitLaw(calls: seq<ServiceCall>) {
    forall k :: 0 <= k < |calls| && calls[k].CommitCall? ==>
      ApprovalGrantedBefore(calls, k, calls[k].jobId, calls[k].planHash, calls[k].revision, calls[k].token)
  }

  /** The approval credential held was granted and not used since. */
  ghost predicate HeldApprovalGranted(h: Held, calls: seq<ServiceCall>) {
    h.approval.Some? ==>
      var s := h.approval.value.scope;
      ApprovalGrantedBefore(calls, |calls|, s.jobId, s.planHash, s.expectedRevision, h.approval.value.token)
  }

  lemma ApprovalStands(calls: seq<ServiceCall>, call: ServiceCall, k: nat,
                       jobId: string, planHash: string, revision: string, token: string)
    requires k <= |calls| && ApprovalGrantedBefore(calls, k, jobId, planHash, revision, token)
    ensures ApprovalGrantedBefore(calls + [call], k, jobId, planHash, revision, token)
    ensures k == |calls| && !call.ApprovalGranted? && !call.CommitCall? ==>
            ApprovalGrantedBefore(calls + [call], k + 1, jobId, planHash, revision, token)
  {
    var i :| 0 <= i < k && calls[i] == ApprovalGranted(jobId, planHash, revision, token)
      && forall m :: i < m < k ==> !calls[m].ApprovalGranted? && !calls[m].CommitCall?;
    var longer := calls + [call];
    assert longer[i] == calls[i] && forall m :: i < m < k ==> longer[m] == calls[m];
  }

  lemma CommitLawExtends(calls: seq<ServiceCall>, call: ServiceCall)
    requires CommitLaw(calls)
    requires call.CommitCall? ==>
      ApprovalGrantedBefore(calls, |calls|, call.jobId, call.planHash, call.revision, call.token)
    ensures CommitLaw(calls + [call])
  {
    var longer := calls + [call];
    forall k | 0 <= k < |longer| && longer[k].CommitCall?
      ensures ApprovalGrantedBefore(longer, k, longer[k].jobId, longer[k].planHash,
                                    longer[k].revision, longer[k].token)
    {
      ApprovalStands(calls, call, k, longer[k].jobId, longer[k].planHash, longer[k].revision, longer[k].token);
    }
  }

  lemma CommitStep(h: Held, calls: seq<ServiceCall>, e: Event)
    requires Allowed(h, e) && CommitLaw(calls) && HeldApprovalGranted(h, calls)
    ensures CommitLaw(calls + CallOf(e)) && HeldApprovalGranted(Step(h, e), calls + CallOf(e))
  {
    if CallOf(e) == [] {
      assert calls + CallOf(e) == calls;
    } else {
      var call := CallOf(e)[0];
      CommitLawExtends(calls, call);
      if e.Issued? {
        assert (calls + [call])[|calls|] == call;
      } else if h.approval.Some? {
        var s := h.approval.value.scope;
        ApprovalStands(calls, call, |calls|, s.jobId, s.planHash, s.expectedRevision, h.approval.value.token);
      }
    }
  }

  /** Every commit that the service receives follows its own grant of exactly that approval, with no other grant
      and no other commit in between. */
  lemma {:induction false} CommitCallsFollowGrants(trace: seq<Event>)
    requires Legal(trace)
    ensures CommitLaw(Calls(trace)) && HeldApprovalGranted(After(trace), Calls(trace))
  {
    if trace != [] {
      var front := trace[..|trace| - 1];
      CommitCallsFollowGrants(front);
      CommitStep(After(front), Calls(front), trace[|trace| - 1]);
    }
  }

  /** Before the k-th call, the service granted this rollback, and since then it saw no other grant and no other use
      than retryable ones of this very grant. */
  ghost predicate RollbackGrantedBefore(calls: seq<ServiceCall>, k: nat, jobId: string, checkpointId: string,
                                        revision: string, token: string)
    requires k <= |calls|
  {
    exists i :: 0 <= i < k
      && calls[i] == RollbackGranted(jobId, checkpointId, revision, token)
      && forall m :: i < m < k ==>
           && !calls[m].RollbackGranted?
           && (calls[m].RollbackCall? ==> calls[m] == RollbackCall(jobId, checkpointId, revision, token, true))
  }

  ghost predicate RollbackLaw(calls: seq<ServiceCall>) {
    forall k :: 0 <= k < |calls| && calls[k].RollbackCall? ==>
      RollbackGrantedBefore(calls, k, calls[k].jobId, calls[k].checkpointId, calls[k].revision, calls[k].token)
  }

  /** The rollback credential held was granted, and since then at most used with retryable outcomes. */
  ghost predicate HeldRollbackGranted(h: Held, calls: seq<ServiceCall>) {
    h.rollbackToken.Some? ==>
      && h.reviewed.Some?
      && var s := h.reviewed.value;
         RollbackGrantedBefore(calls, |calls|, s.jobId, s.checkpointId, s.currentRevision, h.rollbackToken.value)
  }

  lemma GrantStands(calls: seq<ServiceCall>, call: ServiceCall, k: nat,
                    jobId: string, checkpointId: string, revision: string, token: string)
    requires k <= |calls| && RollbackGrantedBefore(calls, k, jobId, checkpointId, revision, token)
    ensures RollbackGrantedBefore(calls + [call], k, jobId, checkpointId, revision, token)
    ensures k == |calls| && (!call.RollbackGranted? &&
              (call.RollbackCall? ==> call == RollbackCall(jobId, checkpointId, revision, token, true))) ==>
            RollbackGrantedBefore(calls + [call], k + 1, jobId, checkpointId, revision, token)
  {
    var i :| 0 <= i < k && calls[i] == RollbackGranted(jobId, checkpointId, revision, token)
      && forall m :: i < m < k ==>
           && !calls[m].RollbackGranted?
           && (calls[m].RollbackCall? ==> calls[m] == RollbackCall(jobId, checkpointId, revision, token, true));
    var longer := calls + [call];
    assert longer[i] == calls[i] && forall m :: i < m < k ==> longer[m] == calls[m];
  }

  lemma LawExtends(calls: seq<ServiceCall>, call: ServiceCall)
    requires RollbackLaw(calls)
    requires call.RollbackCall? ==>
      RollbackGrantedBefore(calls, |calls|, call.jobId, call.checkpointId, call.revision, call.token)
    ensures RollbackLaw(calls + [call])
  {
    var longer := calls + [call];
    forall k | 0 <= k < |longer| && longer[k].RollbackCall?
      ensures RollbackGrantedBefore(longer, k, longer[k].jobId, longer[k].checkpointId,
                                    longer[k].revision, longer[k].token)
    {
      GrantStands(calls, call, k, longer[k].jobId, longer[k].checkpointId, longer[k].revision, longer[k].token);
    }
  }

  /** One event keeps the law and the origin of the held credential. */
  lemma RollbackStep(h: Held, calls: seq<ServiceCall>, e: Event)
    requires Allowed(h, e) && RollbackLaw(calls) && HeldRollbackGranted(h, calls)
    ensures RollbackLaw(calls + CallOf(e)) && HeldRollbackGranted(Step(h, e), calls + CallOf(e))
  {
    if CallOf(e) == [] {
      assert calls + CallOf(e) == calls;
    } else {
      var call := CallOf(e)[0];
      LawExtends(calls, call);
      if e.RollbackIssued? {
        var longer := calls + [call];
        assert longer[|calls|] == call;
      } else if h.rollbackToken.Some? {
        var s := h.reviewed.value;
        GrantStands(calls, call, |calls|, s.jobId, s.checkpointId, s.currentRevision, h.rollbackToken.value);
      }
    }
  }

  /** Every rollback that the service receives follows its own grant of exactly that rollback, with nothing but
      retryable attempts of it in between. */
  lemma {:induction false} RollbackCallsFollowGrants(trace: seq<Event>)
    requires Legal(trace)
    ensures RollbackLaw(Calls(trace)) && HeldRollbackGranted(After(trace), Calls(trace))
  {
    if trace != [] {
      var front := trace[..|trace| - 1];
      RollbackCallsFollowGrants(front);
      RollbackStep(After(front), Calls(front), trace[|trace| - 1]);
    }
  }
}
