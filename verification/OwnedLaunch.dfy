/** Launching and closing the owned bridge process when any step and any release may fail. */
module OwnedLaunch {
  import opened Options

  datatype Resource = BundleLease | LaunchDirectory | ScriptLease | Job | ProcessHandle | ThreadHandle

  /** How often something happened to each resource. */
  datatype Tally = Tally(lease: nat, directory: nat, script: nat, job: nat, process: nat, thread: nat)

  const NONE := Tally(0, 0, 0, 0, 0, 0)

  function Bump(t: Tally, r: Resource): Tally {
    match r
    case BundleLease => t.(lease := t.lease + 1)
    case LaunchDirectory => t.(directory := t.directory + 1)
    case ScriptLease => t.(script := t.script + 1)
    case Job => t.(job := t.job + 1)
    case ProcessHandle => t.(process := t.process + 1)
    case ThreadHandle => t.(thread := t.thread + 1)
  }

  datatype LaunchStep =
    | Validate | AcquireLease | CreateScript | OpenScript | CommandLine | CreateJob | ValidateOverrides | CreateProcess
    | AssignJob | ConfirmJob | CheckIdentity | ResumeThread | CloseThread

  /** The launch in order, up to the moment the startup thread runs. */
  const STEPS: seq<LaunchStep> :=
    [Validate, AcquireLease, CreateScript, OpenScript, CommandLine, CreateJob, ValidateOverrides, CreateProcess,
     AssignJob, ConfirmJob, CheckIdentity, ResumeThread]

  /** The number of steps after which a suspended process exists. */
  const SUSPENDED: nat := 8

  lemma NextStep(k: nat)
    requires k < |STEPS|
    ensures STEPS[..k] + [STEPS[k]] == STEPS[..k + 1]
  {
  }

  /** The steps that succeed when the first `reached` ones do; the thread handle is closed once it exists. */
  function DoneAfter(reached: nat, closed: bool): seq<LaunchStep>
    requires reached <= |STEPS|
  {
    STEPS[..reached] + if reached >= SUSPENDED && closed then [CloseThread] else []
  }

  function FailedAfter(reached: nat, closed: bool): seq<LaunchStep>
    requires reached <= |STEPS|
  {
    (if reached < |STEPS| then [STEPS[reached]] else [])
    + if reached >= SUSPENDED && !closed then [CloseThread] else []
  }

  /** The error that a launch raises is its last one. */
  function RaisedAfter(reached: nat, closed: bool): Option<LaunchStep>
    requires reached <= |STEPS|
  {
    if reached >= SUSPENDED && !closed then Some(CloseThread)
    else if reached < |STEPS| then Some(STEPS[reached]) else None
  }

  /** What the first `reached` steps acquire. */
  function AcquiredAfter(reached: nat): Tally {
    Tally(One(reached > 1), One(reached > 2), One(reached > 3), One(reached > 5),
          One(reached >= SUSPENDED), One(reached >= SUSPENDED))
  }

  /** The operating system as the launcher uses it; every call may fail. The ghost state records which steps
      succeeded and failed, and how often each resource was acquired and its release attempted. */
  class Host {
    ghost var acquired: Tally
    ghost var attempts: Tally
    ghost var failures: nat
    ghost var done: seq<LaunchStep>
    ghost var failedSteps: seq<LaunchStep>
    ghost var terminations: nat
    ghost var confirmed: bool
    ghost var resumed: bool

    constructor ()
      ensures acquired == NONE && attempts == NONE && failures == 0 && terminations == 0
      ensures done == failedSteps == [] && !confirmed && !resumed
    {
      acquired, attempts, failures, terminations := NONE, NONE, 0, 0;
      done, failedSteps, confirmed, resumed := [], [], false, false;
    }

    ghost method Note(step: LaunchStep, ok: bool)
      modifies this`done, this`failedSteps
      ensures done == if ok then old(done) + [step] else old(done)
      ensures failedSteps == if ok then old(failedSteps) else old(failedSteps) + [step]
    {
      if ok {
        done := done + [step];
      } else {
        failedSteps := failedSteps + [step];
      }
    }

    /** A step that acquires nothing. */
    method Try(step: LaunchStep) returns (ok: bool)
      modifies this`done, this`failedSteps
      ensures done == if ok then old(done) + [step] else old(done)
      ensures failedSteps == if ok then old(failedSteps) else old(failedSteps) + [step]
    {
      ok := *;
      Note(step, ok);
    }

    method Acquire(step: LaunchStep, r: Resource) returns (ok: bool)
      modifies this`acquired, this`done, this`failedSteps
      ensures acquired == if ok then Bump(old(acquired), r) else old(acquired)
      ensures done == if ok then old(done) + [step] else old(done)
      ensures failedSteps == if ok then old(failedSteps) else old(failedSteps) + [step]
    {
      ok := *;
      Note(step, ok);
      if ok {
        acquired := Bump(acquired, r);
      }
    }

    /** Create the suspended process, which yields two handles or none. */
    method CreateSuspended() returns (ok: bool)
      modifies this`acquired, this`done, this`failedSteps
      ensures acquired == if ok then Bump(Bump(old(acquired), ProcessHandle), ThreadHandle) else old(acquired)
      ensures done == if ok then old(done) + [CreateProcess] else old(done)
      ensures failedSteps == if ok then old(failedSteps) else old(failedSteps) + [CreateProcess]
    {
      ok := *;
      Note(CreateProcess, ok);
      if ok {
        acquired := Bump(Bump(acquired, ProcessHandle), ThreadHandle);
      }
    }

    method Release(r: Resource) returns (ok: bool)
      modifies this`attempts, this`failures
      ensures attempts == Bump(old(attempts), r)
      ensures failures == if ok then old(failures) else old(failures) + 1
    {
      attempts := Bump(attempts, r);
      ok := *;
      if !ok {
        failures := failures + 1;
      }
    }

    /** Close the thread handle of the started process, as a step of the launch. */
    method ReleaseThread() returns (ok: bool)
      modifies this`attempts, this`failures, this`done, this`failedSteps
      ensures attempts == Bump(old(attempts), ThreadHandle)
      ensures done == if ok then old(done) + [CloseThread] else old(done)
      ensures failedSteps == if ok then old(failedSteps) else old(failedSteps) + [CloseThread]
    {
      ok := Release(ThreadHandle);
      Note(CloseThread, ok);
    }

    /** Terminate the Job and wait; failure covers both a raised error and a Job that stays alive. */
    method TerminateJob() returns (ok: bool)
      modifies this`terminations, this`failures
      ensures terminations == old(terminations) + 1
      ensures failures == if ok then old(failures) else old(failures) + 1
    {
      terminations := terminations + 1;
      ok := *;
      if !ok {
        failures := failures + 1;
      }
    }

    method ConfirmMembership() returns (ok: bool)
      modifies this`confirmed, this`done, this`failedSteps
      ensures confirmed == (old(confirmed) || ok)
      ensures done == if ok then old(done) + [ConfirmJob] else old(done)
      ensures failedSteps == if ok then old(failedSteps) else old(failedSteps) + [ConfirmJob]
    {
      ok := *;
      Note(ConfirmJob, ok);
      confirmed := confirmed || ok;
    }

    method Resume() returns (ok: bool)
      modifies this`resumed, this`done, this`failedSteps
      ensures ok ==> resumed
      ensures old(resumed) ==> resumed
      ensures done == if ok then old(done) + [ResumeThread] else old(done)
      ensures failedSteps == if ok then old(failedSteps) else old(failedSteps) + [ResumeThread]
    {
      ok := *;
      Note(ResumeThread, ok);
      var started := *;
      resumed := resumed || ok || started;
    }
  }

  /** Which resource variables have been filled in. */
  datatype Filled = Filled(directory: bool, script: bool, job: bool, process: bool)

  function One(present: bool): nat {
    if present then 1 else 0
  }

  /** One of everything that the variables hold. */
  function HeldBy(f: Filled): Tally {
    Tally(1, One(f.directory), One(f.script), One(f.job), One(f.process), One(f.process))
  }

  /** Steps taken one after the other, up to the first failure. */
  ghost predicate Reached(host: Host, failed: Option<LaunchStep>, reached: nat)
    requires reached <= |STEPS|
    reads host
  {
    && host.done == STEPS[..reached]
    && match failed
       case None => host.failedSteps == []
       case Some(step) => reached < |STEPS| && step == STEPS[reached] && host.failedSteps == [step]
  }

  method AssignToJob(host: Host) returns (failed: Option<LaunchStep>, ghost reached: nat)
    requires host.done == STEPS[..SUSPENDED] && host.failedSteps == []
    modifies host`done, host`failedSteps, host`confirmed
    ensures SUSPENDED <= reached <= 10 && Reached(host, failed, reached) && (failed.None? <==> reached == 10)
    ensures failed.None? ==> host.confirmed
  {
    var ok := host.Try(AssignJob);
    if !ok { return Some(AssignJob), 8; }
    NextStep(8);
    ok := host.ConfirmMembership();
    if !ok { return Some(ConfirmJob), 9; }
    NextStep(9);
    return None, 10;
  }

  method CheckAndResume(host: Host) returns (failed: Option<LaunchStep>, ghost reached: nat)
    requires host.done == STEPS[..10] && host.failedSteps == []
    modifies host`done, host`failedSteps, host`resumed
    ensures 10 <= reached <= |STEPS| && Reached(host, failed, reached) && (failed.None? <==> reached == |STEPS|)
    ensures failed.None? ==> host.resumed
  {
    var ok := host.Try(CheckIdentity);
    if !ok { return Some(CheckIdentity), 10; }
    NextStep(10);
    ok := host.Resume();
    if !ok { return Some(ResumeThread), 11; }
    NextStep(11);
    return None, 12;
  }

  /** Assign the suspended process to its Job and start it, stopping at the first failure; it is resumed only once
      its membership in the Job is confirmed. */
  method StartInJob(host: Host) returns (failed: Option<LaunchStep>, ghost reached: nat)
    requires host.done == STEPS[..SUSPENDED] && host.failedSteps == []
    modifies host`done, host`failedSteps, host`confirmed, host`resumed
    ensures SUSPENDED <= reached <= |STEPS| && Reached(host, failed, reached)
    ensures failed.None? <==> reached == |STEPS|
    ensures host.resumed ==> old(host.resumed) || host.confirmed
    ensures failed.None? ==> host.resumed && host.confirmed
  {
    failed, reached := AssignToJob(host);
    if failed.None? {
      failed, reached := CheckAndResume(host);
    }
  }

  /** Start the suspended process; its thread handle is released whatever happens. */
  method StartSuspended(host: Host) returns (failed: Option<LaunchStep>, ghost reached: nat, ghost closed: bool)
    requires host.done == STEPS[..SUSPENDED] && host.failedSteps == []
    modifies host`attempts, host`failures, host`done, host`failedSteps, host`confirmed, host`resumed
    ensures host.attempts == Bump(old(host.attempts), ThreadHandle)
    ensures SUSPENDED <= reached <= |STEPS| && Ran(host, failed, reached, closed)
    ensures host.resumed ==> old(host.resumed) || host.confirmed
    ensures failed.None? ==> host.resumed && host.confirmed
  {
    failed, reached := StartInJob(host);
    var ok := host.ReleaseThread();
    if !ok {
      failed := Some(CloseThread);
    }
    closed := ok;
  }

  /** The launch went through its steps in order up to the one that failed, if any. */
  ghost predicate Ran(host: Host, failed: Option<LaunchStep>, reached: nat, closed: bool)
    reads host
  {
    && reached <= |STEPS| && host.done == DoneAfter(reached, closed) && host.failedSteps == FailedAfter(reached, closed)
    && failed == RaisedAfter(reached, closed)
  }

  method PrepareScript(host: Host) returns (f: Filled, failed: Option<LaunchStep>, ghost reached: nat)
    requires host.acquired == Bump(NONE, BundleLease)
    requires host.done == STEPS[..2] && host.failedSteps == []
    modifies host`acquired, host`done, host`failedSteps
    ensures 2 <= reached <= 5 && Reached(host, failed, reached) && (failed.None? <==> reached == 5)
    ensures host.acquired == HeldBy(f) == AcquiredAfter(reached)
    ensures failed.None? ==> f == Filled(true, true, false, false)
  {
    f := Filled(false, false, false, false);
    var ok := host.Acquire(CreateScript, LaunchDirectory);
    if !ok { return f, Some(CreateScript), 2; }
    NextStep(2);
    f := f.(directory := true);
    ok := host.Acquire(OpenScript, ScriptLease);
    if !ok { return f, Some(OpenScript), 3; }
    NextStep(3);
    f := f.(script := true);
    ok := host.Try(CommandLine);
    if !ok { return f, Some(CommandLine), 4; }
    NextStep(4);
    return f, None, 5;
  }

  method CreateJobAndProcess(host: Host, prepared: Filled)
    returns (f: Filled, failed: Option<LaunchStep>, ghost reached: nat)
    requires prepared == Filled(true, true, false, false) && host.acquired == AcquiredAfter(5)
    requires host.done == STEPS[..5] && host.failedSteps == []
    modifies host`acquired, host`done, host`failedSteps
    ensures 5 <= reached <= SUSPENDED && Reached(host, failed, reached) && (failed.None? <==> reached == SUSPENDED)
    ensures host.acquired == HeldBy(f) == AcquiredAfter(reached)
  {
    f := prepared;
    var ok := host.Acquire(CreateJob, Job);
    if !ok { return f, Some(CreateJob), 5; }
    NextStep(5);
    f := f.(job := true);
    ok := host.Try(ValidateOverrides);
    if !ok { return f, Some(ValidateOverrides), 6; }
    NextStep(6);
    ok := host.CreateSuspended();
    if !ok { return f, Some(CreateProcess), 7; }
    NextStep(7);
    f := f.(process := true);
    return f, None, SUSPENDED;
  }

  /** The guarded part of the launch. Whatever it acquired is in the resource variables. */
  method Acquisitions(host: Host)
    returns (f: Filled, failed: Option<LaunchStep>, ghost reached: nat, ghost closed: bool)
    requires host.acquired == Bump(NONE, BundleLease) && host.attempts == NONE
    requires host.done == STEPS[..2] && host.failedSteps == []
    modifies host
    ensures 2 <= reached && Ran(host, failed, reached, closed)
    ensures host.acquired == HeldBy(f) == AcquiredAfter(reached)
    ensures host.attempts == NONE.(thread := One(f.process))
    ensures host.terminations == old(host.terminations)
    ensures host.resumed ==> old(host.resumed) || host.confirmed
    ensures failed.None? ==> host.resumed && host.confirmed
  {
    closed := false;
    f, failed, reached := PrepareScript(host);
    if failed.Some? { return; }
    f, failed, reached := CreateJobAndProcess(host, f);
    if failed.Some? { return; }
    failed, reached, closed := StartSuspended(host);
  }

  /** End the process that a failed launch left behind. Without a Job it would be terminated by its handle, but a
      process never exists before its Job. */
  method EndProcess(host: Host, f: Filled)
    requires f.process ==> f.job
    modifies host`attempts, host`failures, host`terminations
    ensures host.attempts == if f.job then Bump(old(host.attempts), Job) else old(host.attempts)
    ensures host.terminations == old(host.terminations) + One(f.job)
  {
    if f.job {
      var _ := host.TerminateJob();
      var _ := host.Release(Job);
    } else if f.process {
      assert false;
    }
  }

  /** Release the leases and the directory. */
  method ReleaseFiles(host: Host, f: Filled)
    modifies host`attempts, host`failures
    ensures var a := old(host.attempts);
      host.attempts == a.(lease := a.lease + 1, script := a.script + One(f.script),
                          directory := a.directory + One(f.directory))
  {
    var _ := host.Release(BundleLease);
    if f.script {
      var _ := host.Release(ScriptLease);
    }
    if f.directory {
      var _ := host.Release(LaunchDirectory);
    }
  }

  /** Release everything the failed launch holds; no failure stops the next release. */
  method CleanUp(host: Host, f: Filled)
    requires f.process ==> f.job
    requires host.attempts == NONE.(thread := One(f.process))
    modifies host`attempts, host`failures, host`terminations
    ensures host.attempts == HeldBy(f)
    ensures host.terminations == old(host.terminations) + One(f.job)
  {
    EndProcess(host, f);
    if f.process {
      var _ := host.Release(ProcessHandle);
    }
    ReleaseFiles(host, f);
  }

  /** Every acquired resource has had its release attempted exactly once. */
  ghost predicate Settled(host: Host)
    reads host
  {
    host.attempts == host.acquired && host.acquired.lease <= 1 && host.acquired.directory <= 1
    && host.acquired.script <= 1 && host.acquired.job <= 1 && host.acquired.process <= 1 && host.acquired.thread <= 1
  }

  /** The acquisitions and, when they fail, the clean-up. */
  method GuardedLaunch(host: Host) returns (failed: Option<LaunchStep>, ghost reached: nat, ghost closed: bool)
    requires host.acquired == Bump(NONE, BundleLease) && host.attempts == NONE && !host.resumed
    requires host.done == STEPS[..2] && host.failedSteps == []
    modifies host
    ensures 2 <= reached && Ran(host, failed, reached, closed) && host.acquired == AcquiredAfter(reached)
    ensures failed.Some? ==> Settled(host)
    ensures failed.Some? ==> host.terminations == old(host.terminations) + host.acquired.job
    ensures failed.None? ==> host.attempts == Bump(NONE, ThreadHandle) && host.resumed
    ensures host.resumed ==> host.confirmed
  {
    var f;
    f, failed, reached, closed := Acquisitions(host);
    if failed.Some? {
      CleanUp(host, f);
    }
  }

  /** The launch takes its steps in order and stops at the first failure, except that a created thread handle is
      still closed; it raises the last error. A successful launch returns an open owned process that holds everything
      but the thread handle; a failed one has attempted every release exactly once and terminated the Job if it had
      one. At no time does the process run without being confirmed in its Job. */
  method Launch(host: Host)
    returns (process: Option<OwnedBridgeProcess>, failed: Option<LaunchStep>, ghost reached: nat, ghost closed: bool)
    requires host.acquired == NONE && host.attempts == NONE && !host.resumed
    requires host.done == [] && host.failedSteps == []
    modifies host
    ensures Ran(host, failed, reached, closed) && host.acquired == AcquiredAfter(reached)
    ensures failed.Some? ==> process.None? && Settled(host)
    ensures failed.Some? ==> host.terminations == old(host.terminations) + host.acquired.job
    ensures failed.None? ==> process.Some? && fresh(process.value) && process.value.host == host
                             && process.value.Open() && host.resumed
    ensures host.resumed ==> host.confirmed
  {
    var ok := host.Try(Validate);
    if !ok { return None, Some(Validate), 0, false; }
    NextStep(0);
    ok := host.Acquire(AcquireLease, BundleLease);
    if !ok { return None, Some(AcquireLease), 1, false; }
    NextStep(1);
    failed, reached, closed := GuardedLaunch(host);
    if failed.Some? {
      return None, failed, reached, closed;
    }
    var owned := new OwnedBridgeProcess(host);
    process := Some(owned);
  }

  class OwnedBridgeProcess {
    const host: Host
    var closed: bool

    /** Not closed yet: only the thread handle has been released. */
    ghost predicate Open()
      reads this, host
    {
      && !closed && host.attempts == Bump(NONE, ThreadHandle)
      && host.acquired == Tally(1, 1, 1, 1, 1, 1)
    }

    ghost predicate Closed()
      reads this, host
    {
      closed && Settled(host)
    }

    constructor (host: Host)
      ensures this.host == host && !closed
    {
      this.host := host;
      closed := false;
    }

    /** Attempt every release once, however many of them fail; a second call does nothing. An error is raised
        exactly when something failed. */
    method Close(timeoutIsValid: bool) returns (raised: bool)
      requires Open() || Closed()
      modifies this`closed, host`attempts, host`failures, host`terminations
      ensures Closed()
      ensures old(closed) ==> !raised && host.attempts == old(host.attempts)
                              && host.failures == old(host.failures) && host.terminations == old(host.terminations)
      ensures !old(closed) ==>
        && (raised <==> !timeoutIsValid || host.failures > old(host.failures))
        && host.terminations == old(host.terminations) + One(timeoutIsValid)
    {
      if closed {
        return false;
      }
      closed := true;
      raised := !timeoutIsValid;
      if timeoutIsValid {
        var terminal := host.TerminateJob();
        raised := !terminal;
      }
      var released := ReleaseAll(host);
      raised := raised || !released;
    }
  }

  /** Attempt the five releases that closing consists of, going on after failures. */
  method ReleaseAll(host: Host) returns (released: bool)
    modifies host`attempts, host`failures
    ensures host.attempts == Bump(Bump(Bump(Bump(Bump(old(host.attempts),
      ProcessHandle), Job), BundleLease), ScriptLease), LaunchDirectory)
    ensures host.failures >= old(host.failures)
    ensures released <==> host.failures == old(host.failures)
  {
    var a := host.Release(ProcessHandle);
    var b := host.Release(Job);
    var c := host.Release(BundleLease);
    var d := host.Release(ScriptLease);
    var e := host.Release(LaunchDirectory);
    released := a && b && c && d && e;
  }

  /** A launch followed by any number of close calls settles every resource. */
  method LaunchAndClose(closes: seq<bool>)
    returns (host: Host, failed: Option<LaunchStep>, ghost reached: nat, ghost closed: bool)
    ensures fresh(host) && Ran(host, failed, reached, closed) && host.acquired == AcquiredAfter(reached)
    ensures failed.Some? || closes != [] ==> Settled(host)
    ensures failed.None? && closes == [] ==> host.attempts == Bump(NONE, ThreadHandle) && host.resumed
    ensures host.resumed ==> host.confirmed
  {
    host := new Host();
    var process;
    process, failed, reached, closed := Launch(host);
    if failed.Some? || closes == [] {
      return;
    }
    var _ := process.value.Close(closes[0]);
    var n := 1;
    while n < |closes|
      invariant 1 <= n <= |closes|
      invariant process.value.Closed() && Ran(host, failed, reached, closed)
      invariant host.acquired == AcquiredAfter(reached)
      invariant host.resumed ==> host.confirmed
    {
      var _ := process.value.Close(closes[n]);
      n := n + 1;
    }
  }
}
