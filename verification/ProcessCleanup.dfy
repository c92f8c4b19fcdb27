/** Tracking and terminating acceptance-owned processes while the operating system changes underneath. */
module ProcessCleanup {
  import opened Options
  import opened OwnershipLinks
  import opened ProcessAdmission

  datatype Identity = Identity(image: string, created: int)

  /** One termination: the PID asked for and the process that actually held it. */
  datatype Kill = Kill(pid: Pid, victim: Identity)

  datatype Outcome<T> = Ok(value: T) | OsError | AssertionError

  /** The AutoCAD processes of the machine. Between any two observations, processes may spawn, exit and reuse
      each other's PIDs without restriction. The ghost state logs what was observed, what was killed, and how often
      the system raised an error or a process turned out not to be the expected one. */
  class Os {
    var table: Records
    ghost var listings: seq<set<Pid>>
    ghost var sightings: set<(Pid, Identity)>
    ghost var kills: seq<Kill>
    ghost var unreadable: seq<Pid>
    ghost var parentless: seq<Pid>
    ghost var errors: nat
    ghost var refusals: nat

    constructor ()
      ensures kills == [] && listings == [] && errors == refusals == 0
    {
      table, kills, listings, sightings, errors, refusals := map[], [], [], {}, 0, 0;
      unreadable, parentless := [], [];
    }

    method ProcessIds() returns (pids: set<Pid>)
      modifies this`table, this`listings
      ensures pids == table.Keys && listings == old(listings) + [pids]
    {
      table := *;
      pids := table.Keys;
      listings := listings + [pids];
    }

    method ProcessIdentity(pid: Pid) returns (r: Outcome<Identity>)
      modifies this`table, this`sightings, this`errors, this`unreadable
      ensures unreadable == if r.OsError? then old(unreadable) + [pid] else old(unreadable)
      ensures r.Ok? ==> pid in table && r.value == Identity(table[pid].image, table[pid].created)
      ensures errors == if r.OsError? then old(errors) + 1 else old(errors)
      ensures sightings == old(sightings) + if r.Ok? then {(pid, r.value)} else {}
      ensures !r.AssertionError?
    {
      table := *;
      var readable := *;
      r := if readable && pid in table then Ok(Identity(table[pid].image, table[pid].created)) else OsError;
      if r.Ok? {
        sightings := sightings + {(pid, r.value)};
      } else {
        errors := errors + 1;
        unreadable := unreadable + [pid];
      }
    }

    method ParentPid(pid: Pid) returns (r: Outcome<Pid>)
      modifies this`table, this`errors, this`parentless
      ensures parentless == if r.OsError? then old(parentless) + [pid] else old(parentless)
      ensures r.Ok? ==> pid in table && r.value == table[pid].parent
      ensures errors == if r.OsError? then old(errors) + 1 else old(errors)
      ensures !r.AssertionError?
    {
      table := *;
      r := if pid in table then Ok(table[pid].parent) else OsError;
      if r.OsError? {
        parentless := parentless + [pid];
        errors := errors + 1;
      }
    }

    /** Open the process, revalidate its identity on the handle, and only then terminate it. The handle pins
        the process, so the check and the termination form one step. */
    method TerminateExact(pid: Pid, expected: Identity) returns (r: Outcome<()>)
      modifies this`table, this`kills, this`errors, this`refusals
      ensures kills == old(kills) || kills == old(kills) + [Kill(pid, expected)]
      ensures r.Ok? ==> kills == old(kills) + [Kill(pid, expected)]
      ensures r.AssertionError? ==> kills == old(kills)
      ensures errors == if r.OsError? then old(errors) + 1 else old(errors)
      ensures refusals == if r.AssertionError? then old(refusals) + 1 else old(refusals)
    {
      table := *;
      var handleOpened := *;
      if pid !in table || !handleOpened {
        errors := errors + 1;
        return OsError;
      }
      var actual := Identity(table[pid].image, table[pid].created);
      if actual != expected {
        refusals := refusals + 1;
        return AssertionError;
      }
      var accepted := *;
      if !accepted {
        errors := errors + 1;
        return OsError;
      }
      kills := kills + [Kill(pid, actual)];
      table := *;
      var exited := *;
      r := if exited then Ok(()) else OsError;
      if r.OsError? {
        errors := errors + 1;
      }
    }
  }

  /** Some listing since the given number of them did not show the PID. */
  ghost predicate SeenAbsent(listings: seq<set<Pid>>, since: nat, pid: Pid) {
    exists k :: since <= k < |listings| && pid !in listings[k]
  }

  /** The process is a candidate under an identity it was seen with, or was seen gone. */
  ghost predicate Accounted(sightings: set<(Pid, Identity)>, listings: seq<set<Pid>>, candidates: Records,
                            since: nat, p: Pid) {
    if p in candidates then (p, Identity(candidates[p].image, candidates[p].created)) in sightings
    else SeenAbsent(listings, since, p)
  }

  lemma AbsentLater(listings: seq<set<Pid>>, longer: seq<set<Pid>>, since: nat, pid: Pid)
    requires listings <= longer
    ensures SeenAbsent(listings, since, pid) ==> SeenAbsent(longer, since, pid)
  {
    if k :| since <= k < |listings| && pid !in listings[k] {
      assert longer[k] == listings[k];
    }
  }

  lemma HitLater(kills: seq<Kill>, longer: seq<Kill>, since: nat, pid: Pid)
    requires kills <= longer
    ensures Hit(kills, since, pid) ==> Hit(longer, since, pid)
  {
    if k :| since <= k < |kills| && kills[k].pid == pid {
      assert longer[k] == kills[k];
    }
  }

  /** The parent of some new process could not be read, or the identity of one that the last listing still shows. */
  ghost predicate ReadingFailed(unreadable: seq<Pid>, parentless: seq<Pid>, listings: seq<set<Pid>>,
                                unreadableBefore: nat, parentlessBefore: nat, preexisting: set<Pid>) {
    || (parentlessBefore < |parentless| && parentless[|parentless| - 1] !in preexisting)
    || (unreadableBefore < |unreadable| && listings != [] && unreadable[|unreadable| - 1] !in preexisting
        && unreadable[|unreadable| - 1] in listings[|listings| - 1])
  }

  /** The last listing still shows a recorded process outside the baseline. */
  ghost predicate StillThere(listings: seq<set<Pid>>, tracked: Records, preexisting: set<Pid>) {
    listings != [] && exists p :: p in listings[|listings| - 1] && p in tracked && p !in preexisting
  }

  /** Some kill since the given number of them hit the PID. */
  ghost predicate Hit(kills: seq<Kill>, since: nat, pid: Pid) {
    exists k :: since <= k < |kills| && kills[k].pid == pid
  }

  /** The kill hit a process whose identity is on record for that PID, outside the baseline. */
  ghost predicate Lawful(kill: Kill, tracked: Records, preexisting: set<Pid>) {
    && kill.pid in tracked && kill.pid !in preexisting
    && kill.victim == Identity(tracked[kill.pid].image, tracked[kill.pid].created)
  }

  /** Of the two logs, the later extends the earlier by lawful kills alone. */
  ghost predicate LawfulSince(before: seq<Kill>, after: seq<Kill>, tracked: Records, preexisting: set<Pid>) {
    && before <= after
    && forall i :: |before| <= i < |after| ==> Lawful(after[i], tracked, preexisting)
  }

  /** Every kill since `before` hit a process that links back to a root through tracked processes. */
  ghost predicate OwnedKills(before: seq<Kill>, after: seq<Kill>, tracked: Records, roots: set<Pid>) {
    forall i :: |before| <= i < |after| ==> Owned(tracked.Keys, tracked, roots, after[i].pid)
  }

  class Tracker {
    const preexisting: set<Pid>
    const startedAt: int
    const roots: set<Pid>
    var tracked: Records

    constructor (preexisting: set<Pid>, startedAt: int, roots: set<Pid>, tracked: Records)
      ensures this.preexisting == preexisting && this.startedAt == startedAt && this.roots == roots
      ensures this.tracked == tracked
    {
      this.preexisting, this.startedAt, this.roots, this.tracked := preexisting, startedAt, roots, tracked;
    }

    /** Read the identities of the processes that appeared after the baseline snapshot. Each of them is either a
        candidate with the identity it was seen under, or was seen gone again. */
    method Candidates(os: Os, current: set<Pid>) returns (r: Outcome<Records>)
      modifies os`table, os`listings, os`sightings, os`errors, os`unreadable, os`parentless
      ensures r.OsError? ==>
        ReadingFailed(os.unreadable, os.parentless, os.listings, |old(os.unreadable)|, |old(os.parentless)|,
                      preexisting)
      ensures !r.AssertionError? && old(os.listings) <= os.listings
      ensures old(os.errors) <= os.errors && (r.OsError? ==> old(os.errors) < os.errors)
      ensures |old(os.unreadable)| <= |os.unreadable| && |old(os.parentless)| <= |os.parentless|
      ensures r.Ok? ==> r.value.Keys <= current - preexisting
      ensures r.Ok? ==> forall p :: p in current - preexisting ==> Accounted(os.sightings, os.listings, r.value,
                                                                             |old(os.listings)|, p)
    {
      var candidates: Records := map[];
      var pending := current - preexisting;
      while pending != {}
        invariant pending <= current - preexisting
        invariant candidates.Keys <= current - preexisting - pending
        invariant old(os.listings) <= os.listings && old(os.errors) <= os.errors
        invariant |old(os.unreadable)| <= |os.unreadable| && |old(os.parentless)| <= |os.parentless|
        invariant forall p :: p in current - preexisting - pending ==>
          Accounted(os.sightings, os.listings, candidates, |old(os.listings)|, p)
        decreases pending
      {
        var pid :| pid in pending;
        pending := pending - {pid};
        ghost var before, seen := os.listings, os.sightings;
        var identity := os.ProcessIdentity(pid);
        if identity.OsError? {
          var still := os.ProcessIds();
          if pid in still {
            return OsError;
          }
          assert os.listings[|before|] == still;
          forall p | p in current - preexisting - pending
            ensures Accounted(os.sightings, os.listings, candidates, |old(os.listings)|, p)
          {
            AbsentLater(before, os.listings, |old(os.listings)|, p);
            assert p == pid || Accounted(seen, before, candidates, |old(os.listings)|, p);
          }
        } else {
          var parent := os.ParentPid(pid);
          if parent.OsError? {
            return OsError;
          }
          ghost var others := candidates;
          candidates := candidates[pid := Record(identity.value.image, identity.value.created, parent.value)];
          forall p | p in current - preexisting - pending
            ensures Accounted(os.sightings, os.listings, candidates, |old(os.listings)|, p)
          {
            assert p == pid || Accounted(seen, before, others, |old(os.listings)|, p);
          }
        }
      }
      r := Ok(candidates);
    }

    /** Admit the listed candidates into `tracked`. */
    method AdmitAll(candidates: Records, pids: seq<Pid>) returns (ok: bool)
      requires Ascending(pids) && forall p :: p in pids ==> p in candidates
      modifies this`tracked
      ensures (ok, tracked) == Admit(old(tracked), candidates, pids, startedAt)
    {
      var i := 0;
      while i < |pids|
        invariant 0 <= i <= |pids|
        invariant Admit(tracked, candidates, pids[i..], startedAt) == Admit(old(tracked), candidates, pids, startedAt)
      {
        var record := candidates[pids[i]];
        assert pids[i..][0] == pids[i] && pids[i..][1..] == pids[i + 1..];
        if !Acceptable(record, startedAt) {
          return false;
        }
        if pids[i] !in tracked {
          tracked := tracked[pids[i] := record];
        }
        if tracked[pids[i]] != record {
          return false;
        }
        i := i + 1;
      }
      ok := true;
    }

    /** Track the post-snapshot processes connected to a proven root. The ghost results are the candidates seen
        and the processes accepted as owned. */
    method Track(os: Os) returns (r: Outcome<set<Pid>>, ghost candidates: Records, ghost accepted: set<Pid>)
      modifies this`tracked, os`table, os`listings, os`sightings, os`errors, os`unreadable, os`parentless
      ensures r.OsError? ==>
        ReadingFailed(os.unreadable, os.parentless, os.listings, |old(os.unreadable)|, |old(os.parentless)|,
                      preexisting)
      ensures candidates.Keys !! preexisting && old(os.listings) < os.listings
      ensures r.Ok? ==> |old(os.listings)| < |os.listings| && r.value == os.listings[|old(os.listings)|]
      ensures r.Ok? ==> forall p :: p in r.value - preexisting ==>
        Accounted(os.sightings, os.listings, candidates, |old(os.listings)|, p)
      ensures old(os.errors) <= os.errors
      ensures |old(os.unreadable)| <= |os.unreadable| && |old(os.parentless)| <= |os.parentless|
      ensures r.OsError? ==> tracked == old(tracked) && old(os.errors) < os.errors
      ensures !r.OsError? ==>
        && IsAccepted(old(tracked), candidates, roots, accepted)
        && AdmissionFrom(old(tracked), candidates, accepted, tracked, r.Ok?, startedAt, roots)
    {
      var current := os.ProcessIds();
      var gathered := Candidates(os, current);
      if !gathered.Ok? {
        return OsError, map[], {};
      }
      candidates := gathered.value;
      var owned, rounds := ExpandOwnership(tracked, gathered.value, roots);
      accepted := owned;
      var pids := SortedPids(owned * gathered.value.Keys);
      AdmissionHolds(tracked, gathered.value, owned, pids, startedAt, roots);
      var ok := AdmitAll(gathered.value, pids);
      r := if ok then Ok(current) else AssertionError;
    }

    /** Terminate, in PID order, the live tracked processes outside the baseline. When that completes, each of
        them has been hit or was seen gone. */
    method TerminateTracked(os: Os, current: set<Pid>) returns (r: Outcome<()>)
      modifies os`table, os`listings, os`kills, os`errors, os`refusals
      ensures LawfulSince(old(os.kills), os.kills, tracked, preexisting) && old(os.listings) <= os.listings
      ensures old(os.errors) <= os.errors && old(os.refusals) <= os.refusals
      ensures r.OsError? ==> old(os.errors) < os.errors && StillThere(os.listings, tracked, preexisting)
      ensures r.AssertionError? ==> old(os.refusals) < os.refusals
      ensures r.Ok? ==> forall p :: p in (current - preexisting) * tracked.Keys ==>
        Hit(os.kills, |old(os.kills)|, p) || SeenAbsent(os.listings, |old(os.listings)|, p)
    {
      var pids := SortedPids((current - preexisting) * tracked.Keys);
      var i := 0;
      while i < |pids|
        invariant 0 <= i <= |pids|
        invariant LawfulSince(old(os.kills), os.kills, tracked, preexisting) && old(os.listings) <= os.listings
        invariant old(os.errors) <= os.errors && old(os.refusals) <= os.refusals
        invariant forall j :: 0 <= j < i ==>
          Hit(os.kills, |old(os.kills)|, pids[j]) || SeenAbsent(os.listings, |old(os.listings)|, pids[j])
      {
        assert pids[i] in pids;
        r := TerminateOne(os, pids[i], |old(os.kills)|, |old(os.listings)|);
        if !r.Ok? {
          return;
        }
        i := i + 1;
      }
      r := Ok(());
    }

    /** Terminate one tracked process; an operating system error counts as success once the PID is gone. */
    method TerminateOne(os: Os, pid: Pid, ghost kills: nat, ghost listings: nat) returns (r: Outcome<()>)
      requires pid in tracked && pid !in preexisting
      requires kills <= |os.kills| && listings <= |os.listings|
      modifies os`table, os`listings, os`kills, os`errors, os`refusals
      ensures LawfulSince(old(os.kills), os.kills, tracked, preexisting) && old(os.listings) <= os.listings
      ensures old(os.errors) <= os.errors && old(os.refusals) <= os.refusals
      ensures r.OsError? ==> old(os.errors) < os.errors && StillThere(os.listings, tracked, preexisting)
      ensures r.AssertionError? ==> old(os.refusals) < os.refusals
      ensures forall p :: Hit(old(os.kills), kills, p) ==> Hit(os.kills, kills, p)
      ensures forall p :: SeenAbsent(old(os.listings), listings, p) ==> SeenAbsent(os.listings, listings, p)
      ensures r.Ok? ==> Hit(os.kills, kills, pid) || SeenAbsent(os.listings, listings, pid)
    {
      var record := tracked[pid];
      ghost var before := os.kills;
      r := os.TerminateExact(pid, Identity(record.image, record.created));
      assert before <= os.kills && forall k :: 0 <= k < |before| ==> os.kills[k] == before[k];
      if r.Ok? {
        assert os.kills[|before|].pid == pid;
      }
      if r.OsError? {
        ghost var shown := os.listings;
        var still := os.ProcessIds();
        forall p { AbsentLater(shown, os.listings, listings, p); }
        if pid in still {
          return OsError;
        }
        assert os.listings[|shown|] == still;
        r := Ok(());
      }
    }

    /** One round of the cleanup: track, terminate what is on record, and list what is left. */
    method SweepRound(os: Os) returns (r: Outcome<set<Pid>>, ghost round: Round, ghost ending: Ending)
      modifies this`tracked, os
      ensures SafeSince(old(tracked), old(os.kills), tracked, os.kills, preexisting, startedAt, roots)
      ensures old(os.listings) <= os.listings && old(os.errors) <= os.errors && old(os.refusals) <= os.refusals
      ensures r.Ok? ==> round == Round(|old(os.listings)|, |old(os.kills)|, tracked.Keys)
                        && Swept(round, os.kills, os.listings, preexisting)
                        && round.listing < |os.listings| - 1
                        && os.listings[|os.listings| - 1] == r.value == os.table.Keys
      ensures r.Ok? && Rooted(old(tracked), roots) ==> Rooted(tracked, roots)
      ensures !r.Ok? ==> Failed(ending, r.OsError?, tracked, startedAt, roots)
      ensures !r.Ok? && ending.TrackingFailed? ==>
        && old(os.errors) < os.errors
        && ReadingFailed(os.unreadable, os.parentless, os.listings, |old(os.unreadable)|, |old(os.parentless)|,
                         preexisting)
      ensures !r.Ok? && ending.TerminationFailed? ==>
        if r.OsError? then old(os.errors) < os.errors && StillThere(os.listings, tracked, preexisting)
        else old(os.refusals) < os.refusals
      ensures |old(os.unreadable)| <= |os.unreadable| && |old(os.parentless)| <= |os.parentless|
    {
      ghost var before, log, shown := tracked, os.kills, os.listings;
      round := Round(|shown|, |log|, before.Keys);
      var seen, candidates, accepted := Track(os);
      if seen.OsError? {
        return OsError, round, TrackingFailed;
      }
      SafeAfterTracking(before, log, before, log, candidates, accepted, tracked, seen.Ok?,
                        preexisting, startedAt, roots);
      if seen.AssertionError? {
        return AssertionError, round, CandidateRefused(Refusal(before, candidates, accepted));
      }
      ghost var listed := os.listings;
      var ended := TerminateTracked(os, seen.value);
      SafeAfterKills(before, log, tracked, log, os.kills, preexisting, startedAt, roots);
      ending := TerminationFailed;
      if !ended.Ok? {
        return if ended.OsError? then OsError else AssertionError, round, ending;
      }
      round := Round(|shown|, |log|, tracked.Keys);
      RoundSwept(round, listed, os.kills, os.listings, preexisting);
      listed := os.listings;
      var after := os.ProcessIds();
      SweptLater(round, os.kills, listed, os.kills, os.listings, preexisting);
      r := Ok(after);
    }

    /** Clean up until the process set is the baseline again. `rounds` bounds the polls that fit before the
        deadline. The ghost results are the completed rounds, in each of which every recorded process that the round
        began with was hit or seen gone, and the reason why the cleanup ended. */
    method Cleanup(os: Os, rounds: nat)
      returns (r: Outcome<set<Pid>>, ghost swept: seq<Round>, ghost ending: Ending)
      modifies this`tracked, os
      ensures SafeSince(old(tracked), old(os.kills), tracked, os.kills, preexisting, startedAt, roots)
      ensures old(os.listings) <= os.listings && old(os.errors) <= os.errors
      ensures SweptSince(swept, old(tracked).Keys, |old(os.kills)|, |old(os.listings)|, os.kills, os.listings,
                         preexisting)
      ensures Ended(ending, r, swept, rounds, tracked, os.listings, preexisting, startedAt, roots)
      ensures ending.TrackingFailed? ==>
        && old(os.errors) < os.errors
        && ReadingFailed(os.unreadable, os.parentless, os.listings, |old(os.unreadable)|, |old(os.parentless)|,
                         preexisting)
      ensures ending.TerminationFailed? ==>
        if r.OsError? then old(os.errors) < os.errors && StillThere(os.listings, tracked, preexisting)
        else old(os.refusals) < os.refusals
      ensures r.Ok? ==> r.value == preexisting && os.table.Keys == preexisting
      ensures Rooted(old(tracked), roots) && r.Ok? ==> Rooted(tracked, roots)
    {
      swept := [];
      var remaining := rounds;
      while true
        invariant SafeSince(old(tracked), old(os.kills), tracked, os.kills, preexisting, startedAt, roots)
        invariant Rooted(old(tracked), roots) ==> Rooted(tracked, roots)
        invariant SweptSince(swept, old(tracked).Keys, |old(os.kills)|, |old(os.listings)|, os.kills, os.listings,
                             preexisting)
        invariant |swept| + remaining == rounds
        invariant old(os.listings) <= os.listings && old(os.errors) <= os.errors && old(os.refusals) <= os.refusals
        invariant |old(os.unreadable)| <= |os.unreadable| && |old(os.parentless)| <= |os.parentless|
        decreases remaining
      {
        ghost var before, log, shown := tracked, os.kills, os.listings;
        var ended, round, cause := SweepRound(os);
        SafeOnward(old(tracked), old(os.kills), before, log, tracked, os.kills, preexisting, startedAt, roots);
        SweptStill(swept, old(tracked).Keys, |old(os.kills)|, |old(os.listings)|, log, shown, os.kills, os.listings,
                   preexisting);
        if !ended.Ok? {
          return ended, swept, cause;
        }
        SweptAgain(swept, round, old(tracked).Keys, |old(os.kills)|, |old(os.listings)|, os.kills, os.listings,
                   preexisting);
        swept := swept + [round];
        var after := ended.value;
        if after == preexisting {
          return Ok(after), swept, Restored;
        }
        if exists p :: p in after && p !in preexisting && p !in tracked {
          return AssertionError, swept, UnrecordedLeft;
        }
        if remaining == 0 {
          return AssertionError, swept, RoundsExhausted;
        }
        remaining := remaining - 1;
      }
    }

    /** A whole acceptance run: tracking calls up to the first that raises, then the cleanup on the same record. The
        ghost results are the record handed to the cleanup and the call that refused a candidate, if one did. The
        cleanup kills owned processes alone if that record is rooted: always, unless a call refused a candidate, and
        then exactly if the candidates recorded before the refusal support themselves. */
    method Run(os: Os, calls: nat, rounds: nat)
      returns (r: Outcome<set<Pid>>, ghost handed: Records, ghost refused: Option<Refusal>, ghost made: nat,
               ghost swept: seq<Round>, ghost ending: Ending)
      requires tracked == map[]
      modifies this, os
      ensures OnRecord(handed, preexisting, startedAt)
      ensures SafeSince(handed, old(os.kills), tracked, os.kills, preexisting, startedAt, roots)
      ensures refused.None? ==> Rooted(handed, roots)
      ensures refused.Some? ==> Handed(refused.value, handed, startedAt, roots)
      ensures refused.None? || Supported(refused.value, startedAt, roots) ==>
        OwnedKills(old(os.kills), os.kills, tracked, roots)
      ensures made == calls || refused.Some? || old(os.errors) < os.errors
      ensures |old(os.listings)| + made <= |os.listings|
      ensures SweptSince(swept, handed.Keys, |old(os.kills)|, |old(os.listings)| + made, os.kills, os.listings,
                         preexisting)
      ensures Ended(ending, r, swept, rounds, tracked, os.listings, preexisting, startedAt, roots)
      ensures ending.TrackingFailed? ==>
        && old(os.errors) < os.errors
        && ReadingFailed(os.unreadable, os.parentless, os.listings, |old(os.unreadable)|, |old(os.parentless)|,
                         preexisting)
      ensures ending.TerminationFailed? ==>
        if r.OsError? then old(os.errors) < os.errors && StillThere(os.listings, tracked, preexisting)
        else old(os.refusals) < os.refusals
      ensures r.Ok? ==> r.value == preexisting && os.table.Keys == preexisting
    {
      refused := None;
      made := 0;
      var n, raised := 0, false;
      while n < calls && !raised
        invariant made == n <= calls && old(os.errors) <= os.errors && os.refusals == old(os.refusals)
        invariant raised ==> refused.Some? || old(os.errors) < os.errors
        invariant |old(os.unreadable)| <= |os.unreadable| && |old(os.parentless)| <= |os.parentless|
        invariant |old(os.listings)| + made <= |os.listings|
        invariant OnRecord(tracked, preexisting, startedAt) && os.kills == old(os.kills)
        invariant refused.None? ==> Rooted(tracked, roots)
        invariant refused.Some? ==> raised && Handed(refused.value, tracked, startedAt, roots)
        decreases calls - n
      {
        ghost var before := tracked;
        var seen, candidates, accepted := Track(os);
        raised := !seen.Ok?;
        if !seen.OsError? {
          AfterCall(before, candidates, accepted, tracked, seen.Ok?, preexisting, startedAt, roots);
        }
        if seen.AssertionError? {
          refused := Some(Refusal(before, candidates, accepted));
        }
        n := n + 1;
        made := made + 1;
      }
      handed := tracked;
      r, swept, ending := Cleanup(os, rounds);
    }
  }

  /** One completed round of a cleanup: the position of its first listing, how many kills had been made before it,
      and the PIDs then on record. */
  datatype Round = Round(listing: nat, kills: nat, recorded: set<Pid>)

  /** Every recorded process outside the baseline that the round's listing shows was hit or seen gone after it. */
  ghost predicate Swept(round: Round, kills: seq<Kill>, listings: seq<set<Pid>>, preexisting: set<Pid>) {
    && round.listing < |listings|
    && forall p :: p in (listings[round.listing] - preexisting) * round.recorded ==>
         Hit(kills, round.kills, p) || SeenAbsent(listings, round.listing, p)
  }

  /** The rounds began after the given numbers of kills and listings, with at least the given PIDs on record, and
      were all swept. */
  ghost predicate SweptSince(swept: seq<Round>, recordedBefore: set<Pid>, killsBefore: nat, listingsBefore: nat,
                             kills: seq<Kill>,
                             listings: seq<set<Pid>>, preexisting: set<Pid>) {
    forall i :: 0 <= i < |swept| ==>
      && recordedBefore <= swept[i].recorded
      && killsBefore <= swept[i].kills && listingsBefore <= swept[i].listing
      && Swept(swept[i], kills, listings, preexisting)
  }

  lemma SweptLater(round: Round, kills: seq<Kill>, listings: seq<set<Pid>>, more: seq<Kill>, later: seq<set<Pid>>,
                   preexisting: set<Pid>)
    requires Swept(round, kills, listings, preexisting) && kills <= more && listings <= later
    ensures Swept(round, more, later, preexisting)
  {
    assert later[round.listing] == listings[round.listing];
    forall p | p in (later[round.listing] - preexisting) * round.recorded
      ensures Hit(more, round.kills, p) || SeenAbsent(later, round.listing, p)
    {
      HitLater(kills, more, round.kills, p);
      AbsentLater(listings, later, round.listing, p);
    }
  }

  lemma SweptStill(swept: seq<Round>, recordedBefore: set<Pid>, killsBefore: nat, listingsBefore: nat, kills: seq<Kill>,
                   listings: seq<set<Pid>>, more: seq<Kill>, later: seq<set<Pid>>, preexisting: set<Pid>)
    requires SweptSince(swept, recordedBefore, killsBefore, listingsBefore, kills, listings, preexisting)
    requires kills <= more && listings <= later
    ensures SweptSince(swept, recordedBefore, killsBefore, listingsBefore, more, later, preexisting)
  {
    forall i | 0 <= i < |swept| ensures Swept(swept[i], more, later, preexisting) {
      SweptLater(swept[i], kills, listings, more, later, preexisting);
    }
  }

  lemma SweptAgain(swept: seq<Round>, round: Round, recordedBefore: set<Pid>, killsBefore: nat, listingsBefore: nat,
                   kills: seq<Kill>,
                   listings: seq<set<Pid>>, preexisting: set<Pid>)
    requires SweptSince(swept, recordedBefore, killsBefore, listingsBefore, kills, listings, preexisting)
    requires Swept(round, kills, listings, preexisting) && recordedBefore <= round.recorded
    requires killsBefore <= round.kills && listingsBefore <= round.listing
    ensures SweptSince(swept + [round], recordedBefore, killsBefore, listingsBefore, kills, listings, preexisting)
  {
  }

  /** What terminating the recorded processes of a listing achieves, seen from the start of the round. */
  lemma RoundSwept(round: Round, listed: seq<set<Pid>>, kills: seq<Kill>, listings: seq<set<Pid>>,
                   preexisting: set<Pid>)
    requires round.listing < |listed| && listed <= listings
    requires forall p :: p in (listed[round.listing] - preexisting) * round.recorded ==>
      Hit(kills, round.kills, p) || SeenAbsent(listings, |listed|, p)
    ensures Swept(round, kills, listings, preexisting)
  {
    forall p | p in (listings[round.listing] - preexisting) * round.recorded
      ensures Hit(kills, round.kills, p) || SeenAbsent(listings, round.listing, p)
    {
      if !Hit(kills, round.kills, p) {
        var k :| |listed| <= k < |listings| && p !in listings[k];
        assert round.listing <= k;
      }
    }
  }

  /** Why a cleanup ended: the operating system failed during tracking, a candidate was refused, a termination failed
      or was refused, the baseline was restored, a process that is not on record was left, or time was up. */
  datatype Ending =
    | TrackingFailed | CandidateRefused(refusal: Refusal) | TerminationFailed
    | Restored | UnrecordedLeft | RoundsExhausted

  /** An ending that an error brings about. */
  ghost predicate Failed(ending: Ending, osError: bool, tracked: Records, startedAt: int, roots: set<Pid>) {
    match ending
    case TrackingFailed => osError
    case CandidateRefused(x) =>
      && !osError && IsAccepted(x.tracked, x.candidates, roots, x.accepted)
      && !AllAdmissible(x.tracked, x.candidates, x.accepted, startedAt)
      && tracked == x.tracked + Recorded(x.tracked, x.candidates, x.accepted, startedAt)
    case TerminationFailed => true
    case _ => false
  }

  /** The ending fits the outcome and what was observed last. Without an error the cleanup ends right after a completed
      round: with the baseline restored, with a process left that is not on record, or once time is up, and then with
      nothing but recorded processes left. */
  ghost predicate Ended(ending: Ending, r: Outcome<set<Pid>>, swept: seq<Round>, rounds: nat, tracked: Records,
                        listings: seq<set<Pid>>, preexisting: set<Pid>, startedAt: int, roots: set<Pid>)
  {
    if ending.Restored? || ending.UnrecordedLeft? || ending.RoundsExhausted? then
      && LastRound(swept, tracked, listings)
      && var left := listings[|listings| - 1];
      match ending
      case Restored => r == Ok(preexisting) && left == preexisting
      case UnrecordedLeft => r.AssertionError? && exists p :: p in left && p !in preexisting && p !in tracked
      case _ =>
        && r.AssertionError? && |swept| == rounds + 1 && left != preexisting
        && forall p :: p in left && p !in preexisting ==> p in tracked
    else
      !r.Ok? && Failed(ending, r.OsError?, tracked, startedAt, roots)
  }

  /** The last listing came right after a completed round, on the record as it is. */
  ghost predicate LastRound(swept: seq<Round>, tracked: Records, listings: seq<set<Pid>>) {
    swept != [] && swept[|swept| - 1].recorded == tracked.Keys && swept[|swept| - 1].listing < |listings| - 1
  }

  /** A tracking call that refused a candidate: the record it started from, what it saw and what it accepted. */
  datatype Refusal = Refusal(tracked: Records, candidates: Records, accepted: set<Pid>)

  /** The candidates recorded before the refusal support themselves. */
  ghost predicate Supported(x: Refusal, startedAt: int, roots: set<Pid>) {
    SelfSupporting(x.tracked, Recorded(x.tracked, x.candidates, x.accepted, startedAt), roots)
  }

  /** What a refusal leaves on record, and when that is rooted. */
  ghost predicate Handed(x: Refusal, handed: Records, startedAt: int, roots: set<Pid>) {
    && Rooted(x.tracked, roots) && IsAccepted(x.tracked, x.candidates, roots, x.accepted)
    && !AllAdmissible(x.tracked, x.candidates, x.accepted, startedAt)
    && handed == x.tracked + Recorded(x.tracked, x.candidates, x.accepted, startedAt)
    && (Rooted(handed, roots) <==> Supported(x, startedAt, roots))
  }

  /** From one moment to a later one: records only grew, by acceptable processes outside the baseline; every kill
      in between was lawful; and, if the record was rooted to begin with, hit an owned process. */
  ghost predicate SafeSince(tracked: Records, log: seq<Kill>, later: Records, longer: seq<Kill>,
                            preexisting: set<Pid>, startedAt: int, roots: set<Pid>) {
    && Extends(tracked, later)
    && (forall p :: p in later && p !in tracked ==> p !in preexisting && Acceptable(later[p], startedAt))
    && LawfulSince(log, longer, later, preexisting)
    && (Rooted(tracked, roots) ==> OwnedKills(log, longer, later, roots))
  }

  lemma SafeAfterTracking(start: Records, log: seq<Kill>, tracked: Records, longer: seq<Kill>,
                          candidates: Records, accepted: set<Pid>, after: Records, completed: bool,
                          preexisting: set<Pid>, startedAt: int, roots: set<Pid>)
    requires SafeSince(start, log, tracked, longer, preexisting, startedAt, roots)
    requires candidates.Keys !! preexisting
    requires AdmissionFrom(tracked, candidates, accepted, after, completed, startedAt, roots)
    ensures SafeSince(start, log, after, longer, preexisting, startedAt, roots)
  {
    if Rooted(start, roots) {
      forall i | |log| <= i < |longer| ensures Owned(after.Keys, after, roots, longer[i].pid) {
        OwnedMonotone(tracked, after, roots, longer[i].pid);
      }
    }
  }

  lemma SafeOnward(start: Records, log: seq<Kill>, middle: Records, midLog: seq<Kill>, later: Records,
                   longer: seq<Kill>, preexisting: set<Pid>, startedAt: int, roots: set<Pid>)
    requires SafeSince(start, log, middle, midLog, preexisting, startedAt, roots)
    requires SafeSince(middle, midLog, later, longer, preexisting, startedAt, roots)
    requires Rooted(start, roots) ==> Rooted(middle, roots)
    ensures SafeSince(start, log, later, longer, preexisting, startedAt, roots)
  {
    forall i | |log| <= i < |longer| ensures Lawful(longer[i], later, preexisting) {
      if i < |midLog| {
        assert longer[i] == midLog[i] && Lawful(midLog[i], middle, preexisting);
      }
    }
    if Rooted(start, roots) {
      forall i | |log| <= i < |longer| ensures Owned(later.Keys, later, roots, longer[i].pid) {
        if i < |midLog| {
          assert longer[i] == midLog[i];
          OwnedMonotone(middle, later, roots, longer[i].pid);
        }
      }
    }
  }

  lemma SafeAfterKills(start: Records, log: seq<Kill>, tracked: Records, middle: seq<Kill>, longer: seq<Kill>,
                       preexisting: set<Pid>, startedAt: int, roots: set<Pid>)
    requires SafeSince(start, log, tracked, middle, preexisting, startedAt, roots)
    requires LawfulSince(middle, longer, tracked, preexisting)
    requires Rooted(start, roots) ==> Rooted(tracked, roots)
    ensures SafeSince(start, log, tracked, longer, preexisting, startedAt, roots)
  {
    if Rooted(start, roots) {
      forall i | |log| <= i < |longer| ensures Owned(tracked.Keys, tracked, roots, longer[i].pid) {
        if i >= |middle| { assert Lawful(longer[i], tracked, preexisting); }
      }
    }
  }

  /** A call that started from a rooted record completes with one, or refuses a candidate. */
  lemma AfterCall(tracked: Records, candidates: Records, accepted: set<Pid>, after: Records, completed: bool,
                  preexisting: set<Pid>, startedAt: int, roots: set<Pid>)
    requires OnRecord(tracked, preexisting, startedAt) && Rooted(tracked, roots)
    requires candidates.Keys !! preexisting && IsAccepted(tracked, candidates, roots, accepted)
    requires AdmissionFrom(tracked, candidates, accepted, after, completed, startedAt, roots)
    ensures OnRecord(after, preexisting, startedAt)
    ensures if completed then Rooted(after, roots)
            else Handed(Refusal(tracked, candidates, accepted), after, startedAt, roots)
  {
    forall p | p in after ensures p !in preexisting && Acceptable(after[p], startedAt) {
      if p !in tracked {
        assert BeforeRefusal(tracked, candidates, accepted, startedAt, p);
      }
    }
  }

  /** Every record is of an acceptable process outside the baseline. */
  ghost predicate OnRecord(tracked: Records, preexisting: set<Pid>, startedAt: int) {
    forall p :: p in tracked ==> p !in preexisting && Acceptable(tracked[p], startedAt)
  }

  /** From this record, some processes can appear with which a cleanup round completes its tracking, leaving the
      record `after`, and then lawfully makes the kill. */
  ghost predicate CouldKill(tracked: Records, after: Records, kill: Kill,
                            preexisting: set<Pid>, startedAt: int, roots: set<Pid>) {
    exists candidates: Records, accepted: set<Pid> ::
      && candidates.Keys !! preexisting && IsAccepted(tracked, candidates, roots, accepted)
      && AdmissionFrom(tracked, candidates, accepted, after, true, startedAt, roots)
      && Lawful(kill, after, preexisting)
  }

  /** As long as only recorded processes are seen, exactly the recorded ones and the roots are accepted. */
  lemma KnownAccepted(tracked: Records, candidates: Records, roots: set<Pid>)
    requires forall p :: p in candidates ==> p in tracked && tracked[p] == candidates[p]
    ensures IsAccepted(tracked, candidates, roots, tracked.Keys + roots)
    ensures tracked + candidates == tracked
  {
    var seeds := tracked.Keys + roots;
    assert tracked + candidates == tracked;
    forall q | q in seeds ensures Owned(candidates.Keys, tracked, seeds, q) {
      SeedOwned(candidates.Keys, tracked, seeds, q);
    }
    ClosedHoldsOwned(candidates.Keys, tracked, seeds, seeds);
  }

  lemma KnownAdmitted(tracked: Records, candidates: Records, startedAt: int, roots: set<Pid>)
    requires forall p :: p in candidates ==>
      p in tracked && tracked[p] == candidates[p] && Acceptable(tracked[p], startedAt)
    ensures AdmissionFrom(tracked, candidates, tracked.Keys + roots, tracked, true, startedAt, roots)
  {
    var added := Recorded(tracked, candidates, tracked.Keys + roots, startedAt);
    assert added == map[] && tracked + added == tracked && tracked + candidates == tracked;
  }

  /** Whoever is on record can be killed: it need only be the one process left. */
  lemma RecordedCanBeKilled(tracked: Records, p: Pid, preexisting: set<Pid>, startedAt: int, roots: set<Pid>)
    requires OnRecord(tracked, preexisting, startedAt) && p in tracked
    ensures CouldKill(tracked, tracked, Kill(p, Identity(tracked[p].image, tracked[p].created)),
                      preexisting, startedAt, roots)
  {
    var candidates: Records, accepted := map[p := tracked[p]], tracked.Keys + roots;
    KnownAccepted(tracked, candidates, roots);
    KnownAdmitted(tracked, candidates, startedAt, roots);
  }

  /** The kills that the next cleanup round can make are all of owned processes if and only if the record it starts
      from is rooted. */
  lemma KillsOwnedExactlyWhenRooted(tracked: Records, preexisting: set<Pid>, startedAt: int, roots: set<Pid>)
    requires OnRecord(tracked, preexisting, startedAt)
    ensures Rooted(tracked, roots) <==>
            forall after, kill :: CouldKill(tracked, after, kill, preexisting, startedAt, roots) ==>
              Owned(after.Keys, after, roots, kill.pid)
  {
    if !Rooted(tracked, roots) {
      var p :| p in tracked && !Owned(tracked.Keys, tracked, roots, p);
      RecordedCanBeKilled(tracked, p, preexisting, startedAt, roots);
    }
  }

  /** The stranger, once the process that reused PID 300 has exited. */
  const LIVE_STRANGER: Records := map[200 := AutoCad(1200, 60)]

  lemma StrangerStays()
    ensures IsAccepted(STRANGER_RECORDS, LIVE_STRANGER, {100}, {100, 200, 300})
    ensures Admit(STRANGER_RECORDS, LIVE_STRANGER, [200], 1000) == (true, STRANGER_RECORDS)
  {
    AutoCadAcceptable(1200, 60);
    KnownAccepted(STRANGER_RECORDS, LIVE_STRANGER, {100});
    assert STRANGER_RECORDS.Keys + {100} == {100, 200, 300};
  }

  /** A run in which a process unrelated to the root is killed. One tracking call meets the reused PID, records the
      stranger 200 and raises. The reusing process exits; the tracking call of the cleanup then completes, and the
      stranger is the one live process on record. */
  lemma StrangerIsKilled()
    ensures
      && IsAccepted(STALE_RECORDS, REUSING_CANDIDATES, {100}, {100, 200, 300})
      && Admit(STALE_RECORDS, REUSING_CANDIDATES, [200, 300], 1000) == (false, STRANGER_RECORDS)
      && IsAccepted(STRANGER_RECORDS, LIVE_STRANGER, {100}, {100, 200, 300})
      && Admit(STRANGER_RECORDS, LIVE_STRANGER, [200], 1000) == (true, STRANGER_RECORDS)
      && Lawful(Kill(200, Identity("acad.exe", 1200)), STRANGER_RECORDS, {})
      && !Owned(STRANGER_RECORDS.Keys, STRANGER_RECORDS, {100}, 200)
  {
    ReuseAdmitsStranger();
    StrangerApart();
    StrangerStays();
  }
}
