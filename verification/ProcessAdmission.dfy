/** Which of the accepted processes a tracking call records, and when the record stays linked to the roots. */
module ProcessAdmission {
  import opened OwnershipLinks
  import opened Text

  predicate IsSeparator(c: char) { c == '\\' || c == '/' }

  /** The last component of a path. */
  function BaseName(path: string): string {
    if path == "" || IsSeparator(path[|path| - 1]) then "" else BaseName(path[..|path| - 1]) + [path[|path| - 1]]
  }

  /** Without a separator in it, a text after one is the base name, and so is the text alone. */
  lemma {:induction false} BaseNameExactly(prefix: string, separator: char, name: string)
    requires IsSeparator(separator) && forall i :: 0 <= i < |name| ==> name[i] != '/' && name[i] != '\\'
    ensures BaseName(name) == name && BaseName(prefix + [separator] + name) == name
    decreases |name|
  {
    var path := prefix + [separator] + name;
    if name != "" {
      var front := name[..|name| - 1];
      assert path[..|path| - 1] == prefix + [separator] + front;
      BaseNameExactly(prefix, separator, front);
      assert name == front + [name[|name| - 1]];
    }
  }

  /** An AutoCAD process created no earlier than the acceptance run. */
  predicate Acceptable(record: Record, startedAt: int) {
    CaseFold(BaseName(record.image)) == "acad.exe" && record.created >= startedAt
  }

  ghost predicate Ascending(pids: seq<Pid>) {
    forall i, j :: 0 <= i < j < |pids| ==> pids[i] < pids[j]
  }

  function InsertPid(pid: Pid, pids: seq<Pid>): (r: seq<Pid>)
    requires Ascending(pids) && pid !in pids
    ensures Ascending(r)
    ensures forall p :: p in r <==> p == pid || p in pids
  {
    if pids == [] || pid < pids[0] then [pid] + pids
    else
      var rest := InsertPid(pid, pids[1..]);
      assert forall i :: 0 <= i < |rest| ==> rest[i] in rest;
      [pids[0]] + rest
  }

  method SortedPids(s: set<Pid>) returns (pids: seq<Pid>)
    ensures Ascending(pids)
    ensures forall p :: p in pids <==> p in s
  {
    pids := [];
    var rest := s;
    while rest != {}
      invariant rest <= s && Ascending(pids)
      invariant forall p :: p in pids <==> p in s && p !in rest
      decreases rest
    {
      var p :| p in rest;
      pids := InsertPid(p, pids);
      rest := rest - {p};
    }
  }

  /** Record the accepted candidates one by one in PID order, stopping at the first that is not acceptable or
      whose PID is already on record for another process. */
  function Admit(tracked: Records, candidates: Records, pids: seq<Pid>, startedAt: int): (bool, Records)
    requires forall p :: p in pids ==> p in candidates
    decreases |pids|
  {
    if pids == [] then (true, tracked)
    else
      var p := pids[0];
      if !Acceptable(candidates[p], startedAt) then (false, tracked)
      else if p in tracked then
        if tracked[p] != candidates[p] then (false, tracked) else Admit(tracked, candidates, pids[1..], startedAt)
      else
        Admit(tracked[p := candidates[p]], candidates, pids[1..], startedAt)
  }

  /** The candidate may be recorded: it is acceptable, and its PID is not on record for another process. */
  predicate Admissible(tracked: Records, candidates: Records, p: Pid, startedAt: int)
    requires p in candidates
  {
    Acceptable(candidates[p], startedAt) && (p in tracked ==> tracked[p] == candidates[p])
  }

  /** p is among the accepted candidates that precede the first refused one in PID order. */
  ghost predicate BeforeRefusal(tracked: Records, candidates: Records, accepted: set<Pid>, startedAt: int, p: Pid) {
    && p in accepted && p in candidates
    && forall q :: q in accepted && q in candidates && q <= p ==> Admissible(tracked, candidates, q, startedAt)
  }

  /** The candidates that a tracking call newly records. */
  ghost function Recorded(tracked: Records, candidates: Records, accepted: set<Pid>, startedAt: int): Records {
    map p | p in candidates && p !in tracked && BeforeRefusal(tracked, candidates, accepted, startedAt, p)
      :: candidates[p]
  }

  ghost predicate Extends(tracked: Records, after: Records) {
    forall p :: p in tracked ==> p in after && after[p] == tracked[p]
  }

  /** pids lists the accepted candidates in order. */
  ghost predicate Lists(pids: seq<Pid>, candidates: Records, accepted: set<Pid>) {
    Ascending(pids) && forall p :: p in pids <==> p in accepted && p in candidates
  }

  /** Admission runs to the end exactly when every listed candidate is admissible; it adds the candidates before
      the first that is not, and changes no record. */
  lemma {:induction false} AdmitExact(tracked: Records, candidates: Records, accepted: set<Pid>, pids: seq<Pid>,
                                     startedAt: int)
    requires Lists(pids, candidates, accepted)
    ensures var (ok, after) := Admit(tracked, candidates, pids, startedAt);
      && after == tracked + Recorded(tracked, candidates, accepted, startedAt)
      && (ok <==> forall p :: p in pids ==> Admissible(tracked, candidates, p, startedAt))
    decreases |pids|
  {
    if pids == [] {
      assert Recorded(tracked, candidates, accepted, startedAt) == map[];
    } else {
      var p := pids[0];
      ListsRest(pids, candidates, accepted);
      if !Admissible(tracked, candidates, p, startedAt) {
        NothingRecorded(tracked, candidates, accepted, p, startedAt);
      } else {
        AdmitExact(With(tracked, candidates, p), candidates, accepted - {p}, pids[1..], startedAt);
        RecordedFirst(tracked, candidates, accepted, p, startedAt);
        assert forall q :: q in pids <==> q == p || q in pids[1..];
      }
    }
  }

  lemma NothingRecorded(tracked: Records, candidates: Records, accepted: set<Pid>, p: Pid, startedAt: int)
    requires p in accepted && p in candidates && !Admissible(tracked, candidates, p, startedAt)
    requires forall r :: r in accepted && r in candidates ==> p <= r
    ensures Recorded(tracked, candidates, accepted, startedAt) == map[]
  {
  }

  lemma ListsRest(pids: seq<Pid>, candidates: Records, accepted: set<Pid>)
    requires Lists(pids, candidates, accepted) && pids != []
    ensures Lists(pids[1..], candidates, accepted - {pids[0]})
    ensures forall q :: q in accepted && q in candidates && q != pids[0] ==> pids[0] < q
  {
    assert forall q :: q in pids <==> q == pids[0] || q in pids[1..];
  }

  /** The record after p has been admitted. */
  function With(tracked: Records, candidates: Records, p: Pid): Records
    requires p in candidates
  {
    if p in tracked then tracked else tracked[p := candidates[p]]
  }

  /** Once the smallest accepted candidate is admitted, each other one is judged as before. */
  lemma JudgedAsBefore(tracked: Records, candidates: Records, accepted: set<Pid>, p: Pid, startedAt: int, q: Pid)
    requires p in accepted && p in candidates && Admissible(tracked, candidates, p, startedAt)
    requires forall r :: r in accepted && r in candidates ==> p <= r
    requires q in accepted && q in candidates && q != p
    ensures BeforeRefusal(With(tracked, candidates, p), candidates, accepted - {p}, startedAt, q)
            <==> BeforeRefusal(tracked, candidates, accepted, startedAt, q)
  {
  }

  /** Once the smallest accepted candidate is admitted, exactly the others that were to be recorded still are. */
  lemma RecordedLater(tracked: Records, candidates: Records, accepted: set<Pid>, p: Pid, startedAt: int, q: Pid)
    requires p in accepted && p in candidates && Admissible(tracked, candidates, p, startedAt)
    requires forall r :: r in accepted && r in candidates ==> p <= r
    ensures q in Recorded(With(tracked, candidates, p), candidates, accepted - {p}, startedAt)
            <==> q in Recorded(tracked, candidates, accepted, startedAt) && q != p
  {
    if q in accepted && q in candidates && q != p {
      JudgedAsBefore(tracked, candidates, accepted, p, startedAt, q);
    }
  }

  lemma SmallestPrecedes(tracked: Records, candidates: Records, accepted: set<Pid>, p: Pid, startedAt: int)
    requires p in accepted && p in candidates && Admissible(tracked, candidates, p, startedAt)
    requires forall r :: r in accepted && r in candidates ==> p <= r
    ensures BeforeRefusal(tracked, candidates, accepted, startedAt, p)
  {
  }

  /** Recording the smallest accepted candidate first leaves the others to be recorded. */
  lemma RecordedFirst(tracked: Records, candidates: Records, accepted: set<Pid>, p: Pid, startedAt: int)
    requires p in accepted && p in candidates && Admissible(tracked, candidates, p, startedAt)
    requires forall r :: r in accepted && r in candidates ==> p <= r
    ensures var next := With(tracked, candidates, p);
            next + Recorded(next, candidates, accepted - {p}, startedAt)
            == tracked + Recorded(tracked, candidates, accepted, startedAt)
  {
    var next := With(tracked, candidates, p);
    var later, all := Recorded(next, candidates, accepted - {p}, startedAt),
                      Recorded(tracked, candidates, accepted, startedAt);
    SmallestPrecedes(tracked, candidates, accepted, p, startedAt);
    forall q ensures q in later <==> q in all && q != p {
      RecordedLater(tracked, candidates, accepted, p, startedAt, q);
    }
    assert p in all <==> p !in tracked;
    assert forall q :: q in later ==> q in candidates && later[q] == candidates[q];
    assert forall q :: q in all ==> q in candidates && all[q] == candidates[q];
    MergeFirst(tracked, candidates, p, later, all);
  }

  lemma MergeFirst(tracked: Records, candidates: Records, p: Pid, later: Records, all: Records)
    requires p in candidates && (p in all <==> p !in tracked)
    requires forall q :: q in later <==> q in all && q != p
    requires forall q :: q in later ==> q in candidates && later[q] == candidates[q]
    requires forall q :: q in all ==> q in candidates && all[q] == candidates[q]
    ensures With(tracked, candidates, p) + later == tracked + all
  {
  }

  /** Every tracked process links back to an ownership root through tracked processes alone. */
  ghost predicate Rooted(tracked: Records, roots: set<Pid>) {
    forall p :: p in tracked ==> Owned(tracked.Keys, tracked, roots, p)
  }

  /** A chain carries over to other records that agree on it, as long as its first process is owned there and every
      later one is owned or a candidate there. */
  lemma {:induction false} CarryOver(candidates: set<Pid>, records: Records, seeds: set<Pid>, chain: seq<Pid>,
                                    others: set<Pid>, evidence: Records, roots: set<Pid>)
    requires IsChain(candidates, records, seeds, chain)
    requires Owned(others, evidence, roots, chain[0])
    requires forall i :: 0 < i < |chain| ==> chain[i] in others || Owned(others, evidence, roots, chain[i])
    requires forall i :: 0 <= i < |chain| && chain[i] in records ==>
      chain[i] in evidence && evidence[chain[i]] == records[chain[i]]
    ensures Owned(others, evidence, roots, chain[|chain| - 1])
  {
    if |chain| > 1 {
      var front := chain[..|chain| - 1];
      CarryOver(candidates, records, seeds, front, others, evidence, roots);
      var a, b := front[|front| - 1], chain[|chain| - 1];
      assert Linked(records, a, b);
      if b in others {
        LinkOwned(others, evidence, roots, a, b);
      }
    }
  }

  lemma OwnedMonotone(tracked: Records, later: Records, roots: set<Pid>, p: Pid)
    requires Owned(tracked.Keys, tracked, roots, p) && Extends(tracked, later)
    ensures Owned(later.Keys, later, roots, p)
  {
    var chain :| IsChain(tracked.Keys, tracked, roots, chain) && chain[|chain| - 1] == p;
    assert IsChain(later.Keys, later, roots, chain);
  }

  lemma SeedsRooted(tracked: Records, evidence: Records, roots: set<Pid>)
    requires Rooted(tracked, roots) && Extends(tracked, evidence)
    ensures forall p :: p in tracked.Keys + roots ==> Owned(evidence.Keys, evidence, roots, p)
  {
    forall p | p in tracked.Keys + roots ensures Owned(evidence.Keys, evidence, roots, p) {
      if p in roots {
        SeedOwned(evidence.Keys, evidence, roots, p);
      } else {
        OwnedMonotone(tracked, evidence, roots, p);
      }
    }
  }

  /** Every newly recorded process links to a tracked or root PID through newly recorded processes alone. */
  ghost predicate SelfSupporting(tracked: Records, added: Records, roots: set<Pid>) {
    forall p :: p in added ==> Owned(added.Keys, tracked + added, tracked.Keys + roots, p)
  }

  /** What is owned from seeds that are owned themselves is owned from where these are. */
  lemma OwnedFromOwned(candidates: set<Pid>, records: Records, seeds: set<Pid>, p: Pid,
                       others: set<Pid>, roots: set<Pid>)
    requires Owned(candidates, records, seeds, p) && candidates <= others
    requires forall q :: q in seeds ==> Owned(others, records, roots, q)
    ensures Owned(others, records, roots, p)
  {
    var chain :| IsChain(candidates, records, seeds, chain) && chain[|chain| - 1] == p;
    CarryOver(candidates, records, seeds, chain, others, records, roots);
  }

  lemma RootedIsSupported(tracked: Records, added: Records, roots: set<Pid>, p: Pid)
    requires Owned((tracked + added).Keys, tracked + added, roots, p)
    ensures Owned(added.Keys, tracked + added, tracked.Keys + roots, p)
  {
    var after, seeds := tracked + added, tracked.Keys + roots;
    var chain :| IsChain(after.Keys, after, roots, chain) && chain[|chain| - 1] == p;
    SeedOwned(added.Keys, after, seeds, chain[0]);
    forall i | 0 < i < |chain| && chain[i] !in added ensures Owned(added.Keys, after, seeds, chain[i]) {
      SeedOwned(added.Keys, after, seeds, chain[i]);
    }
    CarryOver(after.Keys, after, roots, chain, added.Keys, after, seeds);
  }

  /** Adding records to a rooted record keeps it rooted exactly when the added ones support themselves. */
  lemma RootedExactlyWhenSupported(tracked: Records, added: Records, roots: set<Pid>)
    requires Rooted(tracked, roots) && added.Keys !! tracked.Keys
    ensures Rooted(tracked + added, roots) <==> SelfSupporting(tracked, added, roots)
  {
    var after := tracked + added;
    if SelfSupporting(tracked, added, roots) {
      SeedsRooted(tracked, after, roots);
      forall p | p in added ensures Owned(after.Keys, after, roots, p) {
        OwnedFromOwned(added.Keys, after, tracked.Keys + roots, p, after.Keys, roots);
      }
    }
    if Rooted(after, roots) {
      forall p | p in added ensures Owned(added.Keys, after, tracked.Keys + roots, p) {
        RootedIsSupported(tracked, added, roots, p);
      }
    }
  }

  /** The accepted processes are exactly the owned ones. */
  ghost predicate IsAccepted(tracked: Records, candidates: Records, roots: set<Pid>, accepted: set<Pid>) {
    forall p :: p in accepted <==> Owned(candidates.Keys, tracked + candidates, tracked.Keys + roots, p)
  }

  /** No live process has taken over the PID of a tracked one. */
  ghost predicate NoReuse(tracked: Records, candidates: Records) {
    forall p :: p in tracked && p in candidates ==> tracked[p] == candidates[p]
  }

  /** While no tracked PID is reused, every accepted process links back to a root on the evidence of the call, that
      is through processes that are on record or were seen in it, whether or not these are recorded. */
  lemma AdmittedIsRooted(tracked: Records, candidates: Records, roots: set<Pid>, p: Pid)
    requires Rooted(tracked, roots) && NoReuse(tracked, candidates)
    requires Owned(candidates.Keys, tracked + candidates, tracked.Keys + roots, p)
    ensures Owned((tracked + candidates).Keys, tracked + candidates, roots, p)
  {
    var evidence, seeds := tracked + candidates, tracked.Keys + roots;
    SeedsRooted(tracked, evidence, roots);
    OwnedFromOwned(candidates.Keys, evidence, seeds, p, evidence.Keys, roots);
  }

  /** Nothing is refused. */
  ghost predicate AllAdmissible(tracked: Records, candidates: Records, accepted: set<Pid>, startedAt: int) {
    forall p :: p in accepted && p in candidates ==> Admissible(tracked, candidates, p, startedAt)
  }

  lemma PrefixOwned(candidates: set<Pid>, records: Records, seeds: set<Pid>, chain: seq<Pid>, i: nat)
    requires IsChain(candidates, records, seeds, chain) && i < |chain|
    ensures Owned(candidates, records, seeds, chain[i])
  {
    var prefix := chain[..i + 1];
    assert IsChain(candidates, records, seeds, prefix) && prefix[|prefix| - 1] == chain[i];
  }

  /** When nothing is refused, a chain of accepted processes runs through recorded ones alone. */
  lemma CompletedChain(tracked: Records, candidates: Records, roots: set<Pid>, accepted: set<Pid>, startedAt: int,
                       chain: seq<Pid>)
    requires IsAccepted(tracked, candidates, roots, accepted)
    requires AllAdmissible(tracked, candidates, accepted, startedAt)
    requires IsChain(candidates.Keys, tracked + candidates, tracked.Keys + roots, chain)
    ensures var added := Recorded(tracked, candidates, accepted, startedAt);
            Owned(added.Keys, tracked + added, tracked.Keys + roots, chain[|chain| - 1])
  {
    var added, records, seeds :=
      Recorded(tracked, candidates, accepted, startedAt), tracked + candidates, tracked.Keys + roots;
    var after := tracked + added;
    SeedOwned(added.Keys, after, seeds, chain[0]);
    forall i | 0 <= i < |chain|
      ensures chain[i] in records ==> chain[i] in after && after[chain[i]] == records[chain[i]]
      ensures i > 0 ==> chain[i] in added || Owned(added.Keys, after, seeds, chain[i])
    {
      PrefixOwned(candidates.Keys, records, seeds, chain, i);
      assert chain[i] in accepted;
      if chain[i] in candidates && chain[i] !in tracked {
        assert BeforeRefusal(tracked, candidates, accepted, startedAt, chain[i]);
      } else if chain[i] in tracked {
        SeedOwned(added.Keys, after, seeds, chain[i]);
      }
    }
    CarryOver(candidates.Keys, records, seeds, chain, added.Keys, after, seeds);
  }

  /** When nothing is refused, what is recorded supports itself. */
  lemma CompletedIsSupported(tracked: Records, candidates: Records, roots: set<Pid>, accepted: set<Pid>, startedAt: int)
    requires IsAccepted(tracked, candidates, roots, accepted)
    requires AllAdmissible(tracked, candidates, accepted, startedAt)
    ensures SelfSupporting(tracked, Recorded(tracked, candidates, accepted, startedAt), roots)
  {
    var added := Recorded(tracked, candidates, accepted, startedAt);
    forall p | p in added ensures Owned(added.Keys, tracked + added, tracked.Keys + roots, p) {
      assert p in accepted;
      var chain :| IsChain(candidates.Keys, tracked + candidates, tracked.Keys + roots, chain)
                   && chain[|chain| - 1] == p;
      CompletedChain(tracked, candidates, roots, accepted, startedAt, chain);
    }
  }

  /** A completed call keeps a rooted record rooted. */
  lemma CompletedIsRooted(tracked: Records, candidates: Records, roots: set<Pid>, accepted: set<Pid>, startedAt: int)
    requires Rooted(tracked, roots) && IsAccepted(tracked, candidates, roots, accepted)
    requires AllAdmissible(tracked, candidates, accepted, startedAt)
    ensures Rooted(tracked + Recorded(tracked, candidates, accepted, startedAt), roots)
  {
    CompletedIsSupported(tracked, candidates, roots, accepted, startedAt);
    RootedExactlyWhenSupported(tracked, Recorded(tracked, candidates, accepted, startedAt), roots);
  }

  /** Every tracked process links back to an ownership root through processes on record in `evidence`. */
  ghost predicate RootedIn(evidence: Records, tracked: Records, roots: set<Pid>) {
    forall p :: p in tracked ==> Owned(evidence.Keys, evidence, roots, p)
  }

  lemma StillRooted(tracked: Records, candidates: Records, accepted: set<Pid>, startedAt: int, roots: set<Pid>)
    requires IsAccepted(tracked, candidates, roots, accepted)
    requires Rooted(tracked, roots) && NoReuse(tracked, candidates)
    ensures RootedIn(tracked + candidates, tracked + Recorded(tracked, candidates, accepted, startedAt), roots)
  {
    SeedsRooted(tracked, tracked + candidates, roots);
    forall p | p in Recorded(tracked, candidates, accepted, startedAt)
      ensures Owned((tracked + candidates).Keys, tracked + candidates, roots, p)
    {
      AdmittedIsRooted(tracked, candidates, roots, p);
    }
  }

  /** What one tracking call does to the record: it adds the accepted candidates that precede the first refused one,
      and completes exactly when none is refused. A rooted record stays rooted, through records, exactly when these
      candidates support themselves, which they do whenever the call completes. */
  ghost predicate AdmissionFrom(tracked: Records, candidates: Records, accepted: set<Pid>, after: Records,
                                completed: bool, startedAt: int, roots: set<Pid>) {
    var added := Recorded(tracked, candidates, accepted, startedAt);
    && after == tracked + added
    && (completed <==> AllAdmissible(tracked, candidates, accepted, startedAt))
    && (completed ==> SelfSupporting(tracked, added, roots))
    && (Rooted(tracked, roots) ==> (Rooted(after, roots) <==> SelfSupporting(tracked, added, roots)))
    && (Rooted(tracked, roots) && NoReuse(tracked, candidates) ==> RootedIn(tracked + candidates, after, roots))
  }

  lemma AdmissionHolds(tracked: Records, candidates: Records, accepted: set<Pid>, pids: seq<Pid>,
                       startedAt: int, roots: set<Pid>)
    requires IsAccepted(tracked, candidates, roots, accepted) && Lists(pids, candidates, accepted)
    ensures var (ok, after) := Admit(tracked, candidates, pids, startedAt);
      AdmissionFrom(tracked, candidates, accepted, after, ok, startedAt, roots)
  {
    var (ok, after) := Admit(tracked, candidates, pids, startedAt);
    AdmitExact(tracked, candidates, accepted, pids, startedAt);
    if ok {
      CompletedIsSupported(tracked, candidates, roots, accepted, startedAt);
    }
    if Rooted(tracked, roots) {
      RootedExactlyWhenSupported(tracked, Recorded(tracked, candidates, accepted, startedAt), roots);
      if NoReuse(tracked, candidates) {
        StillRooted(tracked, candidates, accepted, startedAt, roots);
      }
    }
  }

  lemma {:induction false} BaseNamePlain(s: string)
    requires forall c :: c in s ==> !IsSeparator(c)
    ensures BaseName(s) == s
  {
    if s != "" {
      assert s[|s| - 1] in s;
      BaseNamePlain(s[..|s| - 1]);
    }
  }

  /** An AutoCAD process, acceptable exactly when it is created at 1000 or later. */
  function AutoCad(created: int, parent: Pid): Record {
    Record("acad.exe", created, parent)
  }

  lemma AutoCadAcceptable(created: int, parent: Pid)
    ensures Acceptable(AutoCad(created, parent), 1000) <==> created >= 1000
  {
    BaseNamePlain("acad.exe");
    LowerCaseFolds("acad.exe");
  }

  /** A tracked root 100 and its tracked child 300, both gone. */
  const STALE_RECORDS: Records := map[100 := AutoCad(1000, 50), 300 := AutoCad(1100, 100)]

  /** PID 300 has been reused by a child of an unrelated process 200. */
  const REUSING_CANDIDATES: Records := map[200 := AutoCad(1200, 60), 300 := AutoCad(1300, 200)]

  /** What is left on record by the call that meets them. */
  const STRANGER_RECORDS: Records := STALE_RECORDS[200 := AutoCad(1200, 60)]

  /** Exactly the accepted processes are owned when they are all owned and no link leads out of them. */
  lemma AcceptedExactly(tracked: Records, candidates: Records, roots: set<Pid>, accepted: set<Pid>)
    requires tracked.Keys + roots <= accepted
    requires AllOwned(candidates.Keys, tracked + candidates, tracked.Keys + roots, accepted)
    requires candidates.Keys <= accepted
    ensures IsAccepted(tracked, candidates, roots, accepted)
  {
    ClosedHoldsOwned(candidates.Keys, tracked + candidates, tracked.Keys + roots, accepted);
  }

  lemma StaleRooted()
    ensures Rooted(STALE_RECORDS, {100})
  {
    SeedOwned(STALE_RECORDS.Keys, STALE_RECORDS, {100}, 100);
    LinkOwned(STALE_RECORDS.Keys, STALE_RECORDS, {100}, 100, 300);
  }

  lemma ReuseAccepted()
    ensures IsAccepted(STALE_RECORDS, REUSING_CANDIDATES, {100}, {100, 200, 300})
  {
    var candidates := REUSING_CANDIDATES;
    var records, seeds := STALE_RECORDS + candidates, STALE_RECORDS.Keys + {100};
    SeedOwned(candidates.Keys, records, seeds, 100);
    SeedOwned(candidates.Keys, records, seeds, 300);
    LinkOwned(candidates.Keys, records, seeds, 300, 200);
    AcceptedExactly(STALE_RECORDS, candidates, {100}, {100, 200, 300});
  }

  /** The process is not linked to the root by any record in the given ones. */
  lemma StrangerApart()
    ensures !Owned(STRANGER_RECORDS.Keys, STRANGER_RECORDS, {100}, 200)
    ensures !Owned((STALE_RECORDS + REUSING_CANDIDATES).Keys, STALE_RECORDS + REUSING_CANDIDATES, {100}, 200)
  {
    ClosedHoldsOwned(STRANGER_RECORDS.Keys, STRANGER_RECORDS, {100}, {100, 300});
    var evidence := STALE_RECORDS + REUSING_CANDIDATES;
    ClosedHoldsOwned(evidence.Keys, evidence, {100}, {100});
    assert 200 !in {100, 300} && 200 !in {100};
  }

  /** A tracking call that ends in an error can leave a stranger on record. The call reports that PID 300 has been
      reused, but only after it recorded process 200, which neither the records nor the processes seen in the call
      link to the root. */
  lemma ReuseAdmitsStranger()
    ensures var tracked, candidates := STALE_RECORDS, REUSING_CANDIDATES;
            var (ok, after) := Admit(tracked, candidates, [200, 300], 1000);
            && Rooted(tracked, {100}) && IsAccepted(tracked, candidates, {100}, {100, 200, 300})
            && !ok && after == STRANGER_RECORDS
            && !Rooted(after, {100}) && !RootedIn(tracked + candidates, after, {100})
  {
    StaleRooted();
    ReuseAccepted();
    AutoCadAcceptable(1200, 60);
    assert [200, 300][1..] == [300];
    assert Admit(STALE_RECORDS, REUSING_CANDIDATES, [200, 300], 1000)
        == Admit(STRANGER_RECORDS, REUSING_CANDIDATES, [300], 1000);
    StrangerApart();
  }

  const ROOT_RECORDS: Records := map[100 := AutoCad(1100, 50)]

  /** Between the listing and the reading of identities, two listed PIDs were taken over: 300 by a command shell that
      the root started, and 200 by an AutoCAD process that the shell started. */
  const SHELL_CANDIDATES: Records := map[200 := AutoCad(1400, 300), 300 := Record("cmd.exe", 1300, 100)]

  lemma ShellAccepted()
    ensures IsAccepted(ROOT_RECORDS, SHELL_CANDIDATES, {100}, {100, 200, 300})
  {
    var candidates := SHELL_CANDIDATES;
    var records, seeds := ROOT_RECORDS + candidates, ROOT_RECORDS.Keys + {100};
    SeedOwned(candidates.Keys, records, seeds, 100);
    LinkOwned(candidates.Keys, records, seeds, 100, 300);
    LinkOwned(candidates.Keys, records, seeds, 300, 200);
    AcceptedExactly(ROOT_RECORDS, candidates, {100}, {100, 200, 300});
  }

  lemma ShellRefused(created: int, parent: Pid)
    ensures !Acceptable(Record("cmd.exe", created, parent), 1000)
  {
    BaseNamePlain("cmd.exe");
    LowerCaseFolds("cmd.exe");
    assert |"cmd.exe"| != |"acad.exe"|;
  }

  /** No tracked PID need be reused for a failing call to record a process that no record links to a root: the process
      that links the two may itself be the refused one. */
  lemma RefusalLosesLink()
    ensures var tracked, candidates := ROOT_RECORDS, SHELL_CANDIDATES;
            var (ok, after) := Admit(tracked, candidates, [200, 300], 1000);
            && Rooted(tracked, {100}) && NoReuse(tracked, candidates)
            && IsAccepted(tracked, candidates, {100}, {100, 200, 300})
            && !ok && 200 in after && !Rooted(after, {100})
  {
    var tracked, candidates := ROOT_RECORDS, SHELL_CANDIDATES;
    SeedOwned(tracked.Keys, tracked, {100}, 100);
    ShellAccepted();
    AutoCadAcceptable(1400, 300);
    ShellRefused(1300, 100);
    var after := tracked[200 := candidates[200]];
    assert [200, 300][1..] == [300];
    assert Admit(tracked, candidates, [200, 300], 1000) == Admit(after, candidates, [300], 1000);
    ClosedHoldsOwned(after.Keys, after, {100}, {100});
    assert 200 !in {100};
  }
}
