/** Which processes an acceptance run owns: time-ordered parent and child links back to a proven root. */
module OwnershipLinks {
  import opened Permutations

  type Pid = nat

  datatype Record = Record(image: string, created: int, parent: Pid)

  type Records = map<Pid, Record>

  /** b is a child of a, or a a child of b, and no child is older than its parent. */
  predicate Linked(records: Records, a: Pid, b: Pid) {
    && a in records && b in records
    && ((records[b].parent == a && records[a].created <= records[b].created)
        || (records[a].parent == b && records[b].created <= records[a].created))
  }

  /** A process and its recorded parent are linked exactly unless the process is the older of the two, as when the
      parent's PID has been reused. */
  lemma LinkedUnlessOlder(records: Records, parent: Pid, child: Pid)
    requires parent in records && child in records && records[child].parent == parent && records[parent].parent != child
    ensures Linked(records, parent, child) <==> !(records[child].created < records[parent].created)
    ensures Linked(records, child, parent) <==> !(records[child].created < records[parent].created)
  {
  }

  /** A chain of links that starts at a seed and then stays among the candidates. */
  ghost predicate IsChain(candidates: set<Pid>, records: Records, seeds: set<Pid>, chain: seq<Pid>) {
    && chain != [] && chain[0] in seeds
    && forall i :: 0 < i < |chain| ==> chain[i] in candidates && Linked(records, chain[i - 1], chain[i])
  }

  ghost predicate Owned(candidates: set<Pid>, records: Records, seeds: set<Pid>, pid: Pid) {
    exists chain :: IsChain(candidates, records, seeds, chain) && chain[|chain| - 1] == pid
  }

  lemma SeedOwned(candidates: set<Pid>, records: Records, seeds: set<Pid>, pid: Pid)
    requires pid in seeds
    ensures Owned(candidates, records, seeds, pid)
  {
    assert IsChain(candidates, records, seeds, [pid]);
  }

  lemma LinkOwned(candidates: set<Pid>, records: Records, seeds: set<Pid>, a: Pid, b: Pid)
    requires Owned(candidates, records, seeds, a) && b in candidates && Linked(records, a, b)
    ensures Owned(candidates, records, seeds, b)
  {
    var chain :| IsChain(candidates, records, seeds, chain) && chain[|chain| - 1] == a;
    assert IsChain(candidates, records, seeds, chain + [b]);
    assert (chain + [b])[|chain|] == b;
  }

  ghost predicate ClosedUnderLinks(candidates: set<Pid>, records: Records, s: set<Pid>) {
    forall a, b :: a in s && b in candidates && Linked(records, a, b) ==> b in s
  }

  /** Ownership is the least set that holds the seeds and is closed under links. */
  lemma {:induction false} ChainStaysInside(candidates: set<Pid>, records: Records, seeds: set<Pid>,
                                           s: set<Pid>, chain: seq<Pid>)
    requires seeds <= s && ClosedUnderLinks(candidates, records, s)
    requires IsChain(candidates, records, seeds, chain)
    ensures forall i :: 0 <= i < |chain| ==> chain[i] in s
  {
    if |chain| > 1 {
      var front := chain[..|chain| - 1];
      assert forall i :: 0 <= i < |front| ==> front[i] == chain[i];
      ChainStaysInside(candidates, records, seeds, s, front);
      assert front[|front| - 1] == chain[|chain| - 2];
    }
  }

  lemma ClosedHoldsOwned(candidates: set<Pid>, records: Records, seeds: set<Pid>, s: set<Pid>)
    requires seeds <= s && ClosedUnderLinks(candidates, records, s)
    ensures forall pid :: Owned(candidates, records, seeds, pid) ==> pid in s
  {
    forall pid | Owned(candidates, records, seeds, pid) ensures pid in s {
      var chain :| IsChain(candidates, records, seeds, chain) && chain[|chain| - 1] == pid;
      ChainStaysInside(candidates, records, seeds, s, chain);
    }
  }

  ghost predicate AllOwned(candidates: set<Pid>, records: Records, seeds: set<Pid>, s: set<Pid>) {
    forall pid :: pid in s ==> Owned(candidates, records, seeds, pid)
  }

  /** b is a candidate that `accepted` already holds or is linked to. */
  ghost predicate Connected(candidates: set<Pid>, records: Records, accepted: set<Pid>, b: Pid) {
    b in candidates && (b in accepted || exists a :: a in accepted && Linked(records, a, b))
  }

  lemma RoundStaysOwned(candidates: set<Pid>, records: Records, seeds: set<Pid>,
                        accepted: set<Pid>, connected: set<Pid>)
    requires AllOwned(candidates, records, seeds, accepted)
    requires forall b :: b in connected ==> Connected(candidates, records, accepted, b)
    ensures AllOwned(candidates, records, seeds, accepted + connected)
  {
    forall b | b in connected && b !in accepted ensures Owned(candidates, records, seeds, b) {
      var a :| a in accepted && Linked(records, a, b);
      LinkOwned(candidates, records, seeds, a, b);
    }
  }

  /** A round that adds nothing has reached exactly the owned processes. */
  lemma LastRound(candidates: set<Pid>, records: Records, seeds: set<Pid>, accepted: set<Pid>, connected: set<Pid>)
    requires seeds <= accepted && AllOwned(candidates, records, seeds, accepted)
    requires forall b :: b in connected <==> Connected(candidates, records, accepted, b)
    requires connected <= accepted
    ensures forall pid :: pid in accepted <==> Owned(candidates, records, seeds, pid)
  {
    forall a, b | a in accepted && b in candidates && Linked(records, a, b) ensures b in accepted {
      assert Connected(candidates, records, accepted, b);
    }
    ClosedHoldsOwned(candidates, records, seeds, accepted);
  }

  /** All the candidates that one round connects to the processes accepted so far. */
  method ConnectedTo(candidates: Records, records: Records, accepted: set<Pid>) returns (connected: set<Pid>)
    requires forall b :: b in candidates ==> b in records && records[b] == candidates[b]
    ensures forall b :: b in connected <==> Connected(candidates.Keys, records, accepted, b)
  {
    connected := {};
    var pending := candidates.Keys;
    while pending != {}
      invariant pending <= candidates.Keys
      invariant forall b :: b in connected <==> b !in pending && Connected(candidates.Keys, records, accepted, b)
      decreases pending
    {
      var pid :| pid in pending;
      var record := candidates[pid];
      if pid in accepted {
        connected := connected + {pid};
      } else if record.parent in accepted && record.parent in records
                && records[record.parent].created <= record.created {
        assert Linked(records, record.parent, pid);
        connected := connected + {pid};
      } else if exists child :: child in records && child in accepted
                  && records[child].parent == pid && record.created <= records[child].created {
        ghost var child :| child in records && child in accepted
                           && records[child].parent == pid && record.created <= records[child].created;
        assert Linked(records, child, pid);
        connected := connected + {pid};
      } else {
        assert forall a :: a in accepted ==> !Linked(records, a, pid);
      }
      pending := pending - {pid};
    }
  }

  lemma AddOne(s: set<Pid>, x: Pid)
    requires x !in s
    ensures |s + {x}| == |s| + 1
  {
  }

  /** Expand ownership to its fixpoint. Besides the set itself: each round but the last adds a candidate, so
      the number of rounds is bounded by the number of candidates. */
  method ExpandOwnership(tracked: Records, candidates: Records, roots: set<Pid>)
    returns (accepted: set<Pid>, ghost rounds: nat)
    ensures forall pid :: pid in accepted <==>
      Owned(candidates.Keys, tracked + candidates, tracked.Keys + roots, pid)
    ensures rounds <= |candidates| + 1
  {
    var records := tracked + candidates;
    ghost var seeds := tracked.Keys + roots;
    accepted := tracked.Keys + roots;
    rounds := 0;
    ghost var gained := {};
    forall pid | pid in accepted ensures Owned(candidates.Keys, records, seeds, pid) {
      SeedOwned(candidates.Keys, records, seeds, pid);
    }
    while true
      invariant seeds <= accepted && gained <= accepted && gained <= candidates.Keys
      invariant rounds <= |gained|
      invariant AllOwned(candidates.Keys, records, seeds, accepted)
      decreases candidates.Keys - accepted
    {
      rounds := rounds + 1;
      var connected := ConnectedTo(candidates, records, accepted);
      var expanded := accepted + connected;
      if expanded == accepted {
        SubsetSize(gained, candidates.Keys);
        LastRound(candidates.Keys, records, seeds, accepted, connected);
        return;
      }
      RoundStaysOwned(candidates.Keys, records, seeds, accepted, connected);
      ghost var added :| added in connected && added !in accepted;
      AddOne(gained, added);
      gained := gained + {added};
      accepted := expanded;
    }
  }
}
