/** Augmenting-path matching, as the semantic comparator runs it over one collection. */
module Matching {
  import opened Permutations

  /** edges[e] lists the actual indices that expected item e accepts. */
  type Edges = seq<seq<nat>>

  /** A set of chosen edges, recorded from actual index to expected index. */
  type Assignment = map<nat, nat>

  ghost predicate ValidEdges(edges: Edges, actualCount: nat)
  {
    forall e, a :: 0 <= e < |edges| && a in edges[e] ==> a < actualCount
  }

  ghost predicate InRange(edges: Edges, actualCount: nat, m: Assignment)
  {
    forall a :: a in m ==> a < actualCount && m[a] < |edges|
  }

  /** Expected index e is matched to an actual index that is not in s. */
  ghost predicate Matched(m: Assignment, s: set<nat>, e: nat)
  {
    exists a :: a in m && a !in s && m[a] == e
  }

  /** Disregarding the actual indices in s, the chosen pairs are edges and no expected index is used twice. */
  ghost predicate MatchingOutside(edges: Edges, m: Assignment, s: set<nat>)
  {
    && (forall a :: a in m && a !in s ==> m[a] < |edges| && a in edges[m[a]])
    && (forall a, b :: a in m && b in m && a !in s && b !in s && m[a] == m[b] ==> a == b)
  }

  ghost predicate IsMatching(edges: Edges, m: Assignment)
  {
    MatchingOutside(edges, m, {})
  }

  /** All neighbours of expected index e lie in s. */
  ghost predicate Confined(edges: Edges, e: nat, s: set<nat>)
  {
    e < |edges| && forall a :: a in edges[e] ==> a in s
  }

  /** Alternating paths cannot leave s: each member is owned, by an expected index confined to s. */
  ghost predicate Sealed(edges: Edges, m: Assignment, s: set<nat>)
  {
    forall a :: a in s ==> a in m && Confined(edges, m[a], s)
  }

  /** A search from expected index e turned `before` into `after`: disregarding `start`, e is newly matched
      and nothing else gained or lost its match; no actual index was freed or moved within `start` and `kept`. */
  ghost predicate Extended(edges: Edges, before: Assignment, after: Assignment,
                           start: set<nat>, kept: set<nat>, e: nat)
  {
    && MatchingOutside(edges, after, start)
    && (forall v :: Matched(after, start, v) <==> Matched(before, start, v) || v == e)
    && (forall a :: a in before ==> a in after)
    && (forall a :: a in start + kept && a in after ==> a in before && after[a] == before[a])
  }

  /** Every index visited since `start` is owned, and its owner has been exhausted. */
  ghost predicate Exhausted(edges: Edges, m: Assignment, start: set<nat>, visited: set<nat>)
  {
    forall a :: a in visited - start ==> a in m && Confined(edges, m[a], visited)
  }

  lemma TakeFree(edges: Edges, m: Assignment, seen: set<nat>, kept: set<nat>, a: nat, e: nat)
    requires MatchingOutside(edges, m, seen) && !Matched(m, seen, e)
    requires e < |edges| && a in edges[e] && a !in m && a !in seen + kept
    ensures Extended(edges, m, m[a := e], seen, kept, e)
  {
    var after := m[a := e];
    assert after[a] == e;
    forall v ensures Matched(after, seen, v) <==> Matched(m, seen, v) || v == e {
      if b :| b in m && b !in seen && m[b] == v {
        assert after[b] == v;
      }
    }
  }

  /** The owner of a was matched elsewhere, so a can be handed to e. */
  lemma TakeOwned(edges: Edges, before: Assignment, moved: Assignment,
                  seen: set<nat>, kept: set<nat>, a: nat, e: nat)
    requires MatchingOutside(edges, before, seen) && !Matched(before, seen, e)
    requires e < |edges| && a in edges[e] && a in before && a !in seen + kept
    requires Extended(edges, before, moved, seen + {a}, kept, before[a])
    ensures Extended(edges, before, moved[a := e], seen, kept, e)
  {
    var after := moved[a := e];
    assert after[a] == e;
    forall v ensures Matched(after, seen, v) <==> Matched(before, seen, v) || v == e {
      TakeOwnedValue(edges, before, moved, seen, kept, a, e, v);
    }
    assert !Matched(moved, seen + {a}, e);
  }

  lemma TakeOwnedValue(edges: Edges, before: Assignment, moved: Assignment,
                       seen: set<nat>, kept: set<nat>, a: nat, e: nat, v: nat)
    requires a in before && a !in seen
    requires Extended(edges, before, moved, seen + {a}, kept, before[a])
    ensures Matched(moved[a := e], seen, v) <==> Matched(before, seen, v) || v == e
  {
    var after := moved[a := e];
    if Matched(before, seen, v) {
      assert Matched(moved, seen + {a}, v) by {
        var b :| b in before && b !in seen && before[b] == v;
        assert b == a || Matched(before, seen + {a}, v);
      }
      var c :| c in moved && c !in seen + {a} && moved[c] == v;
      assert after[c] == v;
    }
    if v == e {
      assert after[a] == e;
    }
    if Matched(after, seen, v) && v != e {
      var c :| c in after && c !in seen && after[c] == v;
      assert moved[c] == v && Matched(moved, seen + {a}, v);
      assert Matched(before, seen + {a}, v) || v == before[a];
    }
  }

  /** A search that started with fewer visited indices sees the same extension. */
  lemma Widen(edges: Edges, before: Assignment, after: Assignment,
              start: set<nat>, seen: set<nat>, kept: set<nat>, e: nat)
    requires start <= seen && MatchingOutside(edges, before, start) && !Matched(before, start, e)
    requires Extended(edges, before, after, seen, kept, e)
    ensures Extended(edges, before, after, start, kept, e)
  {
    forall v ensures Matched(after, start, v) <==> Matched(before, start, v) || v == e {
      WidenValue(edges, before, after, start, seen, kept, e, v);
    }
    forall a, b | a in after && b in after && a !in start && b !in start && after[a] == after[b]
      ensures a == b
    {
      if a in seen && b !in seen {
        WidenApart(edges, before, after, start, seen, kept, e, a, b);
      } else if b in seen && a !in seen {
        WidenApart(edges, before, after, start, seen, kept, e, b, a);
      }
    }
  }

  lemma WidenApart(edges: Edges, before: Assignment, after: Assignment,
                   start: set<nat>, seen: set<nat>, kept: set<nat>, e: nat, a: nat, b: nat)
    requires start <= seen && MatchingOutside(edges, before, start) && !Matched(before, start, e)
    requires Extended(edges, before, after, seen, kept, e)
    requires a in after && b in after && a !in start && a in seen && b !in seen
    ensures after[a] != after[b]
  {
    assert Matched(after, seen, after[b]);
    assert a in before && after[a] == before[a];
  }

  lemma WidenValue(edges: Edges, before: Assignment, after: Assignment,
                   start: set<nat>, seen: set<nat>, kept: set<nat>, e: nat, v: nat)
    requires start <= seen && Extended(edges, before, after, seen, kept, e)
    ensures Matched(after, start, v) <==> Matched(before, start, v) || v == e
  {
    if Matched(after, start, v) && v != e {
      var a :| a in after && a !in start && after[a] == v;
      if a in seen {
        assert a in before && before[a] == v;
      } else {
        assert Matched(after, seen, v);
        assert Matched(before, seen, v);
      }
    }
    if Matched(before, start, v) {
      var a :| a in before && a !in start && before[a] == v;
      assert a in seen || Matched(before, seen, v);
      assert a in after;
    }
    if Matched(after, seen, v) {
      assert Matched(after, start, v);
    }
  }

  /** What one iteration of the search does with actual index a once a is available. */
  lemma Reassign(edges: Edges, before: Assignment, moved: Assignment,
                 start: set<nat>, seen: set<nat>, blocked: set<nat>, a: nat, e: nat)
    requires start <= seen && MatchingOutside(edges, before, start) && !Matched(before, start, e)
    requires Sealed(edges, before, blocked)
    requires e < |edges| && a in edges[e] && a !in seen
    requires if a in before
             then Extended(edges, before, moved, seen + {a}, blocked, before[a])
                  && !Confined(edges, before[a], blocked)
             else moved == before
    ensures a !in blocked
    ensures Extended(edges, before, moved[a := e], start, blocked, e)
  {
    assert MatchingOutside(edges, before, seen) && !Matched(before, seen, e);
    if a in before {
      TakeOwned(edges, before, moved, seen, blocked, a, e);
    } else {
      TakeFree(edges, before, seen, blocked, a, e);
    }
    Widen(edges, before, moved[a := e], start, seen, blocked, e);
  }

  /** Entering actual index a leaves a valid state in which a's owner is matched only through a. */
  lemma Enter(edges: Edges, m: Assignment, seen: set<nat>, a: nat)
    requires MatchingOutside(edges, m, seen) && a !in seen
    ensures MatchingOutside(edges, m, seen + {a})
    ensures a in m ==> !Matched(m, seen + {a}, m[a])
  {
  }

  /** A failed visit to a exhausts a's owner together with everything visited before. */
  lemma Exhaust(edges: Edges, m: Assignment, start: set<nat>, seen: set<nat>, a: nat, visited: set<nat>)
    requires Exhausted(edges, m, start, seen)
    requires a in m && Confined(edges, m[a], visited)
    requires seen + {a} <= visited && Exhausted(edges, m, seen + {a}, visited)
    ensures Exhausted(edges, m, start, visited)
  {
  }

  /** The search from e has failed through its first i edges. */
  ghost predicate Searched(edges: Edges, m: Assignment, e: nat, start: set<nat>, visited: set<nat>, i: nat)
  {
    && e < |edges| && i <= |edges[e]| && start <= visited
    && (forall k :: 0 <= k < i ==> edges[e][k] in visited)
    && Exhausted(edges, m, start, visited)
  }

  /** A failed visit through edge i leaves only the later edges to search. */
  lemma FailedVisit(edges: Edges, m: Assignment, e: nat, start: set<nat>, seen: set<nat>, visited: set<nat>, i: nat)
    requires Searched(edges, m, e, start, seen, i) && i < |edges[e]|
    requires var a := edges[e][i];
      && a in m && Confined(edges, m[a], visited)
      && seen + {a} <= visited && Exhausted(edges, m, seen + {a}, visited)
    ensures Searched(edges, m, e, start, visited, i + 1)
  {
    Exhaust(edges, m, start, seen, edges[e][i], visited);
  }

  lemma AllSearched(edges: Edges, m: Assignment, e: nat, start: set<nat>, visited: set<nat>)
    requires e < |edges| && Searched(edges, m, e, start, visited, |edges[e]|)
    ensures Confined(edges, e, visited)
  {
  }

  class Matcher {
    const edges: Edges
    const actualCount: nat
    var actualToExpected: Assignment
    var visited: set<nat>

    constructor (edges: Edges, actualCount: nat)
      ensures this.edges == edges && this.actualCount == actualCount
      ensures actualToExpected == map[] && visited == {}
    {
      this.edges := edges;
      this.actualCount := actualCount;
      actualToExpected := map[];
      visited := {};
    }

    ghost predicate Valid()
      reads this
    {
      && ValidEdges(edges, actualCount)
      && InRange(edges, actualCount, actualToExpected)
      && visited <= Below(actualCount)
      && MatchingOutside(edges, actualToExpected, visited)
    }

    /** Search for an augmenting path from `expectedIndex` through unvisited actual indices.
        `blocked` is any set that alternating paths cannot leave: a successful search avoids it. */
    method Augment(expectedIndex: nat, ghost blocked: set<nat>) returns (found: bool)
      requires Valid()
      requires expectedIndex < |edges|
      requires !Matched(actualToExpected, visited, expectedIndex)
      requires Sealed(edges, actualToExpected, blocked)
      modifies this
      ensures Valid()
      ensures old(visited) <= visited
      ensures !found ==> actualToExpected == old(actualToExpected)
      ensures !found ==> Confined(edges, expectedIndex, visited)
      ensures !found ==> Exhausted(edges, actualToExpected, old(visited), visited)
      ensures found ==> Extended(edges, old(actualToExpected), actualToExpected, old(visited), blocked, expectedIndex)
      ensures Confined(edges, expectedIndex, blocked) ==> !found
      decreases Below(actualCount) - visited
    {
      ghost var before := actualToExpected;
      ghost var start := visited;
      var i := 0;
      while i < |edges[expectedIndex]|
        invariant Valid() && actualToExpected == before
        invariant Searched(edges, before, expectedIndex, start, visited, i)
      {
        var actualIndex := edges[expectedIndex][i];
        assert actualIndex in edges[expectedIndex];
        if actualIndex !in visited {
          ghost var seen := visited;
          Enter(edges, before, seen, actualIndex);
          visited := visited + {actualIndex};
          found := true;
          if actualIndex in actualToExpected {
            found := Augment(actualToExpected[actualIndex], blocked);
          }
          if found {
            Reassign(edges, before, actualToExpected, start, seen, blocked, actualIndex, expectedIndex);
            actualToExpected := actualToExpected[actualIndex := expectedIndex];
            return;
          }
          FailedVisit(edges, before, expectedIndex, start, seen, visited, i);
        }
        i := i + 1;
      }
      AllSearched(edges, before, expectedIndex, start, visited);
      found := false;
    }

    /** Try every expected index once, in order, never retrying one that failed. The ghost `cover` is the
        union of what the failed searches visited. */
    method MatchAll() returns (unmatched: seq<nat>, ghost cover: set<nat>)
      requires ValidEdges(edges, actualCount) && actualToExpected == map[]
      modifies this
      ensures InRange(edges, actualCount, actualToExpected) && IsMatching(edges, actualToExpected)
      ensures Settled(edges, actualToExpected, unmatched, cover, |edges|)
    {
      unmatched, cover := [], {};
      var index := 0;
      while index < |edges|
        invariant 0 <= index <= |edges|
        invariant InRange(edges, actualCount, actualToExpected) && IsMatching(edges, actualToExpected)
        invariant Settled(edges, actualToExpected, unmatched, cover, index)
      {
        visited := {};
        ghost var before := actualToExpected;
        var found := Augment(index, cover);
        if found {
          SettleMatched(edges, before, actualToExpected, unmatched, cover, index);
        } else {
          SettleUnmatched(edges, before, unmatched, cover, visited, index);
          cover := cover + visited;
          unmatched := unmatched + [index];
        }
        index := index + 1;
      }
    }
  }

  ghost predicate Increasing(s: seq<nat>)
  {
    forall i, j :: 0 <= i < j < |s| ==> s[i] < s[j]
  }

  /** Of the expected indices below `index`, exactly those in `unmatched` are not matched, and they cannot be:
      alternating paths from them stay inside the sealed set `cover`. */
  ghost predicate Settled(edges: Edges, m: Assignment, unmatched: seq<nat>, cover: set<nat>, index: nat)
  {
    && Increasing(unmatched)
    && (forall i :: 0 <= i < |unmatched| ==> unmatched[i] < index)
    && (forall e: nat :: Matched(m, {}, e) <==> e < index && e !in unmatched)
    && (forall e :: e in unmatched ==> Confined(edges, e, cover))
    && Sealed(edges, m, cover)
  }

  lemma SettleMatched(edges: Edges, before: Assignment, after: Assignment, unmatched: seq<nat>,
                      cover: set<nat>, index: nat)
    requires Settled(edges, before, unmatched, cover, index)
    requires Extended(edges, before, after, {}, cover, index)
    ensures Settled(edges, after, unmatched, cover, index + 1)
  {
    KeepSealed(edges, before, after, {}, cover, index);
  }

  lemma SettleUnmatched(edges: Edges, m: Assignment, unmatched: seq<nat>,
                        cover: set<nat>, visited: set<nat>, index: nat)
    requires Settled(edges, m, unmatched, cover, index)
    requires Exhausted(edges, m, {}, visited) && Confined(edges, index, visited)
    ensures Settled(edges, m, unmatched + [index], cover + visited, index + 1)
  {
    SealMore(edges, m, cover, visited);
    var more := unmatched + [index];
    forall e: nat ensures e in more <==> e in unmatched || e == index {}
  }

  /** A successful search leaves every earlier failure's visited set sealed. */
  lemma KeepSealed(edges: Edges, before: Assignment, after: Assignment, start: set<nat>, cover: set<nat>, e: nat)
    requires Sealed(edges, before, cover) && Extended(edges, before, after, start, cover, e)
    ensures Sealed(edges, after, cover)
  {
    forall a | a in cover ensures a in after && after[a] == before[a] {
      assert a in start + cover;
    }
  }

  /** A failed search seals what it visited. */
  lemma SealMore(edges: Edges, m: Assignment, cover: set<nat>, visited: set<nat>)
    requires Sealed(edges, m, cover) && Exhausted(edges, m, {}, visited)
    ensures Sealed(edges, m, cover + visited)
    ensures forall e :: Confined(edges, e, cover) || Confined(edges, e, visited)
              ==> Confined(edges, e, cover + visited)
  {
    assert visited - {} == visited;
  }

  lemma {:induction false} InjectionSize(f: map<nat, nat>, target: set<nat>)
    requires forall a :: a in f ==> f[a] in target
    requires forall a, b :: a in f && b in f && f[a] == f[b] ==> a == b
    ensures |f| <= |target|
    decreases |f|
  {
    if a :| a in f {
      var rest := map b | b in f && b != a :: f[b];
      assert rest.Keys == f.Keys - {a};
      InjectionSize(rest, target - {f[a]});
    }
  }

  ghost function OwnedBy(m: Assignment, e: nat): (a: nat)
    requires Matched(m, {}, e)
    ensures a in m && m[a] == e
  {
    var a :| a in m && a !in {} && m[a] == e;
    a
  }

  /** König's certificate: when the only unmatched expected indices are confined to a sealed set, no other
      matching is larger. */
  lemma SealedIsMaximum(edges: Edges, m: Assignment, cover: set<nat>, other: Assignment)
    requires Sealed(edges, m, cover)
    requires forall e :: 0 <= e < |edges| && !Matched(m, {}, e) ==> Confined(edges, e, cover)
    requires IsMatching(edges, other)
    ensures |other| <= |m|
  {
    forall a | a in other && a !in cover ensures Matched(m, {}, other[a]) {
      assert !Confined(edges, other[a], cover);
    }
    var f := map a | a in other :: if a in cover then a else OwnedBy(m, other[a]);
    forall a | a in f && a !in cover ensures f[a] !in cover {
      assert !Confined(edges, m[f[a]], cover);
    }
    InjectionSize(f, m.Keys);
    assert f.Keys == other.Keys;
  }

  /** The finished search is a maximum matching: an expected index whose search failed need not be retried,
      whatever was matched after it. */
  lemma SettledIsMaximum(edges: Edges, m: Assignment, unmatched: seq<nat>, cover: set<nat>)
    requires IsMatching(edges, m) && Settled(edges, m, unmatched, cover, |edges|)
    ensures forall other :: IsMatching(edges, other) ==> |other| <= |m|
  {
    forall other | IsMatching(edges, other) ensures |other| <= |m| {
      SealedIsMaximum(edges, m, cover, other);
    }
  }

  /** A matching has as many pairs as it has matched expected indices. */
  lemma MatchingSize(edges: Edges, m: Assignment, matched: set<nat>)
    requires IsMatching(edges, m)
    requires forall e :: Matched(m, {}, e) <==> e in matched
    ensures |m| == |matched|
  {
    forall a | a in m ensures m[a] in matched {
      assert Matched(m, {}, m[a]);
    }
    InjectionSize(m, matched);
    var f := map e | e in matched :: OwnedBy(m, e);
    InjectionSize(f, m.Keys);
    assert f.Keys == matched;
  }

  /** p pairs every expected index with its own accepted actual index. */
  ghost predicate PerfectPairing(edges: Edges, p: seq<nat>)
  {
    IsPermutation(p, |edges|) && forall e :: 0 <= e < |edges| ==> p[e] in edges[e]
  }

  lemma MatchedCount(edges: Edges, m: Assignment, unmatched: seq<nat>, cover: set<nat>)
    requires IsMatching(edges, m) && Settled(edges, m, unmatched, cover, |edges|)
    ensures |m| + |unmatched| == |edges|
  {
    var n, left := |edges|, Image(unmatched);
    ImageSize(unmatched);
    forall e: nat ensures e in left <==> e in unmatched {
      if e in unmatched { var i :| 0 <= i < |unmatched| && unmatched[i] == e; }
    }
    MatchingSize(edges, m, Below(n) - left);
    assert left <= Below(n);
    assert |Below(n) - left| == |Below(n)| - |left|;
  }

  /** The owners of a set of actual indices are as many as the set. */
  lemma Owners(edges: Edges, m: Assignment, s: set<nat>) returns (owners: set<nat>)
    requires IsMatching(edges, m) && s <= m.Keys
    ensures |owners| == |s|
    ensures forall v :: v in owners <==> exists a :: a in s && m[a] == v
  {
    var owned := map a | a in s :: m[a];
    owners := set a | a in s :: m[a];
    assert IsMatching(edges, owned);
    forall v: nat ensures Matched(owned, {}, v) <==> v in owners {
      if v in owners {
        var a :| a in s && m[a] == v;
        assert owned[a] == v;
      }
    }
    MatchingSize(edges, owned, owners);
    assert owned.Keys == s;
  }

  /** Hall's violator: when some search failed, the unmatched expected indices and the owners of `cover`
      form a crowd confined to `cover`, which has fewer members than the crowd. */
  lemma HallViolator(edges: Edges, m: Assignment, unmatched: seq<nat>, cover: set<nat>) returns (crowd: set<nat>)
    requires IsMatching(edges, m) && Settled(edges, m, unmatched, cover, |edges|)
    ensures forall e :: e in crowd ==> Confined(edges, e, cover)
    ensures |crowd| == |cover| + |unmatched|
  {
    var left := Image(unmatched);
    var owners := Owners(edges, m, cover);
    ImageSize(unmatched);
    forall v | v in owners ensures v !in left {
      assert Matched(m, {}, v);
    }
    crowd := left + owners;
  }

  /** A perfect pairing is a matching that uses every expected index. */
  lemma PairingIsMatching(edges: Edges, p: seq<nat>) returns (m: Assignment)
    requires PerfectPairing(edges, p)
    ensures IsMatching(edges, m) && |m| == |edges|
  {
    var n := |edges|;
    var q := Inverse(p, n);
    m := map a | a in Below(n) :: q[a];
    assert m.Keys == Below(n);
    forall a | a in m ensures m[a] < n && p[m[a]] == a {}
  }

  /** A settled assignment that leaves some expected index unmatched rules out every perfect pairing:
      the unmatched indices and the owners of `cover` compete for too few actual indices. */
  lemma UnmatchedRulesOutPairing(edges: Edges, m: Assignment, unmatched: seq<nat>, cover: set<nat>, p: seq<nat>)
    requires IsMatching(edges, m) && Settled(edges, m, unmatched, cover, |edges|)
    requires unmatched != []
    ensures !PerfectPairing(edges, p)
  {
    if PerfectPairing(edges, p) {
      var other := PairingIsMatching(edges, p);
      MatchedCount(edges, m, unmatched, cover);
      SealedIsMaximum(edges, m, cover, other);
      assert false;
    }
  }

  /** When every expected index is matched the assignment is a perfect pairing. */
  ghost function PairingOf(edges: Edges, m: Assignment): (p: seq<nat>)
    requires IsMatching(edges, m) && InRange(edges, |edges|, m)
    requires forall e :: 0 <= e < |edges| ==> Matched(m, {}, e)
    ensures PerfectPairing(edges, p)
  {
    seq(|edges|, e requires 0 <= e < |edges| => OwnedBy(m, e))
  }
}
