/** Greedy first-fit pairing of two lists, and how far it agrees with the existence of a pairing. */
module GreedyPairing {
  import opened Matching
  import opened Permutations

  function Without<T>(s: seq<T>, j: nat): (r: seq<T>)
    requires j < |s|
    ensures |r| == |s| - 1
    ensures forall i :: 0 <= i < |r| ==> r[i] == s[if i < j then i else i + 1]
  {
    s[..j] + s[j + 1..]
  }

  /** The least index of ys that x accepts, or |ys|. */
  function FirstAccepted<X, Y>(r: (X, Y) -> bool, x: X, ys: seq<Y>): (j: nat)
    ensures j <= |ys|
    ensures j < |ys| ==> r(x, ys[j])
    ensures forall k :: 0 <= k < j ==> !r(x, ys[k])
  {
    if ys == [] || r(x, ys[0]) then 0 else 1 + FirstAccepted(r, x, ys[1..])
  }

  /** Each x takes the first y it accepts among those left; success means that none is left over. */
  predicate FirstFit<X, Y>(r: (X, Y) -> bool, xs: seq<X>, ys: seq<Y>)
    decreases |xs|
  {
    if xs == [] then ys == []
    else
      var j := FirstAccepted(r, xs[0], ys);
      j < |ys| && FirstFit(r, xs[1..], Without(ys, j))
  }

  /** p pairs the two lists off, each x with a y it accepts. */
  ghost predicate Pairing<X, Y>(r: (X, Y) -> bool, xs: seq<X>, ys: seq<Y>, p: seq<nat>) {
    && |xs| == |ys|
    && IsPermutation(p, |xs|)
    && forall i :: 0 <= i < |xs| ==> r(xs[i], ys[p[i]])
  }

  ghost predicate Pairable<X, Y>(r: (X, Y) -> bool, xs: seq<X>, ys: seq<Y>) {
    exists p :: Pairing(r, xs, ys, p)
  }

  /** Two xs that share an accepted y accept the same ys. */
  ghost predicate Difunctional<X(!new), Y(!new)>(r: (X, Y) -> bool, dx: set<X>, dy: set<Y>) {
    forall x, x', y, y' :: x in dx && x' in dx && y in dy && y' in dy && r(x, y) && r(x, y') && r(x', y) ==>
      r(x', y')
  }

  ghost predicate DrawnFrom<T>(s: seq<T>, d: set<T>) {
    forall i :: 0 <= i < |s| ==> s[i] in d
  }

  ghost function Lower(i: nat, j: nat): nat
    requires i != j
  {
    if i > j then i - 1 else i
  }

  ghost function Raise(i: nat, j: nat): nat {
    if i < j then i else i + 1
  }

  /** What remains of a pairing without its first pair. */
  ghost function TailOf(p: seq<nat>): (q: seq<nat>)
    requires p != [] && forall i :: 0 < i < |p| ==> p[i] != p[0]
    ensures |q| == |p| - 1 && forall i :: 0 <= i < |q| ==> q[i] == Lower(p[i + 1], p[0])
  {
    seq(|p| - 1, i requires 0 <= i < |p| - 1 => Lower(p[i + 1], p[0]))
  }

  lemma TailIsPermutation(p: seq<nat>)
    requires p != [] && IsPermutation(p, |p|)
    ensures IsPermutation(TailOf(p), |p| - 1)
  {
    var q := TailOf(p);
    forall i, j | 0 <= i < j < |q| ensures q[i] != q[j] {
      assert p[i + 1] != p[j + 1];
    }
  }

  lemma TailAccepts<X, Y>(r: (X, Y) -> bool, xs: seq<X>, ys: seq<Y>, p: seq<nat>, i: nat)
    requires Pairing(r, xs, ys, p) && i + 1 < |xs|
    ensures Lower(p[i + 1], p[0]) < |ys| - 1
    ensures r(xs[i + 1], Without(ys, p[0])[Lower(p[i + 1], p[0])])
  {
    assert r(xs[i + 1], ys[p[i + 1]]);
  }

  lemma PairingTail<X, Y>(r: (X, Y) -> bool, xs: seq<X>, ys: seq<Y>, p: seq<nat>) returns (q: seq<nat>)
    requires Pairing(r, xs, ys, p) && xs != []
    ensures Pairing(r, xs[1..], Without(ys, p[0]), q)
  {
    q := TailOf(p);
    TailIsPermutation(p);
    forall i | 0 <= i < |xs[1..]| ensures r(xs[1..][i], Without(ys, p[0])[q[i]]) {
      TailAccepts(r, xs, ys, p, i);
    }
  }

  lemma PairingCons<X, Y>(r: (X, Y) -> bool, xs: seq<X>, ys: seq<Y>, j: nat, q: seq<nat>) returns (p: seq<nat>)
    requires xs != [] && j < |ys| && r(xs[0], ys[j])
    requires Pairing(r, xs[1..], Without(ys, j), q)
    ensures Pairing(r, xs, ys, p)
  {
    p := [j] + seq(|q|, i requires 0 <= i < |q| => Raise(q[i], j));
    forall i | 0 <= i < |xs| ensures r(xs[i], ys[p[i]]) {
      if i > 0 { assert r(xs[1..][i - 1], Without(ys, j)[q[i - 1]]); }
    }
  }

  /** A greedy success is backed by a pairing. */
  lemma {:induction false} FirstFitSound<X, Y>(r: (X, Y) -> bool, xs: seq<X>, ys: seq<Y>)
    requires FirstFit(r, xs, ys)
    ensures Pairable(r, xs, ys)
    decreases |xs|
  {
    if xs == [] {
      assert Pairing(r, xs, ys, []);
    } else {
      var j := FirstAccepted(r, xs[0], ys);
      FirstFitSound(r, xs[1..], Without(ys, j));
      var q :| Pairing(r, xs[1..], Without(ys, j), q);
      var p := PairingCons(r, xs, ys, j, q);
    }
  }

  /** In a difunctional relation the first accepted y can always be taken: whoever was paired with it takes
      the y that the first x gives up. */
  lemma Exchange<X(!new), Y(!new)>(r: (X, Y) -> bool, dx: set<X>, dy: set<Y>, xs: seq<X>, ys: seq<Y>,
                                  p: seq<nat>, j: nat) returns (q: seq<nat>)
    requires Difunctional(r, dx, dy) && DrawnFrom(xs, dx) && DrawnFrom(ys, dy)
    requires Pairing(r, xs, ys, p) && xs != [] && j < |ys| && r(xs[0], ys[j])
    ensures Pairing(r, xs, ys, q) && q[0] == j
  {
    PermutationHits(p, |xs|, j);
    var k :| 0 <= k < |xs| && p[k] == j;
    q := p[k := p[0]][0 := j];
    assert r(xs[k], ys[p[0]]) by {
      assert r(xs[0], ys[p[0]]) && r(xs[k], ys[j]);
    }
  }

  lemma {:induction false} FirstFitComplete<X(!new), Y(!new)>(r: (X, Y) -> bool, dx: set<X>, dy: set<Y>,
                                                             xs: seq<X>, ys: seq<Y>)
    requires Difunctional(r, dx, dy) && DrawnFrom(xs, dx) && DrawnFrom(ys, dy)
    requires Pairable(r, xs, ys)
    ensures FirstFit(r, xs, ys)
    decreases |xs|
  {
    if xs != [] {
      var p :| Pairing(r, xs, ys, p);
      var j := FirstAccepted(r, xs[0], ys);
      assert r(xs[0], ys[p[0]]);
      var q := Exchange(r, dx, dy, xs, ys, p, j);
      var rest := PairingTail(r, xs, ys, q);
      FirstFitComplete(r, dx, dy, xs[1..], Without(ys, j));
    }
  }

  ghost predicate CompleteOn<X(!new), Y(!new)>(r: (X, Y) -> bool, dx: set<X>, dy: set<Y>) {
    forall xs, ys :: DrawnFrom(xs, dx) && DrawnFrom(ys, dy) && Pairable(r, xs, ys) ==> FirstFit(r, xs, ys)
  }

  lemma Stuck<X, Y>(r: (X, Y) -> bool, x: X, x': X, y: Y, y': Y)
    requires r(x, y) && r(x, y') && r(x', y) && !r(x', y')
    ensures Pairable(r, [x, x'], [y, y']) && !FirstFit(r, [x, x'], [y, y'])
  {
    assert Pairing(r, [x, x'], [y, y'], [1, 0]);
    assert FirstAccepted(r, x, [y, y']) == 0;
    assert [x, x'][1..] == [x'] && Without([y, y'], 0) == [y'];
    assert FirstAccepted(r, x', [y']) == 1;
  }

  /** First fit finds every pairing that exists among lists drawn from dx and dy exactly when the relation is
      difunctional there. */
  lemma FirstFitExact<X(!new), Y(!new)>(r: (X, Y) -> bool, dx: set<X>, dy: set<Y>)
    ensures CompleteOn(r, dx, dy) <==> Difunctional(r, dx, dy)
  {
    if Difunctional(r, dx, dy) {
      forall xs, ys | DrawnFrom(xs, dx) && DrawnFrom(ys, dy) && Pairable(r, xs, ys) ensures FirstFit(r, xs, ys) {
        FirstFitComplete(r, dx, dy, xs, ys);
      }
    } else {
      var x, x', y, y' :| x in dx && x' in dx && y in dy && y' in dy
        && r(x, y) && r(x, y') && r(x', y) && !r(x', y');
      Stuck(r, x, x', y, y');
      assert DrawnFrom([x, x'], dx) && DrawnFrom([y, y'], dy);
    }
  }

  /** Whenever first fit succeeds, a finished augmenting search over the same relation leaves nothing unmatched. */
  lemma AugmentingSucceedsToo<X, Y>(r: (X, Y) -> bool, xs: seq<X>, ys: seq<Y>,
                                   edges: Edges, m: Assignment, unmatched: seq<nat>, cover: set<nat>)
    requires FirstFit(r, xs, ys)
    requires |edges| == |xs|
    requires forall i: nat, j: nat {:trigger j in edges[i]} ::
               i < |xs| ==> (j in edges[i] <==> j < |ys| && r(xs[i], ys[j]))
    requires IsMatching(edges, m) && Settled(edges, m, unmatched, cover, |edges|)
    ensures unmatched == []
  {
    FirstFitSound(r, xs, ys);
    var p :| Pairing(r, xs, ys, p);
    assert PerfectPairing(edges, p);
    if unmatched != [] {
      UnmatchedRulesOutPairing(edges, m, unmatched, cover, p);
    }
  }
}
