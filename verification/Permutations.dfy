/** Index permutations, represented as sequences, and the counting facts behind them. */
module Permutations {

  /** The set of indices below n. */
  ghost function Below(n: nat): (s: set<nat>)
    ensures forall i :: i in s <==> 0 <= i < n
    ensures |s| == n
  {
    if n == 0 then {} else Below(n - 1) + {n - 1}
  }

  /** p lists each index below n exactly once. */
  ghost predicate IsPermutation(p: seq<nat>, n: nat)
  {
    && |p| == n
    && (forall i :: 0 <= i < n ==> p[i] < n)
    && (forall i, j :: 0 <= i < j < n ==> p[i] != p[j])
  }

  ghost function Image(p: seq<nat>): set<nat>
  {
    set i | 0 <= i < |p| :: p[i]
  }

  lemma {:induction false} ImageSize(p: seq<nat>)
    requires forall i, j :: 0 <= i < j < |p| ==> p[i] != p[j]
    ensures |Image(p)| == |p|
  {
    if p == [] {
      assert Image(p) == {};
    } else {
      var q := p[..|p| - 1];
      ImageSize(q);
      assert Image(p) == Image(q) + {p[|p| - 1]} by {
        forall a | a in Image(p) ensures a in Image(q) + {p[|p| - 1]} {
          var i :| 0 <= i < |p| && p[i] == a;
          if i < |q| { assert q[i] == a; }
        }
        forall a | a in Image(q) + {p[|p| - 1]} ensures a in Image(p) {
          if a in Image(q) { var i :| 0 <= i < |q| && q[i] == a; assert p[i] == a; }
        }
      }
    }
  }

  lemma SubsetOfEqualSize<T>(s: set<T>, t: set<T>)
    requires s <= t && |s| == |t|
    ensures s == t
  {
    if x :| x in t && x !in s {
      assert s <= t - {x};
      SubsetSize(s, t - {x});
    }
  }

  lemma {:induction false} SubsetSize<T>(s: set<T>, t: set<T>)
    requires s <= t
    ensures |s| <= |t|
    decreases s
  {
    if x :| x in s {
      SubsetSize(s - {x}, t - {x});
    }
  }

  /** An injection of an index set into itself hits every index. */
  lemma PermutationHits(p: seq<nat>, n: nat, a: nat)
    requires IsPermutation(p, n) && a < n
    ensures exists i :: 0 <= i < n && p[i] == a
  {
    ImageSize(p);
    SubsetOfEqualSize(Image(p), Below(n));
    assert a in Image(p);
  }

  ghost function PositionOf(p: seq<nat>, n: nat, a: nat): (i: nat)
    requires IsPermutation(p, n) && a < n
    ensures i < n && p[i] == a
  {
    PermutationHits(p, n, a);
    var i :| 0 <= i < n && p[i] == a;
    i
  }

  ghost function Inverse(p: seq<nat>, n: nat): (q: seq<nat>)
    requires IsPermutation(p, n)
    ensures IsPermutation(q, n)
    ensures forall a :: 0 <= a < n ==> p[q[a]] == a
    ensures forall i :: 0 <= i < n ==> q[p[i]] == i
  {
    seq(n, a requires 0 <= a < n => PositionOf(p, n, a))
  }

  /** Apply q after p. */
  ghost function Compose(p: seq<nat>, q: seq<nat>, n: nat): (r: seq<nat>)
    requires IsPermutation(p, n) && IsPermutation(q, n)
    ensures IsPermutation(r, n)
    ensures forall i :: 0 <= i < n ==> r[i] == q[p[i]]
  {
    seq(n, i requires 0 <= i < n => q[p[i]])
  }

  ghost function Identity(n: nat): (p: seq<nat>)
    ensures IsPermutation(p, n)
    ensures forall i :: 0 <= i < n ==> p[i] == i
  {
    seq(n, i requires 0 <= i < n => i)
  }
}
