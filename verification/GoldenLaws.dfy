/** Laws of the match verdict: symmetry, blindness to order and to transient fields, and self-agreement. */
module GoldenLaws {
  import opened GoldenModel
  import opened GoldenPaths
  import opened Permutations
  import opened Reals

  lemma WrappedDifferenceSymmetric(a: real, b: real)
    ensures Abs(WrappedDifference(a, b)) == Abs(WrappedDifference(b, a))
  {
    var x, y := (a - b + 180.0) / 360.0, (b - a + 180.0) / 360.0;
    assert x + y == 1.0;
    assert if x == x.Floor as real then y.Floor == 1 - x.Floor else y.Floor == -x.Floor;
  }

  lemma IsCloseSymmetric(a: real, b: real, relative: real, absolute: real)
    ensures IsClose(a, b, relative, absolute) <==> IsClose(b, a, relative, absolute)
  {
    assert Max(Abs(a), Abs(b)) == Max(Abs(b), Abs(a));
    assert Abs(a - b) == Abs(b - a);
  }

  lemma NumbersCloseSymmetric(x: Json, y: Json, leaf: string, tolerance: ToleranceProfile)
    requires IsNumber(x) && IsNumber(y)
    ensures NumbersClose(x, y, leaf, tolerance) <==> NumbersClose(y, x, leaf, tolerance)
  {
    var u, v := NumericValue(x), NumericValue(y);
    if u.Finite? && v.Finite? {
      WrappedDifferenceSymmetric(u.r, v.r);
      IsCloseSymmetric(u.r, v.r, tolerance.relativeLength, tolerance.areaMm2);
      IsCloseSymmetric(u.r, v.r, tolerance.relativeLength, tolerance.absoluteLengthMm);
    }
  }

  /** Swapping the expected and the actual tree never changes the verdict. */
  lemma MatchSymmetric(e: Json, a: Json, leaf: string, config: Config)
    ensures Matches(e, a, leaf, config) <==> Matches(a, e, leaf, config)
  {
    if Matches(e, a, leaf, config) {
      MatchReverses(e, a, leaf, config);
    }
    if Matches(a, e, leaf, config) {
      MatchReverses(a, e, leaf, config);
    }
  }

  lemma {:induction false} MatchReverses(e: Json, a: Json, leaf: string, config: Config)
    requires Matches(e, a, leaf, config)
    ensures Matches(a, e, leaf, config)
    decreases e
  {
    if e.Obj? && a.Obj? {
      var ef, af := Kept(e.fields, config), Kept(a.fields, config);
      forall k | k in ef && Matches(ef[k], af[k], PathLeaf(k), config)
        ensures Matches(af[k], ef[k], PathLeaf(k), config)
      {
        MatchReverses(ef[k], af[k], PathLeaf(k), config);
      }
    } else if e.Arr? && a.Arr? {
      var n := |e.items|;
      if leaf in ORDER_INSENSITIVE_COLLECTIONS {
        var p := PairingFor(e, a, leaf, config);
        var q := Inverse(p, n);
        forall j | 0 <= j < n ensures Matches(a.items[j], e.items[q[j]], leaf, config) {
          MatchReverses(e.items[q[j]], a.items[j], leaf, config);
        }
      } else {
        forall i | 0 <= i < n ensures Matches(a.items[i], e.items[i], leaf, config) {
          MatchReverses(e.items[i], a.items[i], leaf, config);
        }
      }
    } else if IsNumber(e) && IsNumber(a) {
      NumbersCloseSymmetric(e, a, leaf, config.tolerance);
    }
  }

  /** u is t with order-insensitive collections reordered, ignored fields added, dropped or altered, and
      evidence references replaced, all at any depth. */
  ghost predicate Rearranged(t: Json, u: Json, leaf: string, config: Config)
    decreases t
  {
    if t.Obj? && u.Obj? then
      var f, g := Kept(t.fields, config), Kept(u.fields, config);
      && f.Keys == g.Keys
      && forall k :: k in f ==>
           || (leaf == "evidence" && ReferencesOnly(f[k], g[k]))
           || Rearranged(f[k], g[k], PathLeaf(k), config)
    else if t.Arr? && u.Arr? then
      var n := |t.items|;
      && |u.items| == n
      && if leaf in ORDER_INSENSITIVE_COLLECTIONS then
           exists p :: IsPermutation(p, n)
             && forall i :: 0 <= i < n ==> Rearranged(t.items[i], u.items[p[i]], leaf, config)
         else
           forall i :: 0 <= i < n ==> Rearranged(t.items[i], u.items[i], leaf, config)
    else
      t == u
  }

  lemma RearrangementFor(t: Json, u: Json, leaf: string, config: Config) returns (p: seq<nat>)
    requires t.Arr? && u.Arr? && leaf in ORDER_INSENSITIVE_COLLECTIONS
    requires Rearranged(t, u, leaf, config)
    ensures IsPermutation(p, |t.items|) && |u.items| == |t.items|
    ensures forall i :: 0 <= i < |t.items| ==> Rearranged(t.items[i], u.items[p[i]], leaf, config)
  {
    var n := |t.items|;
    p :| IsPermutation(p, n) && forall i :: 0 <= i < n ==> Rearranged(t.items[i], u.items[p[i]], leaf, config);
  }

  lemma {:induction false} RearrangedReverses(t: Json, u: Json, leaf: string, config: Config)
    requires Rearranged(t, u, leaf, config)
    ensures Rearranged(u, t, leaf, config)
    decreases t
  {
    if t.Obj? && u.Obj? {
      var f, g := Kept(t.fields, config), Kept(u.fields, config);
      forall k | k in f && Rearranged(f[k], g[k], PathLeaf(k), config)
        ensures Rearranged(g[k], f[k], PathLeaf(k), config)
      {
        RearrangedReverses(f[k], g[k], PathLeaf(k), config);
      }
    } else if t.Arr? && u.Arr? {
      var n := |t.items|;
      if leaf in ORDER_INSENSITIVE_COLLECTIONS {
        var p := RearrangementFor(t, u, leaf, config);
        var q := Inverse(p, n);
        forall j | 0 <= j < n ensures Rearranged(u.items[j], t.items[q[j]], leaf, config) {
          RearrangedReverses(t.items[q[j]], u.items[j], leaf, config);
        }
      } else {
        forall i | 0 <= i < n ensures Rearranged(u.items[i], t.items[i], leaf, config) {
          RearrangedReverses(t.items[i], u.items[i], leaf, config);
        }
      }
    }
  }

  ghost predicate AllStrings(t: Json) {
    t.Arr? && forall i :: 0 <= i < |t.items| ==> t.items[i].Str?
  }

  /** A list of strings only matches lists of strings. */
  lemma StringsMatchStrings(t: Json, u: Json, leaf: string, config: Config)
    requires AllStrings(t) && Matches(t, u, leaf, config)
    ensures AllStrings(u)
  {
    var n := |t.items|;
    if leaf in ORDER_INSENSITIVE_COLLECTIONS {
      var p := PairingFor(t, u, leaf, config);
      forall j | 0 <= j < n ensures u.items[j].Str? {
        PermutationHits(p, n, j);
      }
    }
  }

  lemma StringsRearrangeToStrings(t: Json, u: Json, leaf: string, config: Config)
    requires AllStrings(t) && Rearranged(t, u, leaf, config)
    ensures AllStrings(u)
  {
    var n := |t.items|;
    if u.Arr? && leaf in ORDER_INSENSITIVE_COLLECTIONS {
      var p := RearrangementFor(t, u, leaf, config);
      forall j | 0 <= j < n ensures u.items[j].Str? {
        PermutationHits(p, n, j);
      }
    }
  }

  lemma {:induction false} RearrangedStillMatches(t: Json, u: Json, a: Json, leaf: string, config: Config)
    requires Rearranged(t, u, leaf, config) && Matches(t, a, leaf, config)
    ensures Matches(u, a, leaf, config)
    decreases t
  {
    if t.Obj? && u.Obj? && a.Obj? {
      MatchesFields(t, a, leaf, config);
      MatchesFields(u, a, leaf, config);
      var f, g, h := Kept(t.fields, config), Kept(u.fields, config), Kept(a.fields, config);
      forall k | k in g.Keys + h.Keys ensures FieldMatches(g, h, k, leaf, config) {
        assert FieldMatches(f, h, k, leaf, config) by { assert k in f.Keys + h.Keys; }
        if leaf == "evidence" && ReferencesOnly(f[k], h[k]) {
          if !ReferencesOnly(f[k], g[k]) {
            StringsRearrangeToStrings(f[k], g[k], PathLeaf(k), config);
          }
        } else if leaf == "evidence" && ReferencesOnly(f[k], g[k]) {
          StringsMatchStrings(f[k], h[k], PathLeaf(k), config);
        } else {
          RearrangedStillMatches(f[k], g[k], h[k], PathLeaf(k), config);
        }
      }
    } else if t.Arr? && u.Arr? && a.Arr? {
      RearrangedItemsStillMatch(t, u, a, leaf, config);
    }
  }

  lemma {:induction false} RearrangedItemsStillMatch(t: Json, u: Json, a: Json, leaf: string, config: Config)
    requires t.Arr? && u.Arr? && a.Arr?
    requires Rearranged(t, u, leaf, config) && Matches(t, a, leaf, config)
    ensures Matches(u, a, leaf, config)
    decreases t, 0
  {
    var n := |t.items|;
    if leaf in ORDER_INSENSITIVE_COLLECTIONS {
      var p := RearrangementFor(t, u, leaf, config);
      var q := PairingFor(t, a, leaf, config);
      var back := Inverse(p, n);
      var r := Compose(back, q, n);
      forall j | 0 <= j < n ensures Matches(u.items[j], a.items[r[j]], leaf, config) {
        RearrangedStillMatches(t.items[back[j]], u.items[j], a.items[r[j]], leaf, config);
      }
    } else {
      forall i | 0 <= i < n ensures Matches(u.items[i], a.items[i], leaf, config) {
        RearrangedStillMatches(t.items[i], u.items[i], a.items[i], leaf, config);
      }
    }
  }

  /** The verdict cannot see a rearrangement of either tree. */
  lemma RearrangementInvisible(e: Json, e': Json, a: Json, a': Json, leaf: string, config: Config)
    requires Rearranged(e, e', leaf, config) && Rearranged(a, a', leaf, config)
    ensures Matches(e, a, leaf, config) <==> Matches(e', a', leaf, config)
  {
    RearrangedReverses(e, e', leaf, config);
    RearrangedReverses(a, a', leaf, config);
    if Matches(e, a, leaf, config) {
      RearrangedStillMatches(e, e', a, leaf, config);
      MatchReverses(e', a, leaf, config);
      RearrangedStillMatches(a, a', e', leaf, config);
      MatchReverses(a', e', leaf, config);
    }
    if Matches(e', a', leaf, config) {
      RearrangedStillMatches(e', e, a', leaf, config);
      MatchReverses(e, a', leaf, config);
      RearrangedStillMatches(a', a, e, leaf, config);
      MatchReverses(a, e, leaf, config);
    }
  }

  /** Remove every ignored field at every depth. */
  function Erase(t: Json, config: Config): Json {
    match t
    case Obj(fields) => Obj(map k | k in fields && !IsIgnoredField(k, config) :: Erase(fields[k], config))
    case Arr(items) => Arr(seq(|items|, i requires 0 <= i < |items| => Erase(items[i], config)))
    case _ => t
  }

  lemma {:induction false} ErasureRearranges(t: Json, leaf: string, config: Config)
    ensures Rearranged(t, Erase(t, config), leaf, config)
    decreases t
  {
    var u := Erase(t, config);
    if t.Obj? {
      var f, g := Kept(t.fields, config), Kept(u.fields, config);
      forall k | k in f ensures g[k] == Erase(f[k], config) && Rearranged(f[k], g[k], PathLeaf(k), config) {
        ErasureRearranges(f[k], PathLeaf(k), config);
      }
    } else if t.Arr? {
      var n := |t.items|;
      forall i | 0 <= i < n ensures Rearranged(t.items[i], u.items[i], leaf, config) {
        ErasureRearranges(t.items[i], leaf, config);
      }
      var p := Identity(n);
      assert forall i :: 0 <= i < n ==> Rearranged(t.items[i], u.items[p[i]], leaf, config);
    }
  }

  /** Handles, references and timestamps carry no weight: erasing them from both trees keeps the verdict. */
  lemma ErasureInvisible(e: Json, a: Json, leaf: string, config: Config)
    ensures Matches(e, a, leaf, config) <==> Matches(Erase(e, config), Erase(a, config), leaf, config)
  {
    ErasureRearranges(e, leaf, config);
    ErasureRearranges(a, leaf, config);
    RearrangementInvisible(e, Erase(e, config), a, Erase(a, config), leaf, config);
  }

  /** No compared position holds a NaN. */
  ghost predicate NanFree(t: Json, config: Config)
    decreases t
  {
    match t
    case Float(f) => f != NaN
    case Arr(items) => forall i :: 0 <= i < |items| ==> NanFree(items[i], config)
    case Obj(fields) => forall k :: k in fields && !IsIgnoredField(k, config) ==> NanFree(fields[k], config)
    case _ => true
  }

  predicate NonNegative(tolerance: ToleranceProfile) {
    && tolerance.absoluteLengthMm >= 0.0 && tolerance.relativeLength >= 0.0
    && tolerance.angularDeg >= 0.0 && tolerance.areaMm2 >= 0.0
  }

  lemma {:induction false} MatchedTreesAreNanFree(t: Json, u: Json, leaf: string, config: Config)
    requires Matches(t, u, leaf, config)
    ensures NanFree(t, config)
    decreases t
  {
    if t.Obj? && u.Obj? {
      var f, g := Kept(t.fields, config), Kept(u.fields, config);
      forall k | k in f ensures NanFree(f[k], config) {
        if !ReferencesOnly(f[k], g[k]) {
          MatchedTreesAreNanFree(f[k], g[k], PathLeaf(k), config);
        }
      }
      forall k | k in t.fields && !IsIgnoredField(k, config) ensures NanFree(t.fields[k], config) {
        assert f[k] == t.fields[k];
      }
    } else if t.Arr? && u.Arr? {
      var p := if leaf in ORDER_INSENSITIVE_COLLECTIONS then PairingFor(t, u, leaf, config)
               else Identity(|t.items|);
      forall i | 0 <= i < |t.items| ensures NanFree(t.items[i], config) {
        MatchedTreesAreNanFree(t.items[i], u.items[p[i]], leaf, config);
      }
    }
  }

  lemma NumberMatchesItself(x: Json, leaf: string, config: Config)
    requires IsNumber(x) && NonNegative(config.tolerance) && NanFree(x, config)
    ensures NumbersClose(x, x, leaf, config.tolerance)
  {
    var v := NumericValue(x);
    if v.Finite? {
      assert WrappedDifference(v.r, v.r) == 0.0;
      assert config.tolerance.relativeLength * Max(Abs(v.r), Abs(v.r)) >= 0.0;
    }
  }

  /** A tree agrees with itself, however rearranged, exactly when no compared value is NaN. */
  lemma {:induction false} RearrangementMatches(t: Json, u: Json, leaf: string, config: Config)
    requires NonNegative(config.tolerance) && Rearranged(t, u, leaf, config)
    ensures Matches(t, u, leaf, config) <==> NanFree(t, config)
    decreases t
  {
    if Matches(t, u, leaf, config) {
      MatchedTreesAreNanFree(t, u, leaf, config);
    }
    if NanFree(t, config) {
      if t.Obj? && u.Obj? {
        var f, g := Kept(t.fields, config), Kept(u.fields, config);
        forall k | k in f && Rearranged(f[k], g[k], PathLeaf(k), config)
          ensures Matches(f[k], g[k], PathLeaf(k), config)
        {
          RearrangementMatches(f[k], g[k], PathLeaf(k), config);
        }
      } else if t.Arr? && u.Arr? {
        RearrangedItemsMatch(t, u, leaf, config);
      } else if IsNumber(t) {
        NumberMatchesItself(t, leaf, config);
      }
    }
  }

  lemma {:induction false} RearrangedItemsMatch(t: Json, u: Json, leaf: string, config: Config)
    requires NonNegative(config.tolerance) && t.Arr? && u.Arr?
    requires Rearranged(t, u, leaf, config) && NanFree(t, config)
    ensures Matches(t, u, leaf, config)
    decreases t, 0
  {
    var n := |t.items|;
    if leaf in ORDER_INSENSITIVE_COLLECTIONS {
      var p := RearrangementFor(t, u, leaf, config);
      forall i | 0 <= i < n ensures Matches(t.items[i], u.items[p[i]], leaf, config) {
        RearrangementMatches(t.items[i], u.items[p[i]], leaf, config);
      }
    } else {
      forall i | 0 <= i < n ensures Matches(t.items[i], u.items[i], leaf, config) {
        RearrangementMatches(t.items[i], u.items[i], leaf, config);
      }
    }
  }
}
