/** What the comparison of single values amounts to, said without the formulas that decide it. */
module GoldenLeaves {
  import opened GoldenModel
  import opened GoldenPaths
  import opened Reals
  import opened Text

  /** How far a and b are apart after some turns. */
  function Apart(a: real, b: real, turns: int): real {
    Abs(a - b + 360.0 * turns as real)
  }

  /** a and b differ by at most t, up to some whole number of turns. */
  ghost predicate WithinTurns(a: real, b: real, t: real) {
    exists turns: int :: Apart(a, b, turns) <= t
  }

  lemma FloorBounds(x: real)
    ensures x.Floor as real <= x < x.Floor as real + 1.0
  {
  }

  lemma TurnsOf(shifted: real, turns: int)
    requires turns as real <= shifted / 360.0 < turns as real + 1.0
    ensures 0.0 <= shifted - 360.0 * turns as real < 360.0
  {
    var q := shifted / 360.0;
    assert shifted == 360.0 * q;
  }

  /** The wrapped difference lies in [-180, 180) and is the difference up to a whole number of turns. */
  lemma WrappedExactly(a: real, b: real) returns (turns: int)
    ensures -180.0 <= WrappedDifference(a, b) < 180.0
    ensures WrappedDifference(a, b) == a - b + 360.0 * turns as real
  {
    var shifted := a - b + 180.0;
    turns := -(shifted / 360.0).Floor;
    FloorBounds(shifted / 360.0);
    TurnsOf(shifted, (shifted / 360.0).Floor);
    assert turns as real == -((shifted / 360.0).Floor as real);
  }

  /** Of all differences up to whole turns, the wrapped one is the smallest. */
  lemma WrappedIsSmallest(a: real, b: real, turns: int)
    ensures Abs(WrappedDifference(a, b)) <= Apart(a, b, turns)
  {
    var own := WrappedExactly(a, b);
    var k := turns - own;
    assert k as real == turns as real - own as real;
    var w, d := WrappedDifference(a, b), a - b + 360.0 * turns as real;
    assert d == w + 360.0 * k as real;
    if k >= 1 {
      assert k as real >= 1.0;
    } else if k <= -1 {
      assert k as real <= -1.0;
    }
  }

  lemma AnglesCloseExactly(a: real, b: real, t: real)
    ensures Abs(WrappedDifference(a, b)) <= t <==> WithinTurns(a, b, t)
  {
    if Abs(WrappedDifference(a, b)) <= t {
      var turns := WrappedExactly(a, b);
      assert Apart(a, b, turns) <= t;
    }
    if WithinTurns(a, b, t) {
      var turns: int :| Apart(a, b, turns) <= t;
      WrappedIsSmallest(a, b, turns);
    }
  }

  /** a and b differ by at most the absolute tolerance, or by at most the relative one of either. */
  ghost predicate Near(a: real, b: real, relative: real, absolute: real) {
    WithinSome(Abs(a - b), Abs(a), Abs(b), relative, absolute)
  }

  ghost predicate WithinSome(d: real, x: real, y: real, relative: real, absolute: real) {
    d <= absolute || d <= relative * x || d <= relative * y
  }

  lemma ScaledMax(relative: real, x: real, y: real)
    requires relative >= 0.0
    ensures relative * Max(x, y) == Max(relative * x, relative * y)
  {
    if x < y {
      assert relative * (y - x) >= 0.0;
      assert relative * y >= relative * x;
    } else {
      assert relative * (x - y) >= 0.0;
      assert relative * x >= relative * y;
    }
  }

  lemma WithinLarger(d: real, p: real, q: real, m: real, absolute: real)
    requires m == Max(p, q)
    ensures d <= Max(m, absolute) <==> d <= absolute || d <= p || d <= q
  {
  }

  lemma CloseToEither(d: real, x: real, y: real, relative: real, absolute: real)
    requires relative >= 0.0
    ensures d <= Max(relative * Max(x, y), absolute) <==> WithinSome(d, x, y, relative, absolute)
  {
    ScaledMax(relative, x, y);
    WithinLarger(d, relative * x, relative * y, relative * Max(x, y), absolute);
  }

  lemma IsCloseExactly(a: real, b: real, relative: real, absolute: real)
    requires relative >= 0.0
    ensures IsClose(a, b, relative, absolute) <==> Near(a, b, relative, absolute)
  {
    CloseToEither(Abs(a - b), Abs(a), Abs(b), relative, absolute);
  }

  /** The leaf names an angle, and nothing that must agree exactly. */
  ghost predicate NamesAngle(leaf: string) {
    && leaf !in EXACT_NUMERIC_FIELDS
    && (Includes(leaf, "angle") || exists prefix :: leaf == prefix + "_deg")
  }

  ghost predicate NamesArea(leaf: string) {
    Includes(leaf, "area") || exists prefix :: leaf == prefix + "_mm2"
  }

  lemma LeafNames(leaf: string)
    ensures leaf !in EXACT_NUMERIC_FIELDS ==>
      (NamesAngle(leaf) <==> Contains(leaf, "angle") || EndsWith(leaf, "_deg"))
    ensures NamesArea(leaf) <==> Contains(leaf, "area") || EndsWith(leaf, "_mm2")
  {
    ContainsExactly(leaf, "angle");
    ContainsExactly(leaf, "area");
    EndsWithExactly(leaf, "_deg");
    EndsWithExactly(leaf, "_mm2");
  }

  /** Two finite numbers, not both integers, under a leaf that allows a tolerance. */
  ghost predicate Tolerated(x: Json, y: Json, leaf: string, tolerance: ToleranceProfile) {
    && IsNumber(x) && IsNumber(y) && !(x.Int? && y.Int?) && leaf !in EXACT_NUMERIC_FIELDS
    && NumericValue(x).Finite? && NumericValue(y).Finite? && tolerance.relativeLength >= 0.0
  }

  /** Angles agree up to whole turns, areas and lengths absolutely or relatively. */
  ghost predicate AgreeWithin(x: Json, y: Json, leaf: string, t: ToleranceProfile)
    requires Tolerated(x, y, leaf, t)
  {
    var a, b := NumericValue(x).r, NumericValue(y).r;
    if NamesAngle(leaf) then WithinTurns(a, b, t.angularDeg)
    else if NamesArea(leaf) then Near(a, b, t.relativeLength, t.areaMm2)
    else Near(a, b, t.relativeLength, t.absoluteLengthMm)
  }

  lemma NumbersVerdict(x: Json, y: Json, leaf: string, config: Config)
    requires Tolerated(x, y, leaf, config.tolerance)
    ensures Matches(x, y, leaf, config) <==> AgreeWithin(x, y, leaf, config.tolerance)
  {
    var a, b, t := NumericValue(x).r, NumericValue(y).r, config.tolerance;
    LeafNames(leaf);
    AnglesCloseExactly(a, b, t.angularDeg);
    IsCloseExactly(a, b, t.relativeLength, t.areaMm2);
    IsCloseExactly(a, b, t.relativeLength, t.absoluteLengthMm);
  }

  /** Everything else that is not a pair of objects or of lists must be the same: texts and nulls literally; integers,
      infinities and exactly compared fields by their value; and outside numbers a Boolean counts as 0 or 1. */
  lemma ExactVerdict(x: Json, y: Json, leaf: string, config: Config)
    ensures x.Str? || y.Str? || x.Null? || y.Null? ==> (Matches(x, y, leaf, config) <==> x == y)
    ensures x.Int? && y.Int? ==> (Matches(x, y, leaf, config) <==> x.n == y.n)
    ensures x.Bool? && y.Bool? ==> (Matches(x, y, leaf, config) <==> x.b == y.b)
    ensures x.Bool? && y.Int? ==> (Matches(x, y, leaf, config) <==> y.n == if x.b then 1 else 0)
    ensures x.Int? && y.Bool? ==> (Matches(x, y, leaf, config) <==> x.n == if y.b then 1 else 0)
    ensures x.Bool? && y.Float? ==> (Matches(x, y, leaf, config) <==> y.f == Finite(if x.b then 1.0 else 0.0))
    ensures x.Float? && y.Bool? ==> (Matches(x, y, leaf, config) <==> x.f == Finite(if y.b then 1.0 else 0.0))
    ensures x.Float? && y.Float? && (!x.f.Finite? || !y.f.Finite?) ==>
      (Matches(x, y, leaf, config) <==> x.f == y.f && x.f != NaN)
    ensures x.Float? && y.Float? && leaf in EXACT_NUMERIC_FIELDS ==>
      (Matches(x, y, leaf, config) <==> x.f == y.f && x.f != NaN)
    ensures x.Int? && y.Float? && (leaf in EXACT_NUMERIC_FIELDS || !y.f.Finite?) ==>
      (Matches(x, y, leaf, config) <==> y.f == Finite(x.n as real))
    ensures x.Float? && y.Int? && (leaf in EXACT_NUMERIC_FIELDS || !x.f.Finite?) ==>
      (Matches(x, y, leaf, config) <==> x.f == Finite(y.n as real))
    ensures (x.Obj? && !y.Obj?) || (x.Arr? && !y.Arr?) || (y.Obj? && !x.Obj?) || (y.Arr? && !x.Arr?) ==>
      !Matches(x, y, leaf, config)
  {
  }

  const TRANSIENT_SUFFIXES: set<string> :=
    {"_at", "_timestamp", "_handle", "_handles", "_entity_ref", "_entity_refs"}

  /** A field is ignored exactly when its name, without regard to case, is configured or ends in a transient suffix. */
  lemma IgnoredExactly(key: string, config: Config)
    ensures IsIgnoredField(key, config) <==>
      || CaseFold(key) in config.ignoredFields
      || exists prefix, suffix :: suffix in TRANSIENT_SUFFIXES && CaseFold(key) == prefix + suffix
  {
    var lowered := CaseFold(key);
    assert IsIgnoredField(key, config) <==>
      lowered in config.ignoredFields || exists suffix :: suffix in TRANSIENT_SUFFIXES && EndsWith(lowered, suffix);
    forall suffix ensures EndsWith(lowered, suffix) <==> exists prefix :: lowered == prefix + suffix {
      EndsWithExactly(lowered, suffix);
    }
  }

  ghost predicate TextList(t: Json) {
    t.Arr? && forall x :: x in t.items ==> x.Str?
  }

  /** Under "evidence", two lists of texts agree whatever they hold, and anything else as it would elsewhere. */
  lemma EvidenceExactly(key: string, x: Json, y: Json, config: Config)
    requires !IsIgnoredField(key, config)
    ensures Matches(Obj(map[key := x]), Obj(map[key := y]), "evidence", config) <==>
      (TextList(x) && TextList(y)) || Matches(x, y, PathLeaf(key), config)
  {
    var e, a := map[key := x], map[key := y];
    assert Kept(e, config) == e && Kept(a, config) == a;
    assert ReferencesOnly(x, y) <==> TextList(x) && TextList(y);
  }
}
