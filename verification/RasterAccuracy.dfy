/** Accuracy samples of a raster case: their errors, and when the aggregate claims about them are accepted.
    Distances are carried as squares, so that every comparison with a root is exact. */
module RasterAccuracy {
  import opened GoldenModel
  import opened Options
  import opened Reals
  import Shoelace

  datatype Binding = Binding(candidate: string, entity: string, kind: string, unit: string, key: string)

  datatype AccuracyError =
    | AccuracySourceMismatch | AccuracySamplesInvalid | AccuracySampleBindingDuplicate
    | AccuracyAggregateMismatch | AccuracyMetricsInvalid | AccuracyThresholdFailed

  const MIN_ACCURACY_SAMPLES := 4
  const GEOMETRY_KINDS: set<string> := {"line", "circle", "arc", "closed_polyline"}
  const SAMPLE_KEYS: set<string> :=
    {"sample_id", "candidate_ref", "entity_ref", "geometry_kind", "unit", "source_sha256",
     "kind", "measurement_key", "expected_mm", "observed_mm"}

  predicate IsAlphanumeric(c: char) {
    'A' <= c <= 'Z' || 'a' <= c <= 'z' || '0' <= c <= '9'
  }

  predicate SafeId(j: Json) {
    && j.Str? && 1 <= |j.s| <= 80 && IsAlphanumeric(j.s[0])
    && forall i :: 0 <= i < |j.s| ==> IsAlphanumeric(j.s[i]) || j.s[i] == '_' || j.s[i] == '.' || j.s[i] == '-'
  }

  predicate IsBlank(c: char) {
    c == ' ' || '\t' <= c <= '\r'
  }

  predicate NonEmpty(j: Json) {
    j.Str? && exists i :: 0 <= i < |j.s| && !IsBlank(j.s[i])
  }

  predicate FiniteNumber(j: Json) {
    j.Int? || (j.Float? && j.f.Finite?)
  }

  function Number(j: Json): real
    requires FiniteNumber(j)
  {
    NumericValue(j).r
  }

  predicate FinitePoint(j: Json) {
    j.Arr? && |j.items| == 2 && FiniteNumber(j.items[0]) && FiniteNumber(j.items[1])
  }

  predicate IsGeometryKind(j: Json) {
    j.Str? && j.s in GEOMETRY_KINDS
  }

  /** The squared distance of two finite points. */
  function PointGap(p: Json, q: Json): real
    requires FinitePoint(p) && FinitePoint(q)
  {
    Square(Number(q.items[0]) - Number(p.items[0])) + Square(Number(q.items[1]) - Number(p.items[1]))
  }

  predicate SampleWellFormed(sample: Json, source: Json, accepted: set<string>) {
    && sample.Obj? && sample.fields.Keys == SAMPLE_KEYS
    && SafeId(Get(sample, "sample_id"))
    && Get(sample, "candidate_ref").Str? && Get(sample, "candidate_ref").s in accepted
    && NonEmpty(Get(sample, "entity_ref"))
    && SafeId(Get(sample, "measurement_key"))
    && IsGeometryKind(Get(sample, "geometry_kind"))
    && Get(sample, "unit") == Str("mm")
    && Get(sample, "source_sha256") == source
  }

  predicate ScalarSample(sample: Json) {
    var kind, expected, observed := Get(sample, "kind"), Get(sample, "expected_mm"), Get(sample, "observed_mm");
    && (kind == Str("scalar") || kind == Str("length"))
    && FiniteNumber(expected) && FiniteNumber(observed)
    && Number(expected) >= 0.0 && Number(observed) >= 0.0
  }

  predicate PointSample(sample: Json) {
    var expected, observed := Get(sample, "expected_mm"), Get(sample, "observed_mm");
    && Get(sample, "kind") == Str("point")
    && FinitePoint(expected) && FinitePoint(observed)
    && (forall i :: 0 <= i < 2 ==> Number(expected.items[i]) >= 0.0 && Number(observed.items[i]) >= 0.0)
  }

  function SampleBinding(sample: Json): Binding
    requires Get(sample, "candidate_ref").Str? && Get(sample, "entity_ref").Str?
    requires Get(sample, "geometry_kind").Str? && Get(sample, "measurement_key").Str?
  {
    Binding(Get(sample, "candidate_ref").s, Get(sample, "entity_ref").s, Get(sample, "geometry_kind").s, "mm",
            Get(sample, "measurement_key").s)
  }

  datatype SampleResult = SampleResult(squaredError: real, binding: Binding)

  function SampleError(sample: Json, source: Json, accepted: set<string>): Option<SampleResult> {
    if !SampleWellFormed(sample, source, accepted) then None
    else
      var expected, observed := Get(sample, "expected_mm"), Get(sample, "observed_mm");
      if ScalarSample(sample) then
        Some(SampleResult(Square(Number(observed) - Number(expected)), SampleBinding(sample)))
      else if PointSample(sample) then
        Some(SampleResult(PointGap(expected, observed), SampleBinding(sample)))
      else None
  }

  function Sum(xs: seq<real>): real {
    if xs == [] then 0.0 else Sum(xs[..|xs| - 1]) + xs[|xs| - 1]
  }

  function Maximum(xs: seq<real>): (m: real)
    requires xs != []
    ensures m in xs
    ensures forall i :: 0 <= i < |xs| ==> xs[i] <= m
  {
    if |xs| == 1 then xs[0]
    else
      var front := Maximum(xs[..|xs| - 1]);
      assert forall i :: 0 <= i < |xs| - 1 ==> xs[i] == xs[..|xs| - 1][i];
      if front < xs[|xs| - 1] then xs[|xs| - 1] else front
  }

  function Mean(xs: seq<real>): real
    requires xs != []
  {
    Sum(xs) / |xs| as real
  }

  /** The root of `squared` exceeds the bound. */
  predicate RootExceeds(squared: real, bound: real) {
    bound < 0.0 || squared > bound * bound
  }

  /** x lies within the metric epsilon of the root of `squared`. */
  predicate NearRoot(x: real, squared: real) {
    && !RootExceeds(squared, x + Shoelace.METRIC_EPSILON)
    && (x - Shoelace.METRIC_EPSILON <= 0.0 || Square(x - Shoelace.METRIC_EPSILON) <= squared)
  }

  lemma {:induction false} SumBounded(xs: seq<real>, bound: real)
    requires forall i :: 0 <= i < |xs| ==> xs[i] <= bound
    ensures Sum(xs) <= |xs| as real * bound
  {
    if xs != [] {
      SumBounded(xs[..|xs| - 1], bound);
      assert (|xs| - 1) as real * bound + bound == |xs| as real * bound;
    }
  }

  lemma MeanBounded(xs: seq<real>, bound: real)
    requires xs != [] && forall i :: 0 <= i < |xs| ==> xs[i] <= bound
    ensures Mean(xs) <= bound
  {
    SumBounded(xs, bound);
    Divided(Sum(xs), |xs| as real, bound);
  }

  /** The root mean square never exceeds the maximum, so its threshold follows from the maximum's. */
  lemma RmseWithinMaximum(squares: seq<real>, tolerance: real)
    requires squares != []
    ensures Mean(squares) <= Maximum(squares)
    ensures !RootExceeds(Maximum(squares), tolerance) ==> !RootExceeds(Mean(squares), tolerance)
  {
    MeanBounded(squares, Maximum(squares));
    RootMonotone(Mean(squares), Maximum(squares), tolerance);
  }

  lemma RootMonotone(x: real, y: real, bound: real)
    requires x <= y
    ensures !RootExceeds(y, bound) ==> !RootExceeds(x, bound)
  {
  }

  lemma Divided(x: real, n: real, m: real)
    requires n > 0.0 && x <= n * m
    ensures x / n <= m
  {
    var q := x / n;
    assert q * n == x;
    assert (q - m) * n <= 0.0;
  }

  ghost predicate Distinct<T>(xs: seq<T>) {
    forall i, j :: 0 <= i < j < |xs| ==> xs[i] != xs[j]
  }

  /** A list of length n with n distinct members has no repetition. */
  lemma {:induction false} DistinctByCount<T>(xs: seq<T>)
    ensures |set x | x in xs| == |xs| <==> Distinct(xs)
    ensures |set x | x in xs| <= |xs|
  {
    if xs != [] {
      var front, last := xs[..|xs| - 1], xs[|xs| - 1];
      DistinctByCount(front);
      var members := set x | x in front;
      assert xs == front + [last];
      DistinctAppend(front, last);
      assert (set x | x in xs) == members + {last};
      if last in members {
        assert members + {last} == members;
      }
    }
  }

  lemma DistinctAppend<T>(xs: seq<T>, x: T)
    ensures Distinct(xs + [x]) <==> Distinct(xs) && x !in xs
  {
    var all := xs + [x];
    assert all[|xs|] == x && forall i :: 0 <= i < |xs| ==> all[i] == xs[i];
    if x in xs {
      var i :| 0 <= i < |xs| && xs[i] == x;
      assert all[i] == all[|xs|];
    }
  }

  function Results(samples: seq<Json>, source: Json, accepted: set<string>): seq<Option<SampleResult>> {
    seq(|samples|, i requires 0 <= i < |samples| => SampleError(samples[i], source, accepted))
  }

  predicate AllSampled(results: seq<Option<SampleResult>>) {
    forall i :: 0 <= i < |results| ==> results[i].Some?
  }

  function SquaredErrors(results: seq<Option<SampleResult>>): seq<real>
    requires AllSampled(results)
  {
    seq(|results|, i requires 0 <= i < |results| && results[i].Some? => results[i].value.squaredError)
  }

  function Bindings(results: seq<Option<SampleResult>>): seq<Binding>
    requires AllSampled(results)
  {
    seq(|results|, i requires 0 <= i < |results| && results[i].Some? => results[i].value.binding)
  }

  /** The claimed count, maximum and root mean square agree with the recomputed ones. */
  predicate AggregateMatches(accuracy: Json, squares: seq<real>)
    requires squares != []
  {
    var maximum, rmse := Get(accuracy, "maximum_error_mm"), Get(accuracy, "rmse_mm");
    && ValuesEqual(Get(accuracy, "sample_count"), Int(|squares|))
    && FiniteNumber(maximum) && FiniteNumber(rmse)
    && NearRoot(Number(maximum), Maximum(squares))
    && NearRoot(Number(rmse), Mean(squares))
  }

  /** The claims about the errors are right, and every single error is within tolerance. */
  ghost predicate MetricsHold(accuracy: Json, squares: seq<real>)
    requires squares != []
  {
    var tolerance := Get(accuracy, "tolerance_mm");
    && AggregateMatches(accuracy, squares)
    && FiniteNumber(tolerance) && Number(tolerance) > 0.0
    && forall i :: 0 <= i < |squares| ==> squares[i] <= Square(Number(tolerance))
  }

  /** Samples have distinct ids and distinct bindings, which cover exactly the accepted candidates. */
  ghost predicate SamplesCover(ids: seq<Json>, bindings: seq<Binding>, accepted: set<string>) {
    && Distinct(ids) && Distinct(bindings)
    && (set b | b in bindings :: b.candidate) == accepted
  }

  /** Python's `==` on JSON values. */
  predicate DeepEqual(x: Json, y: Json)
    decreases x
  {
    if x.Arr? && y.Arr? then
      |x.items| == |y.items| && forall i :: 0 <= i < |x.items| ==> DeepEqual(x.items[i], y.items[i])
    else if x.Obj? && y.Obj? then
      x.fields.Keys == y.fields.Keys && forall k :: k in x.fields ==> DeepEqual(x.fields[k], y.fields[k])
    else
      ValuesEqual(x, y)
  }

  const CLAIMED_FIELDS: set<string> :=
    {"source_sha256", "calculated_by", "reviewed_by", "samples", "sample_count", "tolerance_mm",
     "maximum_error_mm", "rmse_mm"}

  /** The artifact was readable and repeats every claim. */
  predicate ClaimsMatch(artifact: Option<Json>, claims: Json) {
    artifact.Some? && forall field :: field in CLAIMED_FIELDS ==> DeepEqual(Get(artifact.value, field), Get(claims,
        field))
  }

  /** What an accepted accuracy section means. No condition on the root mean square threshold is needed. */
  ghost predicate AccuracyHolds(accuracy: Json, artifact: Option<Json>, expectedSource: string,
                                accepted: set<string>) {
    var source, samples := Get(accuracy, "source_sha256"), Get(accuracy, "samples");
    && ClaimsMatch(artifact, accuracy) && source == Str(expectedSource)
    && samples.Arr? && |samples.items| >= MIN_ACCURACY_SAMPLES
    && var results := Results(samples.items, source, accepted);
    && AllSampled(results)
    && SamplesCover(Ids(samples.items), Bindings(results), accepted)
    && MetricsHold(accuracy, SquaredErrors(results))
  }

  function Ids(samples: seq<Json>): seq<Json> {
    seq(|samples|, i requires 0 <= i < |samples| => Get(samples[i], "sample_id"))
  }

  method ValidateAccuracy(accuracy: Json, artifact: Option<Json>, expectedSource: string, accepted: set<string>)
    returns (errors: seq<AccuracyError>)
    requires accuracy.Obj?
    ensures errors == [] <==> AccuracyHolds(accuracy, artifact, expectedSource, accepted)
  {
    errors := [];
    var source, samples := Get(accuracy, "source_sha256"), Get(accuracy, "samples");
    if !ClaimsMatch(artifact, accuracy) || source != Str(expectedSource) {
      errors := errors + [AccuracySourceMismatch];
    }
    var items := if samples.Arr? then samples.items else [];
    var results := Results(items, source, accepted);
    if !samples.Arr? || |items| < MIN_ACCURACY_SAMPLES || !AllSampled(results) {
      errors := errors + [AccuracySamplesInvalid];
      return;
    }
    var covered := CheckBindings(Ids(items), Bindings(results), accepted);
    if !covered {
      errors := errors + [AccuracySampleBindingDuplicate];
    }
    var metricErrors := CheckMetrics(accuracy, SquaredErrors(results));
    errors := errors + metricErrors;
  }

  method CheckBindings(ids: seq<Json>, bindings: seq<Binding>, accepted: set<string>) returns (covered: bool)
    ensures covered <==> SamplesCover(ids, bindings, accepted)
  {
    DistinctByCount(ids);
    DistinctByCount(bindings);
    covered := |set x | x in ids| == |ids| && |set b | b in bindings| == |bindings|
               && (set b | b in bindings :: b.candidate) == accepted;
  }

  method CheckMetrics(accuracy: Json, squares: seq<real>) returns (errors: seq<AccuracyError>)
    requires squares != []
    ensures errors == [] <==> MetricsHold(accuracy, squares)
  {
    errors := [];
    if !AggregateMatches(accuracy, squares) {
      errors := errors + [AccuracyAggregateMismatch];
    }
    var tolerance := Get(accuracy, "tolerance_mm");
    if !FiniteNumber(tolerance) || Number(tolerance) <= 0.0 {
      errors := errors + [AccuracyMetricsInvalid];
    } else {
      var largest, mean := Maximum(squares), Mean(squares);
      ThresholdMeansEach(squares, Number(tolerance));
      if RootExceeds(largest, Number(tolerance)) || RootExceeds(mean, Number(tolerance)) {
        errors := errors + [AccuracyThresholdFailed];
      }
    }
  }

  /** Both thresholds hold exactly when every single error is within tolerance. */
  lemma ThresholdMeansEach(squares: seq<real>, tolerance: real)
    requires squares != [] && tolerance > 0.0
    ensures !(RootExceeds(Maximum(squares), tolerance) || RootExceeds(Mean(squares), tolerance))
            <==> forall i :: 0 <= i < |squares| ==> squares[i] <= Square(tolerance)
  {
    RmseWithinMaximum(squares, tolerance);
  }

  /** The sum is additive, and that of one number is the number. */
  lemma {:induction false} SumSplits(xs: seq<real>, ys: seq<real>)
    ensures Sum(xs + ys) == Sum(xs) + Sum(ys)
    ensures forall x :: Sum([x]) == x
    decreases |ys|
  {
    forall x ensures Sum([x]) == x {
      assert [x][..0] == [];
    }
    if ys == [] {
      assert xs + ys == xs;
    } else {
      var all := xs + ys;
      SumSplits(xs, ys[..|ys| - 1]);
      assert all[..|all| - 1] == xs + ys[..|ys| - 1];
    }
  }

  lemma SquaresOrdered(x: real, y: real)
    requires x >= 0.0 && y >= 0.0
    ensures Square(x) <= Square(y) <==> x <= y
  {
    var d := y - x;
    assert Square(y) - Square(x) == d * (x + y);
    if d > 0.0 {
      assert d * (x + y) >= 0.0;
    } else if d < 0.0 {
      assert (-d) * (x + y) > 0.0;
    }
  }

  /** A claim is near the root of a square exactly when it lies within the metric epsilon of the root. */
  lemma NearRootExactly(x: real, root: real)
    requires root >= 0.0
    ensures NearRoot(x, Square(root)) <==> -Shoelace.METRIC_EPSILON <= x - root <= Shoelace.METRIC_EPSILON
  {
    var above, below := x + Shoelace.METRIC_EPSILON, x - Shoelace.METRIC_EPSILON;
    if above >= 0.0 { SquaresOrdered(root, above); }
    if below >= 0.0 { SquaresOrdered(below, root); }
  }

  /** With the largest error m and the root mean square r, the metrics are accepted exactly when the count is right,
      the claimed maximum lies within the metric epsilon of m and the claimed root mean square within that of r, and
      m is at most the tolerance. */
  lemma MetricsExactly(accuracy: Json, squares: seq<real>, m: real, r: real)
    requires squares != [] && m >= 0.0 && r >= 0.0 && Square(m) == Maximum(squares) && Square(r) == Mean(squares)
    ensures var maximum, rmse, tolerance := Get(accuracy, "maximum_error_mm"), Get(accuracy, "rmse_mm"),
                                            Get(accuracy, "tolerance_mm");
      MetricsHold(accuracy, squares) <==>
        && ValuesEqual(Get(accuracy, "sample_count"), Int(|squares|))
        && FiniteNumber(maximum) && FiniteNumber(rmse) && FiniteNumber(tolerance)
        && -Shoelace.METRIC_EPSILON <= Number(maximum) - m <= Shoelace.METRIC_EPSILON
        && -Shoelace.METRIC_EPSILON <= Number(rmse) - r <= Shoelace.METRIC_EPSILON
        && Number(tolerance) > 0.0 && m <= Number(tolerance)
  {
    AggregateExactly(accuracy, squares, m, r);
    var tolerance := Get(accuracy, "tolerance_mm");
    if FiniteNumber(tolerance) && Number(tolerance) > 0.0 {
      WithinTolerance(squares, m, Number(tolerance));
    }
  }

  lemma AggregateExactly(accuracy: Json, squares: seq<real>, m: real, r: real)
    requires squares != [] && m >= 0.0 && r >= 0.0 && Square(m) == Maximum(squares) && Square(r) == Mean(squares)
    ensures var maximum, rmse := Get(accuracy, "maximum_error_mm"), Get(accuracy, "rmse_mm");
      AggregateMatches(accuracy, squares) <==>
        && ValuesEqual(Get(accuracy, "sample_count"), Int(|squares|))
        && FiniteNumber(maximum) && FiniteNumber(rmse)
        && -Shoelace.METRIC_EPSILON <= Number(maximum) - m <= Shoelace.METRIC_EPSILON
        && -Shoelace.METRIC_EPSILON <= Number(rmse) - r <= Shoelace.METRIC_EPSILON
  {
    var maximum, rmse := Get(accuracy, "maximum_error_mm"), Get(accuracy, "rmse_mm");
    if FiniteNumber(maximum) { NearRootOf(Number(maximum), m, Maximum(squares)); }
    if FiniteNumber(rmse) { NearRootOf(Number(rmse), r, Mean(squares)); }
  }

  lemma NearRootOf(x: real, root: real, squared: real)
    requires root >= 0.0 && Square(root) == squared
    ensures NearRoot(x, squared) <==> -Shoelace.METRIC_EPSILON <= x - root <= Shoelace.METRIC_EPSILON
  {
    NearRootExactly(x, root);
  }

  lemma WithinTolerance(squares: seq<real>, m: real, tolerance: real)
    requires squares != [] && m >= 0.0 && Square(m) == Maximum(squares) && tolerance > 0.0
    ensures (forall i :: 0 <= i < |squares| ==> squares[i] <= Square(tolerance)) <==> m <= tolerance
  {
    SquaresOrdered(m, tolerance);
    assert Maximum(squares) in squares;
  }

  /** The value with every number and Boolean as a float. */
  ghost function AsFloats(t: Json): Json {
    match t
    case Int(n) => Float(Finite(n as real))
    case Bool(b) => Float(Finite(if b then 1.0 else 0.0))
    case Arr(items) => Arr(seq(|items|, i requires 0 <= i < |items| => AsFloats(items[i])))
    case Obj(fields) => Obj(map k | k in fields :: AsFloats(fields[k]))
    case _ => t
  }

  ghost predicate HoldsNoNan(t: Json) {
    match t
    case Float(f) => f != NaN
    case Arr(items) => forall i :: 0 <= i < |items| ==> HoldsNoNan(items[i])
    case Obj(fields) => forall k :: k in fields ==> HoldsNoNan(fields[k])
    case _ => true
  }

  /** Equal values are the same up to the types of numbers, and hold no NaN. */
  lemma {:induction false} DeepEqualExactly(x: Json, y: Json)
    ensures DeepEqual(x, y) <==> AsFloats(x) == AsFloats(y) && HoldsNoNan(x)
    decreases x
  {
    if x.Arr? && y.Arr? {
      ListsEqualExactly(x, y);
    } else if x.Obj? && y.Obj? {
      MappingsEqualExactly(x, y);
    }
  }

  lemma {:induction false} ListsEqualExactly(x: Json, y: Json)
    requires x.Arr? && y.Arr?
    ensures DeepEqual(x, y) <==> AsFloats(x) == AsFloats(y) && HoldsNoNan(x)
    decreases x, 0
  {
    var f, g := AsFloats(x).items, AsFloats(y).items;
    forall i | 0 <= i < |x.items| && i < |y.items|
      ensures DeepEqual(x.items[i], y.items[i]) <==> f[i] == g[i] && HoldsNoNan(x.items[i])
    {
      DeepEqualExactly(x.items[i], y.items[i]);
    }
    if DeepEqual(x, y) { assert f == g; }
  }

  lemma {:induction false} MappingsEqualExactly(x: Json, y: Json)
    requires x.Obj? && y.Obj?
    ensures DeepEqual(x, y) <==> AsFloats(x) == AsFloats(y) && HoldsNoNan(x)
    decreases x, 0
  {
    var f, g := AsFloats(x).fields, AsFloats(y).fields;
    assert f.Keys == x.fields.Keys && g.Keys == y.fields.Keys;
    forall k | k in x.fields && k in y.fields
      ensures DeepEqual(x.fields[k], y.fields[k]) <==> f[k] == g[k] && HoldsNoNan(x.fields[k])
    {
      DeepEqualExactly(x.fields[k], y.fields[k]);
    }
    if DeepEqual(x, y) { assert f == g; }
    if f == g { assert x.fields.Keys == y.fields.Keys; }
  }

  /** The artifact matches exactly when each claimed field is repeated, up to the types of numbers, without NaN. */
  lemma ClaimsMatchExactly(artifact: Json, claims: Json)
    ensures !ClaimsMatch(None, claims)
    ensures ClaimsMatch(Some(artifact), claims) <==>
            forall field :: field in CLAIMED_FIELDS ==>
              AsFloats(Get(artifact, field)) == AsFloats(Get(claims, field)) && HoldsNoNan(Get(artifact, field))
  {
    FieldsEqualExactly(artifact, claims, CLAIMED_FIELDS);
  }

  lemma FieldsEqualExactly(artifact: Json, claims: Json, fields: set<string>)
    ensures (forall field :: field in fields ==> DeepEqual(Get(artifact, field), Get(claims, field))) <==>
            forall field :: field in fields ==>
              AsFloats(Get(artifact, field)) == AsFloats(Get(claims, field)) && HoldsNoNan(Get(artifact, field))
  {
    forall field | field in fields
      ensures DeepEqual(Get(artifact, field), Get(claims, field)) <==>
              AsFloats(Get(artifact, field)) == AsFloats(Get(claims, field)) && HoldsNoNan(Get(artifact, field))
    {
      DeepEqualExactly(Get(artifact, field), Get(claims, field));
    }
  }

  /** An accepted sample has exactly its ten fields, names an accepted candidate and a known geometry kind, is in
      millimetres and of the case's source, and is a scalar, a length or a point. */
  lemma AcceptedSample(sample: Json, source: Json, accepted: set<string>)
    requires SampleError(sample, source, accepted).Some?
    ensures sample.Obj? && |sample.fields| == 10
    ensures Get(sample, "source_sha256") == source && Get(sample, "unit") == Str("mm")
    ensures Get(sample, "candidate_ref").Str? && Get(sample, "candidate_ref").s in accepted
    ensures Get(sample, "geometry_kind") in {Str("line"), Str("circle"), Str("arc"), Str("closed_polyline")}
    ensures Get(sample, "kind") in {Str("scalar"), Str("length"), Str("point")}
    ensures NamedSafely(Get(sample, "sample_id")) && NamedSafely(Get(sample, "measurement_key"))
    ensures Get(sample, "entity_ref").Str? && exists c :: c in Get(sample, "entity_ref").s && c != ' '
    ensures SampleError(sample, source, accepted).value.binding ==
      Binding(Get(sample, "candidate_ref").s, Get(sample, "entity_ref").s, Get(sample, "geometry_kind").s, "mm",
              Get(sample, "measurement_key").s)
    ensures SquaredGap(Get(sample, "expected_mm"), Get(sample, "observed_mm"), Get(sample, "kind") == Str("point"),
                       SampleError(sample, source, accepted).value.squaredError)
  {
    TenKeys();
    assert |sample.fields| == |sample.fields.Keys|;
    SafelyNamed(Get(sample, "sample_id"));
    SafelyNamed(Get(sample, "measurement_key"));
    NotBlank(Get(sample, "entity_ref"));
  }

  /** The square of how far two values of one sort lie apart, none of them negative. */
  ghost predicate SquaredGap(x: Json, y: Json, point: bool, square: real) {
    if point then
      && FinitePoint(x) && FinitePoint(y)
      && var x0, x1, y0, y1 := Number(x.items[0]), Number(x.items[1]), Number(y.items[0]), Number(y.items[1]);
      && x0 >= 0.0 && x1 >= 0.0 && y0 >= 0.0 && y1 >= 0.0
      && square == (x0 - y0) * (x0 - y0) + (x1 - y1) * (x1 - y1)
    else
      && FiniteNumber(x) && FiniteNumber(y) && Number(x) >= 0.0 && Number(y) >= 0.0
      && square == (Number(x) - Number(y)) * (Number(x) - Number(y))
  }

  lemma TenKeys()
    ensures |SAMPLE_KEYS| == 10
  {
  }

  /** One to eighty characters, all letters, digits or one of _ . - and the first a letter or digit. */
  ghost predicate NamedSafely(j: Json) {
    && j.Str? && 1 <= |j.s| <= 80 && j.s[0] !in {'_', '.', '-'}
    && forall c :: c in j.s ==>
         c in {'_', '.', '-'} || 48 <= c as int <= 57 || 65 <= c as int <= 90 || 97 <= c as int <= 122
  }

  lemma SafelyNamed(j: Json)
    ensures SafeId(j) <==> NamedSafely(j)
  {
    if SafeId(j) {
      forall c | c in j.s ensures c in {'_', '.', '-'} || IsAlphanumeric(c) {
        var i :| 0 <= i < |j.s| && j.s[i] == c;
      }
    }
    if NamedSafely(j) {
      forall i | 0 <= i < |j.s| ensures IsAlphanumeric(j.s[i]) || j.s[i] in {'_', '.', '-'} {
        assert j.s[i] in j.s;
      }
    }
  }

  lemma NotBlank(j: Json)
    requires NonEmpty(j)
    ensures exists c :: c in j.s && c != ' '
  {
    var i :| 0 <= i < |j.s| && !IsBlank(j.s[i]);
    assert j.s[i] in j.s;
  }
}
