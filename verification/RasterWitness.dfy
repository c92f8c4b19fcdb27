/** Evidence of one raster case on which both validators report nothing, and which attains their joint bound. */
module RasterWitness {
  import opened GoldenModel
  import opened Options
  import opened RasterAccuracy
  import opened RasterReadback
  import opened Reals
  import Shoelace

  const SOURCE := "sha256:0"
  const ACCEPTED: set<string> := {"candidate"}

  function Millimetres(r: real): Json {
    Float(Finite(r))
  }

  function Sample(key: string, kind: string, expected: Json, observed: Json): Json {
    Obj(map["sample_id" := Str(key), "candidate_ref" := Str("candidate"), "entity_ref" := Str("entity"),
            "geometry_kind" := Str("line"), "unit" := Str("mm"), "source_sha256" := Str(SOURCE),
            "kind" := Str(kind), "measurement_key" := Str(key),
            "expected_mm" := expected, "observed_mm" := observed])
  }

  /** A length of 10 mm, observed one tolerance away. */
  function LengthSample(key: string, tolerance: real): Json {
    Sample(key, "length", Millimetres(10.0), Millimetres(10.0 + tolerance))
  }

  function Samples(keys: seq<string>, tolerance: real): seq<Json> {
    seq(|keys|, i requires 0 <= i < |keys| => LengthSample(keys[i], tolerance))
  }

  function Accuracy(keys: seq<string>, tolerance: real): Json {
    Obj(map["source_sha256" := Str(SOURCE), "samples" := Arr(Samples(keys, tolerance)),
            "sample_count" := Int(|keys|), "tolerance_mm" := Millimetres(tolerance),
            "maximum_error_mm" := Millimetres(tolerance), "rmse_mm" := Millimetres(tolerance)])
  }

  /** The same lengths measured live, one tolerance further away. */
  function LiveValues(keys: seq<string>, tolerance: real): map<string, Json> {
    map key | key in keys :: Millimetres(10.0 + 2.0 * tolerance)
  }

  function LiveItem(keys: seq<string>, tolerance: real): Json {
    Obj(map["candidate_ref" := Str("candidate"), "entity_ref" := Str("entity"), "geometry_kind" := Str("line"),
            "unit" := Str("mm"), "measurements" := Obj(LiveValues(keys, tolerance))])
  }

  function KeyBinding(key: string): Binding {
    Binding("candidate", "entity", "line", "mm", key)
  }

  ghost predicate SafeKeys(keys: seq<string>) {
    |keys| >= MIN_ACCURACY_SAMPLES && Distinct(keys) && forall i :: 0 <= i < |keys| ==> SafeId(Str(keys[i]))
  }

  lemma TextNonEmpty()
    ensures NonEmpty(Str("entity"))
  {
    assert !IsBlank("entity"[0]);
  }

  ghost predicate HasFields(s: Json, key: string, kind: string, expected: Json, observed: Json) {
    && s.Obj? && s.fields.Keys == SAMPLE_KEYS
    && Get(s, "sample_id") == Str(key) && Get(s, "measurement_key") == Str(key)
    && Get(s, "candidate_ref") == Str("candidate") && Get(s, "entity_ref") == Str("entity")
    && Get(s, "geometry_kind") == Str("line") && Get(s, "unit") == Str("mm")
    && Get(s, "source_sha256") == Str(SOURCE) && Get(s, "kind") == Str(kind)
    && Get(s, "expected_mm") == expected && Get(s, "observed_mm") == observed
  }

  lemma FieldsOfSample(key: string, kind: string, expected: Json, observed: Json)
    ensures HasFields(Sample(key, kind, expected, observed), key, kind, expected, observed)
  {
  }

  lemma SampleFields(key: string, tolerance: real)
    ensures HasFields(LengthSample(key, tolerance), key, "length", Millimetres(10.0), Millimetres(10.0 + tolerance))
  {
    FieldsOfSample(key, "length", Millimetres(10.0), Millimetres(10.0 + tolerance));
  }

  lemma FieldsAccepted(s: Json, key: string, kind: string, expected: Json, observed: Json)
    requires HasFields(s, key, kind, expected, observed) && SafeId(Str(key))
    ensures SampleWellFormed(s, Str(SOURCE), ACCEPTED) && SampleBinding(s) == KeyBinding(key)
  {
    TextNonEmpty();
  }

  /** A number under either scalar kind gives the square of its difference. */
  lemma NumberResult(s: Json, key: string, kind: string, expected: real, observed: real)
    requires HasFields(s, key, kind, Millimetres(expected), Millimetres(observed)) && SafeId(Str(key))
    requires kind == "scalar" || kind == "length"
    ensures SampleError(s, Str(SOURCE), ACCEPTED) ==
            if expected >= 0.0 && observed >= 0.0
            then Some(SampleResult(Square(observed - expected), KeyBinding(key))) else None
  {
    FieldsAccepted(s, key, kind, Millimetres(expected), Millimetres(observed));
    assert "scalar" != "point" && "length" != "point" && kind != "point";
  }

  function Coordinates(x: real, y: real): Json {
    Arr([Millimetres(x), Millimetres(y)])
  }

  /** A point gives the square of its distance, as long as no coordinate is negative. */
  lemma PointResult(s: Json, key: string, x: real, y: real, u: real, v: real)
    requires HasFields(s, key, "point", Coordinates(x, y), Coordinates(u, v)) && SafeId(Str(key))
    ensures SampleError(s, Str(SOURCE), ACCEPTED) ==
            if x >= 0.0 && y >= 0.0 && u >= 0.0 && v >= 0.0
            then Some(SampleResult(Square(u - x) + Square(v - y), KeyBinding(key))) else None
  {
    FieldsAccepted(s, key, "point", Coordinates(x, y), Coordinates(u, v));
    assert "scalar" != "point" && "length" != "point";
    var expected, observed := Get(s, "expected_mm"), Get(s, "observed_mm");
    assert Number(expected.items[0]) == x && Number(expected.items[1]) == y;
    assert Number(observed.items[0]) == u && Number(observed.items[1]) == v;
  }

  lemma SampleResultOf(key: string, tolerance: real)
    requires SafeId(Str(key)) && tolerance > 0.0
    ensures SampleError(LengthSample(key, tolerance), Str(SOURCE), ACCEPTED)
            == Some(SampleResult(Square(tolerance), KeyBinding(key)))
  {
    SampleFields(key, tolerance);
    NumberResult(LengthSample(key, tolerance), key, "length", 10.0, 10.0 + tolerance);
    assert (10.0 + tolerance) - 10.0 == tolerance;
  }

  lemma {:induction false} SumConstant(xs: seq<real>, c: real)
    requires forall i :: 0 <= i < |xs| ==> xs[i] == c
    ensures Sum(xs) == |xs| as real * c
  {
    if xs != [] {
      SumConstant(xs[..|xs| - 1], c);
      assert (|xs| - 1) as real * c + c == |xs| as real * c;
    }
  }

  lemma MeanConstant(xs: seq<real>, c: real)
    requires xs != [] && forall i :: 0 <= i < |xs| ==> xs[i] == c
    ensures Mean(xs) == c
  {
    SumConstant(xs, c);
    Quotient(|xs| as real, c);
  }

  lemma MaximumConstant(xs: seq<real>, c: real)
    requires xs != [] && forall i :: 0 <= i < |xs| ==> xs[i] == c
    ensures Maximum(xs) == c
  {
    var m := Maximum(xs);
    assert m in xs;
  }

  lemma Quotient(n: real, c: real)
    requires n > 0.0
    ensures (n * c) / n == c
  {
    var q := (n * c) / n;
    assert q * n == n * c;
    assert (q - c) * n == 0.0;
  }

  lemma RootNear(tolerance: real)
    requires tolerance > 0.0
    ensures NearRoot(tolerance, Square(tolerance))
  {
    SquareGrows(tolerance, tolerance + Shoelace.METRIC_EPSILON);
    if tolerance - Shoelace.METRIC_EPSILON > 0.0 {
      SquareGrows(tolerance - Shoelace.METRIC_EPSILON, tolerance);
    }
  }

  lemma AccuracyFields(keys: seq<string>, tolerance: real)
    ensures var a := Accuracy(keys, tolerance);
      && Get(a, "source_sha256") == Str(SOURCE) && Get(a, "samples") == Arr(Samples(keys, tolerance))
      && Get(a, "sample_count") == Int(|keys|) && Get(a, "tolerance_mm") == Millimetres(tolerance)
      && Get(a, "maximum_error_mm") == Millimetres(tolerance) && Get(a, "rmse_mm") == Millimetres(tolerance)
      && Get(a, "calculated_by") == Null && Get(a, "reviewed_by") == Null
  {
  }

  lemma SampleEqualsItself(key: string, tolerance: real)
    ensures DeepEqual(LengthSample(key, tolerance), LengthSample(key, tolerance))
  {
  }

  lemma ArtifactMatches(keys: seq<string>, tolerance: real)
    ensures ClaimsMatch(Some(Accuracy(keys, tolerance)), Accuracy(keys, tolerance))
  {
    AccuracyFields(keys, tolerance);
    forall i | 0 <= i < |keys| ensures DeepEqual(Samples(keys, tolerance)[i], Samples(keys, tolerance)[i]) {
      SampleEqualsItself(keys[i], tolerance);
    }
  }

  lemma ResultsOf(keys: seq<string>, tolerance: real)
    requires SafeKeys(keys) && tolerance > 0.0
    ensures var results := Results(Samples(keys, tolerance), Str(SOURCE), ACCEPTED);
      && AllSampled(results)
      && (forall i :: 0 <= i < |keys| ==> results[i] == Some(SampleResult(Square(tolerance), KeyBinding(keys[i]))))
  {
    forall i | 0 <= i < |keys| {
      SampleResultOf(keys[i], tolerance);
    }
  }

  lemma Covered(keys: seq<string>, tolerance: real)
    requires SafeKeys(keys) && tolerance > 0.0
    requires AllSampled(Results(Samples(keys, tolerance), Str(SOURCE), ACCEPTED))
    ensures var samples := Samples(keys, tolerance);
            SamplesCover(Ids(samples), Bindings(Results(samples, Str(SOURCE), ACCEPTED)), ACCEPTED)
  {
    var ids, bindings := Ids(Samples(keys, tolerance)),
                         Bindings(Results(Samples(keys, tolerance), Str(SOURCE), ACCEPTED));
    ResultsOf(keys, tolerance);
    forall i | 0 <= i < |keys| ensures ids[i] == Str(keys[i]) && bindings[i] == KeyBinding(keys[i]) {
      SampleFields(keys[i], tolerance);
    }
    assert bindings[0] in bindings;
  }

  lemma MetricsOf(accuracy: Json, squares: seq<real>, tolerance: real)
    requires squares != [] && tolerance > 0.0 && forall i :: 0 <= i < |squares| ==> squares[i] == Square(tolerance)
    requires Get(accuracy, "sample_count") == Int(|squares|) && Get(accuracy, "tolerance_mm") == Millimetres(tolerance)
    requires Get(accuracy, "maximum_error_mm") == Get(accuracy, "rmse_mm") == Millimetres(tolerance)
    ensures MetricsHold(accuracy, squares)
  {
    MeanConstant(squares, Square(tolerance));
    MaximumConstant(squares, Square(tolerance));
    RootNear(tolerance);
  }

  lemma MetricsMet(keys: seq<string>, tolerance: real)
    requires SafeKeys(keys) && tolerance > 0.0
    requires AllSampled(Results(Samples(keys, tolerance), Str(SOURCE), ACCEPTED))
    ensures MetricsHold(Accuracy(keys, tolerance),
                        SquaredErrors(Results(Samples(keys, tolerance), Str(SOURCE), ACCEPTED)))
  {
    ResultsOf(keys, tolerance);
    AccuracyFields(keys, tolerance);
    MetricsOf(Accuracy(keys, tolerance),
              SquaredErrors(Results(Samples(keys, tolerance), Str(SOURCE), ACCEPTED)), tolerance);
  }

  lemma AccuracyAccepted(keys: seq<string>, tolerance: real)
    requires SafeKeys(keys) && tolerance > 0.0
    ensures AccuracyHolds(Accuracy(keys, tolerance), Some(Accuracy(keys, tolerance)), SOURCE, ACCEPTED)
  {
    AccuracyFields(keys, tolerance);
    ArtifactMatches(keys, tolerance);
    ResultsOf(keys, tolerance);
    Covered(keys, tolerance);
    MetricsMet(keys, tolerance);
  }

  lemma ItemFields(keys: seq<string>, tolerance: real)
    ensures var item := LiveItem(keys, tolerance);
      && item.fields.Keys == MEASURED_KEYS
      && Get(item, "candidate_ref") == Str("candidate") && Get(item, "entity_ref") == Str("entity")
      && Get(item, "geometry_kind") == Str("line") && Get(item, "unit") == Str("mm")
      && Get(item, "measurements") == Obj(LiveValues(keys, tolerance))
  {
  }

  /** The live values are filed under the bindings of the keys, and nothing else is. */
  ghost predicate FiledLive(rows: map<Binding, Json>, keys: seq<string>, tolerance: real) {
    && (forall b :: b in rows <==> b.key in keys && b == KeyBinding(b.key))
    && (forall b :: b in rows ==> rows[b] == Millimetres(10.0 + 2.0 * tolerance))
  }

  lemma ItemAccepted(keys: seq<string>, tolerance: real)
    requires SafeKeys(keys)
    ensures ItemWellFormed(LiveItem(keys, tolerance), ACCEPTED)
    ensures FiledLive(ItemRows(LiveItem(keys, tolerance), ACCEPTED), keys, tolerance)
  {
    var item, values := LiveItem(keys, tolerance), LiveValues(keys, tolerance);
    ItemFields(keys, tolerance);
    TextNonEmpty();
    assert keys[0] in values;
    forall key | key in values ensures SafeId(Str(key)) && MeasurementValue(values[key]) {
      var i :| 0 <= i < |keys| && keys[i] == key;
    }
    var rows := ItemRows(item, ACCEPTED);
    forall key ensures ItemBinding(item, key) == KeyBinding(key) {}
    forall b ensures b in rows <==> b.key in keys && b == KeyBinding(b.key) {
      if b.key in keys && b == KeyBinding(b.key) { assert ItemBinding(item, b.key) == b && b.key in values; }
    }
  }

  ghost function MeasuredItem(keys: seq<string>, tolerance: real): Measured
    requires ItemWellFormed(LiveItem(keys, tolerance), ACCEPTED)
  {
    Measured("candidate", ItemRows(LiveItem(keys, tolerance), ACCEPTED))
  }

  lemma ParseOne(item: Json, parsed: Measured)
    requires Parse(item, ACCEPTED) == Some(parsed)
    ensures ParseAll([item], ACCEPTED) == Some([parsed])
  {
    assert [item][..0] == [];
    assert [] + [parsed] == [parsed];
  }

  lemma ParsedItem(keys: seq<string>, tolerance: real)
    requires ItemWellFormed(LiveItem(keys, tolerance), ACCEPTED)
    ensures ParseAll([LiveItem(keys, tolerance)], ACCEPTED) == Some([MeasuredItem(keys, tolerance)])
  {
    var item := LiveItem(keys, tolerance);
    ItemFields(keys, tolerance);
    assert Parse(item, ACCEPTED) == Some(MeasuredItem(keys, tolerance));
    ParseOne(item, MeasuredItem(keys, tolerance));
  }

  lemma SingleItem(item: Measured)
    ensures Live([item]) == item.rows && Candidates([item]) == {item.candidate} && Disjoint([item])
  {
    assert [item][..0] == [];
    assert [item][0].candidate in Candidates([item]);
  }

  /** The one item contributes all live values. */
  ghost predicate MeasuresAll(parsed: Option<seq<Measured>>, keys: seq<string>, tolerance: real) {
    && parsed.Some? && Disjoint(parsed.value) && |parsed.value| == 1 && Candidates(parsed.value) == ACCEPTED
    && FiledLive(Live(parsed.value), keys, tolerance)
  }

  lemma LiveOf(keys: seq<string>, tolerance: real)
    requires SafeKeys(keys)
    ensures MeasuresAll(ParseAll([LiveItem(keys, tolerance)], ACCEPTED), keys, tolerance)
  {
    ItemAccepted(keys, tolerance);
    ParsedItem(keys, tolerance);
    SingleItem(MeasuredItem(keys, tolerance));
  }

  function RenderText(j: Json): string {
    if j.Str? then j.s else ""
  }

  /** The observed values are filed under the same bindings. */
  ghost predicate FiledObserved(rows: map<Binding, Json>, keys: seq<string>, tolerance: real) {
    && (forall b :: b in rows <==> b.key in keys && b == KeyBinding(b.key))
    && (forall b :: b in rows ==> rows[b] == Millimetres(10.0 + tolerance))
  }

  ghost function KeyBindings(keys: seq<string>): seq<Binding> {
    seq(|keys|, i requires 0 <= i < |keys| => KeyBinding(keys[i]))
  }

  lemma BindingsOfKeys(keys: seq<string>, b: Binding)
    ensures b in KeyBindings(keys) <==> b.key in keys && b == KeyBinding(b.key)
  {
    var bindings := KeyBindings(keys);
    if b in bindings {
      var i :| 0 <= i < |bindings| && bindings[i] == b;
    }
    if b.key in keys && b == KeyBinding(b.key) {
      var i :| 0 <= i < |keys| && keys[i] == b.key;
      assert bindings[i] == b;
    }
  }

  lemma SampleFiled(keys: seq<string>, tolerance: real, i: nat)
    requires i < |keys|
    ensures var sample := Samples(keys, tolerance)[i];
      sample.Obj? && Filed(sample, RenderText) == KeyBinding(keys[i])
      && Get(sample, "observed_mm") == Millimetres(10.0 + tolerance)
  {
    SampleFields(keys[i], tolerance);
  }

  lemma ObservedRows(observed: map<Binding, Json>, keys: seq<string>, tolerance: real)
    requires forall b :: b in observed <==> b in KeyBindings(keys)
    requires forall i :: 0 <= i < |keys| ==>
      KeyBinding(keys[i]) in observed && observed[KeyBinding(keys[i])] == Millimetres(10.0 + tolerance)
    ensures FiledObserved(observed, keys, tolerance)
  {
    forall b ensures b in observed <==> b.key in keys && b == KeyBinding(b.key) {
      BindingsOfKeys(keys, b);
    }
  }

  lemma ObservedOf(keys: seq<string>, tolerance: real)
    requires SafeKeys(keys)
    ensures FiledObserved(Observed(Samples(keys, tolerance), RenderText), keys, tolerance)
  {
    var samples, bindings := Samples(keys, tolerance), KeyBindings(keys);
    forall i | 0 <= i < |keys| ensures
      samples[i].Obj? && Filed(samples[i], RenderText) == bindings[i] == KeyBinding(keys[i])
      && Get(samples[i], "observed_mm") == Millimetres(10.0 + tolerance)
    {
      SampleFiled(keys, tolerance, i);
    }
    SamplesObserved(samples, bindings, RenderText);
    ObservedRows(Observed(samples, RenderText), keys, tolerance);
  }

  lemma FiledAlike(observed: map<Binding, Json>, live: map<Binding, Json>, keys: seq<string>, tolerance: real)
    requires keys != [] && tolerance > 0.0
    requires FiledObserved(observed, keys, tolerance) && FiledLive(live, keys, tolerance)
    ensures observed != map[] && observed.Keys == live.Keys
    ensures forall b :: b in observed ==> Agrees(observed[b], live[b], tolerance)
  {
    assert KeyBinding(keys[0]) in observed;
  }

  lemma ReadbackOf(measured: Json, items: seq<Measured>, accuracy: Json, samples: seq<Json>, tolerance: real)
    requires measured.Arr? && |measured.items| == |items| == 1
    requires ParseAll(measured.items, ACCEPTED) == Some(items) && Disjoint(items) && Candidates(items) == ACCEPTED
    requires Get(accuracy, "samples") == Arr(samples) && Get(accuracy, "tolerance_mm") == Millimetres(tolerance)
    requires var observed := Observed(samples, RenderText);
      && observed != map[] && observed.Keys == Live(items).Keys
      && forall b :: b in observed ==> Agrees(observed[b], Live(items)[b], tolerance)
    ensures ReadbackHolds(measured, accuracy, ACCEPTED, RenderText)
  {
  }

  lemma ReadbackAccepted(keys: seq<string>, tolerance: real)
    requires SafeKeys(keys) && tolerance > 0.0
    ensures ReadbackHolds(Arr([LiveItem(keys, tolerance)]), Accuracy(keys, tolerance), ACCEPTED, RenderText)
  {
    AccuracyFields(keys, tolerance);
    LiveOf(keys, tolerance);
    ObservedOf(keys, tolerance);
    var measured := Arr([LiveItem(keys, tolerance)]);
    var items := ParseAll(measured.items, ACCEPTED).value;
    FiledAlike(Observed(Samples(keys, tolerance), RenderText), Live(items), keys, tolerance);
    ReadbackOf(measured, items, Accuracy(keys, tolerance), Samples(keys, tolerance), tolerance);
  }

  /** For every positive tolerance and any four or more measurement keys there is evidence on which neither validator
      reports anything, and in which every expected length is 10 mm while every live one is exactly twice the
      tolerance longer. */
  lemma BoundIsAttained(keys: seq<string>, tolerance: real)
    requires SafeKeys(keys) && tolerance > 0.0
    ensures AccuracyHolds(Accuracy(keys, tolerance), Some(Accuracy(keys, tolerance)), SOURCE, ACCEPTED)
    ensures ReadbackHolds(Arr([LiveItem(keys, tolerance)]), Accuracy(keys, tolerance), ACCEPTED, RenderText)
    ensures Get(Accuracy(keys, tolerance), "samples") == Arr(Samples(keys, tolerance))
    ensures forall i :: 0 <= i < |keys| ==> Get(Samples(keys, tolerance)[i], "expected_mm") == Millimetres(10.0)
    ensures MeasuresAll(ParseAll([LiveItem(keys, tolerance)], ACCEPTED), keys, tolerance)
  {
    AccuracyFields(keys, tolerance);
    AccuracyAccepted(keys, tolerance);
    ReadbackAccepted(keys, tolerance);
    LiveOf(keys, tolerance);
    forall i | 0 <= i < |keys| ensures Get(Samples(keys, tolerance)[i], "expected_mm") == Millimetres(10.0) {
      SampleFields(keys[i], tolerance);
    }
  }

  lemma SomeKeysAreSafe()
    ensures SafeKeys(["length", "width", "height", "depth"])
  {
  }
}
