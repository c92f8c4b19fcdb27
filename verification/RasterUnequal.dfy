/** Accepted accuracy evidence whose errors differ, so that its maximum and its root mean square do too. */
module RasterUnequal {
  import opened GoldenModel
  import opened Options
  import opened RasterAccuracy
  import opened RasterWitness
  import opened Reals

  const KEYS: seq<string> := ["a", "b", "c", "d"]

  /** Three exact samples, and a point that is off by 0.06 mm and 0.08 mm. */
  function Samples4(): seq<Json> {
    [Sample("a", "scalar", Millimetres(5.0), Millimetres(5.0)),
     Sample("b", "length", Millimetres(7.0), Millimetres(7.0)),
     Sample("c", "point", Coordinates(3.0, 4.0), Coordinates(3.06, 4.08)),
     Sample("d", "length", Millimetres(2.0), Millimetres(2.0))]
  }

  function Claims(samples: seq<Json>, maximum: real, rmse: real): Json {
    Obj(map["source_sha256" := Str(SOURCE), "samples" := Arr(samples), "sample_count" := Int(|samples|),
            "tolerance_mm" := Millimetres(0.1), "maximum_error_mm" := Millimetres(maximum),
            "rmse_mm" := Millimetres(rmse)])
  }

  ghost predicate HasClaims(c: Json, samples: seq<Json>, maximum: real, rmse: real) {
    && Get(c, "source_sha256") == Str(SOURCE) && Get(c, "samples") == Arr(samples)
    && Get(c, "sample_count") == Int(|samples|) && Get(c, "tolerance_mm") == Millimetres(0.1)
    && Get(c, "maximum_error_mm") == Millimetres(maximum) && Get(c, "rmse_mm") == Millimetres(rmse)
    && Get(c, "calculated_by") == Null && Get(c, "reviewed_by") == Null
  }

  lemma ClaimFields(samples: seq<Json>, maximum: real, rmse: real)
    ensures HasClaims(Claims(samples, maximum, rmse), samples, maximum, rmse)
  {
  }

  function ErrorOf(i: nat): real {
    if i == 2 then 0.01 else 0.0
  }

  /** What the four samples come to. */
  ghost predicate Measured4(samples: seq<Json>) {
    && |samples| == 4
    && forall i :: 0 <= i < 4 ==>
         && Get(samples[i], "sample_id") == Str(KEYS[i]) && DeepEqual(samples[i], samples[i])
         && SampleError(samples[i], Str(SOURCE), ACCEPTED) == Some(SampleResult(ErrorOf(i), KeyBinding(KEYS[i])))
  }

  lemma KeysSafe()
    ensures SafeKeys(KEYS)
  {
  }

  lemma NumberRepeats(key: string, kind: string, value: real)
    ensures var s := Sample(key, kind, Millimetres(value), Millimetres(value)); DeepEqual(s, s)
  {
  }

  lemma NumberSample(key: string, kind: string, value: real)
    requires SafeId(Str(key)) && (kind == "scalar" || kind == "length") && value >= 0.0
    ensures var s := Sample(key, kind, Millimetres(value), Millimetres(value));
      && Get(s, "sample_id") == Str(key) && DeepEqual(s, s)
      && SampleError(s, Str(SOURCE), ACCEPTED) == Some(SampleResult(0.0, KeyBinding(key)))
  {
    var s := Sample(key, kind, Millimetres(value), Millimetres(value));
    FieldsOfSample(key, kind, Millimetres(value), Millimetres(value));
    NumberResult(s, key, kind, value, value);
    NumberRepeats(key, kind, value);
  }

  lemma PointRepeats(key: string, x: real, y: real, u: real, v: real)
    ensures var s := Sample(key, "point", Coordinates(x, y), Coordinates(u, v)); DeepEqual(s, s)
  {
    CoordinatesRepeat(x, y);
    CoordinatesRepeat(u, v);
  }

  lemma CoordinatesRepeat(x: real, y: real)
    ensures DeepEqual(Coordinates(x, y), Coordinates(x, y))
  {
  }

  lemma PointSampleOff(key: string)
    requires SafeId(Str(key))
    ensures var s := Sample(key, "point", Coordinates(3.0, 4.0), Coordinates(3.06, 4.08));
      && Get(s, "sample_id") == Str(key) && DeepEqual(s, s)
      && SampleError(s, Str(SOURCE), ACCEPTED) == Some(SampleResult(0.01, KeyBinding(key)))
  {
    var s := Sample(key, "point", Coordinates(3.0, 4.0), Coordinates(3.06, 4.08));
    FieldsOfSample(key, "point", Coordinates(3.0, 4.0), Coordinates(3.06, 4.08));
    PointResult(s, key, 3.0, 4.0, 3.06, 4.08);
    PointRepeats(key, 3.0, 4.0, 3.06, 4.08);
  }

  lemma SamplesMeasured()
    ensures Measured4(Samples4())
  {
    KeysSafe();
    assert SafeId(Str(KEYS[0])) && SafeId(Str(KEYS[1])) && SafeId(Str(KEYS[2])) && SafeId(Str(KEYS[3]));
    NumberSample("a", "scalar", 5.0);
    NumberSample("b", "length", 7.0);
    PointSampleOff("c");
    NumberSample("d", "length", 2.0);
  }

  lemma Aggregates(squares: seq<real>)
    requires |squares| == 4 && forall i :: 0 <= i < 4 ==> squares[i] == ErrorOf(i)
    ensures Maximum(squares) == Square(0.1) && Mean(squares) == Square(0.05)
  {
    assert squares == [squares[0]] + [squares[1]] + [squares[2]] + [squares[3]];
    SumSplits([squares[0]], [squares[1]]);
    SumSplits([squares[0]] + [squares[1]], [squares[2]]);
    SumSplits([squares[0]] + [squares[1]] + [squares[2]], [squares[3]]);
    assert Maximum(squares) in squares;
    assert squares[2] <= Maximum(squares);
  }

  lemma ResultsOf4(samples: seq<Json>)
    requires Measured4(samples)
    ensures var results := Results(samples, Str(SOURCE), ACCEPTED);
      && |results| == 4 && AllSampled(results)
      && forall i :: 0 <= i < 4 ==> results[i] == Some(SampleResult(ErrorOf(i), KeyBinding(KEYS[i])))
  {
  }

  lemma Covered4(samples: seq<Json>)
    requires Measured4(samples) && AllSampled(Results(samples, Str(SOURCE), ACCEPTED))
    ensures SamplesCover(Ids(samples), Bindings(Results(samples, Str(SOURCE), ACCEPTED)), ACCEPTED)
  {
    var ids, bindings := Ids(samples), Bindings(Results(samples, Str(SOURCE), ACCEPTED));
    ResultsOf4(samples);
    KeysSafe();
    assert forall i :: 0 <= i < 4 ==> bindings[i] == KeyBinding(KEYS[i]) && ids[i] == Str(KEYS[i]);
    assert bindings[0] in bindings;
  }

  lemma ArtifactRepeats(c: Json, samples: seq<Json>, maximum: real, rmse: real)
    requires Measured4(samples) && HasClaims(c, samples, maximum, rmse)
    ensures ClaimsMatch(Some(c), c)
  {
  }

  /** These samples are accepted with a claimed maximum of 0.1 mm and a root mean square of 0.05 mm, and with no other
      claims that differ from these by more than the metric epsilon. */
  lemma UnequalErrorsAccepted(maximum: real, rmse: real)
    ensures var c := Claims(Samples4(), maximum, rmse);
            AccuracyHolds(c, Some(c), SOURCE, ACCEPTED) <==>
            Abs(maximum - 0.1) <= 0.000000000001 && Abs(rmse - 0.05) <= 0.000000000001
  {
    SamplesMeasured();
    ClaimFields(Samples4(), maximum, rmse);
    AcceptedExactly(Claims(Samples4(), maximum, rmse), Samples4(), maximum, rmse);
  }

  lemma AcceptedExactly(c: Json, samples: seq<Json>, maximum: real, rmse: real)
    requires Measured4(samples) && HasClaims(c, samples, maximum, rmse)
    ensures AccuracyHolds(c, Some(c), SOURCE, ACCEPTED) <==>
            Abs(maximum - 0.1) <= 0.000000000001 && Abs(rmse - 0.05) <= 0.000000000001
  {
    ArtifactRepeats(c, samples, maximum, rmse);
    ResultsOf4(samples);
    Covered4(samples);
    MetricsOf4(c, samples, maximum, rmse);
  }

  lemma MetricsOf4(c: Json, samples: seq<Json>, maximum: real, rmse: real)
    requires Measured4(samples) && HasClaims(c, samples, maximum, rmse)
    requires AllSampled(Results(samples, Str(SOURCE), ACCEPTED))
    ensures MetricsHold(c, SquaredErrors(Results(samples, Str(SOURCE), ACCEPTED))) <==>
            Abs(maximum - 0.1) <= 0.000000000001 && Abs(rmse - 0.05) <= 0.000000000001
  {
    ResultsOf4(samples);
    MetricsOfErrors(c, SquaredErrors(Results(samples, Str(SOURCE), ACCEPTED)), maximum, rmse);
  }

  lemma MetricsOfErrors(c: Json, squares: seq<real>, maximum: real, rmse: real)
    requires |squares| == 4 && forall i :: 0 <= i < 4 ==> squares[i] == ErrorOf(i)
    requires Get(c, "sample_count") == Int(4) && Get(c, "tolerance_mm") == Millimetres(0.1)
    requires Get(c, "maximum_error_mm") == Millimetres(maximum) && Get(c, "rmse_mm") == Millimetres(rmse)
    ensures MetricsHold(c, squares) <==>
            Abs(maximum - 0.1) <= 0.000000000001 && Abs(rmse - 0.05) <= 0.000000000001
  {
    Aggregates(squares);
    MetricsExactly(c, squares, 0.1, 0.05);
  }
}
