/** Live readback measurements of a raster case, and what they and the accuracy samples prove together. */
module RasterReadback {
  import opened GoldenModel
  import opened Options
  import opened RasterAccuracy
  import opened Reals

  datatype ReadbackError = MeasurementUnbound | ObservedLiveMismatch

  const MEASURED_KEYS: set<string> := {"candidate_ref", "entity_ref", "geometry_kind", "unit", "measurements"}

  predicate MeasurementValue(value: Json) {
    FiniteNumber(value) || FinitePoint(value)
  }

  predicate ItemWellFormed(item: Json, accepted: set<string>) {
    && item.Obj? && item.fields.Keys == MEASURED_KEYS
    && Get(item, "candidate_ref").Str? && Get(item, "candidate_ref").s in accepted
    && NonEmpty(Get(item, "entity_ref"))
    && IsGeometryKind(Get(item, "geometry_kind"))
    && Get(item, "unit") == Str("mm")
    && Get(item, "measurements").Obj? && Get(item, "measurements").fields != map[]
    && forall key :: key in Get(item, "measurements").fields ==>
         SafeId(Str(key)) && MeasurementValue(Get(item, "measurements").fields[key])
  }

  function ItemBinding(item: Json, key: string): Binding
    requires Get(item, "candidate_ref").Str? && Get(item, "entity_ref").Str? && Get(item, "geometry_kind").Str?
  {
    Binding(Get(item, "candidate_ref").s, Get(item, "entity_ref").s, Get(item, "geometry_kind").s, "mm", key)
  }

  function ItemRows(item: Json, accepted: set<string>): (rows: map<Binding, Json>)
    requires ItemWellFormed(item, accepted)
    ensures rows != map[]
    ensures forall b :: b in rows ==> b.candidate == Get(item, "candidate_ref").s && MeasurementValue(rows[b])
  {
    var fields := Get(item, "measurements").fields;
    var rows := map key | key in fields :: ItemBinding(item, key) := fields[key];
    assert forall key :: key in fields ==> ItemBinding(item, key) in rows;
    rows
  }

  /** One accepted item: its candidate and its live values by binding. */
  datatype Measured = Measured(candidate: string, rows: map<Binding, Json>)

  function Parse(item: Json, accepted: set<string>): (r: Option<Measured>)
    ensures r.Some? ==> r.value.candidate in accepted && r.value.rows != map[]
    ensures r.Some? ==> forall b :: b in r.value.rows ==>
      b.candidate == r.value.candidate && MeasurementValue(r.value.rows[b])
  {
    if ItemWellFormed(item, accepted) then Some(Measured(Get(item, "candidate_ref").s, ItemRows(item, accepted)))
    else None
  }

  /** The accepted items of a list, if every one is accepted. */
  function ParseAll(items: seq<Json>, accepted: set<string>): (r: Option<seq<Measured>>)
    ensures r.Some? ==> |r.value| == |items|
  {
    if items == [] then Some([])
    else
      var front, last := ParseAll(items[..|items| - 1], accepted), Parse(items[|items| - 1], accepted);
      if front.Some? && last.Some? then Some(front.value + [last.value]) else None
  }

  /** All live values, by binding. */
  function Live(items: seq<Measured>): map<Binding, Json> {
    if items == [] then map[] else Live(items[..|items| - 1]) + items[|items| - 1].rows
  }

  function Candidates(items: seq<Measured>): set<string> {
    set i | 0 <= i < |items| :: items[i].candidate
  }

  /** No two items contribute the same binding. */
  ghost predicate Disjoint(items: seq<Measured>) {
    forall i, j :: 0 <= i < j < |items| ==> items[i].rows.Keys !! items[j].rows.Keys
  }

  lemma {:induction false} LiveDomain(items: seq<Measured>, b: Binding)
    ensures b in Live(items) <==> exists i :: 0 <= i < |items| && b in items[i].rows
    ensures b in Live(items) ==>
      exists i :: 0 <= i < |items| && b in items[i].rows && Live(items)[b] == items[i].rows[b]
    decreases |items|
  {
    if items != [] {
      var front, last := items[..|items| - 1], items[|items| - 1];
      LiveDomain(front, b);
      assert items[|items| - 1] == last;
      if b in Live(front) && b !in last.rows {
        var i :| 0 <= i < |front| && b in front[i].rows && Live(front)[b] == front[i].rows[b];
        assert items[i] == front[i];
      }
      if i :| 0 <= i < |items| && b in items[i].rows && i < |front| {
        assert front[i] == items[i];
      }
    }
  }

  lemma ExtendLive(items: seq<Measured>, item: Measured)
    ensures Disjoint(items + [item]) <==> Disjoint(items) && Live(items).Keys !! item.rows.Keys
    ensures Live(items).Keys !! item.rows.Keys ==> Live(items + [item]) == item.rows + Live(items)
    ensures Candidates(items + [item]) == Candidates(items) + {item.candidate}
  {
    var all := items + [item];
    assert all[..|items|] == items && all[|items|] == item;
    DisjointAppend(items, item);
    CandidatesAppend(items, item);
    forall b ensures b in Live(items) <==> exists i :: 0 <= i < |items| && b in items[i].rows {
      LiveDomain(items, b);
    }
  }

  lemma DisjointAppend(items: seq<Measured>, item: Measured)
    ensures Disjoint(items + [item]) <==>
            Disjoint(items) && forall i :: 0 <= i < |items| ==> items[i].rows.Keys !! item.rows.Keys
  {
    var all := items + [item];
    assert all[|items|] == item && forall i :: 0 <= i < |items| ==> all[i] == items[i];
  }

  lemma CandidatesAppend(items: seq<Measured>, item: Measured)
    ensures Candidates(items + [item]) == Candidates(items) + {item.candidate}
  {
    var all := items + [item];
    assert all[|items|] == item;
    forall c | c in Candidates(items) ensures c in Candidates(all) {
      var i :| 0 <= i < |items| && items[i].candidate == c;
      assert all[i].candidate == c;
    }
  }

  /** The measured section is a non-empty list of accepted items without a repeated binding. */
  ghost predicate MeasuredHolds(measured: Json, accepted: set<string>) {
    && measured.Arr? && measured.items != []
    && ParseAll(measured.items, accepted).Some? && Disjoint(ParseAll(measured.items, accepted).value)
  }

  /** Collect the measured values; a malformed item or a repeated binding makes the collection invalid. */
  method Collect(measured: Json, accepted: set<string>)
    returns (valid: bool, values: map<Binding, Json>, candidates: set<string>)
    ensures valid <==> MeasuredHolds(measured, accepted)
    ensures valid ==> var items := ParseAll(measured.items, accepted).value;
                      values == Live(items) && candidates == Candidates(items)
  {
    var items := if measured.Arr? then measured.items else [];
    valid, values, candidates := measured.Arr? && items != [], map[], {};
    var n := 0;
    while n < |items|
      invariant 0 <= n <= |items|
      invariant valid <==> measured.Arr? && items != [] && ParseAll(items[..n], accepted).Some?
                           && Disjoint(ParseAll(items[..n], accepted).value)
      invariant valid ==> var done := ParseAll(items[..n], accepted).value;
                          values == Live(done) && candidates == Candidates(done)
    {
      assert items[..n + 1][..n] == items[..n];
      var item := Parse(items[n], accepted);
      if item.None? {
        valid := false;
      } else {
        if ParseAll(items[..n], accepted).Some? {
          ExtendLive(ParseAll(items[..n], accepted).value, item.value);
        }
        valid := valid && values.Keys !! item.value.rows.Keys;
        values := item.value.rows + values;
        candidates := candidates + {item.value.candidate};
      }
      n := n + 1;
    }
    assert items[..n] == items;
  }

  /** The binding a sample is filed under; `render` turns any value into text, and text into itself. */
  function Filed(sample: Json, render: Json -> string): Binding {
    Binding(render(Get(sample, "candidate_ref")), render(Get(sample, "entity_ref")),
            render(Get(sample, "geometry_kind")), render(Get(sample, "unit")),
            render(Get(sample, "measurement_key")))
  }

  /** The observed values of the samples, by binding; a later sample replaces an earlier one. */
  function Observed(samples: seq<Json>, render: Json -> string): map<Binding, Json> {
    if samples == [] then map[]
    else
      var front, last := Observed(samples[..|samples| - 1], render), samples[|samples| - 1];
      if last.Obj? then front[Filed(last, render) := Get(last, "observed_mm")] else front
  }

  /** The observed and the live value are both numbers, or both points, and lie within the tolerance. */
  predicate Agrees(observed: Json, live: Json, tolerance: real) {
    if observed.Arr? && live.Arr? && |observed.items| == 2 && |live.items| == 2 then
      FinitePoint(observed) && FinitePoint(live) && !RootExceeds(PointGap(live, observed), tolerance)
    else
      FiniteNumber(observed) && FiniteNumber(live) && Abs(Number(observed) - Number(live)) <= tolerance
  }

  /** What an accepted readback means, given the samples it is compared with. */
  ghost predicate ReadbackHolds(measured: Json, accuracy: Json, accepted: set<string>, render: Json -> string) {
    var samples := Get(accuracy, "samples");
    var observed := if samples.Arr? then Observed(samples.items, render) else map[];
    && MeasuredHolds(measured, accepted)
    && var items := ParseAll(measured.items, accepted).value;
    && Candidates(items) == accepted && |accepted| == |items|
    && observed != map[] && observed.Keys == Live(items).Keys
    && var tolerance := Get(accuracy, "tolerance_mm");
       (FiniteNumber(tolerance) && Number(tolerance) >= 0.0 ==>
          forall b :: b in observed ==> Agrees(observed[b], Live(items)[b], Number(tolerance)))
  }

  method ValidateMeasurements(measured: Json, accuracy: Json, accepted: set<string>, render: Json -> string)
    returns (errors: seq<ReadbackError>)
    ensures errors == [] <==> ReadbackHolds(measured, accuracy, accepted, render)
  {
    errors := [];
    var valid, values, candidates := Collect(measured, accepted);
    var samples := Get(accuracy, "samples");
    var observed := if samples.Arr? then Observed(samples.items, render) else map[];
    var count := if measured.Arr? then |measured.items| else 0;
    if !valid || candidates != accepted || observed == map[] || observed.Keys != values.Keys
       || |candidates| != count {
      errors := errors + [MeasurementUnbound];
    }
    var tolerance := Get(accuracy, "tolerance_mm");
    if FiniteNumber(tolerance) && Number(tolerance) >= 0.0 && observed.Keys == values.Keys {
      var agree := AllAgree(observed, values, Number(tolerance));
      if !agree {
        errors := errors + [ObservedLiveMismatch];
      }
    }
  }

  method AllAgree(observed: map<Binding, Json>, live: map<Binding, Json>, tolerance: real) returns (agree: bool)
    requires observed.Keys == live.Keys
    ensures agree <==> forall b :: b in observed ==> Agrees(observed[b], live[b], tolerance)
  {
    var pending := observed.Keys;
    while pending != {}
      invariant pending <= observed.Keys
      invariant forall b :: b in observed && b !in pending ==> Agrees(observed[b], live[b], tolerance)
      decreases pending
    {
      var b :| b in pending;
      if !Agrees(observed[b], live[b], tolerance) {
        return false;
      }
      pending := pending - {b};
    }
    agree := true;
  }

  lemma {:induction false} ObservedAt(samples: seq<Json>, render: Json -> string, i: nat)
    requires i < |samples| && samples[i].Obj?
    requires forall j :: i < j < |samples| ==> Filed(samples[j], render) != Filed(samples[i], render)
    ensures Filed(samples[i], render) in Observed(samples, render)
    ensures Observed(samples, render)[Filed(samples[i], render)] == Get(samples[i], "observed_mm")
    decreases |samples|
  {
    var front, last := samples[..|samples| - 1], samples[|samples| - 1];
    if i < |front| {
      assert front[i] == samples[i] && forall j :: 0 <= j < |front| ==> front[j] == samples[j];
      ObservedAt(front, render, i);
      assert Filed(last, render) != Filed(samples[i], render);
    }
  }

  lemma {:induction false} ObservedOnly(samples: seq<Json>, render: Json -> string, b: Binding) returns (i: nat)
    requires b in Observed(samples, render)
    ensures i < |samples| && Filed(samples[i], render) == b
    decreases |samples|
  {
    var front, last := samples[..|samples| - 1], samples[|samples| - 1];
    if last.Obj? && Filed(last, render) == b {
      i := |front|;
    } else {
      i := ObservedOnly(front, render, b);
    }
  }

  /** The live value is of the same sort as the expected one and lies within twice the tolerance of it. */
  predicate WithinTwice(expected: Json, live: Json, tolerance: real) {
    || (FiniteNumber(expected) && FiniteNumber(live) && Abs(Number(live) - Number(expected)) <= 2.0 * tolerance)
    || (FinitePoint(expected) && FinitePoint(live)
        && var dx := Number(live.items[0]) - Number(expected.items[0]);
           var dy := Number(live.items[1]) - Number(expected.items[1]);
           dx * dx + dy * dy <= 4.0 * (tolerance * tolerance))
  }

  lemma SquareBounds(x: real, bound: real)
    requires bound >= 0.0 && Square(x) <= Square(bound)
    ensures Abs(x) <= bound
  {
    assert Square(Abs(x)) == Square(x);
    if Abs(x) > bound {
      SquareGrows(bound, Abs(x));
    }
  }

  lemma SquareGrows(x: real, y: real)
    requires 0.0 <= x < y
    ensures Square(x) < Square(y)
  {
    var d := y - x;
    assert y * y == x * x + 2.0 * (x * d) + d * d;
    assert x * d >= 0.0;
    assert d * d > 0.0;
  }

  lemma SquareOfSum(x: real, y: real)
    ensures Square(x + y) <= 2.0 * Square(x) + 2.0 * Square(y)
  {
    assert 2.0 * Square(x) + 2.0 * Square(y) - Square(x + y) == Square(x - y);
  }

  /** Two point displacements within the tolerance add up to at most twice the tolerance. */
  lemma GapsAdd(p: Json, q: Json, r: Json, tolerance: real)
    requires FinitePoint(p) && FinitePoint(q) && FinitePoint(r)
    requires PointGap(p, q) <= Square(tolerance) && PointGap(r, q) <= Square(tolerance)
    ensures PointGap(p, r) <= Square(2.0 * tolerance)
  {
    var x1, y1 := Number(q.items[0]) - Number(p.items[0]), Number(q.items[1]) - Number(p.items[1]);
    var x2, y2 := Number(r.items[0]) - Number(q.items[0]), Number(r.items[1]) - Number(q.items[1]);
    assert Square(x2) == Square(-x2) && Square(y2) == Square(-y2);
    SquareOfSum(x1, x2);
    SquareOfSum(y1, y2);
    assert Square(2.0 * tolerance) == 4.0 * Square(tolerance);
  }

  lemma SampleNearLive(sample: Json, source: Json, accepted: set<string>, live: Json, tolerance: real)
    requires tolerance > 0.0
    requires SampleError(sample, source, accepted).Some?
    requires SampleError(sample, source, accepted).value.squaredError <= Square(tolerance)
    requires Agrees(Get(sample, "observed_mm"), live, tolerance)
    ensures WithinTwice(Get(sample, "expected_mm"), live, tolerance)
  {
    var expected, observed := Get(sample, "expected_mm"), Get(sample, "observed_mm");
    if ScalarSample(sample) {
      SquareBounds(Number(observed) - Number(expected), tolerance);
    } else {
      GapsAdd(expected, observed, live, tolerance);
    }
  }

  /** When both validators report nothing, samples and live measurements are in bijection, and every live value
      lies within twice the tolerance of what the sample expects. */
  lemma EvidenceBound(measured: Json, accuracy: Json, artifact: Option<Json>, expectedSource: string,
                      accepted: set<string>, render: Json -> string)
    requires forall s :: render(Str(s)) == s
    requires AccuracyHolds(accuracy, artifact, expectedSource, accepted)
    requires ReadbackHolds(measured, accuracy, accepted, render)
    ensures var samples, live := Get(accuracy, "samples").items, Live(ParseAll(measured.items, accepted).value);
      var bindings := Bindings(Results(samples, Get(accuracy, "source_sha256"), accepted));
      && Distinct(bindings) && |bindings| == |samples|
      && (forall b :: b in live <==> b in bindings)
      && forall i :: 0 <= i < |samples| ==>
           WithinTwice(Get(samples[i], "expected_mm"), live[bindings[i]], Number(Get(accuracy, "tolerance_mm")))
  {
    var samples, source := Get(accuracy, "samples").items, Get(accuracy, "source_sha256");
    var live, tolerance := Live(ParseAll(measured.items, accepted).value), Number(Get(accuracy, "tolerance_mm"));
    var results := Results(samples, source, accepted);
    var bindings, observed := Bindings(results), Observed(samples, render);
    forall i | 0 <= i < |samples| ensures samples[i].Obj? && Filed(samples[i], render) == bindings[i] {
      assert results[i] == SampleError(samples[i], source, accepted);
      FiledIsBinding(samples[i], source, accepted, render);
    }
    SamplesObserved(samples, bindings, render);
    forall i | 0 <= i < |samples| ensures WithinTwice(Get(samples[i], "expected_mm"), live[bindings[i]], tolerance) {
      assert bindings[i] in observed;
      assert results[i] == SampleError(samples[i], source, accepted);
      assert SquaredErrors(results)[i] <= Square(tolerance);
      SampleNearLive(samples[i], source, accepted, live[bindings[i]], tolerance);
    }
  }

  /** Samples filed under distinct bindings are observed under exactly those bindings. */
  lemma SamplesObserved(samples: seq<Json>, bindings: seq<Binding>, render: Json -> string)
    requires |bindings| == |samples| && Distinct(bindings)
    requires forall i :: 0 <= i < |samples| ==> samples[i].Obj? && Filed(samples[i], render) == bindings[i]
    ensures forall b :: b in Observed(samples, render) <==> b in bindings
    ensures forall i :: 0 <= i < |samples| ==>
      bindings[i] in Observed(samples, render)
      && Observed(samples, render)[bindings[i]] == Get(samples[i], "observed_mm")
  {
    var observed := Observed(samples, render);
    forall i | 0 <= i < |samples|
      ensures bindings[i] in observed && observed[bindings[i]] == Get(samples[i], "observed_mm")
    {
      ObservedAt(samples, render, i);
    }
    forall b | b in observed ensures b in bindings {
      var i := ObservedOnly(samples, render, b);
      assert bindings[i] == b;
    }
  }

  /** An accepted item has exactly its five fields, names an accepted candidate and a known geometry kind, is in
      millimetres, and holds exactly its measurements, each under its own binding. */
  lemma AcceptedItem(item: Json, accepted: set<string>)
    requires Parse(item, accepted).Some?
    ensures item.Obj? && |item.fields| == 5 && Get(item, "unit") == Str("mm")
    ensures Get(item, "candidate_ref").Str? && Get(item, "candidate_ref").s in accepted
    ensures Get(item, "geometry_kind") in {Str("line"), Str("circle"), Str("arc"), Str("closed_polyline")}
    ensures Get(item, "entity_ref").Str? && exists c :: c in Get(item, "entity_ref").s && c != ' '
    ensures Get(item, "measurements").Obj? && Get(item, "measurements").fields != map[]
    ensures var fields := Get(item, "measurements").fields;
      && (forall key :: key in fields ==>
            NamedSafely(Str(key)) && (FiniteNumber(fields[key]) || FinitePoint(fields[key])))
      && Parse(item, accepted).value == Measured(Get(item, "candidate_ref").s, map key | key in fields ::
           Binding(Get(item, "candidate_ref").s, Get(item, "entity_ref").s, Get(item, "geometry_kind").s, "mm", key)
           := fields[key])
  {
    FiveKeys();
    assert |item.fields| == |item.fields.Keys|;
    NotBlank(Get(item, "entity_ref"));
    forall key | key in Get(item, "measurements").fields ensures NamedSafely(Str(key)) {
      SafelyNamed(Str(key));
    }
  }

  lemma FiveKeys()
    ensures |MEASURED_KEYS| == 5
  {
  }

  lemma FiledIsBinding(sample: Json, source: Json, accepted: set<string>, render: Json -> string)
    requires forall s :: render(Str(s)) == s
    requires SampleError(sample, source, accepted).Some?
    ensures sample.Obj? && Filed(sample, render) == SampleError(sample, source, accepted).value.binding
  {
    var names := ["candidate_ref", "entity_ref", "geometry_kind", "unit", "measurement_key"];
    forall k | 0 <= k < 5 ensures render(Get(sample, names[k])) == Get(sample, names[k]).s {
      assert Get(sample, names[k]) == Str(Get(sample, names[k]).s);
    }
  }

  /** Two numbers agree when they differ by at most the tolerance, two points when their distance is at most the
      tolerance, and a number never agrees with a point. */
  lemma AgreesExactly(observed: Json, live: Json, tolerance: real)
    requires tolerance >= 0.0
    ensures FiniteNumber(observed) && FiniteNumber(live) ==>
      (Agrees(observed, live, tolerance) <==>
        -tolerance <= Number(live) - Number(observed) <= tolerance)
    ensures FinitePoint(observed) && FinitePoint(live) ==>
      var dx := Number(live.items[0]) - Number(observed.items[0]);
      var dy := Number(live.items[1]) - Number(observed.items[1]);
      Agrees(observed, live, tolerance) <==> dx * dx + dy * dy <= tolerance * tolerance
    ensures !(FiniteNumber(observed) && FiniteNumber(live)) && !(FinitePoint(observed) && FinitePoint(live)) ==>
      !Agrees(observed, live, tolerance)
  {
    if FinitePoint(observed) && FinitePoint(live) {
      var dx := Number(live.items[0]) - Number(observed.items[0]);
      var dy := Number(live.items[1]) - Number(observed.items[1]);
      SquareNegates(dx);
      SquareNegates(dy);
    }
  }

  lemma SquareNegates(x: real)
    ensures Square(-x) == x * x
  {
  }
}
