/** The production golden check: a drawing's entities against the expected semantic entities. */
module ProductionGolden {
  import opened GreedyPairing
  import opened GoldenLeaves
  import opened GoldenModel

  /** A drawing entity with its derived measurements. */
  datatype Entity = Entity(entityType: string, layer: string, measurements: map<string, Json>)

  predicate FloatsClose(x: FloatValue, y: FloatValue) {
    if x.Finite? && y.Finite? then IsClose(x.r, y.r, 0.000000001, 0.000001) else NumbersEqual(x, y)
  }

  predicate MeasurementEqual(left: Json, right: Json) {
    if IsNumber(left) && IsNumber(right) then FloatsClose(NumericValue(left), NumericValue(right))
    else ValuesEqual(left, right)
  }

  predicate WellFormed(raw: Json) {
    raw.Obj? && Get(raw, "measurements").Obj?
  }

  /** The entity satisfies one expected record: same type, same layer, every expected measurement present. */
  predicate Satisfies(raw: Json, entity: Entity) {
    && WellFormed(raw)
    && Get(raw, "entity_type") == Str(entity.entityType)
    && Get(raw, "layer") == Str(entity.layer)
    && var expected := Get(raw, "measurements").fields;
       forall key :: key in expected ==>
         key in entity.measurements && MeasurementEqual(entity.measurements[key], expected[key])
  }

  /** The expected document announces as many entities as the drawing has. */
  predicate CountsAgree(entities: seq<Entity>, expected: Json) {
    && expected.Obj?
    && ValuesEqual(Get(expected, "entity_count"), Int(|entities|))
    && Get(expected, "entities").Arr?
    && |Get(expected, "entities").items| == |entities|
  }

  method MatchesExpected(entities: seq<Entity>, expected: Json) returns (matches: bool)
    ensures matches <==>
      CountsAgree(entities, expected) && FirstFit(Satisfies, Get(expected, "entities").items, entities)
  {
    if !expected.Obj? || !ValuesEqual(Get(expected, "entity_count"), Int(|entities|)) {
      return false;
    }
    var rawEntities := Get(expected, "entities");
    if !rawEntities.Arr? || |rawEntities.items| != |entities| {
      return false;
    }
    var raws := rawEntities.items;
    var remaining := entities;
    var n := 0;
    while n < |raws|
      invariant 0 <= n <= |raws|
      invariant FirstFit(Satisfies, raws, entities) <==> FirstFit(Satisfies, raws[n..], remaining)
    {
      var raw := raws[n];
      if !WellFormed(raw) {
        return false;
      }
      var index := 0;
      while index < |remaining| && !Satisfies(raw, remaining[index])
        invariant 0 <= index <= |remaining|
        invariant forall k :: 0 <= k < index ==> !Satisfies(raw, remaining[k])
      {
        index := index + 1;
      }
      assert raws[n..][0] == raw && raws[n..][1..] == raws[n + 1..];
      assert FirstAccepted(Satisfies, raw, remaining) == index;
      if index == |remaining| {
        return false;
      }
      remaining := Without(remaining, index);
      n := n + 1;
    }
    matches := remaining == [];
  }

  /** A passing check is backed by a pairing of expected records with entities; it is also forced by one,
      when records sharing a satisfying entity are satisfied by the same entities. */
  lemma MatchesExpectedMeansPairing(entities: seq<Entity>, expected: Json)
    requires CountsAgree(entities, expected)
    ensures var raws := Get(expected, "entities").items;
      && (FirstFit(Satisfies, raws, entities) ==> Pairable(Satisfies, raws, entities))
      && (Difunctional(Satisfies, set x | x in raws, set y | y in entities) ==>
           (FirstFit(Satisfies, raws, entities) <==> Pairable(Satisfies, raws, entities)))
  {
    var raws := Get(expected, "entities").items;
    var dx, dy := set x | x in raws, set y | y in entities;
    if FirstFit(Satisfies, raws, entities) {
      FirstFitSound(Satisfies, raws, entities);
    }
    if Difunctional(Satisfies, dx, dy) && Pairable(Satisfies, raws, entities) {
      FirstFitComplete(Satisfies, dx, dy, raws, entities);
    }
  }

  /** A horizontal line of the given length, as the drawing reader measures it. */
  function LineMeasurements(length: real): map<string, Json> {
    map["width_mm" := Float(Finite(length)), "height_mm" := Float(Finite(0.0)), "length_mm" := Float(Finite(length))]
  }

  function Line(length: real): Entity {
    Entity("AcDbLine", "0", LineMeasurements(length))
  }

  function LineRecord(length: real): Json {
    Obj(map["entity_type" := Str("AcDbLine"), "layer" := Str("0"), "measurements" := Obj(LineMeasurements(length))])
  }

  function Document(raws: seq<Json>): Json {
    Obj(map["entity_count" := Int(|raws|), "entities" := Arr(raws)])
  }

  /** Closeness is not transitive, so the check can reject a drawing that satisfies every expected record:
      the first record takes the only line the second one accepts. */
  lemma RejectsAPairableDrawing()
    ensures var raws := [LineRecord(10.0), LineRecord(10.0000018)];
            var drawing := [Line(10.0000009), Line(9.9999991)];
            && CountsAgree(drawing, Document(raws)) && Pairable(Satisfies, raws, drawing)
            && !FirstFit(Satisfies, Get(Document(raws), "entities").items, drawing)
  {
    DocumentAgrees([Line(10.0000009), Line(9.9999991)], [LineRecord(10.0), LineRecord(10.0000018)]);
    LinesAccepted();
    Stuck(Satisfies, LineRecord(10.0), LineRecord(10.0000018), Line(10.0000009), Line(9.9999991));
  }

  lemma DocumentAgrees(drawing: seq<Entity>, raws: seq<Json>)
    requires |drawing| == |raws|
    ensures CountsAgree(drawing, Document(raws)) && Get(Document(raws), "entities") == Arr(raws)
  {
    assert Get(Document(raws), "entity_count") == Int(|raws|);
  }

  lemma LinesAccepted()
    ensures Satisfies(LineRecord(10.0), Line(10.0000009)) && Satisfies(LineRecord(10.0), Line(9.9999991))
    ensures Satisfies(LineRecord(10.0000018), Line(10.0000009)) && !Satisfies(LineRecord(10.0000018), Line(9.9999991))
  {
    LinesCompared(10.0, 10.0000009);
    LinesCompared(10.0, 9.9999991);
    LinesCompared(10.0000018, 10.0000009);
    LinesCompared(10.0000018, 9.9999991);
  }

  lemma LinesCompared(expected: real, actual: real)
    ensures Satisfies(LineRecord(expected), Line(actual)) <==> IsClose(actual, expected, 0.000000001, 0.000001)
  {
    var m := LineMeasurements(expected);
    assert Get(LineRecord(expected), "measurements") == Obj(m);
    assert MeasurementEqual(Float(Finite(0.0)), Float(Finite(0.0)));
    assert "width_mm" in m && "height_mm" in m && "length_mm" in m;
  }

  /** A record is satisfied exactly by entities of its type and layer that have each of its measurements, numbers
      within a millionth absolutely or a billionth relatively, and everything else literally. */
  lemma SatisfiesExactly(entityType: string, layer: string, expected: map<string, Json>, entity: Entity)
    ensures var raw := Obj(map["entity_type" := Str(entityType), "layer" := Str(layer),
                               "measurements" := Obj(expected)]);
      Satisfies(raw, entity) <==>
        && entity.entityType == entityType && entity.layer == layer
        && forall key :: key in expected ==>
             key in entity.measurements && MeasurementEqual(entity.measurements[key], expected[key])
  {
    var raw := Obj(map["entity_type" := Str(entityType), "layer" := Str(layer), "measurements" := Obj(expected)]);
    assert Get(raw, "entity_type") == Str(entityType) && Get(raw, "layer") == Str(layer);
    assert Get(raw, "measurements") == Obj(expected);
  }

  /** Measurements that are finite numbers agree within a millionth absolutely or a billionth relatively. */
  lemma CountsAgreeExactly(entities: seq<Entity>, announced: int, raws: seq<Json>)
    ensures CountsAgree(entities, Obj(map["entity_count" := Int(announced), "entities" := Arr(raws)])) <==>
            announced == |entities| == |raws|
  {
    var m := map["entity_count" := Int(announced), "entities" := Arr(raws)];
    assert m["entity_count"] == Int(announced) && m["entities"] == Arr(raws);
  }

  lemma MeasurementsAgreeExactly(x: Json, y: Json)
    ensures IsNumber(x) && IsNumber(y) && NumericValue(x).Finite? && NumericValue(y).Finite? ==>
      (MeasurementEqual(x, y) <==> Near(NumericValue(x).r, NumericValue(y).r, 0.000000001, 0.000001))
    ensures x.Bool? && y.Bool? ==> (MeasurementEqual(x, y) <==> x.b == y.b)
    ensures x.Str? || y.Str? || x.Null? || y.Null? ==> (MeasurementEqual(x, y) <==> x == y)
  {
    if IsNumber(x) && IsNumber(y) && NumericValue(x).Finite? && NumericValue(y).Finite? {
      IsCloseExactly(NumericValue(x).r, NumericValue(y).r, 0.000000001, 0.000001);
    }
  }
}
