/** JSON-like evidence trees and the declarative meaning of a semantic golden comparison. */
module GoldenModel {
  import opened GoldenPaths
  import opened Permutations
  import opened Reals
  import opened Text

  /** A binary float, with exact reals standing for its finite values. */
  datatype FloatValue = Finite(r: real) | PositiveInfinity | NegativeInfinity | NaN

  datatype Json =
    | Null
    | Bool(b: bool)
    | Int(n: int)
    | Float(f: FloatValue)
    | Str(s: string)
    | Arr(items: seq<Json>)
    | Obj(fields: map<string, Json>)

  datatype ToleranceProfile = ToleranceProfile(
    absoluteLengthMm: real, relativeLength: real, angularDeg: real, areaMm2: real)

  const DEMO_TOLERANCE := ToleranceProfile(0.001, 0.000000001, 0.0001, 0.01)

  datatype Config = Config(tolerance: ToleranceProfile, ignoredFields: set<string>)

  const DEFAULT_IGNORED_FIELDS: set<string> :=
    {"created_at", "generated_at", "timestamp", "updated_at", "entity_ref", "entity_refs", "handle", "handles"}

  const ORDER_INSENSITIVE_COLLECTIONS: set<string> :=
    {"entities", "parts", "hole_groups", "excluded_contours", "findings"}

  const EXACT_NUMERIC_FIELDS: set<string> :=
    {"count", "entity_count", "pierce_count", "quantity",
     "blocking_count", "error_count", "warning_count", "info_count"}

  predicate IsIgnoredField(key: string, config: Config) {
    var lowered := CaseFold(key);
    || lowered in config.ignoredFields
    || EndsWith(lowered, "_at")
    || EndsWith(lowered, "_timestamp")
    || EndsWith(lowered, "_handle")
    || EndsWith(lowered, "_handles")
    || EndsWith(lowered, "_entity_ref")
    || EndsWith(lowered, "_entity_refs")
  }

  function Kept(fields: map<string, Json>, config: Config): (kept: map<string, Json>) {
    map k | k in fields && !IsIgnoredField(k, config) :: fields[k]
  }

  /** A mapping's value for a key, or null. */
  function Get(t: Json, key: string): Json {
    if t.Obj? && key in t.fields then t.fields[key] else Null
  }

  predicate ReferencesOnly(expected: Json, actual: Json) {
    && expected.Arr? && actual.Arr?
    && (forall i :: 0 <= i < |expected.items| ==> expected.items[i].Str?)
    && (forall i :: 0 <= i < |actual.items| ==> actual.items[i].Str?)
  }

  predicate IsNumber(value: Json) {
    value.Int? || value.Float?
  }

  /** The number a value denotes to Python's equality, under which a Boolean counts as 0 or 1. */
  function NumericValue(value: Json): FloatValue
    requires IsNumber(value) || value.Bool?
  {
    match value
    case Int(n) => Finite(n as real)
    case Float(f) => f
    case Bool(b) => Finite(if b then 1.0 else 0.0)
  }

  predicate NumbersEqual(x: FloatValue, y: FloatValue) {
    x == y && x != NaN
  }

  /** Python's `==` on values that are not both containers of one kind. */
  predicate ValuesEqual(x: Json, y: Json) {
    if (IsNumber(x) || x.Bool?) && (IsNumber(y) || y.Bool?) then NumbersEqual(NumericValue(x), NumericValue(y))
    else (x.Null? || x.Str?) && x == y
  }

  predicate IsClose(a: real, b: real, relative: real, absolute: real) {
    Abs(a - b) <= Max(relative * Max(Abs(a), Abs(b)), absolute)
  }

  /** The difference of two angles, wrapped into [-180, 180) by a floored modulus. */
  function WrappedDifference(a: real, b: real): real {
    var shifted := a - b + 180.0;
    shifted - 360.0 * (shifted / 360.0).Floor as real - 180.0
  }

  predicate NumbersClose(expected: Json, actual: Json, leaf: string, tolerance: ToleranceProfile)
    requires IsNumber(expected) && IsNumber(actual)
  {
    var x, y := NumericValue(expected), NumericValue(actual);
    if leaf in EXACT_NUMERIC_FIELDS || (expected.Int? && actual.Int?) || !x.Finite? || !y.Finite? then
      NumbersEqual(x, y)
    else if Contains(leaf, "angle") || EndsWith(leaf, "_deg") then
      Abs(WrappedDifference(x.r, y.r)) <= tolerance.angularDeg
    else if Contains(leaf, "area") || EndsWith(leaf, "_mm2") then
      IsClose(x.r, y.r, tolerance.relativeLength, tolerance.areaMm2)
    else
      IsClose(x.r, y.r, tolerance.relativeLength, tolerance.absoluteLengthMm)
  }

  /** The two trees mean the same drawing: fields agree up to the ignored ones and evidence references,
      numbers agree within tolerance, and collections named order-insensitive agree under some pairing. */
  ghost predicate Matches(expected: Json, actual: Json, leaf: string, config: Config)
    decreases expected
  {
    if expected.Obj? && actual.Obj? then
      var e, a := Kept(expected.fields, config), Kept(actual.fields, config);
      && e.Keys == a.Keys
      && forall k :: k in e ==>
           || (leaf == "evidence" && ReferencesOnly(e[k], a[k]))
           || Matches(e[k], a[k], PathLeaf(k), config)
    else if expected.Arr? && actual.Arr? then
      var n := |expected.items|;
      && |actual.items| == n
      && if leaf in ORDER_INSENSITIVE_COLLECTIONS then
           exists p :: IsPermutation(p, n)
             && forall i :: 0 <= i < n ==> Matches(expected.items[i], actual.items[p[i]], leaf, config)
         else
           forall i :: 0 <= i < n ==> Matches(expected.items[i], actual.items[i], leaf, config)
    else if IsNumber(expected) && IsNumber(actual) then
      NumbersClose(expected, actual, leaf, config.tolerance)
    else
      ValuesEqual(expected, actual)
  }

  /** The permutation p pairs each expected item with an actual item that means the same. */
  ghost predicate MatchesPairing(expected: Json, actual: Json, p: seq<nat>, leaf: string, config: Config)
    requires expected.Arr? && actual.Arr?
  {
    && |expected.items| == |actual.items|
    && IsPermutation(p, |expected.items|)
    && forall i :: 0 <= i < |expected.items| ==> Matches(expected.items[i], actual.items[p[i]], leaf, config)
  }

  /** Fields e and a agree under key k of a mapping whose leaf is `leaf`. */
  ghost predicate FieldMatches(e: map<string, Json>, a: map<string, Json>, k: string, leaf: string, config: Config) {
    && k in e && k in a
    && ((leaf == "evidence" && ReferencesOnly(e[k], a[k])) || Matches(e[k], a[k], PathLeaf(k), config))
  }

  lemma MatchesFields(expected: Json, actual: Json, leaf: string, config: Config)
    requires expected.Obj? && actual.Obj?
    ensures Matches(expected, actual, leaf, config) <==>
      var e, a := Kept(expected.fields, config), Kept(actual.fields, config);
      forall k :: k in e.Keys + a.Keys ==> FieldMatches(e, a, k, leaf, config)
  {
    var e, a := Kept(expected.fields, config), Kept(actual.fields, config);
    if forall k :: k in e.Keys + a.Keys ==> FieldMatches(e, a, k, leaf, config) {
      forall k | k in e.Keys + a.Keys ensures k in e && k in a { assert FieldMatches(e, a, k, leaf, config); }
      forall k | k in e ensures FieldMatches(e, a, k, leaf, config) { assert k in e.Keys + a.Keys; }
    }
  }

  /** The pairing that an order-insensitive match asserts. */
  ghost function PairingFor(expected: Json, actual: Json, leaf: string, config: Config): (p: seq<nat>)
    requires expected.Arr? && actual.Arr? && leaf in ORDER_INSENSITIVE_COLLECTIONS
    requires Matches(expected, actual, leaf, config)
    ensures MatchesPairing(expected, actual, p, leaf, config)
  {
    var n := |expected.items|;
    var p :| IsPermutation(p, n)
             && forall i :: 0 <= i < n ==> Matches(expected.items[i], actual.items[p[i]], leaf, config);
    p
  }
}
