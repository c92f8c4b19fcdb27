/** The comparator itself: it accumulates mismatches, and finds none exactly when the trees match. */
module GoldenComparison {
  import opened GoldenLeaves
  import opened GoldenModel
  import opened GoldenPaths
  import opened Matching
  import opened Permutations
  import opened Text
  import opened TextOrder

  datatype Reason =
    | NumericOutsideTolerance | ValueDiffers | UnexpectedField | MissingField | SizeDiffers | MembersDiffer

  datatype Mismatch = Mismatch(path: string, expected: Json, actual: Json, reason: Reason)

  /** x occurs in the tree t. */
  ghost predicate Occurs(x: Json, t: Json)
    decreases t
  {
    || x == t
    || (t.Arr? && exists i :: 0 <= i < |t.items| && Occurs(x, t.items[i]))
    || (t.Obj? && exists k :: k in t.fields && Occurs(x, t.fields[k]))
  }

  ghost predicate SizesDiffer(m: Mismatch, xs: Json, ys: Json) {
    && xs.Arr? && ys.Arr? && |xs.items| != |ys.items|
    && m.expected == Int(|xs.items|) && m.actual == Int(|ys.items|)
  }

  /** k is a kept field of ys that xs lacks. */
  ghost predicate Lacks(xs: Json, ys: Json, k: string, config: Config) {
    xs.Obj? && ys.Obj? && k !in Kept(xs.fields, config) && k in Kept(ys.fields, config)
  }

  ghost predicate IsUnexpected(m: Mismatch, xs: Json, ys: Json, k: string, config: Config) {
    Lacks(xs, ys, k, config) && m.expected == Str("<missing>") && m.actual == ys.fields[k]
  }

  ghost predicate IsMissing(m: Mismatch, xs: Json, ys: Json, k: string, config: Config) {
    Lacks(ys, xs, k, config) && m.expected == xs.fields[k] && m.actual == Str("<missing>")
  }

  /** A reported mismatch points at a real difference: its sides come from their own trees, in order, and
      differ for the stated reason. */
  ghost predicate Genuine(m: Mismatch, expected: Json, actual: Json, config: Config) {
    match m.reason
    case NumericOutsideTolerance =>
      && Occurs(m.expected, expected) && Occurs(m.actual, actual)
      && IsNumber(m.expected) && IsNumber(m.actual)
      && !NumbersClose(m.expected, m.actual, PathLeaf(m.path), config.tolerance)
    case ValueDiffers =>
      && Occurs(m.expected, expected) && Occurs(m.actual, actual)
      && !ValuesEqual(m.expected, m.actual)
    case UnexpectedField =>
      exists xs, ys, k :: Occurs(xs, expected) && Occurs(ys, actual) && IsUnexpected(m, xs, ys, k, config)
    case MissingField =>
      exists xs, ys, k :: Occurs(xs, expected) && Occurs(ys, actual) && IsMissing(m, xs, ys, k, config)
    case SizeDiffers =>
      exists xs, ys :: Occurs(xs, expected) && Occurs(ys, actual) && SizesDiffer(m, xs, ys)
    case MembersDiffer => false
  }

  /** Every mismatch is genuine and lies at or below `path`. */
  ghost predicate AllGenuine(ms: seq<Mismatch>, expected: Json, actual: Json, path: string, config: Config) {
    forall m :: m in ms ==> path <= m.path && Genuine(m, expected, actual, config)
  }

  /** Pairs, from actual to expected index, of items that match; no item is used twice. */
  ghost predicate IsPairing(e: Json, a: Json, pairs: Assignment, leaf: string, config: Config) {
    && e.Arr? && a.Arr?
    && (forall y :: y in pairs ==>
         y < |a.items| && pairs[y] < |e.items| && Matches(e.items[pairs[y]], a.items[y], leaf, config))
    && (forall y, z :: y in pairs && z in pairs && pairs[y] == pairs[z] ==> y == z)
  }

  /** No pairing is larger than `best`, and it leaves over exactly the expected items `us` and the equally many
      actual items `vs`, none of which match. */
  ghost predicate BestPairing(e: Json, a: Json, best: Assignment, us: seq<nat>, vs: seq<nat>,
                              leaf: string, config: Config) {
    && IsPairing(e, a, best, leaf, config)
    && (forall other :: IsPairing(e, a, other, leaf, config) ==> |other| <= |best|)
    && Increasing(us) && Increasing(vs) && |us| == |vs|
    && (forall i :: 0 <= i < |us| ==> us[i] < |e.items| && vs[i] < |a.items|)
    && (forall x: nat :: x in us <==> x < |e.items| && x !in best.Values)
    && (forall y: nat :: y in vs <==> y < |a.items| && y !in best)
    && (forall x, y :: x in us && y in vs ==> !Matches(e.items[x], a.items[y], leaf, config))
  }

  /** No difference is lost: the mismatches hold one for every kept field that only one side has, every size
      difference, every differing leaf value, and, for an order-insensitive collection that does not match, all
      differences of every two items that are paired off after a best pairing of matching items. */
  ghost predicate Complete(ms: seq<Mismatch>, e: Json, a: Json, path: string, config: Config)
    decreases e
  {
    if e.Obj? && a.Obj? then
      var f, g := Kept(e.fields, config), Kept(a.fields, config);
      && (forall k :: k in g && k !in f ==> Mismatch(path + "." + k, Str("<missing>"), g[k], UnexpectedField) in ms)
      && (forall k :: k in f && k !in g ==> Mismatch(path + "." + k, f[k], Str("<missing>"), MissingField) in ms)
      && (forall k :: k in f && k in g ==>
           (PathLeaf(path) == "evidence" && ReferencesOnly(f[k], g[k]))
           || Complete(ms, f[k], g[k], path + "." + k, config))
    else if e.Arr? && a.Arr? then
      var n, m := |e.items|, |a.items|;
      if n != m && PathLeaf(path) in ORDER_INSENSITIVE_COLLECTIONS then
        Mismatch(path, Int(n), Int(m), SizeDiffers) in ms
      else if PathLeaf(path) in ORDER_INSENSITIVE_COLLECTIONS then
        Matches(e, a, PathLeaf(path), config)
        || exists best: Assignment, us: seq<nat>, vs: seq<nat> ::
             && BestPairing(e, a, best, us, vs, PathLeaf(path), config)
             && forall i :: 0 <= i < |us| ==>
                  Complete(ms, e.items[us[i]], a.items[vs[i]], ItemPath(path, "semantic:" + Digits(us[i])), config)
      else
        && (n != m ==> Mismatch(path, Int(n), Int(m), SizeDiffers) in ms)
        && forall i :: 0 <= i < n && i < m ==> Complete(ms, e.items[i], a.items[i], ItemPath(path, Digits(i)), config)
    else if IsNumber(e) && IsNumber(a) then
      NumbersClose(e, a, PathLeaf(path), config.tolerance) || Mismatch(path, e, a, NumericOutsideTolerance) in ms
    else
      ValuesEqual(e, a) || Mismatch(path, e, a, ValueDiffers) in ms
  }

  function ItemPath(path: string, selector: string): string {
    path + "[" + selector + "]"
  }

  lemma {:induction false} CompleteGrows(ms: seq<Mismatch>, more: seq<Mismatch>, e: Json, a: Json,
                                        path: string, config: Config)
    requires Complete(ms, e, a, path, config) && forall m :: m in ms ==> m in more
    ensures Complete(more, e, a, path, config)
    decreases e, 1
  {
    if e.Obj? && a.Obj? {
      var f, g := Kept(e.fields, config), Kept(a.fields, config);
      forall k | k in f && k in g && Complete(ms, f[k], g[k], path + "." + k, config)
        ensures Complete(more, f[k], g[k], path + "." + k, config)
      {
        CompleteGrows(ms, more, f[k], g[k], path + "." + k, config);
      }
    } else if e.Arr? && a.Arr? {
      if PathLeaf(path) !in ORDER_INSENSITIVE_COLLECTIONS {
        forall i | 0 <= i < |e.items| && i < |a.items|
          ensures Complete(more, e.items[i], a.items[i], ItemPath(path, Digits(i)), config)
        {
          CompleteGrows(ms, more, e.items[i], a.items[i], ItemPath(path, Digits(i)), config);
        }
      } else if |e.items| == |a.items| && !Matches(e, a, PathLeaf(path), config) {
        CollectionGrows(ms, more, e, a, path, config);
      }
    }
  }

  lemma {:induction false} CollectionGrows(ms: seq<Mismatch>, more: seq<Mismatch>, e: Json, a: Json,
                                          path: string, config: Config)
    requires e.Arr? && a.Arr? && |e.items| == |a.items| && PathLeaf(path) in ORDER_INSENSITIVE_COLLECTIONS
    requires !Matches(e, a, PathLeaf(path), config)
    requires Complete(ms, e, a, path, config) && forall m :: m in ms ==> m in more
    ensures Complete(more, e, a, path, config)
    decreases e, 0
  {
    var best: Assignment, us: seq<nat>, vs: seq<nat> :|
      && BestPairing(e, a, best, us, vs, PathLeaf(path), config)
      && forall i :: 0 <= i < |us| ==>
           Complete(ms, e.items[us[i]], a.items[vs[i]], ItemPath(path, "semantic:" + Digits(us[i])), config);
    forall i | 0 <= i < |us| ensures
      Complete(more, e.items[us[i]], a.items[vs[i]], ItemPath(path, "semantic:" + Digits(us[i])), config)
    {
      CompleteGrows(ms, more, e.items[us[i]], a.items[vs[i]], ItemPath(path, "semantic:" + Digits(us[i])), config);
    }
  }

  lemma GenuineBelow(ms: seq<Mismatch>, e: Json, a: Json, below: string,
                     expected: Json, actual: Json, path: string, config: Config)
    requires AllGenuine(ms, e, a, below, config) && path <= below
    requires forall x :: Occurs(x, e) ==> Occurs(x, expected)
    requires forall x :: Occurs(x, a) ==> Occurs(x, actual)
    ensures AllGenuine(ms, expected, actual, path, config)
  {
  }

  lemma FieldsOccur(t: Json, k: string)
    requires t.Obj?
    ensures k in t.fields ==> Occurs(t.fields[k], t) && forall x :: Occurs(x, t.fields[k]) ==> Occurs(x, t)
  {
  }

  lemma ItemsOccur(t: Json, i: nat)
    requires t.Arr? && i < |t.items|
    ensures Occurs(t.items[i], t) && forall x :: Occurs(x, t.items[i]) ==> Occurs(x, t)
  {
  }

  method Compare(expected: Json, actual: Json, path: string, config: Config) returns (mismatches: seq<Mismatch>)
    ensures mismatches == [] <==> Matches(expected, actual, PathLeaf(path), config)
    ensures AllGenuine(mismatches, expected, actual, path, config)
    ensures Complete(mismatches, expected, actual, path, config)
    ensures Tolerated(expected, actual, PathLeaf(path), config.tolerance) ==>
      (mismatches == [] <==> AgreeWithin(expected, actual, PathLeaf(path), config.tolerance))
    decreases expected, 4
  {
    if Tolerated(expected, actual, PathLeaf(path), config.tolerance) {
      NumbersVerdict(expected, actual, PathLeaf(path), config);
    }
    if expected.Obj? && actual.Obj? {
      mismatches := CompareMappings(expected, actual, path, config);
    } else if expected.Arr? && actual.Arr? {
      if PathLeaf(path) in ORDER_INSENSITIVE_COLLECTIONS {
        mismatches := CompareUnordered(expected, actual, path, config);
      } else {
        mismatches := CompareOrdered(expected, actual, path, config);
      }
    } else if IsNumber(expected) && IsNumber(actual) {
      mismatches := if NumbersClose(expected, actual, PathLeaf(path), config.tolerance) then []
      else [Mismatch(path, expected, actual, NumericOutsideTolerance)];
    } else {
      mismatches := if ValuesEqual(expected, actual) then []
      else [Mismatch(path, expected, actual, ValueDiffers)];
    }
  }

  method CompareMappings(expected: Json, actual: Json, path: string, config: Config)
    returns (mismatches: seq<Mismatch>)
    requires expected.Obj? && actual.Obj?
    ensures mismatches == [] <==> Matches(expected, actual, PathLeaf(path), config)
    ensures AllGenuine(mismatches, expected, actual, path, config)
    ensures Complete(mismatches, expected, actual, path, config)
    decreases expected, 2
  {
    var keys := SortedStrings(Kept(expected.fields, config).Keys + Kept(actual.fields, config).Keys);
    mismatches := CompareFields(expected, actual, keys, path, config);
    FieldsDecide(expected, actual, PathLeaf(path), config, keys);
    AllFieldsComplete(mismatches, expected, actual, keys, path, config);
  }

  /** Compare the fields under the given names one after the other. */
  method CompareFields(expected: Json, actual: Json, keys: seq<string>, path: string, config: Config)
    returns (mismatches: seq<Mismatch>)
    requires expected.Obj? && actual.Obj?
    requires forall k :: k in keys ==>
      k in Kept(expected.fields, config).Keys + Kept(actual.fields, config).Keys
    ensures var f, g := Kept(expected.fields, config), Kept(actual.fields, config);
      && (mismatches == [] <==> forall j :: 0 <= j < |keys| ==> FieldMatches(f, g, keys[j], PathLeaf(path), config))
      && FieldsComplete(mismatches, f, g, keys, path, config)
    ensures AllGenuine(mismatches, expected, actual, path, config)
    decreases expected, 1
  {
    var expectedFields, actualFields := Kept(expected.fields, config), Kept(actual.fields, config);
    mismatches := [];
    var i := 0;
    while i < |keys|
      invariant 0 <= i <= |keys|
      invariant mismatches == [] <==>
        forall j :: 0 <= j < i ==> FieldMatches(expectedFields, actualFields, keys[j], PathLeaf(path), config)
      invariant AllGenuine(mismatches, expected, actual, path, config)
      invariant FieldsComplete(mismatches, expectedFields, actualFields, keys[..i], path, config)
    {
      assert keys[i] in keys;
      var below := CompareField(expected, actual, keys[i], path, config);
      AddField(mismatches, below, expectedFields, actualFields, keys[..i], keys[i], path, config);
      assert keys[..i + 1] == keys[..i] + [keys[i]];
      mismatches := mismatches + below;
      i := i + 1;
    }
    assert keys[..i] == keys;
  }

  /** What completeness asks of one field name. */
  ghost predicate FieldComplete(ms: seq<Mismatch>, f: map<string, Json>, g: map<string, Json>, k: string,
                                path: string, config: Config) {
    && (k in g && k !in f ==> Mismatch(path + "." + k, Str("<missing>"), g[k], UnexpectedField) in ms)
    && (k in f && k !in g ==> Mismatch(path + "." + k, f[k], Str("<missing>"), MissingField) in ms)
    && (k in f && k in g ==>
         (PathLeaf(path) == "evidence" && ReferencesOnly(f[k], g[k]))
         || Complete(ms, f[k], g[k], path + "." + k, config))
  }

  ghost predicate FieldsComplete(ms: seq<Mismatch>, f: map<string, Json>, g: map<string, Json>, keys: seq<string>,
                                 path: string, config: Config) {
    forall k :: k in keys ==> FieldComplete(ms, f, g, k, path, config)
  }

  lemma AddField(ms: seq<Mismatch>, below: seq<Mismatch>, f: map<string, Json>, g: map<string, Json>,
                 keys: seq<string>, key: string, path: string, config: Config)
    requires FieldsComplete(ms, f, g, keys, path, config) && FieldComplete(below, f, g, key, path, config)
    ensures FieldsComplete(ms + below, f, g, keys + [key], path, config)
  {
    FieldGrows(below, ms + below, f, g, key, path, config);
    forall k | k in keys ensures FieldComplete(ms + below, f, g, k, path, config) {
      FieldGrows(ms, ms + below, f, g, k, path, config);
    }
  }

  lemma FieldGrows(ms: seq<Mismatch>, more: seq<Mismatch>, f: map<string, Json>, g: map<string, Json>,
                   k: string, path: string, config: Config)
    requires FieldComplete(ms, f, g, k, path, config) && forall m :: m in ms ==> m in more
    ensures FieldComplete(more, f, g, k, path, config)
  {
    if k in f && k in g && Complete(ms, f[k], g[k], path + "." + k, config) {
      CompleteGrows(ms, more, f[k], g[k], path + "." + k, config);
    }
  }

  lemma AllFieldsComplete(ms: seq<Mismatch>, e: Json, a: Json, keys: seq<string>, path: string, config: Config)
    requires e.Obj? && a.Obj?
    requires forall k :: k in Kept(e.fields, config).Keys + Kept(a.fields, config).Keys ==> k in keys
    requires FieldsComplete(ms, Kept(e.fields, config), Kept(a.fields, config), keys, path, config)
    ensures Complete(ms, e, a, path, config)
  {
    var f, g := Kept(e.fields, config), Kept(a.fields, config);
    forall k | k in f || k in g ensures FieldComplete(ms, f, g, k, path, config) {
      assert k in f.Keys + g.Keys;
    }
  }

  lemma FieldsDecide(expected: Json, actual: Json, leaf: string, config: Config, keys: seq<string>)
    requires expected.Obj? && actual.Obj?
    requires forall k :: k in keys <==> k in Kept(expected.fields, config).Keys + Kept(actual.fields, config).Keys
    ensures Matches(expected, actual, leaf, config) <==>
            forall j :: 0 <= j < |keys| ==>
              FieldMatches(Kept(expected.fields, config), Kept(actual.fields, config), keys[j], leaf, config)
  {
    MatchesFields(expected, actual, leaf, config);
    var e, a := Kept(expected.fields, config), Kept(actual.fields, config);
    if forall j :: 0 <= j < |keys| ==> FieldMatches(e, a, keys[j], leaf, config) {
      forall k | k in e.Keys + a.Keys ensures FieldMatches(e, a, k, leaf, config) {
        assert k in keys;
      }
    }
  }

  /** The body of the mapping loop, for one kept field. */
  method CompareField(expected: Json, actual: Json, key: string, path: string, config: Config)
    returns (mismatches: seq<Mismatch>)
    requires expected.Obj? && actual.Obj?
    requires key in Kept(expected.fields, config).Keys + Kept(actual.fields, config).Keys
    ensures mismatches == [] <==>
      FieldMatches(Kept(expected.fields, config), Kept(actual.fields, config), key, PathLeaf(path), config)
    ensures AllGenuine(mismatches, expected, actual, path, config)
    ensures FieldComplete(mismatches, Kept(expected.fields, config), Kept(actual.fields, config), key, path, config)
    decreases expected, 0
  {
    var expectedFields, actualFields := Kept(expected.fields, config), Kept(actual.fields, config);
    var childPath := path + "." + key;
    FieldsOccur(expected, key);
    FieldsOccur(actual, key);
    if key !in expectedFields {
      mismatches := [Mismatch(childPath, Str("<missing>"), actualFields[key], UnexpectedField)];
      assert IsUnexpected(mismatches[0], expected, actual, key, config);
    } else if key !in actualFields {
      mismatches := [Mismatch(childPath, expectedFields[key], Str("<missing>"), MissingField)];
      assert IsMissing(mismatches[0], expected, actual, key, config);
    } else if PathLeaf(path) == "evidence" && ReferencesOnly(expectedFields[key], actualFields[key]) {
      mismatches := [];
    } else {
      LeafOfField(path, key);
      mismatches := Compare(expectedFields[key], actualFields[key], childPath, config);
      GenuineBelow(mismatches, expectedFields[key], actualFields[key], childPath, expected, actual, path, config);
    }
  }

  method CompareOrdered(expected: Json, actual: Json, path: string, config: Config)
    returns (mismatches: seq<Mismatch>)
    requires expected.Arr? && actual.Arr?
    requires PathLeaf(path) !in ORDER_INSENSITIVE_COLLECTIONS
    ensures mismatches == [] <==> Matches(expected, actual, PathLeaf(path), config)
    ensures AllGenuine(mismatches, expected, actual, path, config)
    ensures Complete(mismatches, expected, actual, path, config)
    decreases expected, 3
  {
    var n, m := |expected.items|, |actual.items|;
    mismatches := [];
    if n != m {
      mismatches := [Mismatch(path, Int(n), Int(m), SizeDiffers)];
      assert SizesDiffer(mismatches[0], expected, actual);
    }
    var pairs := PositionPairs(if n < m then n else m);
    var below := ComparePairs(expected, actual, pairs, path, config);
    ghost var sizes := mismatches;
    mismatches := mismatches + below;
    OrderedComplete(sizes, below, expected, actual, pairs, path, config);
  }

  function PositionPairs(n: nat): (pairs: seq<ItemPair>)
    ensures |pairs| == n
    ensures forall i :: 0 <= i < n ==> pairs[i] == ItemPair(i, i, Digits(i)) && '.' !in pairs[i].selector
  {
    seq(n, i requires 0 <= i < n => ItemPair(i, i, Digits(i)))
  }

  lemma OrderedComplete(sizes: seq<Mismatch>, below: seq<Mismatch>, expected: Json, actual: Json,
                        pairs: seq<ItemPair>, path: string, config: Config)
    requires expected.Arr? && actual.Arr? && PathLeaf(path) !in ORDER_INSENSITIVE_COLLECTIONS
    requires |pairs| == if |expected.items| < |actual.items| then |expected.items| else |actual.items|
    requires forall i :: 0 <= i < |pairs| ==> pairs[i] == ItemPair(i, i, Digits(i))
    requires |expected.items| != |actual.items| ==>
      Mismatch(path, Int(|expected.items|), Int(|actual.items|), SizeDiffers) in sizes
    requires PairsComplete(below, expected, actual, pairs, path, config)
    ensures Complete(sizes + below, expected, actual, path, config)
  {
    forall i | 0 <= i < |pairs|
      ensures Complete(sizes + below, expected.items[i], actual.items[i], ItemPath(path, Digits(i)), config)
    {
      assert PairComplete(below, expected, actual, pairs[i], path, config);
      CompleteGrows(below, sizes + below, expected.items[i], actual.items[i], ItemPath(path, Digits(i)), config);
    }
  }

  /** An expected and an actual item, and the selector they are compared under. */
  datatype ItemPair = ItemPair(expected: nat, actual: nat, selector: string)

  ghost predicate PairInRange(p: ItemPair, expected: Json, actual: Json) {
    && expected.Arr? && actual.Arr? && p.expected < |expected.items| && p.actual < |actual.items|
    && '.' !in p.selector
  }

  ghost predicate PairMatches(expected: Json, actual: Json, p: ItemPair, leaf: string, config: Config)
    requires PairInRange(p, expected, actual)
  {
    Matches(expected.items[p.expected], actual.items[p.actual], leaf, config)
  }

  ghost predicate PairComplete(ms: seq<Mismatch>, expected: Json, actual: Json, p: ItemPair,
                               path: string, config: Config) {
    && PairInRange(p, expected, actual)
    && Complete(ms, expected.items[p.expected], actual.items[p.actual], ItemPath(path, p.selector), config)
  }

  ghost predicate PairsComplete(ms: seq<Mismatch>, expected: Json, actual: Json, pairs: seq<ItemPair>,
                                path: string, config: Config) {
    forall i :: 0 <= i < |pairs| ==> PairComplete(ms, expected, actual, pairs[i], path, config)
  }

  lemma AddPair(ms: seq<Mismatch>, below: seq<Mismatch>, expected: Json, actual: Json,
                pairs: seq<ItemPair>, p: ItemPair, path: string, config: Config)
    requires PairsComplete(ms, expected, actual, pairs, path, config)
    requires PairComplete(below, expected, actual, p, path, config)
    ensures PairsComplete(ms + below, expected, actual, pairs + [p], path, config)
  {
    PairGrows(below, ms + below, expected, actual, p, path, config);
    forall i | 0 <= i < |pairs| ensures PairComplete(ms + below, expected, actual, pairs[i], path, config) {
      PairGrows(ms, ms + below, expected, actual, pairs[i], path, config);
    }
  }

  lemma PairGrows(ms: seq<Mismatch>, more: seq<Mismatch>, expected: Json, actual: Json, p: ItemPair,
                  path: string, config: Config)
    requires PairComplete(ms, expected, actual, p, path, config) && forall m :: m in ms ==> m in more
    ensures PairComplete(more, expected, actual, p, path, config)
  {
    CompleteGrows(ms, more, expected.items[p.expected], actual.items[p.actual], ItemPath(path, p.selector), config);
  }

  /** The mismatches are those of the given pairs. */
  ghost predicate PairsCompared(ms: seq<Mismatch>, expected: Json, actual: Json, pairs: seq<ItemPair>,
                                path: string, config: Config) {
    && (forall i :: 0 <= i < |pairs| ==> PairInRange(pairs[i], expected, actual))
    && (ms == [] <==>
         forall i :: 0 <= i < |pairs| ==> PairMatches(expected, actual, pairs[i], PathLeaf(path), config))
    && AllGenuine(ms, expected, actual, path, config)
    && PairsComplete(ms, expected, actual, pairs, path, config)
  }

  lemma ComparePair(ms: seq<Mismatch>, below: seq<Mismatch>, expected: Json, actual: Json, pairs: seq<ItemPair>,
                    p: ItemPair, path: string, config: Config)
    requires PairsCompared(ms, expected, actual, pairs, path, config) && PairInRange(p, expected, actual)
    requires below == [] <==> PairMatches(expected, actual, p, PathLeaf(path), config)
    requires AllGenuine(below, expected, actual, path, config)
    requires PairComplete(below, expected, actual, p, path, config)
    ensures PairsCompared(ms + below, expected, actual, pairs + [p], path, config)
  {
    var all := pairs + [p];
    assert all[|pairs|] == p && forall i :: 0 <= i < |pairs| ==> all[i] == pairs[i];
    AddPair(ms, below, expected, actual, pairs, p, path, config);
  }

  /** Compare pairs of items one after the other. */
  method ComparePairs(expected: Json, actual: Json, pairs: seq<ItemPair>, path: string, config: Config)
    returns (mismatches: seq<Mismatch>)
    requires forall i :: 0 <= i < |pairs| ==> PairInRange(pairs[i], expected, actual)
    ensures PairsCompared(mismatches, expected, actual, pairs, path, config)
    decreases expected, 2
  {
    mismatches := [];
    var i := 0;
    while i < |pairs|
      invariant 0 <= i <= |pairs|
      invariant PairsCompared(mismatches, expected, actual, pairs[..i], path, config)
    {
      mismatches := CompareNext(mismatches, expected, actual, pairs[..i], pairs[i], path, config);
      assert pairs[..i + 1] == pairs[..i] + [pairs[i]];
      i := i + 1;
    }
    assert pairs[..i] == pairs;
  }

  /** Add the mismatches of one more pair. */
  method CompareNext(mismatches: seq<Mismatch>, expected: Json, actual: Json, ghost pairs: seq<ItemPair>, p: ItemPair,
                     path: string, config: Config) returns (more: seq<Mismatch>)
    requires PairsCompared(mismatches, expected, actual, pairs, path, config) && PairInRange(p, expected, actual)
    ensures PairsCompared(more, expected, actual, pairs + [p], path, config)
    decreases expected, 1
  {
    var below := CompareItems(expected, p.expected, actual, p.actual, path, p.selector, config);
    ComparePair(mismatches, below, expected, actual, pairs, p, path, config);
    more := mismatches + below;
  }

  /** Compare one pair of items under an item selector. */
  method CompareItems(expected: Json, i: nat, actual: Json, j: nat, path: string, selector: string, config: Config)
    returns (mismatches: seq<Mismatch>)
    requires expected.Arr? && actual.Arr? && i < |expected.items| && j < |actual.items|
    requires '.' !in selector
    ensures mismatches == [] <==> Matches(expected.items[i], actual.items[j], PathLeaf(path), config)
    ensures AllGenuine(mismatches, expected, actual, path, config)
    ensures Complete(mismatches, expected.items[i], actual.items[j], ItemPath(path, selector), config)
    decreases expected, 0
  {
    var itemPath := ItemPath(path, selector);
    LeafOfItem(path, selector);
    ItemsOccur(expected, i);
    ItemsOccur(actual, j);
    mismatches := Compare(expected.items[i], actual.items[j], itemPath, config);
    GenuineBelow(mismatches, expected.items[i], actual.items[j], itemPath, expected, actual, path, config);
  }

  /** edges[e] holds exactly the actual items that expected item e matches. */
  ghost predicate Accepts(edges: Edges, expected: Json, actual: Json, leaf: string, config: Config, rows: nat)
    requires expected.Arr? && actual.Arr? && rows <= |edges| && rows <= |expected.items|
  {
    forall e: nat, a: nat {:trigger a in edges[e]} :: e < rows ==>
      (a in edges[e] <==> a < |actual.items| && Matches(expected.items[e], actual.items[a], leaf, config))
  }

  lemma AcceptsInRange(edges: Edges, expected: Json, actual: Json, leaf: string, config: Config)
    requires expected.Arr? && actual.Arr? && |edges| == |expected.items|
    requires Accepts(edges, expected, actual, leaf, config, |edges|)
    ensures ValidEdges(edges, |actual.items|)
  {
    forall e, a | 0 <= e < |edges| && a in edges[e] ensures a < |actual.items| {}
  }

  method AcceptedBy(expected: Json, item: nat, actual: Json, path: string, config: Config)
    returns (row: seq<nat>)
    requires expected.Arr? && actual.Arr? && item < |expected.items|
    ensures forall a: nat :: a in row <==>
      a < |actual.items| && Matches(expected.items[item], actual.items[a], PathLeaf(path), config)
    decreases expected, 1
  {
    row := [];
    var a := 0;
    while a < |actual.items|
      invariant 0 <= a <= |actual.items|
      invariant forall b: nat :: b in row <==>
        b < a && Matches(expected.items[item], actual.items[b], PathLeaf(path), config)
    {
      var differences := CompareItems(expected, item, actual, a, path, "*", config);
      ghost var before := row;
      if differences == [] {
        row := row + [a];
      }
      assert forall b: nat :: b in row <==> b in before || (b == a && differences == []);
      a := a + 1;
    }
  }

  /** The edges of a collection: which actual items each expected item matches. */
  method Acceptances(expected: Json, actual: Json, path: string, config: Config) returns (edges: Edges)
    requires expected.Arr? && actual.Arr?
    ensures |edges| == |expected.items| && ValidEdges(edges, |actual.items|)
    ensures Accepts(edges, expected, actual, PathLeaf(path), config, |edges|)
    decreases expected, 2
  {
    edges := [];
    while |edges| < |expected.items|
      invariant |edges| <= |expected.items|
      invariant Accepts(edges, expected, actual, PathLeaf(path), config, |edges|)
    {
      var row := AcceptedBy(expected, |edges|, actual, path, config);
      edges := edges + [row];
    }
    AcceptsInRange(edges, expected, actual, PathLeaf(path), config);
  }

  method CompareUnordered(expected: Json, actual: Json, path: string, config: Config)
    returns (mismatches: seq<Mismatch>)
    requires expected.Arr? && actual.Arr?
    requires PathLeaf(path) in ORDER_INSENSITIVE_COLLECTIONS
    ensures mismatches == [] <==> Matches(expected, actual, PathLeaf(path), config)
    ensures AllGenuine(mismatches, expected, actual, path, config)
    ensures Complete(mismatches, expected, actual, path, config)
    decreases expected, 3
  {
    var n := |expected.items|;
    var leaf := PathLeaf(path);
    if n != |actual.items| {
      mismatches := [Mismatch(path, Int(n), Int(|actual.items|), SizeDiffers)];
      assert SizesDiffer(mismatches[0], expected, actual);
      return;
    }
    var edges := Acceptances(expected, actual, path, config);
    var matcher := new Matcher(edges, n);
    var unmatchedExpected, cover := matcher.MatchAll();
    var owned := matcher.actualToExpected;
    CollectionDecides(edges, owned, unmatchedExpected, cover, expected, actual, leaf, config);
    if unmatchedExpected == [] {
      return [];
    }
    var unmatchedActual := Unowned(n, owned);
    UnownedCount(edges, owned, unmatchedExpected, cover, unmatchedActual);
    var pairs := PairOff(unmatchedExpected, unmatchedActual);
    forall i | 0 <= i < |pairs|
      ensures PairInRange(pairs[i], expected, actual) && !PairMatches(expected, actual, pairs[i], leaf, config)
    {
      assert pairs[i].expected in unmatchedExpected && pairs[i].actual in unmatchedActual;
    }
    mismatches := ComparePairs(expected, actual, pairs, path, config);
    assert !PairMatches(expected, actual, pairs[0], leaf, config);
    FoundIsBest(edges, owned, unmatchedExpected, cover, unmatchedActual, expected, actual, leaf, config);
    UnorderedComplete(mismatches, expected, actual, owned, unmatchedExpected, unmatchedActual, path, config);
    if mismatches == [] {
      // The "semantic collection members differ" fallback: no run gets here.
      assert false;
    }
  }

  /** The finished search is a best pairing. */
  lemma FoundIsBest(edges: Edges, m: Assignment, unmatched: seq<nat>, cover: set<nat>, free: seq<nat>,
                    expected: Json, actual: Json, leaf: string, config: Config)
    requires expected.Arr? && actual.Arr? && |edges| == |expected.items| == |actual.items|
    requires leaf in ORDER_INSENSITIVE_COLLECTIONS
    requires Accepts(edges, expected, actual, leaf, config, |edges|)
    requires IsMatching(edges, m) && InRange(edges, |edges|, m) && Settled(edges, m, unmatched, cover, |edges|)
    requires Increasing(free) && forall a: nat :: a in free <==> a < |edges| && a !in m
    ensures BestPairing(expected, actual, m, unmatched, free, leaf, config)
  {
    CollectionDecides(edges, m, unmatched, cover, expected, actual, leaf, config);
    UnownedCount(edges, m, unmatched, cover, free);
    forall other | IsPairing(expected, actual, other, leaf, config) ensures |other| <= |m| {
      assert IsMatching(edges, other);
      SettledIsMaximum(edges, m, unmatched, cover);
    }
    forall i | 0 <= i < |unmatched| ensures unmatched[i] < |edges| && free[i] < |edges| {
      assert unmatched[i] in unmatched && free[i] in free;
    }
    forall x: nat ensures x in unmatched <==> x < |edges| && x !in m.Values {
      assert x in m.Values <==> Matched(m, {}, x);
    }
  }

  lemma UnorderedComplete(ms: seq<Mismatch>, expected: Json, actual: Json, best: Assignment,
                          us: seq<nat>, vs: seq<nat>, path: string, config: Config)
    requires expected.Arr? && actual.Arr? && |expected.items| == |actual.items|
    requires PathLeaf(path) in ORDER_INSENSITIVE_COLLECTIONS
    requires BestPairing(expected, actual, best, us, vs, PathLeaf(path), config)
    requires PairsComplete(ms, expected, actual, PairOff(us, vs), path, config)
    ensures Complete(ms, expected, actual, path, config)
  {
    forall i | 0 <= i < |us| ensures
      Complete(ms, expected.items[us[i]], actual.items[vs[i]], ItemPath(path, "semantic:" + Digits(us[i])), config)
    {
      assert PairComplete(ms, expected, actual, PairOff(us, vs)[i], path, config);
    }
  }

  /** Pair off unmatched expected items with unowned actual ones, in order. */
  function PairOff(us: seq<nat>, vs: seq<nat>): (pairs: seq<ItemPair>)
    requires |us| == |vs|
    ensures |pairs| == |us|
    ensures forall i :: 0 <= i < |pairs| ==> pairs[i] == ItemPair(us[i], vs[i], "semantic:" + Digits(us[i]))
    ensures forall i :: 0 <= i < |pairs| ==> '.' !in pairs[i].selector
  {
    seq(|us|, i requires 0 <= i < |us| => ItemPair(us[i], vs[i], "semantic:" + Digits(us[i])))
  }

  /** The indices below n that no expected item owns, in increasing order. */
  method Unowned(n: nat, owned: Assignment) returns (free: seq<nat>)
    ensures Increasing(free)
    ensures forall a: nat :: a in free <==> a < n && a !in owned
  {
    free := [];
    var a := 0;
    while a < n
      invariant 0 <= a <= n
      invariant Increasing(free) && forall i :: 0 <= i < |free| ==> free[i] < a
      invariant forall b: nat :: b in free <==> b < a && b !in owned
    {
      if a !in owned {
        free := free + [a];
      }
      a := a + 1;
    }
  }

  lemma ComplementSize(n: nat, s: set<nat>, free: seq<nat>)
    requires s <= Below(n)
    requires Increasing(free) && forall a: nat :: a in free <==> a < n && a !in s
    ensures |s| + |free| == n
  {
    ImageSize(free);
    forall a: nat ensures a in Image(free) <==> a in free {
      if a in free { var i :| 0 <= i < |free| && free[i] == a; }
    }
    assert s == Below(n) - Image(free);
    assert |Below(n) - Image(free)| == |Below(n)| - |Below(n) * Image(free)|;
    assert Below(n) * Image(free) == Image(free);
  }

  /** As many actual items are free as expected items are unmatched. */
  lemma UnownedCount(edges: Edges, m: Assignment, unmatched: seq<nat>, cover: set<nat>, free: seq<nat>)
    requires IsMatching(edges, m) && InRange(edges, |edges|, m) && Settled(edges, m, unmatched, cover, |edges|)
    requires Increasing(free) && forall a: nat :: a in free <==> a < |edges| && a !in m
    ensures |free| == |unmatched|
  {
    MatchedCount(edges, m, unmatched, cover);
    ComplementSize(|edges|, m.Keys, free);
    assert |m.Keys| == |m|;
  }

  /** The finished search decides whether the collections match; when they do not, no unmatched expected item
      matches an unowned actual one. */
  lemma CollectionDecides(edges: Edges, m: Assignment, unmatched: seq<nat>, cover: set<nat>,
                          expected: Json, actual: Json, leaf: string, config: Config)
    requires expected.Arr? && actual.Arr? && |edges| == |expected.items| == |actual.items|
    requires leaf in ORDER_INSENSITIVE_COLLECTIONS
    requires Accepts(edges, expected, actual, leaf, config, |edges|)
    requires IsMatching(edges, m) && InRange(edges, |edges|, m) && Settled(edges, m, unmatched, cover, |edges|)
    ensures unmatched == [] <==> Matches(expected, actual, leaf, config)
    ensures forall e, a: nat :: e in unmatched && a < |edges| && a !in m ==>
              !Matches(expected.items[e], actual.items[a], leaf, config)
  {
    if unmatched == [] {
      var p := PairingOf(edges, m);
      assert MatchesPairing(expected, actual, p, leaf, config);
    } else if Matches(expected, actual, leaf, config) {
      var p := PairingFor(expected, actual, leaf, config);
      assert PerfectPairing(edges, p);
      UnmatchedRulesOutPairing(edges, m, unmatched, cover, p);
    }
    forall e, a: nat | e in unmatched && a < |edges| && a !in m
      ensures !Matches(expected.items[e], actual.items[a], leaf, config)
    {
      assert Confined(edges, e, cover);
      assert a !in edges[e];
    }
  }

  /** compare_semantic_entities, on entity sequences already extracted. */
  method CompareSemanticEntities(expected: seq<Json>, actual: seq<Json>, config: Config)
    returns (mismatches: seq<Mismatch>)
    ensures mismatches == [] <==>
            IsIgnoredField("entities", config) || Matches(Arr(expected), Arr(actual), "entities", config)
  {
    mismatches := Compare(Obj(map["entities" := Arr(expected)]), Obj(map["entities" := Arr(actual)]), "$", config);
    SemanticLeaves();
    SingleField("entities", Arr(expected), Arr(actual), "$", config);
  }

  /** Wrapping two trees under one field name adds nothing but that name, unless it is ignored. */
  lemma SingleField(key: string, e: Json, a: Json, leaf: string, config: Config)
    requires leaf != "evidence"
    ensures Matches(Obj(map[key := e]), Obj(map[key := a]), leaf, config) <==>
            IsIgnoredField(key, config) || Matches(e, a, PathLeaf(key), config)
  {
    KeptSingle(key, e, config);
    KeptSingle(key, a, config);
  }

  lemma KeptSingle(key: string, value: Json, config: Config)
    ensures Kept(map[key := value], config) == if IsIgnoredField(key, config) then map[] else map[key := value]
  {
  }

  lemma EntitiesLeaf()
    ensures PathLeaf("entities") == "entities"
  {
    LeafOfPlain("entities");
  }

  lemma SemanticLeaves()
    ensures PathLeaf("entities") == "entities" && PathLeaf("$") == "$"
  {
    EntitiesLeaf();
    RootLeaf();
  }

  lemma RootLeaf()
    ensures PathLeaf("$") == "$"
  {
    LeafOfPlain("$");
  }
}
