/** Code-point order on strings and insertion sorting by it. */
module TextOrder {

  predicate TextLess(a: string, b: string) {
    b != "" && (a == "" || a[0] < b[0] || (a[0] == b[0] && TextLess(a[1..], b[1..])))
  }

  lemma {:induction false} TextLessTransitive(a: string, b: string, c: string)
    requires TextLess(a, b) && TextLess(b, c)
    ensures TextLess(a, c)
  {
    if a != "" && a[0] == b[0] && b[0] == c[0] {
      TextLessTransitive(a[1..], b[1..], c[1..]);
    }
  }

  lemma {:induction false} TextLessTotal(a: string, b: string)
    ensures TextLess(a, b) || a == b || TextLess(b, a)
  {
    if a != "" && b != "" && a[0] == b[0] {
      TextLessTotal(a[1..], b[1..]);
      assert a == [a[0]] + a[1..] && b == [b[0]] + b[1..];
    }
  }

  /** At the end of their common beginning of length k, a stops or goes on with the smaller character. */
  ghost predicate FirstDifference(a: string, b: string, k: nat) {
    k <= |a| && k < |b| && a[..k] == b[..k] && (k == |a| || a[k] as int < b[k] as int)
  }

  lemma SamePrefix(a: string, b: string, k: nat)
    requires k <= |a| && k <= |b| && a[..k] == b[..k]
    ensures k > 0 ==> a[0] == b[0]
  {
    assert k > 0 ==> a[..k][0] == a[0] && b[..k][0] == b[0];
  }

  /** The order is by the first difference. */
  lemma {:induction false} TextLessExactly(a: string, b: string)
    ensures TextLess(a, b) <==> exists k: nat :: FirstDifference(a, b, k)
  {
    if b != "" && (a == "" || a[0] < b[0]) {
      assert FirstDifference(a, b, 0);
    } else if b != "" && a[0] == b[0] {
      TextLessExactly(a[1..], b[1..]);
      if k: nat :| FirstDifference(a[1..], b[1..], k) {
        assert a[..k + 1] == [a[0]] + a[1..][..k] && b[..k + 1] == [b[0]] + b[1..][..k];
        assert FirstDifference(a, b, k + 1);
      }
      if k: nat :| FirstDifference(a, b, k) {
        assert k > 0;
        assert a[1..][..k - 1] == a[..k][1..] && b[1..][..k - 1] == b[..k][1..];
        assert FirstDifference(a[1..], b[1..], k - 1);
      }
    } else if b != "" {
      forall k: nat | FirstDifference(a, b, k) ensures k == 0 {
        SamePrefix(a, b, k);
      }
    }
  }

  ghost predicate StrictlySorted(keys: seq<string>) {
    forall i, j :: 0 <= i < j < |keys| ==> TextLess(keys[i], keys[j])
  }

  /** Insert a new key at its place in a sorted list. */
  function Insert(key: string, keys: seq<string>): (r: seq<string>)
    requires StrictlySorted(keys) && key !in keys
    ensures StrictlySorted(r)
    ensures forall k :: k in r <==> k == key || k in keys
  {
    if keys == [] then [key]
    else
      TextLessTotal(key, keys[0]);
      if TextLess(key, keys[0]) then
        assert forall j :: 0 <= j < |keys| ==> TextLess(key, keys[j]) by {
          forall j | 0 < j < |keys| ensures TextLess(key, keys[j]) { TextLessTransitive(key, keys[0], keys[j]); }
        }
        [key] + keys
      else
        var rest := Insert(key, keys[1..]);
        assert forall j :: 0 <= j < |rest| ==> TextLess(keys[0], rest[j]) by {
          forall j | 0 <= j < |rest| ensures TextLess(keys[0], rest[j]) { assert rest[j] in rest; }
        }
        [keys[0]] + rest
  }

  /** The members of a set in increasing order. */
  method SortedStrings(s: set<string>) returns (keys: seq<string>)
    ensures StrictlySorted(keys)
    ensures forall k :: k in keys <==> k in s
  {
    keys := [];
    var rest := s;
    while rest != {}
      invariant rest <= s && StrictlySorted(keys)
      invariant forall k :: k in keys <==> k in s && k !in rest
      decreases rest
    {
      var k :| k in rest;
      keys := Insert(k, keys);
      rest := rest - {k};
    }
  }
}
