/** Case identifiers of a prepared corpus: one per drawing, even when digests repeat. */
module CaseNaming {
  import opened Text

  function Count(digests: seq<string>, digest: string): nat {
    if digests == [] then 0
    else Count(digests[..|digests| - 1], digest) + if digests[|digests| - 1] == digest then 1 else 0
  }

  /** A number printed with at least three digits. */
  function PaddedTo3(n: nat): string {
    var digits := Digits(n);
    if |digits| == 1 then "00" + digits else if |digits| == 2 then "0" + digits else digits
  }

  /** The number a digit string denotes. */
  function ValueOf(digits: string): int {
    if digits == "" then 0
    else ValueOf(digits[..|digits| - 1]) * 10 + (digits[|digits| - 1] as int - '0' as int)
  }

  lemma {:induction false} DigitsDenote(n: nat)
    ensures ValueOf(Digits(n)) == n
  {
    if n >= 10 {
      DigitsDenote(n / 10);
      var s := Digits(n);
      assert s[..|s| - 1] == Digits(n / 10);
    } else {
      var s := Digits(n);
      assert s[..|s| - 1] == "";
    }
  }

  lemma {:induction false} LeadingZero(digits: string)
    ensures ValueOf("0" + digits) == ValueOf(digits)
  {
    if digits == "" {
      assert "0" + digits == "0" && "0"[..0] == "";
    } else {
      var s := "0" + digits;
      assert s[..|s| - 1] == "0" + digits[..|digits| - 1];
      LeadingZero(digits[..|digits| - 1]);
    }
  }

  lemma DigitsLength(n: nat)
    ensures |Digits(n)| == 1 <==> n < 10
    ensures |Digits(n)| <= 2 <==> n < 100
    ensures |Digits(n)| <= 3 <==> n < 1000
  {
    if n >= 10 {
      DigitsLength(n / 10);
    }
  }

  lemma PaddedDenotes(n: nat)
    ensures ValueOf(PaddedTo3(n)) == n
    ensures |PaddedTo3(n)| >= 3 && (n < 1000 ==> |PaddedTo3(n)| == 3) && (n >= 1000 ==> PaddedTo3(n) == Digits(n))
  {
    DigitsLength(n);
    var digits := Digits(n);
    DigitsDenote(n);
    LeadingZero(digits);
    LeadingZero("0" + digits);
    assert "00" + digits == "0" + ("0" + digits);
  }

  /** The identifier of case i: its digest, and its ordinal among equal digests if there are several. */
  function CaseId(digests: seq<string>, i: nat): string
    requires i < |digests|
  {
    "case-" + digests[i]
    + if Count(digests, digests[i]) > 1 then "-" + PaddedTo3(Count(digests[..i + 1], digests[i])) else ""
  }

  lemma CountNext(digests: seq<string>, i: nat)
    requires i < |digests|
    ensures forall d :: Count(digests[..i + 1], d) == Count(digests[..i], d) + if digests[i] == d then 1 else 0
  {
    assert digests[..i + 1][..i] == digests[..i];
  }

  /** The ordinals are the counts among the first i digests. */
  ghost predicate Tallied(ordinals: map<string, nat>, digests: seq<string>, i: nat)
    requires i <= |digests|
  {
    forall d :: Count(digests[..i], d) == OrdinalOf(ordinals, d)
  }

  function OrdinalOf(ordinals: map<string, nat>, digest: string): nat {
    if digest in ordinals then ordinals[digest] else 0
  }

  lemma TalliedNext(ordinals: map<string, nat>, digests: seq<string>, i: nat, ordinal: nat)
    requires i < |digests| && Tallied(ordinals, digests, i) && ordinal == OrdinalOf(ordinals, digests[i]) + 1
    ensures ordinal == Count(digests[..i + 1], digests[i])
    ensures Tallied(ordinals[digests[i] := ordinal], digests, i + 1)
  {
    CountNext(digests, i);
    var next := ordinals[digests[i] := ordinal];
    forall d ensures Count(digests[..i + 1], d) == OrdinalOf(next, d) {
      assert Count(digests[..i], d) == OrdinalOf(ordinals, d);
    }
  }

  method AssignCaseIds(digests: seq<string>) returns (ids: seq<string>)
    ensures |ids| == |digests|
    ensures forall i :: 0 <= i < |digests| ==> ids[i] == CaseId(digests, i)
  {
    var ordinals: map<string, nat> := map[];
    ids := [];
    var i := 0;
    while i < |digests|
      invariant 0 <= i <= |digests| && |ids| == i
      invariant Tallied(ordinals, digests, i)
      invariant forall j :: 0 <= j < i ==> ids[j] == CaseId(digests, j)
    {
      var digest := digests[i];
      var ordinal := OrdinalOf(ordinals, digest) + 1;
      TalliedNext(ordinals, digests, i, ordinal);
      ordinals := ordinals[digest := ordinal];
      var suffix := if Count(digests, digest) > 1 then "-" + PaddedTo3(ordinal) else "";
      ids := ids + ["case-" + digest + suffix];
      i := i + 1;
    }
  }

  lemma {:induction false} CountGrows(digests: seq<string>, i: nat, j: nat)
    requires i < j < |digests| && digests[i] == digests[j]
    ensures Count(digests[..i + 1], digests[i]) < Count(digests[..j + 1], digests[i])
    ensures Count(digests, digests[i]) > 1
  {
    var d := digests[i];
    CountPrefix(digests, i, d);
    CountPrefix(digests[..j], i + 1, d);
    assert digests[..j][..i + 1] == digests[..i + 1] && digests[..j + 1][..j] == digests[..j];
    assert digests[..i + 1][..i] == digests[..i];
    CountPrefix(digests, j + 1, d);
  }

  lemma {:induction false} CountPrefix(digests: seq<string>, n: nat, d: string)
    requires n <= |digests|
    ensures Count(digests[..n], d) <= Count(digests, d)
    decreases |digests|
  {
    if n < |digests| {
      var front := digests[..|digests| - 1];
      CountPrefix(front, n, d);
      assert front[..n] == digests[..n];
    } else {
      assert digests[..n] == digests;
    }
  }

  /** Where the digest occurs among the first n. */
  function Places(digests: seq<string>, n: nat, d: string): set<nat>
    requires n <= |digests|
  {
    set j | 0 <= j < n && digests[j] == d
  }

  lemma {:induction false} CountIsCardinality(digests: seq<string>, n: nat, d: string)
    requires n <= |digests|
    ensures Count(digests[..n], d) == |Places(digests, n, d)|
  {
    if n > 0 {
      CountIsCardinality(digests, n - 1, d);
      CountNext(digests, n - 1);
      var front := Places(digests, n - 1, d);
      assert Places(digests, n, d) == if digests[n - 1] == d then front + {n - 1} else front;
    }
  }

  /** A digest of its own names the case; a repeated one is followed by how many cases so far have it. */
  lemma CaseIdExactly(digests: seq<string>, i: nat)
    requires i < |digests|
    ensures (forall j :: 0 <= j < |digests| && j != i ==> digests[j] != digests[i]) ==>
      CaseId(digests, i) == "case-" + digests[i]
    ensures (exists j :: 0 <= j < |digests| && j != i && digests[j] == digests[i]) ==>
      CaseId(digests, i) == "case-" + digests[i] + ("-" + PaddedTo3(|Places(digests, i + 1, digests[i])|))
  {
    var d := digests[i];
    CountIsCardinality(digests, i + 1, d);
    if j :| 0 <= j < |digests| && j != i && digests[j] == d {
      CountGrows(digests, if j < i then j else i, if j < i then i else j);
    } else {
      CountIsCardinality(digests, |digests|, d);
      assert digests[..|digests|] == digests;
      assert Places(digests, |digests|, d) == {i};
    }
  }

  /** The digest and the ordinal stand at fixed places in the identifier. */
  lemma CaseIdParts(digests: seq<string>, i: nat, n: nat)
    requires i < |digests| && |digests[i]| == n
    ensures var id := CaseId(digests, i);
      && 5 + n <= |id| && id[5..5 + n] == digests[i]
      && (Count(digests, digests[i]) > 1 ==>
           6 + n <= |id| && id[6 + n..] == PaddedTo3(Count(digests[..i + 1], digests[i])))
  {
    var id := CaseId(digests, i);
    var ordinal := PaddedTo3(Count(digests[..i + 1], digests[i]));
    if Count(digests, digests[i]) > 1 {
      assert id == ("case-" + digests[i] + "-") + ordinal;
    }
  }

  /** Digests of one length give pairwise distinct case identifiers. */
  lemma CaseIdsDistinct(digests: seq<string>, i: nat, j: nat)
    requires forall k :: 0 <= k < |digests| ==> |digests[k]| == |digests[0]|
    requires i < j < |digests|
    ensures CaseId(digests, i) != CaseId(digests, j)
  {
    var n := |digests[0]|;
    CaseIdParts(digests, i, n);
    CaseIdParts(digests, j, n);
    if digests[i] == digests[j] {
      CountGrows(digests, i, j);
      var x, y := Count(digests[..i + 1], digests[i]), Count(digests[..j + 1], digests[j]);
      PaddedDenotes(x);
      PaddedDenotes(y);
    }
  }

  /** Why one length is asked for: without it, one digest could spell out another one with its ordinal. The digests
      of the corpus are all SHA-256 texts. */
  lemma UnequalLengthsCollide()
    ensures CaseId(["d", "d", "d-001"], 0) == CaseId(["d", "d", "d-001"], 2)
  {
    var digests := ["d", "d", "d-001"];
    assert digests[..1] == ["d"] && digests[..2] == ["d", "d"] && digests[..3] == digests;
    assert ["d"][..0] == [] && ["d", "d"][..1] == ["d"];
    assert Count(digests[..1], "d") == 1 && Count(digests[..2], "d") == 2 && Count(digests, "d") == 2;
    assert Count(digests[..2], "d-001") == 0 && Count(digests, "d-001") == 1;
    assert Digits(1) == "1";
    assert PaddedTo3(1) == "001";
  }
}
