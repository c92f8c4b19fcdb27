/** Text primitives shared by the modules. */
module Text {

  function LowerChar(c: char): char {
    if 'A' <= c <= 'Z' then c - 'A' + 'a' else c
  }

  /** Case folding of ASCII text. */
  function CaseFold(s: string): (r: string)
    ensures |r| == |s|
  {
    seq(|s|, i requires 0 <= i < |s| => LowerChar(s[i]))
  }

  function AfterLast(s: string, c: char): string {
    if s == "" || s[|s| - 1] == c then "" else AfterLast(s[..|s| - 1], c) + [s[|s| - 1]]
  }

  function BeforeFirst(s: string, c: char): string {
    if s == "" || s[0] == c then "" else [s[0]] + BeforeFirst(s[1..], c)
  }

  predicate EndsWith(s: string, suffix: string) {
    |suffix| <= |s| && s[|s| - |suffix|..] == suffix
  }

  predicate Contains(s: string, part: string) {
    part <= s || (s != "" && Contains(s[1..], part))
  }

  function Digits(n: nat): (s: string)
    ensures forall c :: c in s ==> '0' <= c <= '9'
    ensures s != ""
  {
    var digit := [('0' as int + n % 10) as char];
    if n < 10 then digit else Digits(n / 10) + digit
  }

  lemma {:induction false} AfterLastAppend(prefix: string, c: char, tail: string)
    ensures AfterLast(prefix + [c] + tail, c) == AfterLast(tail, c)
  {
    var s := prefix + [c] + tail;
    if tail != "" {
      assert s[..|s| - 1] == prefix + [c] + tail[..|tail| - 1];
      AfterLastAppend(prefix, c, tail[..|tail| - 1]);
    }
  }

  lemma {:induction false} AfterLastKeep(prefix: string, c: char, tail: string)
    requires c !in tail
    ensures AfterLast(prefix + tail, c) == AfterLast(prefix, c) + tail
  {
    var s := prefix + tail;
    if tail == "" {
      assert s == prefix;
    } else {
      assert s[..|s| - 1] == prefix + tail[..|tail| - 1];
      AfterLastKeep(prefix, c, tail[..|tail| - 1]);
    }
  }

  lemma {:induction false} BeforeFirstDrop(prefix: string, c: char, tail: string)
    ensures BeforeFirst(prefix + [c] + tail, c) == BeforeFirst(prefix, c)
  {
    var s := prefix + [c] + tail;
    if prefix != "" {
      assert s[1..] == prefix[1..] + [c] + tail;
      BeforeFirstDrop(prefix[1..], c, tail);
    }
  }

  lemma {:induction false} BeforeFirstNone(s: string, c: char)
    requires c !in s
    ensures BeforeFirst(s, c) == s
  {
    if s != "" {
      BeforeFirstNone(s[1..], c);
    }
  }

  lemma LowerCaseFolds(s: string)
    requires forall c :: c in s ==> !('A' <= c <= 'Z')
    ensures CaseFold(s) == s
  {
    forall i | 0 <= i < |s| ensures CaseFold(s)[i] == s[i] {
      assert s[i] in s;
    }
  }

  /** Folding changes exactly the capitals, each into the small letter 32 places on. */
  lemma CaseFoldExactly(s: string, i: nat)
    requires i < |s|
    ensures CaseFold(s)[i] as int == if 65 <= s[i] as int <= 90 then s[i] as int + 32 else s[i] as int
  {
  }

  /** Two characters that fold alike are equal, or one is the capital of the other. */
  lemma FoldedAlike(s: string, t: string)
    ensures CaseFold(s) == CaseFold(t) <==>
      |s| == |t| && forall i :: 0 <= i < |s| ==>
        s[i] == t[i] || (65 <= s[i] as int <= 90 && t[i] as int == s[i] as int + 32)
        || (65 <= t[i] as int <= 90 && s[i] as int == t[i] as int + 32)
  {
    if |s| == |t| {
      forall i | 0 <= i < |s| ensures CaseFold(s)[i] == CaseFold(t)[i] <==>
        s[i] == t[i] || (65 <= s[i] as int <= 90 && t[i] as int == s[i] as int + 32)
        || (65 <= t[i] as int <= 90 && s[i] as int == t[i] as int + 32)
      {
        CaseFoldExactly(s, i);
        CaseFoldExactly(t, i);
      }
      assert CaseFold(s) == CaseFold(t) <==> forall i :: 0 <= i < |s| ==> CaseFold(s)[i] == CaseFold(t)[i];
    }
  }

  lemma EndsWithExactly(s: string, suffix: string)
    ensures EndsWith(s, suffix) <==> exists prefix :: s == prefix + suffix
  {
    if EndsWith(s, suffix) {
      assert s == s[..|s| - |suffix|] + suffix;
    }
  }

  /** The text holds the part somewhere. */
  ghost predicate Includes(s: string, part: string) {
    exists before, after :: s == before + part + after
  }

  lemma {:induction false} ContainsExactly(s: string, part: string)
    ensures Contains(s, part) <==> Includes(s, part)
  {
    if part <= s {
      assert s == [] + part + s[|part|..];
    } else if s != "" {
      var rest := s[1..];
      ContainsExactly(rest, part);
      if Includes(rest, part) {
        var before, after :| rest == before + part + after;
        assert s == ([s[0]] + before) + part + after;
      }
      if Includes(s, part) {
        var before, after :| s == before + part + after;
        if before != [] {
          assert rest == before[1..] + part + after;
        }
      }
    }
  }

  /** What follows the last c, or the whole text. */
  lemma AfterLastExactly(prefix: string, c: char, tail: string)
    requires c !in tail
    ensures AfterLast(tail, c) == tail && AfterLast(prefix + [c] + tail, c) == tail
  {
    AfterLastKeep("", c, tail);
    assert "" + tail == tail;
    AfterLastAppend(prefix, c, tail);
  }

  /** What precedes the first c, or the whole text. */
  lemma BeforeFirstExactly(head: string, c: char, tail: string)
    requires c !in head
    ensures BeforeFirst(head, c) == head && BeforeFirst(head + [c] + tail, c) == head
  {
    BeforeFirstNone(head, c);
    BeforeFirstDrop(head, c, tail);
  }
}
