/** The environment block handed to the launched process, and the reader that takes it apart again. */
module EnvironmentBlock {
  import opened Options
  import opened Text
  import opened TextOrder

  datatype Entry = Entry(key: string, value: string)

  const CHILD_ENVIRONMENT_ALLOWLIST: set<string> :=
    {"appdata", "commonprogramfiles", "commonprogramfiles(x86)", "computername", "homedrive", "homepath",
     "localappdata", "number_of_processors", "os", "path", "pathext", "processor_architecture", "programdata",
     "programfiles", "programfiles(x86)", "systemdrive", "systemroot", "temp", "tmp", "userdomain", "username",
     "userprofile", "windir"}

  predicate ValidEntry(e: Entry) {
    e.key != "" && '=' !in e.key && '\0' !in e.key && '\0' !in e.value
  }

  /** The inherited variables the child may see. */
  function Inherited(environment: seq<Entry>): (inherited: seq<Entry>)
    ensures forall e :: e in inherited <==> e in environment && CaseFold(e.key) in CHILD_ENVIRONMENT_ALLOWLIST
  {
    if environment == [] then []
    else
      var first := environment[0];
      (if CaseFold(first.key) in CHILD_ENVIRONMENT_ALLOWLIST then [first] else []) + Inherited(environment[1..])
  }

  /** Entries by case-folded key; a later entry replaces an earlier one. */
  function Merge(entries: seq<Entry>): map<string, Entry> {
    if entries == [] then map[]
    else Merge(entries[..|entries| - 1])[CaseFold(entries[|entries| - 1].key) := entries[|entries| - 1]]
  }

  /** Entry i is the last one written under the case-folded key. */
  ghost predicate LastWrite(entries: seq<Entry>, i: int, key: string) {
    && 0 <= i < |entries| && CaseFold(entries[i].key) == key
    && forall j :: i < j < |entries| ==> CaseFold(entries[j].key) != key
  }

  /** The merged map holds exactly the last write of every key. */
  lemma {:induction false} LastWriterWins(entries: seq<Entry>, key: string)
    ensures key in Merge(entries) <==> exists i :: LastWrite(entries, i, key)
    ensures forall i :: LastWrite(entries, i, key) ==> key in Merge(entries) && Merge(entries)[key] == entries[i]
    decreases |entries|
  {
    if entries != [] {
      var front, last := entries[..|entries| - 1], entries[|entries| - 1];
      LastWriterWins(front, key);
      if CaseFold(last.key) == key {
        assert LastWrite(entries, |entries| - 1, key);
      } else {
        forall i ensures LastWrite(entries, i, key) <==> LastWrite(front, i, key) {}
      }
    }
  }

  function Write(e: Entry): string {
    e.key + "=" + e.value
  }

  function Join(parts: seq<string>, separator: string): string {
    if |parts| == 0 then ""
    else if |parts| == 1 then parts[0]
    else parts[0] + separator + Join(parts[1..], separator)
  }

  function Lines(entries: seq<Entry>): seq<string> {
    seq(|entries|, i requires 0 <= i < |entries| => Write(entries[i]))
  }

  function Block(entries: seq<Entry>): string {
    Join(Lines(entries), "\0") + "\0\0"
  }

  function SplitEntry(line: string): Entry {
    var key := BeforeFirst(line, '=');
    Entry(key, if |key| < |line| then line[|key| + 1..] else "")
  }

  /** Read entries up to the first empty one; the second result is the unread text. */
  function ReadBlock(block: string): (seq<Entry>, string)
    decreases |block|
  {
    if block == "" || block[0] == '\0' then ([], block)
    else
      var line := BeforeFirst(block, '\0');
      if |line| >= |block| then ([SplitEntry(line)], "")
      else
        var (rest, unread) := ReadBlock(block[|line| + 1..]);
        ([SplitEntry(line)] + rest, unread)
  }

  lemma BeforeFirstSeparator(prefix: string, c: char, tail: string)
    requires c !in prefix
    ensures BeforeFirst(prefix + [c] + tail, c) == prefix
  {
    BeforeFirstDrop(prefix, c, tail);
    BeforeFirstNone(prefix, c);
  }

  lemma SplitWritten(e: Entry)
    requires ValidEntry(e)
    ensures SplitEntry(Write(e)) == e
  {
    BeforeFirstSeparator(e.key, '=', e.value);
    assert Write(e) == e.key + ['='] + e.value;
    assert Write(e)[|e.key| + 1..] == e.value;
  }

  lemma ReadLine(e: Entry, tail: string)
    requires ValidEntry(e)
    ensures ReadBlock(Write(e) + "\0" + tail) == ([e] + ReadBlock(tail).0, ReadBlock(tail).1)
  {
    var line := Write(e);
    var block := line + "\0" + tail;
    BeforeFirstSeparator(line, '\0', tail);
    assert block == line + ['\0'] + tail && block[0] == e.key[0];
    assert block[|line| + 1..] == tail;
    SplitWritten(e);
  }

  /** Reading a written block gives back its entries, and stops at the terminating empty entry. */
  lemma {:induction false} BlockRoundTrip(entries: seq<Entry>)
    requires forall i :: 0 <= i < |entries| ==> ValidEntry(entries[i])
    ensures ReadBlock(Block(entries)) == (entries, if entries == [] then "\0\0" else "\0")
  {
    if entries == [] {
      assert Block(entries) == "\0\0";
    } else {
      var e, rest := entries[0], entries[1..];
      assert Lines(entries)[0] == Write(e) && Lines(entries)[1..] == Lines(rest);
      if rest == [] {
        assert Block(entries) == Write(e) + "\0" + "\0";
        ReadLine(e, "\0");
        assert [e] + [] == entries;
      } else {
        assert Block(entries) == Write(e) + "\0" + Block(rest);
        ReadLine(e, Block(rest));
        BlockRoundTrip(rest);
        assert [e] + rest == entries;
      }
    }
  }

  /** The listing holds exactly the merged entries, in strictly increasing order of case-folded key. */
  ghost predicate ListsInOrder(listing: seq<Entry>, merged: map<string, Entry>) {
    && (forall i, j :: 0 <= i < j < |listing| ==> TextLess(CaseFold(listing[i].key), CaseFold(listing[j].key)))
    && (forall i :: 0 <= i < |listing| ==>
         CaseFold(listing[i].key) in merged && merged[CaseFold(listing[i].key)] == listing[i])
    && (forall k :: k in merged ==> merged[k] in listing)
  }

  /** Merge the sources in order, unless one of them is invalid. */
  method MergeSources(sources: seq<Entry>) returns (merged: Option<map<string, Entry>>)
    ensures merged.None? <==> exists e :: e in sources && !ValidEntry(e)
    ensures merged.Some? ==> merged.value == Merge(sources)
  {
    var soFar: map<string, Entry> := map[];
    var n := 0;
    while n < |sources|
      invariant 0 <= n <= |sources|
      invariant soFar == Merge(sources[..n])
      invariant forall i :: 0 <= i < n ==> ValidEntry(sources[i])
    {
      var e := sources[n];
      if !ValidEntry(e) {
        return None;
      }
      assert sources[..n + 1][..n] == sources[..n];
      soFar := soFar[CaseFold(e.key) := e];
      n := n + 1;
    }
    assert sources[..n] == sources;
    merged := Some(soFar);
  }

  /** What the child reads from the block is exactly the merged sources, in order, and then the end. */
  ghost predicate ReadsBackAs(block: string, sources: seq<Entry>) {
    var (listing, unread) := ReadBlock(block);
    && ListsInOrder(listing, Merge(sources))
    && unread == if listing == [] then "\0\0" else "\0"
  }

  /** Build the block, unless an entry is invalid. */
  method Build(environment: seq<Entry>, overrides: seq<Entry>) returns (block: Option<string>)
    ensures block.None? <==> exists e :: e in Inherited(environment) + overrides && !ValidEntry(e)
    ensures block.Some? ==> ReadsBackAs(block.value, Inherited(environment) + overrides)
  {
    var sources := Inherited(environment) + overrides;
    var merged := MergeSources(sources);
    if merged.None? {
      return None;
    }
    var keys := SortedStrings(merged.value.Keys);
    assert forall i :: 0 <= i < |keys| ==> keys[i] in merged.value by {
      assert forall i :: 0 <= i < |keys| ==> keys[i] in keys;
    }
    var listing := seq(|keys|, i requires 0 <= i < |keys| && keys[i] in merged.value => merged.value[keys[i]]);
    ListingInOrder(sources, keys, listing);
    BlockRoundTrip(listing);
    block := Some(Block(listing));
  }

  lemma ListingInOrder(sources: seq<Entry>, keys: seq<string>, listing: seq<Entry>)
    requires StrictlySorted(keys) && (forall k :: k in keys <==> k in Merge(sources))
    requires |listing| == |keys|
    requires forall i :: 0 <= i < |keys| ==> keys[i] in Merge(sources) && listing[i] == Merge(sources)[keys[i]]
    ensures ListsInOrder(listing, Merge(sources))
    ensures forall i :: 0 <= i < |listing| ==> listing[i] in sources
  {
    forall i | 0 <= i < |listing| ensures CaseFold(listing[i].key) == keys[i] && listing[i] in sources {
      LastWriterWins(sources, keys[i]);
      var w :| LastWrite(sources, w, keys[i]);
    }
    forall k | k in Merge(sources) ensures Merge(sources)[k] in listing {
      var i :| 0 <= i < |keys| && keys[i] == k;
      assert listing[i] == Merge(sources)[k];
    }
  }

  /** The block's literal form: lines of the shape key=value, each ended by NUL, and one more NUL. */
  lemma BlockLiterally(a: Entry, b: Entry)
    ensures Block([]) == "\0\0" && Block([a]) == a.key + "=" + a.value + "\0\0"
    ensures Block([a, b]) == a.key + "=" + a.value + "\0" + (b.key + "=" + b.value) + "\0\0"
  {
    assert Lines([a]) == [Write(a)] && Lines([a, b]) == [Write(a), Write(b)];
    JoinTwo(Write(a), Write(b), "\0");
  }

  lemma JoinTwo(x: string, y: string, separator: string)
    ensures Join([x, y], separator) == x + separator + y
  {
    assert [x, y][1..] == [y];
  }
}
