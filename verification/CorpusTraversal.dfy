/** Enumerating a corpus with an explicit stack, and naming its cases. */
module CorpusTraversal {
  import opened Options
  import opened Sequences
  import opened Text
  import opened TextOrder

  /** What a directory listing can hold; a link stands for a symbolic link or a reparse point. */
  datatype Entry =
    | Dir(name: string, entries: seq<Entry>)
    | File(name: string)
    | Other(name: string)
    | Link(name: string)

  /** The number of entries at or below an entry. */
  function Size(e: Entry): nat {
    1 + if e.Dir? then SizeSum(e.entries) else 0
  }

  function SizeSum(entries: seq<Entry>): nat {
    if entries == [] then 0 else Size(entries[0]) + SizeSum(entries[1..])
  }

  type Path = seq<string>

  const ALLOWED_SUFFIXES: set<string> := {".dwg", ".dxf"}

  /** The part of a name from its last inner dot on. */
  function Suffix(name: string): string {
    var extension := AfterLast(name, '.');
    if '.' in name && extension != "" && |extension| + 1 < |name| then "." + extension else ""
  }

  predicate IsDrawing(e: Entry) {
    e.File? && CaseFold(Suffix(e.name)) in ALLOWED_SUFFIXES
  }

  /** The order of names: folded, then as they are. */
  predicate NameBefore(a: string, b: string) {
    TextLess(CaseFold(a), CaseFold(b)) || (CaseFold(a) == CaseFold(b) && TextLess(a, b))
  }

  /** Names are ordered at the first difference of their folded forms, and if these are the same, at their own first
      difference. */
  lemma NameBeforeExactly(a: string, b: string)
    ensures NameBefore(a, b) <==>
      || (exists k: nat :: FirstDifference(CaseFold(a), CaseFold(b), k))
      || (CaseFold(a) == CaseFold(b) && exists k: nat :: FirstDifference(a, b, k))
  {
    TextLessExactly(CaseFold(a), CaseFold(b));
    TextLessExactly(a, b);
  }

  /** The listing order. */
  predicate Before(a: Entry, b: Entry) {
    NameBefore(a.name, b.name)
  }

  function InsertEntry(e: Entry, sorted: seq<Entry>): (r: seq<Entry>)
    ensures multiset(r) == multiset{e} + multiset(sorted)
    ensures SizeSum(r) == Size(e) + SizeSum(sorted)
    ensures forall x :: x in r <==> x == e || x in sorted
  {
    if sorted == [] || !Before(sorted[0], e) then [e] + sorted
    else
      assert sorted == [sorted[0]] + sorted[1..];
      [sorted[0]] + InsertEntry(e, sorted[1..])
  }

  function SortEntries(entries: seq<Entry>): (r: seq<Entry>)
    ensures multiset(r) == multiset(entries)
    ensures SizeSum(r) == SizeSum(entries)
    ensures forall x :: x in r <==> x in entries
  {
    if entries == [] then []
    else
      assert entries == [entries[0]] + entries[1..];
      InsertEntry(entries[0], SortEntries(entries[1..]))
  }

  ghost predicate InOrder(entries: seq<Entry>) {
    forall i, j :: 0 <= i < j < |entries| ==> !Before(entries[j], entries[i])
  }

  lemma BeforeTransitive(a: Entry, b: Entry, c: Entry)
    requires Before(a, b) && !Before(c, b)
    ensures Before(a, c)
  {
    TextLessTotal(CaseFold(b.name), CaseFold(c.name));
    TextLessTotal(b.name, c.name);
    if TextLess(CaseFold(a.name), CaseFold(b.name)) && TextLess(CaseFold(b.name), CaseFold(c.name)) {
      TextLessTransitive(CaseFold(a.name), CaseFold(b.name), CaseFold(c.name));
    }
    if TextLess(a.name, b.name) && TextLess(b.name, c.name) {
      TextLessTransitive(a.name, b.name, c.name);
    }
  }

  lemma {:induction false} BeforeIrreflexive(a: string, b: string)
    requires TextLess(a, b)
    ensures !TextLess(b, a)
  {
    if a != "" && b != "" && a[0] == b[0] {
      BeforeIrreflexive(a[1..], b[1..]);
    }
  }

  lemma BeforeAsymmetric(a: Entry, b: Entry)
    requires Before(a, b)
    ensures !Before(b, a)
  {
    if TextLess(CaseFold(a.name), CaseFold(b.name)) {
      BeforeIrreflexive(CaseFold(a.name), CaseFold(b.name));
    } else {
      BeforeIrreflexive(a.name, b.name);
    }
  }

  lemma {:induction false} InsertKeepsOrder(e: Entry, sorted: seq<Entry>)
    requires InOrder(sorted)
    ensures InOrder(InsertEntry(e, sorted))
  {
    if sorted == [] {
    } else if !Before(sorted[0], e) {
      forall j | 0 <= j < |sorted| ensures !Before(sorted[j], e) {
        if Before(sorted[j], e) && j > 0 {
          if Before(e, sorted[0]) { BeforeAsymmetric(sorted[j], e); }
          NotBeforeTransitive(sorted[j], sorted[0], e);
        }
      }
    } else {
      var rest := InsertEntry(e, sorted[1..]);
      InsertKeepsOrder(e, sorted[1..]);
      forall j | 0 <= j < |rest| ensures !Before(rest[j], sorted[0]) {
        assert rest[j] in rest;
        if rest[j] == e { BeforeAsymmetric(sorted[0], e); }
      }
    }
  }

  lemma NotBeforeTransitive(a: Entry, b: Entry, c: Entry)
    requires !Before(a, b) && !Before(b, c)
    ensures !Before(a, c)
  {
    if Before(a, c) {
      BeforeTransitive(a, c, b);
    }
  }

  /** The listing is the sorted rearrangement of the directory. */
  lemma {:induction false} SortedListing(entries: seq<Entry>)
    ensures InOrder(SortEntries(entries)) && multiset(SortEntries(entries)) == multiset(entries)
  {
    if entries != [] {
      SortedListing(entries[1..]);
      InsertKeepsOrder(entries[0], SortEntries(entries[1..]));
    }
  }

  /** A directory still to be visited, with its path. */
  datatype Pending = Pending(path: Path, dir: Entry)

  predicate AllDirs(ps: seq<Pending>) {
    forall i :: 0 <= i < |ps| ==> ps[i].dir.Dir?
  }

  /** The drawings of one listing, in order. */
  function Drawings(path: Path, listing: seq<Entry>): seq<Path> {
    if listing == [] then []
    else
      var last := listing[|listing| - 1];
      Drawings(path, listing[..|listing| - 1]) + if IsDrawing(last) then [path + [last.name]] else []
  }

  /** The subdirectories of one listing, in order. */
  function Children(path: Path, listing: seq<Entry>): seq<Pending> {
    if listing == [] then []
    else
      var last := listing[|listing| - 1];
      Children(path, listing[..|listing| - 1]) + if last.Dir? then [Pending(path + [last.name], last)] else []
  }

  predicate HasLink(listing: seq<Entry>) {
    exists i :: 0 <= i < |listing| && listing[i].Link?
  }

  function PendingSize(ps: seq<Pending>): nat {
    if ps == [] then 0 else Size(ps[0].dir) + PendingSize(ps[1..])
  }

  lemma {:induction false} PendingSizeAppend(ps: seq<Pending>, p: Pending)
    ensures PendingSize(ps + [p]) == PendingSize(ps) + Size(p.dir)
  {
    if ps == [] {
      assert [p][1..] == [];
    } else {
      assert (ps + [p])[1..] == ps[1..] + [p];
      PendingSizeAppend(ps[1..], p);
    }
  }

  lemma {:induction false} SizeSumAppend(entries: seq<Entry>, e: Entry)
    ensures SizeSum(entries + [e]) == SizeSum(entries) + Size(e)
  {
    if entries == [] {
      assert [e][1..] == [];
    } else {
      assert (entries + [e])[1..] == entries[1..] + [e];
      SizeSumAppend(entries[1..], e);
    }
  }

  lemma {:induction false} ChildrenSize(path: Path, listing: seq<Entry>)
    ensures PendingSize(Children(path, listing)) <= SizeSum(listing)
    ensures AllDirs(Children(path, listing))
  {
    if listing != [] {
      var front, last := listing[..|listing| - 1], listing[|listing| - 1];
      ChildrenSize(path, front);
      assert listing == front + [last];
      SizeSumAppend(front, last);
      var before := Children(path, front);
      if last.Dir? {
        PendingSizeAppend(before, Pending(path + [last.name], last));
      } else {
        assert Children(path, listing) == before;
      }
    }
  }

  function Append(a: Option<seq<Path>>, b: Option<seq<Path>>): Option<seq<Path>> {
    if a.Some? && b.Some? then Some(a.value + b.value) else None
  }

  /** Recursive pre-order: a directory's drawings, then its subdirectories one after the other. A link anywhere
      below fails the whole walk. */
  function Walk(p: Pending): Option<seq<Path>>
    requires p.dir.Dir?
    decreases Size(p.dir), 0
  {
    var listing := SortEntries(p.dir.entries);
    ChildrenSize(p.path, listing);
    if HasLink(listing) then None
    else Append(Some(Drawings(p.path, listing)), WalkAll(Children(p.path, listing)))
  }

  function WalkAll(ps: seq<Pending>): Option<seq<Path>>
    requires AllDirs(ps)
    decreases PendingSize(ps), 1
  {
    if ps == [] then Some([]) else Append(Walk(ps[0]), WalkAll(ps[1..]))
  }

  /** What the stack still has to contribute, from its top down. */
  function WalkStack(pending: seq<Pending>): Option<seq<Path>>
    requires AllDirs(pending)
  {
    if pending == [] then Some([])
    else Append(Walk(pending[|pending| - 1]), WalkStack(pending[..|pending| - 1]))
  }

  lemma AppendAssociative(a: Option<seq<Path>>, b: Option<seq<Path>>, c: Option<seq<Path>>)
    ensures Append(Append(a, b), c) == Append(a, Append(b, c))
  {
    if a.Some? && b.Some? && c.Some? {
      assert a.value + b.value + c.value == a.value + (b.value + c.value);
    }
  }

  /** Pushing subdirectories in reverse order makes the stack visit them in order. */
  lemma {:induction false} PushedChildren(rest: seq<Pending>, children: seq<Pending>)
    requires AllDirs(rest)
    requires AllDirs(children)
    ensures AllDirs(rest + Reverse(children))
    ensures WalkStack(rest + Reverse(children)) == Append(WalkAll(children), WalkStack(rest))
    decreases |children|
  {
    if children == [] {
      assert rest + Reverse(children) == rest;
      var s := WalkStack(rest);
      assert s.Some? ==> [] + s.value == s.value;
    } else {
      PushedChildren(rest, children[1..]);
      var below := rest + Reverse(children[1..]);
      assert rest + Reverse(children) == below + [children[0]];
      TopFirst(below, children[0]);
      AppendAssociative(Walk(children[0]), WalkAll(children[1..]), WalkStack(rest));
    }
  }

  lemma {:induction false} PushedSize(rest: seq<Pending>, children: seq<Pending>)
    ensures PendingSize(rest + Reverse(children)) == PendingSize(rest) + PendingSize(children)
    decreases |children|
  {
    if children == [] {
      assert rest + Reverse(children) == rest;
    } else {
      PushedSize(rest, children[1..]);
      assert rest + Reverse(children) == rest + Reverse(children[1..]) + [children[0]];
      PendingSizeAppend(rest + Reverse(children[1..]), children[0]);
    }
  }

  /** Read one sorted listing: its drawings and subdirectories, unless it holds a link. */
  method ReadListing(path: Path, entries: seq<Entry>) returns (ok: bool, drawings: seq<Path>, children: seq<Pending>)
    ensures ok <==> !HasLink(entries)
    ensures ok ==> drawings == Drawings(path, entries) && children == Children(path, entries)
  {
    drawings, children := [], [];
    var i := 0;
    while i < |entries|
      invariant 0 <= i <= |entries|
      invariant forall j :: 0 <= j < i ==> !entries[j].Link?
      invariant drawings == Drawings(path, entries[..i]) && children == Children(path, entries[..i])
    {
      var entry := entries[i];
      if entry.Link? {
        return false, [], [];
      }
      assert entries[..i + 1][..i] == entries[..i];
      if entry.Dir? {
        children := children + [Pending(path + [entry.name], entry)];
      } else if IsDrawing(entry) {
        drawings := drawings + [path + [entry.name]];
      }
      i := i + 1;
    }
    assert entries[..i] == entries;
    ok := true;
  }

  /** Visit one directory; what remains of its walk is that of its subdirectories, which are smaller. */
  method Visit(top: Pending) returns (ok: bool, found: seq<Path>, children: seq<Pending>)
    requires top.dir.Dir?
    ensures !ok ==> Walk(top).None?
    ensures ok ==>
      && AllDirs(children) && PendingSize(children) < Size(top.dir)
      && Walk(top) == Append(Some(found), WalkAll(children))
  {
    var listing := SortEntries(top.dir.entries);
    ok, found, children := ReadListing(top.path, listing);
    ChildrenSize(top.path, listing);
  }

  lemma TopFirst(rest: seq<Pending>, top: Pending)
    requires AllDirs(rest) && top.dir.Dir?
    ensures AllDirs(rest + [top]) && WalkStack(rest + [top]) == Append(Walk(top), WalkStack(rest))
  {
    assert (rest + [top])[..|rest|] == rest;
  }

  lemma VisitShrinks(rest: seq<Pending>, top: Pending, children: seq<Pending>)
    requires PendingSize(children) < Size(top.dir)
    ensures PendingSize(rest + Reverse(children)) < PendingSize(rest + [top])
  {
    PushedSize(rest, children);
    PendingSizeAppend(rest, top);
  }

  /** The output is what has been found, followed by what the top of the stack and then the rest contribute. */
  lemma MoveToOutput(drawings: seq<Path>, found: seq<Path>, rest: seq<Pending>, children: seq<Pending>)
    requires AllDirs(rest) && AllDirs(children)
    ensures AllDirs(rest + Reverse(children))
    ensures Append(Some(drawings), Append(Append(Some(found), WalkAll(children)), WalkStack(rest)))
            == Append(Some(drawings + found), WalkStack(rest + Reverse(children)))
  {
    PushedChildren(rest, children);
    AppendAssociative(Some(found), WalkAll(children), WalkStack(rest));
    AppendAssociative(Some(drawings), Some(found), WalkStack(rest + Reverse(children)));
  }

  /** Visiting the top of the stack moves its drawings to the output and shrinks what is pending. */
  lemma VisitStep(drawings: seq<Path>, rest: seq<Pending>, top: Pending, found: seq<Path>, children: seq<Pending>)
    requires AllDirs(rest) && top.dir.Dir? && AllDirs(children)
    requires Walk(top) == Append(Some(found), WalkAll(children))
    ensures AllDirs(rest + [top]) && AllDirs(rest + Reverse(children))
    ensures Append(Some(drawings), WalkStack(rest + [top]))
            == Append(Some(drawings + found), WalkStack(rest + Reverse(children)))
  {
    TopFirst(rest, top);
    MoveToOutput(drawings, found, rest, children);
  }

  /** Walk with an explicit stack; the result is that of the recursive walk. */
  method WalkByStack(root: Entry) returns (r: Option<seq<Path>>)
    requires root.Dir?
    ensures r == Walk(Pending([], root))
  {
    ghost var goal := Walk(Pending([], root));
    var drawings: seq<Path> := [];
    var pending := [Pending([], root)];
    StackOfOne(Pending([], root));
    while pending != []
      invariant AllDirs(pending)
      invariant goal == Append(Some(drawings), WalkStack(pending))
      decreases PendingSize(pending)
    {
      var top, rest := pending[|pending| - 1], pending[..|pending| - 1];
      SplitLast(pending);
      var ok, found, children := Visit(top);
      if !ok {
        TopFirst(rest, top);
        return None;
      }
      VisitStep(drawings, rest, top, found, children);
      VisitShrinks(rest, top, children);
      drawings := drawings + found;
      pending := rest + Reverse(children);
    }
    assert drawings + [] == drawings;
    r := Some(drawings);
  }

  /** The drawings of the corpus. A link, or a tree without a drawing, is refused; otherwise the list holds exactly the
      tree's drawings, and over directories whose names differ, in increasing order of path. */
  method EnumerateDrawings(root: Entry) returns (r: Option<seq<Path>>)
    ensures r == if root.Dir? && Walk(Pending([], root)) != Some([]) then Walk(Pending([], root)) else None
    ensures r.None? <==> !root.Dir? || LinkBelow(root.entries) || !AnyDrawing(root.entries)
    ensures r.Some? ==> root.Dir? && ListsExactly(r.value, root)
    ensures r.Some? && DistinctNames(root.entries) ==> Increasing(r.value)
  {
    if !root.Dir? {
      return None;
    }
    RootWalk(root);
    r := WalkByStack(root);
    if r == Some([]) {
      return None;
    }
  }

  ghost predicate AnyDrawing(entries: seq<Entry>) {
    exists q :: HasDrawing(entries, q)
  }

  ghost predicate ListsExactly(paths: seq<Path>, root: Entry)
    requires root.Dir?
  {
    forall q :: q in paths <==> HasDrawing(root.entries, q)
  }

  lemma SplitLast<T>(s: seq<T>)
    requires s != []
    ensures s == s[..|s| - 1] + [s[|s| - 1]]
  {
  }

  lemma StackOfOne(p: Pending)
    requires p.dir.Dir?
    ensures Append(Some([]), WalkStack([p])) == Walk(p)
  {
    assert [p][..0] == [];
    var w := Walk(p);
    assert w.Some? ==> [] + (w.value + []) == w.value;
  }

  /** The tree has a drawing at this relative path. */
  ghost predicate HasDrawing(entries: seq<Entry>, rel: Path)
    decreases |rel|
  {
    exists e :: e in entries && rel != [] && e.name == rel[0]
      && if |rel| == 1 then IsDrawing(e) else e.Dir? && HasDrawing(e.entries, rel[1..])
  }

  lemma {:induction false} DrawingsListed(path: Path, listing: seq<Entry>, q: Path)
    ensures q in Drawings(path, listing) <==> exists e :: e in listing && IsDrawing(e) && q == path + [e.name]
  {
    if listing != [] {
      SplitLast(listing);
      DrawingsListed(path, listing[..|listing| - 1], q);
    }
  }

  lemma {:induction false} ChildrenListed(path: Path, listing: seq<Entry>, p: Pending)
    ensures p in Children(path, listing) <==> p.dir in listing && p.dir.Dir? && p.path == path + [p.dir.name]
  {
    if listing != [] {
      SplitLast(listing);
      ChildrenListed(path, listing[..|listing| - 1], p);
    }
  }

  /** The walk of p completes and lists q. */
  ghost predicate Lists(p: Pending, q: Path) {
    p.dir.Dir? && Walk(p).Some? && q in Walk(p).value
  }

  lemma {:induction false} WalkAllListed(ps: seq<Pending>, q: Path)
    requires AllDirs(ps) && WalkAll(ps).Some?
    ensures q in WalkAll(ps).value <==>
            exists p :: p in ps && Lists(p, q)
    ensures forall p :: p in ps ==> p.dir.Dir? && Walk(p).Some?
    decreases |ps|
  {
    if ps != [] {
      WalkAllListed(ps[1..], q);
      assert forall p :: p in ps <==> p == ps[0] || p in ps[1..];
      assert WalkAll(ps).value == Walk(ps[0]).value + WalkAll(ps[1..]).value;
      assert q in Walk(ps[0]).value <==> Lists(ps[0], q);
    }
  }

  lemma StepDown(path: Path, name: string, q: Path)
    ensures path + [name] <= q <==> path <= q && |q| > |path| && q[|path|] == name
    ensures path + [name] <= q ==> q[|path + [name]|..] == q[|path|..][1..]
  {
    if path <= q && |q| > |path| && q[|path|] == name {
      assert forall i :: 0 <= i < |path| ==> path[i] == q[i];
    }
  }

  /** The walk of one subdirectory lists q exactly when it has a drawing there. */
  ghost predicate ChildFinds(c: Pending, path: Path, q: Path) {
    && c.dir.Dir? && Walk(c).Some?
    && (q in Walk(c).value <==>
         path <= q && |q| > |path| && q[|path|] == c.dir.name && HasDrawing(c.dir.entries, q[|path|..][1..]))
  }

  /** A completed walk lists a path exactly when the tree has a drawing there. */
  lemma {:induction false} WalkFindsExactly(p: Pending, q: Path)
    requires p.dir.Dir? && Walk(p).Some?
    ensures q in Walk(p).value <==> p.path <= q && HasDrawing(p.dir.entries, q[|p.path|..])
    decreases Size(p.dir)
  {
    var listing := SortEntries(p.dir.entries);
    var children := Children(p.path, listing);
    ChildrenSize(p.path, listing);
    WalkAllListed(children, q);
    forall c | c in children ensures ChildFinds(c, p.path, q) {
      ChildrenListed(p.path, listing, c);
      ChildSmaller(children, c);
      WalkFindsExactly(c, q);
      StepDown(p.path, c.dir.name, q);
    }
    if q in Walk(p).value {
      ListedHasDrawing(p.path, listing, q);
    }
    if p.path <= q && HasDrawing(p.dir.entries, q[|p.path|..]) {
      DrawingIsListed(p.path, listing, q);
    }
    SameDrawings(p.dir.entries, listing, if p.path <= q then q[|p.path|..] else []);
  }

  /** Only the set of entries matters for what drawings there are. */
  lemma SameDrawings(xs: seq<Entry>, ys: seq<Entry>, rel: Path)
    requires forall e :: e in xs <==> e in ys
    ensures HasDrawing(xs, rel) <==> HasDrawing(ys, rel)
  {
  }

  lemma ListedHasDrawing(path: Path, listing: seq<Entry>, q: Path)
    requires forall c :: c in Children(path, listing) ==> ChildFinds(c, path, q)
    requires q in Drawings(path, listing) || exists c :: c in Children(path, listing) && Lists(c, q)
    ensures path <= q && HasDrawing(listing, q[|path|..])
  {
    DrawingsListed(path, listing, q);
    if q in Drawings(path, listing) {
      var e :| e in listing && IsDrawing(e) && q == path + [e.name];
      assert q[|path|..] == [e.name];
    } else {
      var c :| c in Children(path, listing) && Lists(c, q);
      ChildrenListed(path, listing, c);
      assert c.dir in listing && q[|path|..][0] == c.dir.name;
    }
  }

  lemma DrawingIsListed(path: Path, listing: seq<Entry>, q: Path)
    requires forall c :: c in Children(path, listing) ==> ChildFinds(c, path, q)
    requires path <= q && HasDrawing(listing, q[|path|..])
    ensures q in Drawings(path, listing) || exists c :: c in Children(path, listing) && Lists(c, q)
  {
    var rel := q[|path|..];
    DrawingsListed(path, listing, q);
    var e :| e in listing && rel != [] && e.name == rel[0]
      && if |rel| == 1 then IsDrawing(e) else e.Dir? && HasDrawing(e.entries, rel[1..]);
    if |rel| == 1 {
      assert q == path + [e.name];
    } else {
      var c := Pending(path + [e.name], e);
      ChildrenListed(path, listing, c);
      assert c in Children(path, listing) && ChildFinds(c, path, q);
    }
  }

  lemma {:induction false} ChildSmaller(ps: seq<Pending>, p: Pending)
    requires p in ps
    ensures Size(p.dir) <= PendingSize(ps)
  {
    if p != ps[0] {
      ChildSmaller(ps[1..], p);
    }
  }

  /** As in a real directory, no two entries of a listing share a name. */
  ghost predicate NamesDiffer(entries: seq<Entry>) {
    forall i, j :: 0 <= i < j < |entries| ==> entries[i].name != entries[j].name
  }

  ghost predicate DistinctNames(entries: seq<Entry>) {
    && NamesDiffer(entries)
    && forall e :: e in entries && e.Dir? ==> DistinctNames(e.entries)
  }

  ghost predicate NoRepeats(paths: seq<Path>) {
    forall i, j :: 0 <= i < j < |paths| ==> paths[i] != paths[j]
  }

  lemma {:induction false} InsertedNamesDiffer(e: Entry, sorted: seq<Entry>)
    requires NamesDiffer(sorted) && forall x :: x in sorted ==> x.name != e.name
    ensures NamesDiffer(InsertEntry(e, sorted))
  {
    if sorted != [] && Before(sorted[0], e) {
      var rest := InsertEntry(e, sorted[1..]);
      InsertedNamesDiffer(e, sorted[1..]);
      forall j | 0 <= j < |rest| ensures rest[j].name != sorted[0].name {
        assert rest[j] in rest;
      }
    }
  }

  lemma {:induction false} SortedNamesDiffer(entries: seq<Entry>)
    requires NamesDiffer(entries)
    ensures NamesDiffer(SortEntries(entries))
  {
    if entries != [] {
      var rest := SortEntries(entries[1..]);
      SortedNamesDiffer(entries[1..]);
      forall x | x in rest ensures x.name != entries[0].name {
        assert x in entries[1..];
      }
      InsertedNamesDiffer(entries[0], rest);
    }
  }

  lemma {:induction false} DrawingsOnce(path: Path, listing: seq<Entry>)
    requires NamesDiffer(listing)
    ensures NoRepeats(Drawings(path, listing))
  {
    if listing != [] {
      var front, last := listing[..|listing| - 1], listing[|listing| - 1];
      DrawingsOnce(path, front);
      forall q | q in Drawings(path, front) ensures q != path + [last.name] {
        DrawingsListed(path, front, q);
        var e :| e in front && IsDrawing(e) && q == path + [e.name];
        assert q[|path|] == e.name;
      }
      JoinOnce(Drawings(path, front), if IsDrawing(last) then [path + [last.name]] else []);
    }
  }

  /** The subdirectories' paths differ in the component after `path`. */
  ghost predicate SiblingsDiffer(path: Path, ps: seq<Pending>) {
    && (forall i :: 0 <= i < |ps| ==> ps[i].path == path + [ps[i].dir.name])
    && (forall i, j :: 0 <= i < j < |ps| ==> ps[i].dir.name != ps[j].dir.name)
  }

  lemma {:induction false} ChildrenDiffer(path: Path, listing: seq<Entry>)
    requires NamesDiffer(listing)
    ensures SiblingsDiffer(path, Children(path, listing))
  {
    if listing != [] {
      var front, last := listing[..|listing| - 1], listing[|listing| - 1];
      ChildrenDiffer(path, front);
      var before := Children(path, front);
      forall i | 0 <= i < |before| ensures before[i].dir.name != last.name {
        ChildrenListed(path, front, before[i]);
      }
    }
  }

  lemma JoinOnce(a: seq<Path>, b: seq<Path>)
    requires NoRepeats(a) && NoRepeats(b) && forall q :: q in a ==> q !in b
    ensures NoRepeats(a + b)
  {
    var all := a + b;
    forall i, j | 0 <= i < j < |all| ensures all[i] != all[j] {
      if i < |a| <= j { assert all[i] in a && all[j] in b; }
    }
  }

  /** Each of the walks lists its drawings once. */
  ghost predicate EachOnce(ps: seq<Pending>) {
    forall i :: 0 <= i < |ps| ==> ps[i].dir.Dir? && (Walk(ps[i]).Some? ==> NoRepeats(Walk(ps[i]).value))
  }

  lemma {:induction false} SiblingsOnce(path: Path, ps: seq<Pending>)
    requires AllDirs(ps) && WalkAll(ps).Some? && SiblingsDiffer(path, ps) && EachOnce(ps)
    ensures NoRepeats(WalkAll(ps).value)
    decreases |ps|
  {
    if ps != [] {
      SiblingsOnce(path, ps[1..]);
      forall q | q in Walk(ps[0]).value ensures q !in WalkAll(ps[1..]).value {
        WalkFindsExactly(ps[0], q);
        StepDown(path, ps[0].dir.name, q);
        WalkAllListed(ps[1..], q);
        forall p | p in ps[1..] ensures !Lists(p, q) {
          if Lists(p, q) {
            WalkFindsExactly(p, q);
            StepDown(path, p.dir.name, q);
          }
        }
      }
      JoinOnce(Walk(ps[0]).value, WalkAll(ps[1..]).value);
    }
  }

  /** With distinct names in every directory, a completed walk lists each drawing exactly once. */
  lemma {:induction false} WalkFindsOnce(p: Pending)
    requires p.dir.Dir? && Walk(p).Some? && DistinctNames(p.dir.entries)
    ensures NoRepeats(Walk(p).value)
    decreases Size(p.dir)
  {
    var listing := SortEntries(p.dir.entries);
    var children := Children(p.path, listing);
    ChildrenSize(p.path, listing);
    SortedNamesDiffer(p.dir.entries);
    DrawingsOnce(p.path, listing);
    ChildrenDiffer(p.path, listing);
    forall i | 0 <= i < |children|
      ensures children[i].dir.Dir? && (Walk(children[i]).Some? ==> NoRepeats(Walk(children[i]).value))
    {
      ChildrenListed(p.path, listing, children[i]);
      ChildSmaller(children, children[i]);
      if Walk(children[i]).Some? {
        WalkFindsOnce(children[i]);
      }
    }
    SiblingsOnce(p.path, children);
    forall q | q in Drawings(p.path, listing) ensures q !in WalkAll(children).value {
      DrawingAbove(p.path, listing, children, q);
    }
    JoinOnce(Drawings(p.path, listing), WalkAll(children).value);
  }

  /** A directory's own drawings lie above those of its subdirectories. */
  lemma DrawingAbove(path: Path, listing: seq<Entry>, children: seq<Pending>, q: Path)
    requires q in Drawings(path, listing) && SiblingsDiffer(path, children)
    requires AllDirs(children) && WalkAll(children).Some?
    ensures q !in WalkAll(children).value
  {
    DrawingsListed(path, listing, q);
    WalkAllListed(children, q);
    forall p | p in children ensures !Lists(p, q) {
      if Lists(p, q) {
        WalkFindsExactly(p, q);
      }
    }
  }

  /** The order of drawings, said from their paths alone: in each directory its own drawings by name, then those of
      its subdirectories, by the subdirectory's name. */
  ghost predicate PathBefore(p: Path, q: Path)
    decreases |p|
  {
    && p != [] && q != []
    && if |p| == 1 && |q| == 1 then NameBefore(p[0], q[0])
       else if |p| == 1 then true
       else if |q| == 1 then false
       else if p[0] == q[0] then PathBefore(p[1..], q[1..])
       else NameBefore(p[0], q[0])
  }

  ghost predicate Increasing(paths: seq<Path>) {
    forall i, j :: 0 <= i < j < |paths| ==> PathBefore(paths[i], paths[j])
  }

  /** q lies before r, seen from a directory n levels deep. */
  ghost predicate BeforeFrom(n: nat, q: Path, r: Path) {
    n <= |q| && n <= |r| && PathBefore(q[n..], r[n..])
  }

  ghost predicate IncreasingFrom(n: nat, paths: seq<Path>) {
    forall i, j :: 0 <= i < j < |paths| ==> BeforeFrom(n, paths[i], paths[j])
  }

  lemma JoinIncreasing(n: nat, a: seq<Path>, b: seq<Path>)
    requires IncreasingFrom(n, a) && IncreasingFrom(n, b)
    requires forall q, r :: q in a && r in b ==> BeforeFrom(n, q, r)
    ensures IncreasingFrom(n, a + b)
  {
    var all := a + b;
    forall i, j | 0 <= i < j < |all| ensures BeforeFrom(n, all[i], all[j]) {
      if i < |a| <= j { assert all[i] in a && all[j] in b; }
    }
  }

  lemma InOrderStrictly(entries: seq<Entry>, i: nat, j: nat)
    requires InOrder(entries) && NamesDiffer(entries) && i < j < |entries|
    ensures NameBefore(entries[i].name, entries[j].name)
  {
    var a, b := entries[i], entries[j];
    assert !Before(b, a) && a.name != b.name;
    TextLessTotal(CaseFold(a.name), CaseFold(b.name));
    TextLessTotal(a.name, b.name);
  }

  lemma DrawingOf(path: Path, listing: seq<Entry>, q: Path) returns (i: nat)
    requires q in Drawings(path, listing)
    ensures i < |listing| && q == path + [listing[i].name]
  {
    DrawingsListed(path, listing, q);
    var e :| e in listing && IsDrawing(e) && q == path + [e.name];
    i :| i < |listing| && listing[i] == e;
  }

  lemma LastDrawing(path: Path, listing: seq<Entry>, q: Path)
    requires InOrder(listing) && NamesDiffer(listing) && listing != []
    requires q in Drawings(path, listing[..|listing| - 1])
    ensures BeforeFrom(|path|, q, path + [listing[|listing| - 1].name])
  {
    var n := |listing| - 1;
    var i := DrawingOf(path, listing[..n], q);
    InOrderStrictly(listing, i, n);
    NeighboursBefore(path, listing[i].name, listing[n].name);
  }

  lemma NeighboursBefore(path: Path, a: string, b: string)
    requires NameBefore(a, b)
    ensures BeforeFrom(|path|, path + [a], path + [b])
  {
    assert (path + [a])[|path|..] == [a] && (path + [b])[|path|..] == [b];
  }

  lemma {:induction false} DrawingsIncrease(path: Path, listing: seq<Entry>)
    requires InOrder(listing) && NamesDiffer(listing)
    ensures IncreasingFrom(|path|, Drawings(path, listing))
  {
    if listing != [] {
      var n := |listing| - 1;
      var front, last := listing[..n], listing[n];
      DrawingsIncrease(path, front);
      forall q | q in Drawings(path, front) ensures BeforeFrom(|path|, q, path + [last.name]) {
        LastDrawing(path, listing, q);
      }
      JoinIncreasing(|path|, Drawings(path, front), if IsDrawing(last) then [path + [last.name]] else []);
    }
  }

  ghost predicate SiblingsInOrder(ps: seq<Pending>) {
    forall i, j :: 0 <= i < j < |ps| ==> NameBefore(ps[i].dir.name, ps[j].dir.name)
  }

  lemma {:induction false} ChildrenInOrder(path: Path, listing: seq<Entry>)
    requires InOrder(listing) && NamesDiffer(listing)
    ensures SiblingsInOrder(Children(path, listing))
  {
    if listing != [] {
      var n := |listing| - 1;
      var front, last := listing[..n], listing[n];
      ChildrenInOrder(path, front);
      var before := Children(path, front);
      forall i | 0 <= i < |before| ensures NameBefore(before[i].dir.name, last.name) {
        ChildrenListed(path, front, before[i]);
        var j :| 0 <= j < n && front[j] == before[i].dir;
        InOrderStrictly(listing, j, n);
      }
    }
  }

  /** What a subdirectory contributes goes on from its own name. */
  lemma ListedBelow(c: Pending, path: Path, q: Path)
    requires Lists(c, q) && c.path == path + [c.dir.name]
    ensures |q| > |path| + 1 && q[|path|] == c.dir.name
    ensures q[|path|..][1..] == q[|path| + 1..]
  {
    WalkFindsExactly(c, q);
    StepDown(path, c.dir.name, q);
  }

  lemma ChildIncreases(c: Pending, path: Path, paths: seq<Path>)
    requires c.path == path + [c.dir.name] && IncreasingFrom(|path| + 1, paths)
    requires forall q :: q in paths ==> Lists(c, q)
    ensures IncreasingFrom(|path|, paths)
  {
    forall i, j | 0 <= i < j < |paths| ensures BeforeFrom(|path|, paths[i], paths[j]) {
      ListedBelow(c, path, paths[i]);
      ListedBelow(c, path, paths[j]);
      assert BeforeFrom(|path| + 1, paths[i], paths[j]);
    }
  }

  lemma AcrossSiblings(path: Path, c: Pending, d: Pending, q: Path, r: Path)
    requires Lists(c, q) && Lists(d, r)
    requires c.path == path + [c.dir.name] && d.path == path + [d.dir.name]
    requires c.dir.name != d.dir.name && NameBefore(c.dir.name, d.dir.name)
    ensures BeforeFrom(|path|, q, r)
  {
    ListedBelow(c, path, q);
    ListedBelow(d, path, r);
  }

  lemma FirstSiblingFirst(path: Path, ps: seq<Pending>, q: Path, r: Path)
    requires ps != [] && AllDirs(ps) && WalkAll(ps[1..]).Some? && SiblingsDiffer(path, ps) && SiblingsInOrder(ps)
    requires Lists(ps[0], q) && r in WalkAll(ps[1..]).value
    ensures BeforeFrom(|path|, q, r)
  {
    var rest := ps[1..];
    WalkAllListed(rest, r);
    var d :| d in rest && Lists(d, r);
    var j :| 0 <= j < |rest| && rest[j] == d;
    assert ps[j + 1] == d;
    AcrossSiblings(path, ps[0], d, q, r);
  }

  lemma {:induction false} SiblingsIncrease(path: Path, ps: seq<Pending>)
    requires AllDirs(ps) && WalkAll(ps).Some? && SiblingsDiffer(path, ps) && SiblingsInOrder(ps)
    requires forall i :: 0 <= i < |ps| && Walk(ps[i]).Some? ==> IncreasingFrom(|path| + 1, Walk(ps[i]).value)
    ensures IncreasingFrom(|path|, WalkAll(ps).value)
    decreases |ps|
  {
    if ps != [] {
      var rest := ps[1..];
      SiblingsIncrease(path, rest);
      ChildIncreases(ps[0], path, Walk(ps[0]).value);
      forall q, r | q in Walk(ps[0]).value && r in WalkAll(rest).value ensures BeforeFrom(|path|, q, r) {
        FirstSiblingFirst(path, ps, q, r);
      }
      JoinIncreasing(|path|, Walk(ps[0]).value, WalkAll(rest).value);
    }
  }

  lemma DrawingsFirst(path: Path, listing: seq<Entry>, children: seq<Pending>, q: Path, r: Path)
    requires AllDirs(children) && WalkAll(children).Some? && SiblingsDiffer(path, children)
    requires q in Drawings(path, listing) && r in WalkAll(children).value
    ensures BeforeFrom(|path|, q, r)
  {
    DrawingsListed(path, listing, q);
    WalkAllListed(children, r);
    var d :| d in children && Lists(d, r);
    ListedBelow(d, path, r);
  }

  lemma ListingIncreases(path: Path, listing: seq<Entry>)
    requires InOrder(listing) && NamesDiffer(listing)
    requires AllDirs(Children(path, listing)) && WalkAll(Children(path, listing)).Some?
    requires forall c :: c in Children(path, listing) && c.dir.Dir? && Walk(c).Some? ==>
      IncreasingFrom(|path| + 1, Walk(c).value)
    ensures IncreasingFrom(|path|, Drawings(path, listing) + WalkAll(Children(path, listing)).value)
  {
    var children := Children(path, listing);
    DrawingsIncrease(path, listing);
    ChildrenDiffer(path, listing);
    ChildrenInOrder(path, listing);
    SiblingsIncrease(path, children);
    forall q, r | q in Drawings(path, listing) && r in WalkAll(children).value ensures BeforeFrom(|path|, q, r) {
      DrawingsFirst(path, listing, children, q, r);
    }
    JoinIncreasing(|path|, Drawings(path, listing), WalkAll(children).value);
  }

  lemma WalkParts(p: Pending)
    requires p.dir.Dir? && Walk(p).Some?
    ensures var children := Children(p.path, SortEntries(p.dir.entries));
      && AllDirs(children) && WalkAll(children).Some?
      && Walk(p).value == Drawings(p.path, SortEntries(p.dir.entries)) + WalkAll(children).value
  {
    ChildrenSize(p.path, SortEntries(p.dir.entries));
  }

  lemma ChildOf(p: Pending, c: Pending)
    requires p.dir.Dir? && c in Children(p.path, SortEntries(p.dir.entries))
    ensures c.dir.Dir? && c.dir in p.dir.entries && c.path == p.path + [c.dir.name] && Size(c.dir) < Size(p.dir)
  {
    var listing := SortEntries(p.dir.entries);
    ChildrenListed(p.path, listing, c);
    ChildrenSize(p.path, listing);
    ChildSmaller(Children(p.path, listing), c);
  }

  /** With distinct names in every directory, a completed walk lists the drawings in increasing order. */
  lemma {:induction false} WalkIncreases(p: Pending)
    requires p.dir.Dir? && Walk(p).Some? && DistinctNames(p.dir.entries)
    ensures IncreasingFrom(|p.path|, Walk(p).value)
    decreases Size(p.dir)
  {
    var listing := SortEntries(p.dir.entries);
    WalkParts(p);
    SortedListing(p.dir.entries);
    SortedNamesDiffer(p.dir.entries);
    forall c | c in Children(p.path, listing) && c.dir.Dir? && Walk(c).Some?
      ensures IncreasingFrom(|p.path| + 1, Walk(c).value)
    {
      ChildOf(p, c);
      WalkIncreases(c);
    }
    ListingIncreases(p.path, listing);
  }

  /** Some directory of the tree lists a link. */
  ghost predicate LinkBelow(entries: seq<Entry>) {
    exists e :: e in entries && (e.Link? || (e.Dir? && LinkBelow(e.entries)))
  }

  lemma {:induction false} WalkAllRefuses(ps: seq<Pending>)
    requires AllDirs(ps)
    ensures WalkAll(ps).None? <==> exists p :: p in ps && p.dir.Dir? && Walk(p).None?
    decreases |ps|
  {
    if ps != [] {
      WalkAllRefuses(ps[1..]);
      assert forall p :: p in ps <==> p == ps[0] || p in ps[1..];
    }
  }

  /** The walk of a subdirectory is refused exactly when there is a link below it. */
  ghost predicate RefusedRightly(c: Pending) {
    c.dir.Dir? && (Walk(c).None? <==> LinkBelow(c.dir.entries))
  }

  lemma ListingRefused(path: Path, entries: seq<Entry>, listing: seq<Entry>)
    requires forall e :: e in entries <==> e in listing
    requires AllDirs(Children(path, listing)) && forall c :: c in Children(path, listing) ==> RefusedRightly(c)
    ensures LinkBelow(entries) <==> HasLink(listing) || WalkAll(Children(path, listing)).None?
  {
    var children := Children(path, listing);
    WalkAllRefuses(children);
    if e :| e in entries && (e.Link? || (e.Dir? && LinkBelow(e.entries))) {
      if e.Dir? {
        ChildrenListed(path, listing, Pending(path + [e.name], e));
        assert RefusedRightly(Pending(path + [e.name], e));
      }
    }
    if c :| c in children && c.dir.Dir? && Walk(c).None? {
      ChildrenListed(path, listing, c);
      assert RefusedRightly(c) && c.dir in entries;
    }
  }

  /** The walk is refused exactly when there is a link somewhere below. */
  lemma {:induction false} WalkRefusesExactly(p: Pending)
    requires p.dir.Dir?
    ensures RefusedRightly(p)
    decreases Size(p.dir)
  {
    var listing := SortEntries(p.dir.entries);
    ChildrenSize(p.path, listing);
    forall c | c in Children(p.path, listing) ensures RefusedRightly(c) {
      ChildrenListed(p.path, listing, c);
      ChildSmaller(Children(p.path, listing), c);
      WalkRefusesExactly(c);
    }
    ListingRefused(p.path, p.dir.entries, listing);
  }

  /** What the walk from the root comes to. */
  lemma RootWalk(root: Entry)
    requires root.Dir?
    ensures var w := Walk(Pending([], root));
      && (w.None? <==> LinkBelow(root.entries))
      && (w.Some? ==> ListsExactly(w.value, root) && (w.value == [] <==> !AnyDrawing(root.entries)))
      && (w.Some? && DistinctNames(root.entries) ==> Increasing(w.value))
  {
    var p := Pending([], root);
    WalkRefusesExactly(p);
    if Walk(p).Some? {
      forall q ensures q in Walk(p).value <==> HasDrawing(root.entries, q) {
        WalkFindsExactly(p, q);
        assert q[0..] == q;
      }
      assert Walk(p).value != [] ==> Walk(p).value[0] in Walk(p).value;
      if DistinctNames(root.entries) {
        WalkIncreases(p);
        var w := Walk(p).value;
        forall i, j | 0 <= i < j < |w| ensures PathBefore(w[i], w[j]) {
          assert BeforeFrom(0, w[i], w[j]) && w[i][0..] == w[i] && w[j][0..] == w[j];
        }
      }
    }
  }

  /** The suffix is the last dot with what follows it, unless nothing precedes or follows it. */
  lemma SuffixExactly(stem: string, extension: string)
    requires '.' !in extension
    ensures stem != "" && extension != "" ==> Suffix(stem + "." + extension) == "." + extension
    ensures Suffix(extension) == "" && Suffix("." + extension) == "" && Suffix(stem + ".") == ""
  {
    AfterLastExactly(stem, '.', extension);
    AfterLastExactly("", '.', extension);
    AfterLastExactly(stem, '.', "");
    assert "" + ['.'] + extension == "." + extension;
    assert stem + ['.'] + "" == stem + ".";
  }
}
