/** Mismatch paths and their leaves, the field names that steer the semantic comparison. */
module GoldenPaths {
  import opened Text

  /** The field name a path ends in, without any item selector. */
  function PathLeaf(path: string): string {
    CaseFold(BeforeFirst(AfterLast(path, '.'), '['))
  }

  /** The leaf of a field's path depends on the field name alone. */
  lemma LeafOfField(path: string, key: string)
    ensures PathLeaf(path + "." + key) == PathLeaf(key)
  {
    AfterLastAppend(path, '.', key);
  }

  /** Selecting an item, by whatever selector, keeps the leaf of the collection. */
  lemma LeafOfItem(path: string, selector: string)
    requires '.' !in selector
    ensures PathLeaf(path + "[" + selector + "]") == PathLeaf(path)
  {
    assert path + "[" + selector + "]" == path + ("[" + selector + "]");
    AfterLastKeep(path, '.', "[" + selector + "]");
    var leaf := AfterLast(path, '.');
    assert leaf + ("[" + selector + "]") == leaf + "[" + (selector + "]");
    BeforeFirstDrop(leaf, '[', selector + "]");
  }

  /** A lower-case name without path syntax is its own leaf. */
  lemma LeafOfPlain(s: string)
    requires forall c :: c in s ==> c != '.' && c != '[' && !('A' <= c <= 'Z')
    ensures PathLeaf(s) == s
  {
    AfterLastKeep("", '.', s);
    assert "" + s == s;
    BeforeFirstNone(s, '[');
    LowerCaseFolds(s);
  }

  /** The leaf of any item of a field's list, under any path, is the folded field name. */
  lemma LeafOfSelected(path: string, key: string, selector: string)
    requires forall c :: c in key ==> c != '.' && c != '['
    requires '.' !in selector
    ensures PathLeaf(path + "." + key) == CaseFold(key)
    ensures PathLeaf(path + "." + key + "[" + selector + "]") == CaseFold(key)
  {
    AfterLastExactly("", '.', key);
    BeforeFirstExactly(key, '[', "");
    LeafOfField(path, key);
    LeafOfItem(path + "." + key, selector);
  }
}
