/** What the merge guarantees about the tree it produces. */
module YamlMergeFacts {
  import opened Bytes
  import opened YamlTree
  import opened YamlMerge

  // ----- the two notions the theorems are about -----

  predicate DistinctKeys(entries: seq<Entry>) {
    && (forall i, j :: 0 <= i < j < |entries| ==> entries[i].key.text != entries[j].key.text)
    && (forall i :: 0 <= i < |entries| ==> Trim(entries[i].key.text) != "")
  }

  /** A tree an encoder generates: keys of one mapping are distinct and not blank. */
  predicate Generated(g: Node) {
    match g
    case Mapping(_, _, _, entries) =>
      DistinctKeys(entries) && forall i :: 0 <= i < |entries| ==> Generated(entries[i].value)
    case Sequence(_, _, _, items) => forall i :: 0 <= i < |items| ==> Generated(items[i])
    case Scalar(_, _, _) => true
  }

  /** The merged tree says everything the generated one says.  A missing key has a value that, pruned, is a default
      by the code's own test; a list has the generated length, unless an explicit null stands for the empty list. */
  predicate Covers(m: Node, g: Node, path: Path)
    decreases g
  {
    match g
    case Mapping(_, _, _, entries) =>
      m.Mapping? && forall i :: 0 <= i < |entries| ==>
        var found := FindKey(m.entries, entries[i].key.text);
        var child := path + [entries[i].key.text];
        if found.Some? then Covers(m.entries[found.value].value, entries[i].value, child)
        else IsKnownDefault(child, Pruned(child, entries[i].value))
    case Sequence(_, _, _, items) =>
      || (items == [] && m.Scalar? && m.tag == "!!null")
      || (m.Sequence? && |m.items| == |items| && forall i :: 0 <= i < |items| ==> Covers(m.items[i], items[i], path))
    case Scalar(tag, text, _) => m.Scalar? && m.tag == tag && m.text == text
  }

  /** One entry of a generated mapping is covered by a list of entries. */
  predicate CoversEntry(m: seq<Entry>, e: Entry, path: Path) {
    var found := FindKey(m, e.key.text);
    var child := path + [e.key.text];
    if found.Some? then Covers(m[found.value].value, e.value, child) else IsKnownDefault(child, Pruned(child, e.value))
  }

  lemma CoversMapping(m: Node, g: Node, path: Path)
    requires m.Mapping? && g.Mapping? && forall i :: 0 <= i < |g.entries| ==> CoversEntry(m.entries, g.entries[i], path)
    ensures Covers(m, g, path)
  {
    forall i | 0 <= i < |g.entries|
      ensures var found := FindKey(m.entries, g.entries[i].key.text);
              var child := path + [g.entries[i].key.text];
              if found.Some? then Covers(m.entries[found.value].value, g.entries[i].value, child)
              else IsKnownDefault(child, Pruned(child, g.entries[i].value))
    {
      assert CoversEntry(m.entries, g.entries[i], path);
    }
  }

  lemma CoversMappingEntry(m: Node, g: Node, path: Path, i: nat)
    requires g.Mapping? && Covers(m, g, path) && i < |g.entries|
    ensures m.Mapping? && CoversEntry(m.entries, g.entries[i], path)
  {
  }

  // ----- looking keys up -----

  lemma FindKeySnoc(entries: seq<Entry>, e: Entry, key: string)
    ensures FindKey(entries + [e], key) ==
            if FindKey(entries, key).Some? then FindKey(entries, key)
            else if e.key.text == key then Some(|entries|) else None
  {
    assert (entries + [e])[..|entries|] == entries;
  }

  lemma {:induction false} FindKeyUpdate(entries: seq<Entry>, i: nat, value: Node, key: string)
    requires i < |entries|
    ensures FindKey(entries[i := Entry(entries[i].key, value)], key) == FindKey(entries, key)
    decreases |entries|
  {
    var n := |entries| - 1;
    var after := entries[i := Entry(entries[i].key, value)];
    if i == n {
      assert after[..n] == entries[..n];
    } else {
      assert after[..n] == entries[..n][i := Entry(entries[i].key, value)];
      FindKeyUpdate(entries[..n], i, value, key);
    }
  }

  lemma FindOwnKey(entries: seq<Entry>, i: nat)
    requires DistinctKeys(entries) && i < |entries|
    ensures FindKey(entries, entries[i].key.text) == Some(i)
  {
    FindKeyIs(entries, entries[i].key.text, i);
  }

  // ----- defaults -----

  lemma {:induction false} PrunedKeepsZero(path: Path, node: Node)
    requires IsZero(node)
    ensures IsZero(Pruned(path, node))
    decreases node, 1
  {
    match node
    case Scalar(_, _, _) =>
    case Sequence(_, _, _, items) =>
      forall i | 0 <= i < |items| ensures IsZero(Pruned(path, items[i])) {
        PrunedKeepsZero(path, items[i]);
      }
    case Mapping(_, _, _, entries) =>
      PrunedEntriesKeepZero(path, node, |entries|);
  }

  lemma {:induction false} PrunedEntriesKeepZero(path: Path, node: Node, n: nat)
    requires node.Mapping? && n <= |node.entries| && IsZero(node)
    ensures forall i :: 0 <= i < |PrunedEntries(path, node, n)| ==> IsZero(PrunedEntries(path, node, n)[i].value)
    decreases node, 0, n
  {
    if n > 0 {
      PrunedEntriesKeepZero(path, node, n - 1);
      var e := node.entries[n - 1];
      PrunedKeepsZero(path + [e.key.text], e.value);
    }
  }

  /** Pruning never turns a default into something that is not one, and what it empties is a default. */
  lemma PrunedDefault(path: Path, node: Node)
    ensures IsKnownDefault(path, node) ==> IsKnownDefault(path, Pruned(path, node))
    ensures IsEmptyCollection(Pruned(path, node)) ==> IsKnownDefault(path, Pruned(path, node))
  {
    hide Dotted, IsNamedDefault;
    if IsZero(node) {
      PrunedKeepsZero(path, node);
    }
  }

  lemma KeyBefore(entries: seq<Entry>, n: nat)
    requires DistinctKeys(entries) && n < |entries|
    ensures forall i :: 0 <= i < n ==> entries[i].key.text != entries[n].key.text
  {
  }

  predicate DroppedByPrune(path: Path, e: Entry) {
    var child := path + [e.key.text];
    IsKnownDefault(child, e.value) || IsEmptyCollection(Pruned(child, e.value))
  }

  lemma {:induction false} PrunedFind(path: Path, node: Node, n: nat, key: string)
    requires node.Mapping? && n <= |node.entries| && DistinctKeys(node.entries)
    ensures var pruned := PrunedEntries(path, node, n);
            var found := FindKey(pruned, key);
            && (found.Some? ==> exists i :: 0 <= i < n && node.entries[i].key.text == key && !DroppedByPrune(path, node.entries[i])
                                  && pruned[found.value].value == Pruned(path + [key], node.entries[i].value))
            && (found.None? ==> forall i :: 0 <= i < n && node.entries[i].key.text == key ==> DroppedByPrune(path, node.entries[i]))
    decreases n
  {
    hide IsKnownDefault, Pruned, IsEmptyCollection, FindKey, DistinctKeys;
    if n == 0 {
      FindKeyNone([], key);
    } else {
      KeyBefore(node.entries, n - 1);
      PrunedFind(path, node, n - 1, key);
      var e := node.entries[n - 1];
      FindKeySnoc(PrunedEntries(path, node, n - 1), Entry(e.key, Pruned(path + [e.key.text], e.value)), key);
    }
  }

  /** A pruned copy of a generated value covers it. */
  lemma {:induction false} PrunedCovers(path: Path, g: Node)
    requires Generated(g)
    ensures Covers(Pruned(path, g), g, path)
    decreases g
  {
    hide IsKnownDefault;
    match g
    case Scalar(_, _, _) =>
    case Sequence(_, _, _, items) =>
      forall i | 0 <= i < |items| ensures Covers(Pruned(path, items[i]), items[i], path) {
        PrunedCovers(path, items[i]);
      }
    case Mapping(_, _, _, entries) =>
      var pruned := PrunedEntries(path, g, |entries|);
      forall i | 0 <= i < |entries| ensures CoversEntry(pruned, entries[i], path) {
        var key := entries[i].key.text;
        var child := path + [key];
        PrunedFind(path, g, |entries|, key);
        PrunedCovers(child, entries[i].value);
        PrunedDefault(child, entries[i].value);
        assert forall j :: 0 <= j < |entries| && entries[j].key.text == key ==> j == i;
      }
      CoversMapping(Pruned(path, g), g, path);
  }

  /** So does an unpruned copy. */
  lemma {:induction false} CopyCovers(path: Path, g: Node)
    requires Generated(g)
    ensures Covers(g, g, path)
    decreases g
  {
    match g
    case Scalar(_, _, _) =>
    case Sequence(_, _, _, items) =>
      forall i | 0 <= i < |items| ensures Covers(items[i], items[i], path) {
        CopyCovers(path, items[i]);
      }
    case Mapping(_, _, _, entries) =>
      forall i | 0 <= i < |entries| ensures CoversEntry(entries, entries[i], path) {
        FindOwnKey(entries, i);
        CopyCovers(path + [entries[i].key.text], entries[i].value);
      }
      CoversMapping(g, g, path);
  }

  // ----- merging one entry -----

  /** Merging an entry does not touch the entries of other keys. */
  lemma WithEntryOther(dst: seq<Entry>, e: Entry, path: Path, key: string)
    requires key != e.key.text
    ensures var after := WithEntry(dst, e, path);
            && FindKey(after, key) == FindKey(dst, key)
            && (FindKey(dst, key).Some? ==>
                  FindKey(dst, key).value < |after| && after[FindKey(dst, key).value] == dst[FindKey(dst, key).value])
  {
    hide IsKnownDefault, Pruned, Merged;
    var found := FindKey(dst, e.key.text);
    var child := path + [e.key.text];
    if found.Some? {
      FindKeyUpdate(dst, found.value, Merged(dst[found.value].value, e.value, child), key);
    } else {
      FindKeySnoc(dst, Entry(e.key, Pruned(child, e.value)), key);
    }
  }

  lemma WithEntryOwn(dst: seq<Entry>, e: Entry, path: Path)
    ensures var after := WithEntry(dst, e, path);
            var child := path + [e.key.text];
            var was, got := FindKey(dst, e.key.text), FindKey(after, e.key.text);
            if was.Some? then got == was && after[got.value].value == Merged(dst[was.value].value, e.value, child)
            else if IsKnownDefault(child, Pruned(child, e.value)) then got == None
            else got == Some(|dst|) && after[|dst|].value == Pruned(child, e.value)
  {
    hide IsKnownDefault, Pruned, Merged;
    var found := FindKey(dst, e.key.text);
    var child := path + [e.key.text];
    if found.Some? {
      FindKeyUpdate(dst, found.value, Merged(dst[found.value].value, e.value, child), e.key.text);
    } else {
      FindKeySnoc(dst, Entry(e.key, Pruned(child, e.value)), e.key.text);
    }
  }

  /** Dropping the keys the source lacks keeps the entries of the keys it has. */
  lemma {:induction false} KeptFind(dst: seq<Entry>, src: seq<Entry>, key: string)
    requires HasTrimmedKey(src, Trim(key))
    ensures var was, got := FindKey(dst, key), FindKey(KeptEntries(dst, src), key);
            (was.Some? <==> got.Some?) && (was.Some? ==> KeptEntries(dst, src)[got.value] == dst[was.value])
    decreases |dst|
  {
    hide Trim, HasTrimmedKey;
    if dst != [] {
      var front, last := dst[..|dst| - 1], dst[|dst| - 1];
      KeptFind(front, src, key);
      FindKeySnoc(KeptEntries(front, src), last, key);
      FindKeySnoc(front, last, key);
      assert front + [last] == dst;
    }
  }

  // ----- the theorem -----

  /** The merged tree covers the generated one. */
  lemma {:induction false} MergedCovers(dst: Node, src: Node, path: Path)
    requires Generated(src)
    ensures Covers(Merged(dst, src, path), src, path)
    decreases src, 3
  {
    hide IsKnownDefault, Pruned, Ordered;
    match src
    case Scalar(_, _, _) =>
    case Mapping(_, _, _, entries) =>
      var base := if dst.Mapping? then dst else CopyShallow(dst, src);
      forall i | 0 <= i < |entries| ensures CoversEntry(Merged(dst, src, path).entries, entries[i], path) {
        MergedEntriesCover(base.entries, src, |entries|, path, i);
      }
      CoversMapping(Merged(dst, src, path), src, path);
    case Sequence(_, _, _, items) =>
      if !(dst.Scalar? && dst.tag == "!!null" && items == []) {
        var base := if dst.Sequence? then dst else Sequence("!!seq", dst.text, dst.meta, []);
        var ordered := Ordered(base.items, items);
        forall i | 0 <= i < |items| ensures Covers(Merged(dst, src, path).items[i], items[i], path) {
          if ordered[i].Some? {
            ElementCovers(ordered[i].value, items[i], path);
          } else {
            CopyCovers(path, items[i]);
          }
        }
      }
  }

  lemma {:induction false} ElementCovers(dst: Node, src: Node, path: Path)
    requires Generated(src)
    ensures Covers(MergedElement(dst, src, path), src, path)
    decreases src, 4
  {
    hide IsKnownDefault, Pruned, Merged, Trim, FindKey, KeptEntries;
    MergedCovers(dst, src, path);
    var merged := Merged(dst, src, path);
    if merged.Mapping? && src.Mapping? {
      var kept := merged.(entries := KeptEntries(merged.entries, src.entries));
      forall i | 0 <= i < |src.entries| ensures CoversEntry(kept.entries, src.entries[i], path) {
        CoversMappingEntry(merged, src, path, i);
        KeptFind(merged.entries, src.entries, src.entries[i].key.text);
      }
      CoversMapping(kept, src, path);
    }
  }

  lemma {:induction false} MergedEntriesCover(dst: seq<Entry>, src: Node, n: nat, path: Path, i: nat)
    requires src.Mapping? && i < n <= |src.entries| && Generated(src)
    ensures CoversEntry(MergedEntries(dst, src, n, path), src.entries[i], path)
    decreases src, 2, n
  {
    hide IsKnownDefault, Pruned, Merged, WithEntry, Covers;
    var e := src.entries[n - 1];
    var before := MergedEntries(dst, src, n - 1, path);
    if i == n - 1 {
      var child := path + [e.key.text];
      var found := FindKey(before, e.key.text);
      WithEntryOwn(before, e, path);
      if found.Some? {
        MergedCovers(before[found.value].value, e.value, child);
      } else {
        PrunedCovers(child, e.value);
      }
    } else {
      MergedEntriesCover(dst, src, n - 1, path, i);
      WithEntryOther(before, e, path, src.entries[i].key.text);
    }
  }
}
