/** What the merge leaves alone: order, style and comments of the user's nodes, keys the generated tree does not
    mention, and the whole file when nothing changed. */
module YamlPreserve {
  import opened Bytes
  import opened YamlTree
  import opened YamlMerge
  import opened YamlMergeFacts

  /** Style and comments of a merged node are the user's. */
  lemma MetaIsKept(dst: Node, src: Node, path: Path)
    ensures Merged(dst, src, path).meta == dst.meta
  {
  }

  // ----- mappings -----

  /** The entries the first n generated entries add: new keys, in generated order, pruned, unless they hold defaults. */
  function Added(dst: seq<Entry>, src: Node, n: nat, path: Path): seq<Entry>
    requires src.Mapping? && n <= |src.entries|
  {
    if n == 0 then []
    else
      var e := src.entries[n - 1];
      var child := path + [e.key.text];
      var front := Added(dst, src, n - 1, path);
      if FindKey(dst, e.key.text).Some? || IsKnownDefault(child, Pruned(child, e.value)) then front
      else front + [Entry(e.key, Pruned(child, e.value))]
  }

  /** The value of the user's entry j after the first n generated entries: merged if its key is among them. */
  function Kept(dst: seq<Entry>, src: Node, n: nat, path: Path, j: nat): Node
    requires src.Mapping? && n <= |src.entries| && j < |dst|
  {
    var key := dst[j].key.text;
    var found := FindKey(src.entries[..n], key);
    if found.Some? && FindKey(dst, key) == Some(j) then Merged(dst[j].value, src.entries[found.value].value, path + [key])
    else dst[j].value
  }

  lemma {:induction false} OtherKeysStay(dst: seq<Entry>, src: Node, n: nat, path: Path, key: string)
    requires src.Mapping? && n <= |src.entries| && forall i :: 0 <= i < n ==> src.entries[i].key.text != key
    ensures var after, found := MergedEntries(dst, src, n, path), FindKey(dst, key);
            FindKey(after, key) == found && (found.Some? ==> found.value < |after| && after[found.value] == dst[found.value])
    decreases n
  {
    hide WithEntry;
    if n > 0 {
      OtherKeysStay(dst, src, n - 1, path, key);
      WithEntryOther(MergedEntries(dst, src, n - 1, path), src.entries[n - 1], path, key);
    }
  }

  /** The user's keys stay where they are, with their key nodes; each first entry of a generated key is merged, every
      other entry is untouched; and behind them come exactly the added ones. */
  lemma {:induction false} MappingShape(dst: seq<Entry>, src: Node, n: nat, path: Path)
    requires src.Mapping? && n <= |src.entries| && DistinctKeys(src.entries)
    ensures var after := MergedEntries(dst, src, n, path);
            && |after| == |dst| + |Added(dst, src, n, path)|
            && after[|dst|..] == Added(dst, src, n, path)
            && forall j :: 0 <= j < |dst| ==> after[j] == Entry(dst[j].key, Kept(dst, src, n, path, j))
    decreases n
  {
    hide Merged, IsKnownDefault, Pruned, MergedEntries, Kept, FindKey, DistinctKeys;
    if n == 0 {
      MergedNone(dst, src, path);
      forall j | 0 <= j < |dst| ensures dst[j] == Entry(dst[j].key, Kept(dst, src, n, path, j)) {
        KeptNone(dst, src, path, j);
      }
    } else {
      var e := src.entries[n - 1];
      MappingShape(dst, src, n - 1, path);
      MergedSnoc(dst, src, n, path);
      KeysBefore(src, n);
      OtherKeysStay(dst, src, n - 1, path, e.key.text);
      forall j | 0 <= j < |dst|
        ensures MergedEntries(dst, src, n, path)[j] == Entry(dst[j].key, Kept(dst, src, n, path, j))
      {
        KeptStep(dst, src, n, path, j);
      }
    }
  }

  lemma KeysBefore(src: Node, n: nat)
    requires src.Mapping? && 0 < n <= |src.entries| && DistinctKeys(src.entries)
    ensures forall i :: 0 <= i < n - 1 ==> src.entries[i].key.text != src.entries[n - 1].key.text
  {
  }

  lemma KeptNone(dst: seq<Entry>, src: Node, path: Path, j: nat)
    requires src.Mapping? && j < |dst|
    ensures Kept(dst, src, 0, path, j) == dst[j].value
  {
    assert src.entries[..0] == [];
  }

  /** One more generated entry concerns only the first of the user's entries with its key. */
  lemma KeptStep(dst: seq<Entry>, src: Node, n: nat, path: Path, j: nat)
    requires src.Mapping? && 0 < n <= |src.entries| && DistinctKeys(src.entries) && j < |dst|
    ensures var e := src.entries[n - 1];
            if FindKey(dst, e.key.text) == Some(j)
            then Kept(dst, src, n - 1, path, j) == dst[j].value
                 && Kept(dst, src, n, path, j) == Merged(dst[j].value, e.value, path + [e.key.text])
            else Kept(dst, src, n, path, j) == Kept(dst, src, n - 1, path, j)
  {
    hide Merged, FindKey;
    var e := src.entries[n - 1];
    var front := src.entries[..n - 1];
    assert src.entries[..n] == front + [e];
    FindKeySnoc(front, e, dst[j].key.text);
    FindKeyNone(front, e.key.text);
  }

  lemma MergedNone(dst: seq<Entry>, src: Node, path: Path)
    requires src.Mapping?
    ensures MergedEntries(dst, src, 0, path) == dst
  {
  }

  lemma MergedSnoc(dst: seq<Entry>, src: Node, n: nat, path: Path)
    requires src.Mapping? && 0 < n <= |src.entries|
    ensures MergedEntries(dst, src, n, path) == WithEntry(MergedEntries(dst, src, n - 1, path), src.entries[n - 1], path)
  {
  }

  // ----- nothing changed -----

  /** Two trees with the same data; style and comments may differ. */
  predicate SameData(d: Node, g: Node) {
    match g
    case Mapping(_, _, _, entries) =>
      && d.Mapping? && |d.entries| == |entries|
      && forall i :: 0 <= i < |entries| ==>
           && d.entries[i].key.text == entries[i].key.text
           && SameData(d.entries[i].key, entries[i].key) && SameData(d.entries[i].value, entries[i].value)
    case Sequence(_, _, _, items) =>
      d.Sequence? && |d.items| == |items| && forall i :: 0 <= i < |items| ==> SameData(d.items[i], items[i])
    case Scalar(tag, text, _) => d.Scalar? && d.tag == tag && d.text == text
  }

  lemma {:induction false} SameDataIsEqual(d: Node, g: Node)
    requires SameData(d, g)
    ensures StructurallyEqual(d, g)
    decreases g
  {
    hide Trim;
    match g
    case Scalar(_, _, _) =>
    case Sequence(_, _, _, items) =>
      forall i | 0 <= i < |items| ensures StructurallyEqual(d.items[i], items[i]) {
        SameDataIsEqual(d.items[i], items[i]);
      }
    case Mapping(_, _, _, entries) =>
      forall i | 0 <= i < |entries|
        ensures StructurallyEqual(d.entries[i].key, entries[i].key) && StructurallyEqual(d.entries[i].value, entries[i].value)
      {
        SameDataIsEqual(d.entries[i].key, entries[i].key);
        SameDataIsEqual(d.entries[i].value, entries[i].value);
      }
  }

  /** Entries that identities cannot tell apart. */
  ghost predicate SameEntries(d: seq<Entry>, g: seq<Entry>) {
    |d| == |g| && forall i :: 0 <= i < |g| ==> SameEntry(d[i], g[i])
  }

  predicate SameEntry(d: Entry, g: Entry) {
    d.key.text == g.key.text && (d.value.Scalar? <==> g.value.Scalar?) && (d.value.Scalar? ==> d.value.text == g.value.text)
  }

  lemma {:induction false} SameScalarValue(d: seq<Entry>, g: seq<Entry>, key: string)
    requires SameEntries(d, g)
    ensures ScalarValue(d, key) == ScalarValue(g, key)
    decreases |d|
  {
    hide Trim, ToLower;
    if d != [] {
      assert SameEntry(d[0], g[0]);
      forall i | 0 <= i < |g[1..]| ensures SameEntry(d[1..][i], g[1..][i]) {
        assert SameEntry(d[i + 1], g[i + 1]);
      }
      SameScalarValue(d[1..], g[1..], key);
    }
  }

  lemma {:induction false} SameFirstIdentity(d: seq<Entry>, g: seq<Entry>, keys: seq<string>)
    requires SameEntries(d, g)
    ensures FirstIdentity(d, keys) == FirstIdentity(g, keys)
    decreases |keys|
  {
    hide ScalarValue;
    if keys != [] {
      SameScalarValue(d, g, keys[0]);
      SameFirstIdentity(d, g, keys[1..]);
    }
  }

  lemma {:induction false} SameFirstScalar(d: seq<Entry>, g: seq<Entry>)
    requires SameEntries(d, g)
    ensures FirstScalar(d) == FirstScalar(g)
    decreases |d|
  {
    hide Trim, ToLower;
    if d != [] {
      assert SameEntry(d[0], g[0]);
      forall i | 0 <= i < |g[1..]| ensures SameEntry(d[1..][i], g[1..][i]) {
        assert SameEntry(d[i + 1], g[i + 1]);
      }
      SameFirstScalar(d[1..], g[1..]);
    }
  }

  lemma SameDataSameIdentity(d: Node, g: Node)
    requires SameData(d, g)
    ensures Identity(d) == Identity(g)
  {
    hide FirstIdentity, FirstScalar;
    if g.Mapping? {
      forall i | 0 <= i < |g.entries| ensures SameEntry(d.entries[i], g.entries[i]) {
        assert SameData(d.entries[i].value, g.entries[i].value);
      }
      SameFirstIdentity(d.entries, g.entries, IDENTITY_KEYS);
      SameFirstScalar(d.entries, g.entries);
    }
  }

  /** With everything before it used, an element is matched by its counterpart. */
  lemma CounterpartMatches(original: seq<Node>, used: seq<bool>, targets: seq<Node>, i: nat)
    requires |used| == |original| == |targets| && i < |targets| && SameData(original[i], targets[i])
    requires forall j :: 0 <= j < |used| ==> (used[j] <==> j < i)
    ensures Match(original, used, targets[i]) == Some(i)
  {
    hide Identity, Trim, StructurallyEqual;
    SameDataSameIdentity(original[i], targets[i]);
    SameDataIsEqual(original[i], targets[i]);
    var found := FirstWanted(original, used, targets[i], true, |original|);
    if Wanted(original[i], targets[i], true) {
      FirstWantedIs(original, used, targets[i], true, |original|, i);
    } else {
      NoneWanted(original, used, targets[i], true, |original|);
      FirstWantedIs(original, used, targets[i], false, |original|, i);
    }
  }

  lemma {:induction false} CounterpartsPicked(original: seq<Node>, targets: seq<Node>, n: nat)
    requires |original| == |targets| && n <= |targets|
    requires forall i :: 0 <= i < |targets| ==> SameData(original[i], targets[i])
    ensures forall k :: 0 <= k < n ==> Picks(original, targets, n)[k] == Some(k)
  {
    hide Match, SameData;
    if n > 0 {
      CounterpartsPicked(original, targets, n - 1);
      var front := Picks(original, targets, n - 1);
      forall j | 0 <= j < |original| ensures Some(j) in front <==> j < n - 1 {
        if j < n - 1 {
          assert front[j] == Some(j);
        }
      }
      CounterpartMatches(original, Used(|original|, front), targets, n - 1);
    }
  }

  lemma {:induction false} NothingToDrop(entries: seq<Entry>, src: seq<Entry>)
    requires forall i :: 0 <= i < |entries| ==> HasTrimmedKey(src, Trim(entries[i].key.text))
    ensures KeptEntries(entries, src) == entries
    decreases |entries|
  {
    hide HasTrimmedKey, Trim;
    if entries != [] {
      NothingToDrop(entries[..|entries| - 1], src);
    }
  }

  /** Saving a configuration that did not change leaves the user's tree exactly as it was, comments and all. */
  lemma {:induction false} UnchangedStaysUnchanged(dst: Node, src: Node, path: Path)
    requires Generated(src) && SameData(dst, src)
    ensures Merged(dst, src, path) == dst
    decreases src, 3
  {
    hide Ordered, FindKey, DistinctKeys;
    match src
    case Scalar(_, _, _) =>
    case Mapping(_, _, _, entries) =>
      UnchangedEntries(dst, src, |entries|, path);
    case Sequence(_, _, _, items) =>
      var merged := Merged(dst, src, path);
      forall i | 0 <= i < |items| ensures merged.items[i] == dst.items[i] {
        OrderedCounterpart(dst.items, items, i);
        UnchangedElement(dst.items[i], items[i], path);
      }
      assert merged.items == dst.items;
  }

  lemma OrderedCounterpart(original: seq<Node>, targets: seq<Node>, i: nat)
    requires |original| == |targets| && i < |targets|
    requires forall k :: 0 <= k < |targets| ==> SameData(original[k], targets[k])
    ensures Ordered(original, targets)[i] == Some(original[i])
  {
    hide SameData;
    CounterpartsPicked(original, targets, |targets|);
  }

  lemma {:induction false} UnchangedElement(dst: Node, src: Node, path: Path)
    requires Generated(src) && SameData(dst, src)
    ensures MergedElement(dst, src, path) == dst
    decreases src, 4
  {
    hide KeptEntries, Merged, Trim;
    UnchangedStaysUnchanged(dst, src, path);
    if src.Mapping? {
      forall i | 0 <= i < |dst.entries| ensures HasTrimmedKey(src.entries, Trim(dst.entries[i].key.text)) {
        assert Trim(src.entries[i].key.text) == Trim(dst.entries[i].key.text);
      }
      NothingToDrop(dst.entries, src.entries);
    }
  }

  lemma SamePosition(dst: Node, src: Node, i: nat)
    requires src.Mapping? && Generated(src) && SameData(dst, src) && i < |src.entries|
    ensures FindKey(dst.entries, src.entries[i].key.text) == Some(i)
    ensures dst.entries[i].key.text == src.entries[i].key.text && SameData(dst.entries[i].value, src.entries[i].value)
  {
    hide Trim;
    FindKeyIs(dst.entries, src.entries[i].key.text, i);
  }

  lemma {:induction false} UnchangedEntries(dst: Node, src: Node, n: nat, path: Path)
    requires src.Mapping? && n <= |src.entries| && Generated(src) && SameData(dst, src)
    ensures MergedEntries(dst.entries, src, n, path) == dst.entries
    decreases src, 2, n
  {
    hide Merged, FindKey, IsKnownDefault, Pruned, DistinctKeys;
    if n > 0 {
      UnchangedEntries(dst, src, n - 1, path);
      var e := src.entries[n - 1];
      SamePosition(dst, src, n - 1);
      UnchangedStaysUnchanged(dst.entries[n - 1].value, e.value, path + [e.key.text]);
    }
  }
}
