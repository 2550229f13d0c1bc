/** Saving the same configuration twice: exactly when the second save changes nothing. */
module YamlTwice {
  import opened Bytes
  import opened YamlTree
  import opened YamlMerge
  import opened YamlMergeFacts
  import opened YamlPreserve
  import opened YamlReach

  /** The matching gives the generated element i the element at its own place. */
  predicate OwnPlace(m: seq<Node>, g: seq<Node>, i: nat)
    requires i < |g|
  {
    Picks(m, g, |g|)[i] == Some(i)
  }

  predicate OnlyKeysOf(m: Node, g: Node) {
    m.Mapping? && g.Mapping? ==> forall i :: 0 <= i < |m.entries| ==> HasTrimmedKey(g.entries, Trim(m.entries[i].key.text))
  }

  /** What the merge of a list puts at position i. */
  function Placed(m: seq<Node>, g: seq<Node>, path: Path, i: nat): Node
    requires i < |g|
  {
    var found := Ordered(m, g)[i];
    if found.Some? then MergedElement(found.value, g[i], path) else g[i]
  }

  /** In every list that stands opposite a generated list, each generated element either finds the element at its own
      place, which then has no key of its own and is steady, or what comes out at its place is what stood there. */
  predicate Steady(m: Node, g: Node, path: Path)
    decreases g
  {
    match g
    case Mapping(_, _, _, entries) =>
      m.Mapping? ==> forall i :: 0 <= i < |entries| ==>
        var found := FindKey(m.entries, entries[i].key.text);
        found.Some? ==> Steady(m.entries[found.value].value, entries[i].value, path + [entries[i].key.text])
    case Sequence(_, _, _, items) =>
      m.Sequence? ==> |m.items| == |items| && forall i :: 0 <= i < |items| ==>
        if OwnPlace(m.items, items, i) then OnlyKeysOf(m.items[i], items[i]) && Steady(m.items[i], items[i], path)
        else m.items[i] == Placed(m.items, items, path, i)
    case Scalar(_, _, _) => true
  }

  lemma OwnPlaceOrdered(m: seq<Node>, g: seq<Node>, i: nat)
    requires i < |g| && i < |m| && OwnPlace(m, g, i)
    ensures Ordered(m, g)[i] == Some(m[i])
  {
  }

  // ----- steady trees are left alone -----

  /** A tree that covers the generated one and is steady is not changed by merging. */
  lemma {:induction false} SteadyIsFixed(m: Node, g: Node, path: Path)
    requires Covers(m, g, path) && Steady(m, g, path)
    ensures Merged(m, g, path) == m
    decreases g, 3
  {
    hide Ordered, OwnPlace, OnlyKeysOf, IsKnownDefault, Pruned, FindKey;
    match g
    case Scalar(_, _, _) =>
    case Mapping(_, _, _, entries) =>
      SteadyEntries(m, g, |entries|, path);
    case Sequence(_, _, _, items) =>
      if m.Sequence? {
        var merged := Merged(m, g, path);
        forall i | 0 <= i < |items| ensures merged.items[i] == m.items[i] {
          if OwnPlace(m.items, items, i) {
            OwnPlaceOrdered(m.items, items, i);
            SteadyElement(m.items[i], items[i], path);
          }
        }
        assert merged.items == m.items;
      }
  }

  lemma {:induction false} SteadyElement(m: Node, g: Node, path: Path)
    requires Covers(m, g, path) && Steady(m, g, path) && OnlyKeysOf(m, g)
    ensures MergedElement(m, g, path) == m
    decreases g, 4
  {
    hide KeptEntries, Merged, Trim;
    SteadyIsFixed(m, g, path);
    if m.Mapping? && g.Mapping? {
      NothingToDrop(m.entries, g.entries);
    }
  }

  lemma {:induction false} SteadyEntries(m: Node, g: Node, n: nat, path: Path)
    requires g.Mapping? && n <= |g.entries| && Covers(m, g, path) && Steady(m, g, path)
    ensures MergedEntries(m.entries, g, n, path) == m.entries
    decreases g, 2, n
  {
    hide Merged, FindKey, IsKnownDefault, Pruned;
    if n > 0 {
      SteadyEntries(m, g, n - 1, path);
      var e := g.entries[n - 1];
      var found := FindKey(m.entries, e.key.text);
      if found.Some? {
        SteadyIsFixed(m.entries[found.value].value, e.value, path + [e.key.text]);
      }
    }
  }

  // ----- and no others -----

  ghost predicate AllHaveKeys(entries: seq<Entry>, src: seq<Entry>) {
    forall i :: 0 <= i < |entries| ==> HasTrimmedKey(src, Trim(entries[i].key.text))
  }

  lemma {:induction false} KeptHaveKeys(entries: seq<Entry>, src: seq<Entry>)
    ensures AllHaveKeys(KeptEntries(entries, src), src)
    decreases |entries|
  {
    hide HasTrimmedKey, Trim;
    if entries != [] {
      KeptHaveKeys(entries[..|entries| - 1], src);
    }
  }

  lemma {:induction false} MergedHaveKeys(dst: seq<Entry>, src: Node, n: nat, path: Path)
    requires src.Mapping? && n <= |src.entries| && Generated(src) && AllHaveKeys(dst, src.entries)
    ensures AllHaveKeys(MergedEntries(dst, src, n, path), src.entries)
    decreases n
  {
    hide HasTrimmedKey, WithEntry, DistinctKeys, Trim;
    if n > 0 {
      MergedHaveKeys(dst, src, n - 1, path);
      OwnKey(src, n - 1);
      OneMoreKey(MergedEntries(dst, src, n - 1, path), src.entries[n - 1], src.entries, path);
    }
  }

  lemma OneMoreKey(entries: seq<Entry>, e: Entry, src: seq<Entry>, path: Path)
    requires AllHaveKeys(entries, src) && HasTrimmedKey(src, Trim(e.key.text))
    ensures AllHaveKeys(WithEntry(entries, e, path), src)
  {
    hide HasTrimmedKey, Merged, IsKnownDefault, Pruned, Trim;
  }

  lemma OwnKey(src: Node, i: nat)
    requires src.Mapping? && i < |src.entries| && Generated(src)
    ensures HasTrimmedKey(src.entries, Trim(src.entries[i].key.text))
  {
    hide Trim;
    assert Trim(src.entries[i].key.text) != "";
  }

  /** What dropping foreign keys leaves alone had none, and was left alone by the merge before it. */
  lemma ElementFixed(m: Node, g: Node, path: Path)
    requires Generated(g) && MergedElement(m, g, path) == m
    ensures Merged(m, g, path) == m && OnlyKeysOf(m, g)
  {
    hide Merged, KeptEntries, Trim;
    if g.Mapping? {
      MergedMapping(m, g, path);
      KeptHaveKeys(Merged(m, g, path).entries, g.entries);
      MergedHaveKeys(m.entries, g, |g.entries|, path);
      NothingToDrop(Merged(m, g, path).entries, g.entries);
    }
  }

  lemma MergedMapping(m: Node, g: Node, path: Path)
    requires g.Mapping?
    ensures Merged(m, g, path).Mapping?
    ensures m.Mapping? ==> Merged(m, g, path) == m.(entries := MergedEntries(m.entries, g, |g.entries|, path))
  {
  }

  /** A tree that merging leaves alone is steady. */
  lemma {:induction false} FixedIsSteady(m: Node, g: Node, path: Path)
    requires Generated(g) && Merged(m, g, path) == m
    ensures Steady(m, g, path)
    decreases g
  {
    hide IsKnownDefault, Pruned, FindKey, OwnPlace, OnlyKeysOf, Placed, MergedElement, MergedEntries, DistinctKeys;
    match g
    case Scalar(_, _, _) =>
    case Mapping(_, _, _, entries) =>
      if m.Mapping? {
        forall i | 0 <= i < |entries| && FindKey(m.entries, entries[i].key.text).Some?
          ensures var e := entries[i];
                  Steady(m.entries[FindKey(m.entries, e.key.text).value].value, e.value, path + [e.key.text])
        {
          var e := entries[i];
          MergedUnderKey(m.entries, g, |entries|, path, i);
          FixedIsSteady(m.entries[FindKey(m.entries, e.key.text).value].value, e.value, path + [e.key.text]);
        }
      }
    case Sequence(_, _, _, items) =>
      if m.Sequence? {
        assert |m.items| == |items|;
        forall i | 0 <= i < |items|
          ensures if OwnPlace(m.items, items, i) then OnlyKeysOf(m.items[i], items[i]) && Steady(m.items[i], items[i], path)
                  else m.items[i] == Placed(m.items, items, path, i)
        {
          FixedAt(m, g, path, i);
          if OwnPlace(m.items, items, i) {
            OwnPlaceFixed(m.items, items, path, i);
            ElementFixed(m.items[i], items[i], path);
            FixedIsSteady(m.items[i], items[i], path);
          }
        }
      }
  }

  lemma FixedAt(m: Node, g: Node, path: Path, i: nat)
    requires m.Sequence? && g.Sequence? && Merged(m, g, path) == m && i < |g.items|
    ensures |m.items| == |g.items| && m.items[i] == Placed(m.items, g.items, path, i)
  {
    hide MergedElement, Ordered;
  }

  lemma OwnPlaceFixed(m: seq<Node>, g: seq<Node>, path: Path, i: nat)
    requires i < |g| == |m| && OwnPlace(m, g, i) && m[i] == Placed(m, g, path, i)
    ensures MergedElement(m[i], g[i], path) == m[i]
  {
    hide MergedElement;
    OwnPlaceOrdered(m, g, i);
  }

  /** Saving twice is saving once exactly when the first save leaves a steady tree. */
  lemma SavingTwice(dst: Node, g: Node, path: Path)
    requires Generated(g)
    ensures var once := Merged(dst, g, path);
            Merged(once, g, path) == once <==> Steady(once, g, path)
  {
    hide Steady, Covers, Merged;
    var once := Merged(dst, g, path);
    MergedCovers(dst, g, path);
    if Steady(once, g, path) {
      SteadyIsFixed(once, g, path);
    }
    if Merged(once, g, path) == once {
      FixedIsSteady(once, g, path);
    }
  }

  // ----- the common case -----

  /** In every list each generated element finds the element at its own place, and that has no key of its own. */
  predicate Settled(m: Node, g: Node)
    decreases g
  {
    match g
    case Mapping(_, _, _, entries) =>
      m.Mapping? ==> forall i :: 0 <= i < |entries| ==>
        var found := FindKey(m.entries, entries[i].key.text);
        found.Some? ==> Settled(m.entries[found.value].value, entries[i].value)
    case Sequence(_, _, _, items) =>
      m.Sequence? ==> |m.items| == |items| && forall i :: 0 <= i < |items| ==>
        OwnPlace(m.items, items, i) && OnlyKeysOf(m.items[i], items[i]) && Settled(m.items[i], items[i])
    case Scalar(_, _, _) => true
  }

  lemma {:induction false} SettledIsSteady(m: Node, g: Node, path: Path)
    requires Settled(m, g)
    ensures Steady(m, g, path)
    decreases g
  {
    hide OwnPlace, OnlyKeysOf, Placed, FindKey;
    match g
    case Scalar(_, _, _) =>
    case Mapping(_, _, _, entries) =>
      forall i | 0 <= i < |entries| && m.Mapping? && FindKey(m.entries, entries[i].key.text).Some?
        ensures var e := entries[i];
                Steady(m.entries[FindKey(m.entries, e.key.text).value].value, e.value, path + [e.key.text])
      {
        var e := entries[i];
        SettledIsSteady(m.entries[FindKey(m.entries, e.key.text).value].value, e.value, path + [e.key.text]);
      }
    case Sequence(_, _, _, items) =>
      forall i | 0 <= i < |items| && m.Sequence? ensures Steady(m.items[i], items[i], path) {
        SettledIsSteady(m.items[i], items[i], path);
      }
  }

  /** A settled tree that covers the generated one is not changed by merging. */
  lemma SettledIsFixed(m: Node, g: Node, path: Path)
    requires Covers(m, g, path) && Settled(m, g)
    ensures Merged(m, g, path) == m
  {
    SettledIsSteady(m, g, path);
    SteadyIsFixed(m, g, path);
  }
}
