/** When it can be told beforehand that saving twice is saving once: if the generated list elements are known by texts or
    by named identities that every save keeps, whatever the user's file holds. */
module YamlSettle {
  import opened Bytes
  import opened YamlTree
  import opened YamlMerge
  import opened YamlMergeFacts
  import opened YamlPreserve
  import opened YamlReach
  import opened YamlTwice

  /** No key has white space around it. */
  predicate TrimmedKeys(node: Node) {
    match node
    case Mapping(_, _, _, entries) =>
      forall i :: 0 <= i < |entries| ==> Trim(entries[i].key.text) == entries[i].key.text && TrimmedKeys(entries[i].value)
    case Sequence(_, _, _, items) => forall i :: 0 <= i < |items| ==> TrimmedKeys(items[i])
    case Scalar(_, _, _) => true
  }

  predicate SameKey(a: string, b: string) {
    ToLower(Trim(a)) == ToLower(b)
  }

  /** At most one entry has this key, in whatever case; it is a scalar, and no default unless it is blank. */
  predicate OneScalar(entries: seq<Entry>, key: string, path: Path) {
    forall i :: 0 <= i < |entries| && SameKey(entries[i].key.text, key) ==>
      && entries[i].value.Scalar?
      && (IsKnownDefault(path + [entries[i].key.text], entries[i].value) ==> Trim(entries[i].value.text) == "")
      && forall j :: 0 <= j < |entries| && SameKey(entries[j].key.text, key) ==> j == i
  }

  /** A list element that is known by its text, or by one of the identity keys. */
  predicate KnownElement(g: Node, path: Path) {
    match g
    case Scalar(_, text, _) => Trim(text) != ""
    case Mapping(_, _, _, entries) =>
      && FirstIdentity(entries, IDENTITY_KEYS) != ""
      && forall k :: 0 <= k < |IDENTITY_KEYS| ==> OneScalar(entries, IDENTITY_KEYS[k], path)
    case Sequence(_, _, _, _) => false
  }

  /** All list elements are known in this way. */
  predicate WellKnown(g: Node, path: Path)
    decreases g
  {
    match g
    case Mapping(_, _, _, entries) =>
      forall i :: 0 <= i < |entries| ==> WellKnown(entries[i].value, path + [entries[i].key.text])
    case Sequence(_, _, _, items) =>
      forall i :: 0 <= i < |items| ==> KnownElement(items[i], path) && WellKnown(items[i], path)
    case Scalar(_, _, _) => true
  }

  // ----- named identities -----

  lemma {:induction false} ScalarValueIs(entries: seq<Entry>, key: string, i: nat)
    requires i < |entries| && entries[i].value.Scalar? && SameKey(entries[i].key.text, key)
    requires forall j :: 0 <= j < i ==> !SameKey(entries[j].key.text, key)
    ensures ScalarValue(entries, key) == Trim(entries[i].value.text)
    decreases i
  {
    hide Trim, ToLower;
    if i > 0 {
      assert !SameKey(entries[0].key.text, key);
      ScalarValueIs(entries[1..], key, i - 1);
    }
  }

  lemma {:induction false} ScalarValueNone(entries: seq<Entry>, key: string)
    requires forall j :: 0 <= j < |entries| ==> !SameKey(entries[j].key.text, key)
    ensures ScalarValue(entries, key) == ""
    decreases |entries|
  {
    hide Trim, ToLower;
    if entries != [] {
      assert !SameKey(entries[0].key.text, key);
      ScalarValueNone(entries[1..], key);
    }
  }

  /** Entry i of g is in m as the same scalar, or absent although it is not blank. */
  predicate SaysEntry(m: seq<Entry>, e: Entry) {
    var found := FindKey(m, e.key.text);
    if found.Some? then m[found.value].value.Scalar? && m[found.value].value.text == e.value.text
    else Trim(e.value.text) == ""
  }

  predicate HasKey(entries: seq<Entry>, key: string) {
    exists i :: 0 <= i < |entries| && entries[i].key.text == key
  }

  lemma SameValue(m: seq<Entry>, g: seq<Entry>, key: string, path: Path)
    requires OneScalar(g, key, path)
    requires forall j :: 0 <= j < |m| ==> HasKey(g, m[j].key.text)
    requires forall i :: 0 <= i < |g| && SameKey(g[i].key.text, key) ==> SaysEntry(m, g[i])
    ensures ScalarValue(m, key) == ScalarValue(g, key)
  {
    hide Trim, IsKnownDefault, SameKey;
    if i :| 0 <= i < |g| && SameKey(g[i].key.text, key) {
      ScalarValueIs(g, key, i);
      assert SaysEntry(m, g[i]);
      forall j | 0 <= j < |m| && SameKey(m[j].key.text, key) ensures m[j].key.text == g[i].key.text {
        var k :| 0 <= k < |g| && g[k].key.text == m[j].key.text;
        assert k == i;
      }
      FindKeyIsFirst(m, g[i].key.text);
      var found := FindKey(m, g[i].key.text);
      if found.Some? {
        ScalarValueIs(m, key, found.value);
      } else {
        ScalarValueNone(m, key);
      }
    } else {
      ScalarValueNone(g, key);
      forall j | 0 <= j < |m| ensures !SameKey(m[j].key.text, key) {
        var k :| 0 <= k < |g| && g[k].key.text == m[j].key.text;
      }
      ScalarValueNone(m, key);
    }
  }

  lemma {:induction false} SameNamed(m: seq<Entry>, g: seq<Entry>, keys: seq<string>)
    requires forall k :: 0 <= k < |keys| ==> ScalarValue(m, keys[k]) == ScalarValue(g, keys[k])
    ensures FirstIdentity(m, keys) == FirstIdentity(g, keys)
    decreases |keys|
  {
    hide ScalarValue;
    if keys != [] {
      SameNamed(m, g, keys[1..]);
    }
  }

  /** A scalar that the code never takes for a default, or a blank one. */
  predicate Lasting(e: Entry, path: Path) {
    e.value.Scalar? && (IsKnownDefault(path + [e.key.text], e.value) ==> Trim(e.value.text) == "")
  }

  predicate OnlyKeys(m: seq<Entry>, g: seq<Entry>) {
    forall j :: 0 <= j < |m| ==> HasKey(g, m[j].key.text)
  }

  /** A mapping with no other keys, which says every lasting scalar, is known as the generated one. */
  lemma SameIdentity(m: Node, g: Node, path: Path)
    requires m.Mapping? && g.Mapping? && KnownElement(g, path) && OnlyKeys(m.entries, g.entries)
    requires forall i :: 0 <= i < |g.entries| && Lasting(g.entries[i], path) ==> SaysEntry(m.entries, g.entries[i])
    ensures Wanted(m, g, true)
  {
    hide Trim, IsKnownDefault, SameKey, ScalarValue, HasKey, SaysEntry;
    forall k | 0 <= k < |IDENTITY_KEYS| ensures ScalarValue(m.entries, IDENTITY_KEYS[k]) == ScalarValue(g.entries, IDENTITY_KEYS[k]) {
      SameValue(m.entries, g.entries, IDENTITY_KEYS[k], path);
    }
    SameNamed(m.entries, g.entries, IDENTITY_KEYS);
  }

  // ----- elements that are known find themselves -----

  lemma {:induction false} KnownPicked(m: seq<Node>, g: seq<Node>, n: nat)
    requires |m| == |g| && n <= |g| && forall i :: 0 <= i < |g| ==> Wanted(m[i], g[i], true)
    ensures forall k :: 0 <= k < n ==> Picks(m, g, n)[k] == Some(k)
  {
    hide Match, Wanted;
    if n > 0 {
      KnownPicked(m, g, n - 1);
      var front := Picks(m, g, n - 1);
      forall j | 0 <= j < |m| ensures Some(j) in front <==> j < n - 1 {
        if j < n - 1 {
          assert front[j] == Some(j);
        }
      }
      KnownMatch(m, Used(|m|, front), g[n - 1], n - 1);
    }
  }

  lemma KnownMatch(m: seq<Node>, used: seq<bool>, target: Node, i: nat)
    requires |used| == |m| && i < |m| && Wanted(m[i], target, true)
    requires forall j :: 0 <= j < |used| ==> (used[j] <==> j < i)
    ensures Match(m, used, target) == Some(i)
  {
    hide Wanted;
    FirstWantedIs(m, used, target, true, |m|, i);
  }

  // ----- keys -----

  predicate AllTrimmed(entries: seq<Entry>) {
    forall i :: 0 <= i < |entries| ==> Trim(entries[i].key.text) == entries[i].key.text
  }

  lemma {:induction false} MergedTrimmed(dst: seq<Entry>, src: Node, n: nat, path: Path)
    requires src.Mapping? && n <= |src.entries| && AllTrimmed(dst) && AllTrimmed(src.entries)
    ensures AllTrimmed(MergedEntries(dst, src, n, path))
    decreases n
  {
    hide Trim, WithEntry;
    if n > 0 {
      MergedTrimmed(dst, src, n - 1, path);
      OneMoreTrimmed(MergedEntries(dst, src, n - 1, path), src.entries[n - 1], path);
    }
  }

  lemma OneMoreTrimmed(entries: seq<Entry>, e: Entry, path: Path)
    requires AllTrimmed(entries) && Trim(e.key.text) == e.key.text
    ensures AllTrimmed(WithEntry(entries, e, path))
  {
    hide Trim, Merged, IsKnownDefault, Pruned;
  }

  lemma {:induction false} KeptTrimmed(entries: seq<Entry>, src: seq<Entry>)
    requires AllTrimmed(entries)
    ensures AllTrimmed(KeptEntries(entries, src))
    decreases |entries|
  {
    hide Trim, HasTrimmedKey;
    if entries != [] {
      KeptTrimmed(entries[..|entries| - 1], src);
    }
  }

  lemma TrimmedHave(m: seq<Entry>, g: seq<Entry>)
    requires AllTrimmed(m) && AllTrimmed(g) && AllHaveKeys(m, g)
    ensures OnlyKeys(m, g)
  {
    hide Trim;
    forall j | 0 <= j < |m| ensures HasKey(g, m[j].key.text) {
      assert HasTrimmedKey(g, Trim(m[j].key.text));
    }
  }

  // ----- merged and copied elements -----

  /** A matched element stays known after it was merged and its foreign keys were dropped. */
  lemma MergedIsKnown(dst: Node, g: Node, path: Path)
    requires Generated(g) && KnownElement(g, path) && TrimmedKeys(g) && TrimmedKeys(dst)
    ensures Wanted(MergedElement(dst, g, path), g, true)
  {
    hide Trim, IsKnownDefault, KnownElement, TrimmedKeys, KeptEntries, MergedEntries, OnlyKeys, SaysEntry, Lasting;
    if g.Mapping? {
      var base := if dst.Mapping? then dst.entries else g.entries;
      var merged := MergedEntries(base, g, |g.entries|, path);
      var m := MergedElement(dst, g, path);
      ElementEntries(dst, g, path);
      OwnTrimmed(g);
      OwnTrimmed(dst);
      MergedTrimmed(base, g, |g.entries|, path);
      KeptTrimmed(merged, g.entries);
      KeptHaveKeys(merged, g.entries);
      TrimmedHave(m.entries, g.entries);
      forall i | 0 <= i < |g.entries| && Lasting(g.entries[i], path) ensures SaysEntry(m.entries, g.entries[i]) {
        MergedSays(base, g, path, i);
        OwnKey(g, i);
        KeptFind(merged, g.entries, g.entries[i].key.text);
        KeptSays(merged, m.entries, g.entries[i]);
      }
      SameIdentity(m, g, path);
    } else {
      ScalarIsKnown(dst, g, path);
    }
  }

  lemma ElementEntries(dst: Node, g: Node, path: Path)
    requires g.Mapping?
    ensures var base := if dst.Mapping? then dst.entries else g.entries;
            var m := MergedElement(dst, g, path);
            m.Mapping? && m.entries == KeptEntries(MergedEntries(base, g, |g.entries|, path), g.entries)
  {
    hide MergedEntries, KeptEntries;
  }

  lemma OwnTrimmed(node: Node)
    requires TrimmedKeys(node)
    ensures node.Mapping? ==> AllTrimmed(node.entries)
  {
    hide Trim;
  }

  lemma ScalarIsKnown(dst: Node, g: Node, path: Path)
    requires KnownElement(g, path) && !g.Mapping?
    ensures Wanted(MergedElement(dst, g, path), g, true)
  {
    hide Trim;
  }

  lemma MergedSays(base: seq<Entry>, g: Node, path: Path, i: nat)
    requires g.Mapping? && Generated(g) && i < |g.entries| && Lasting(g.entries[i], path)
    ensures SaysEntry(MergedEntries(base, g, |g.entries|, path), g.entries[i])
  {
    hide Trim, IsKnownDefault, MergedEntries, DistinctKeys;
    MergedUnderKey(base, g, |g.entries|, path, i);
  }

  lemma KeptSays(merged: seq<Entry>, kept: seq<Entry>, e: Entry)
    requires SaysEntry(merged, e)
    requires var was, got := FindKey(merged, e.key.text), FindKey(kept, e.key.text);
             (was.Some? <==> got.Some?) && (was.Some? ==> kept[got.value] == merged[was.value])
    ensures SaysEntry(kept, e)
  {
    hide Trim;
  }

  /** So does a pruned copy. */
  lemma PrunedIsKnown(path: Path, g: Node)
    requires Generated(g) && KnownElement(g, path)
    ensures Wanted(Pruned(path, g), g, true)
  {
    hide Trim, IsKnownDefault, OnlyKeys, SaysEntry;
    if g.Mapping? {
      PrunedKeys(path, g, |g.entries|);
      forall i | 0 <= i < |g.entries| && Lasting(g.entries[i], path) ensures SaysEntry(Pruned(path, g).entries, g.entries[i]) {
        PrunedSays(path, g, i);
      }
      SameIdentity(Pruned(path, g), g, path);
    }
  }

  lemma {:induction false} PrunedKeys(path: Path, g: Node, n: nat)
    requires g.Mapping? && n <= |g.entries|
    ensures OnlyKeys(PrunedEntries(path, g, n), g.entries)
    decreases n
  {
    hide IsKnownDefault;
    if n > 0 {
      PrunedKeys(path, g, n - 1);
    }
  }

  lemma PrunedSays(path: Path, g: Node, i: nat)
    requires g.Mapping? && Generated(g) && i < |g.entries| && Lasting(g.entries[i], path)
    ensures SaysEntry(Pruned(path, g).entries, g.entries[i])
  {
    hide Trim, IsKnownDefault;
    FindOwnKey(g.entries, i);
    PrunedEntry(path, g, g.entries[i].key.text);
  }

  // ----- the theorem -----

  /** What a save leaves is settled. */
  lemma {:induction false} MergedSettles(dst: Node, g: Node, path: Path)
    requires Generated(g) && WellKnown(g, path) && TrimmedKeys(g) && TrimmedKeys(dst)
    ensures Settled(Merged(dst, g, path), g)
    decreases g, 1
  {
    hide KnownElement, IsKnownDefault, Pruned, MergedEntries, MergedElement, FindKey, OwnPlace, OnlyKeysOf, DistinctKeys, Ordered, Trim;
    var m := Merged(dst, g, path);
    match g
    case Scalar(_, _, _) =>
    case Mapping(_, _, _, entries) =>
      var base := if dst.Mapping? then dst.entries else entries;
      assert m.entries == MergedEntries(base, g, |entries|, path);
      forall i | 0 <= i < |entries| && FindKey(m.entries, entries[i].key.text).Some?
        ensures Settled(m.entries[FindKey(m.entries, entries[i].key.text).value].value, entries[i].value)
      {
        var e := entries[i];
        MergedUnderKey(base, g, |entries|, path, i);
        var was := FindKey(base, e.key.text);
        if was.Some? {
          MergedSettles(base[was.value].value, e.value, path + [e.key.text]);
        } else {
          PrunedSettles(path + [e.key.text], e.value);
        }
      }
    case Sequence(_, _, _, items) =>
      if m.Sequence? {
        var base := if dst.Sequence? then dst.items else [];
        forall i | 0 <= i < |items|
          ensures Wanted(m.items[i], items[i], true) && OnlyKeysOf(m.items[i], items[i]) && Settled(m.items[i], items[i])
        {
          var found := Ordered(base, items)[i];
          assert m.items[i] == if found.Some? then MergedElement(found.value, items[i], path) else items[i];
          if found.Some? {
            OrderedFrom(base, items, i);
            MergedIsKnown(found.value, items[i], path);
            MergedSettles(found.value, items[i], path);
            ElementSettles(found.value, items[i], path);
          } else {
            CopySettles(items[i], path);
          }
        }
        KnownInPlace(m.items, items);
      }
  }

  lemma KnownInPlace(m: seq<Node>, g: seq<Node>)
    requires |m| == |g| && forall i :: 0 <= i < |g| ==> Wanted(m[i], g[i], true)
    ensures forall i :: 0 <= i < |g| ==> OwnPlace(m, g, i)
  {
    hide Wanted;
    KnownPicked(m, g, |g|);
  }

  lemma OrderedFrom(original: seq<Node>, targets: seq<Node>, i: nat)
    requires i < |targets| && Ordered(original, targets)[i].Some?
    ensures Ordered(original, targets)[i].value in original
  {
    PicksAreInjective(original, targets, |targets|);
  }

  /** Dropping foreign keys changes nothing below the keys of the source. */
  lemma ElementSettles(dst: Node, g: Node, path: Path)
    requires Generated(g) && Settled(Merged(dst, g, path), g)
    ensures Settled(MergedElement(dst, g, path), g) && OnlyKeysOf(MergedElement(dst, g, path), g)
  {
    hide Merged, KeptEntries, Trim;
    var merged := Merged(dst, g, path);
    if g.Mapping? && merged.Mapping? {
      var kept := KeptEntries(merged.entries, g.entries);
      KeptHaveKeys(merged.entries, g.entries);
      forall i | 0 <= i < |g.entries| && FindKey(kept, g.entries[i].key.text).Some?
        ensures Settled(kept[FindKey(kept, g.entries[i].key.text).value].value, g.entries[i].value)
      {
        OwnKey(g, i);
        KeptFind(merged.entries, g.entries, g.entries[i].key.text);
      }
    }
  }

  /** A generated value is its own copy. */
  lemma {:induction false} CopySettles(g: Node, path: Path)
    requires Generated(g) && WellKnown(g, path) && KnownElement(g, path) && TrimmedKeys(g)
    ensures Wanted(g, g, true) && OnlyKeysOf(g, g) && Settled(g, g)
    decreases g, 2
  {
    hide Merged, Settled, Trim;
    SameAsItself(g);
    UnchangedStaysUnchanged(g, g, path);
    UnchangedElement(g, g, path);
    MergedIsKnown(g, g, path);
    MergedSettles(g, g, path);
    ElementSettles(g, g, path);
  }

  lemma {:induction false} PrunedSettles(path: Path, g: Node)
    requires Generated(g) && WellKnown(g, path)
    ensures Settled(Pruned(path, g), g)
    decreases g, 0
  {
    hide KnownElement, IsKnownDefault, FindKey, OwnPlace, OnlyKeysOf, DistinctKeys, Trim;
    var m := Pruned(path, g);
    match g
    case Scalar(_, _, _) =>
    case Mapping(_, _, _, entries) =>
      forall i | 0 <= i < |entries| && FindKey(m.entries, entries[i].key.text).Some?
        ensures Settled(m.entries[FindKey(m.entries, entries[i].key.text).value].value, entries[i].value)
      {
        var e := entries[i];
        FindOwnKey(entries, i);
        PrunedEntry(path, g, e.key.text);
        PrunedSettles(path + [e.key.text], e.value);
      }
    case Sequence(_, _, _, items) =>
      forall i | 0 <= i < |items|
        ensures Wanted(m.items[i], items[i], true) && OnlyKeysOf(m.items[i], items[i]) && Settled(m.items[i], items[i])
      {
        PrunedIsKnown(path, items[i]);
        PrunedOnlyKeys(path, items[i]);
        PrunedSettles(path, items[i]);
      }
      KnownInPlace(m.items, items);
  }

  lemma PrunedOnlyKeys(path: Path, g: Node)
    requires Generated(g)
    ensures OnlyKeysOf(Pruned(path, g), g)
  {
    hide Trim, HasTrimmedKey;
    if g.Mapping? {
      PrunedKeys(path, g, |g.entries|);
      forall j | 0 <= j < |Pruned(path, g).entries|
        ensures HasTrimmedKey(g.entries, Trim(Pruned(path, g).entries[j].key.text))
      {
        var i :| 0 <= i < |g.entries| && g.entries[i].key.text == Pruned(path, g).entries[j].key.text;
        OwnKey(g, i);
      }
    }
  }

  /** So saving twice is saving once, whatever the user's file holds, as long as its keys are trimmed. */
  lemma SavedOnce(dst: Node, g: Node, path: Path)
    requires Generated(g) && WellKnown(g, path) && TrimmedKeys(g) && TrimmedKeys(dst)
    ensures Merged(Merged(dst, g, path), g, path) == Merged(dst, g, path)
  {
    hide Merged, Settled, Covers, WellKnown, TrimmedKeys, Generated;
    MergedSettles(dst, g, path);
    MergedCovers(dst, g, path);
    SettledIsFixed(Merged(dst, g, path), g, path);
  }
}
