/** Which generated values reach the file: the exact condition, value by value, for pruned copies and for merged trees. */
module YamlReach {
  import opened Bytes
  import opened YamlTree
  import opened YamlMerge
  import opened YamlMergeFacts
  import opened YamlPreserve

  /** One step down a tree: into a mapping by key, into a list by position. */
  datatype Edge = Key(name: string) | Item(index: nat)

  type Route = seq<Edge>

  function Child(node: Node, e: Edge): Option<Node> {
    match e
    case Key(name) =>
      if !node.Mapping? then None
      else
        var found := FindKey(node.entries, name);
        if found.Some? then Some(node.entries[found.value].value) else None
    case Item(index) => if node.Sequence? && index < |node.items| then Some(node.items[index]) else None
  }

  /** What a tree holds at the end of a route. */
  function At(node: Node, route: Route): Option<Node>
    decreases |route|
  {
    if route == [] then Some(node)
    else
      var child := Child(node, route[0]);
      if child.Some? then At(child.value, route[1..]) else None
  }

  /** The keys of a route, which is all of it that the test for defaults sees: list positions do not count. */
  function KeysOf(route: Route): Path {
    if route == [] then []
    else if route[0].Key? then [route[0].name] + KeysOf(route[1..]) else KeysOf(route[1..])
  }

  // ----- pruned copies -----

  /** No value that a key of the route leads to is a default.  What stands in a list by itself is never dropped. */
  predicate Spared(path: Path, g: Node, route: Route)
    requires At(g, route).Some?
    decreases |route|
  {
    if route == [] then true
    else
      var child := Child(g, route[0]).value;
      match route[0]
      case Key(name) => !IsKnownDefault(path + [name], child) && Spared(path + [name], child, route[1..])
      case Item(_) => Spared(path, child, route[1..])
  }

  lemma GeneratedChild(g: Node, e: Edge)
    requires Generated(g) && Child(g, e).Some?
    ensures Generated(Child(g, e).value)
  {
    hide DistinctKeys;
  }

  /** A scalar of a generated value is in its pruned copy exactly when it is spared; otherwise nothing is there. */
  lemma {:induction false} PrunedReaches(path: Path, g: Node, route: Route)
    requires Generated(g) && At(g, route).Some? && At(g, route).value.Scalar?
    ensures At(Pruned(path, g), route) == if Spared(path, g, route) then At(g, route) else None
    decreases |route|
  {
    hide IsKnownDefault, PrunedEntries, FindKey;
    if route != [] {
      var child := Child(g, route[0]).value;
      GeneratedChild(g, route[0]);
      match route[0]
      case Item(_) =>
        PrunedReaches(path, child, route[1..]);
      case Key(name) =>
        PrunedReaches(path + [name], child, route[1..]);
        PrunedEntry(path, g, name);
    }
  }

  /** Under a key the pruned copy holds the pruned value, unless it is a default or pruned to nothing. */
  lemma PrunedEntry(path: Path, g: Node, name: string)
    requires Generated(g) && Child(g, Key(name)).Some?
    ensures var child := Child(g, Key(name)).value;
            var pruned := Pruned(path + [name], child);
            Child(Pruned(path, g), Key(name)) ==
              if IsKnownDefault(path + [name], child) || IsEmptyCollection(pruned) then None else Some(pruned)
  {
    hide IsKnownDefault, IsEmptyCollection;
    var n := |g.entries|;
    var f := FindKey(g.entries, name).value;
    PrunedFind(path, g, n, name);
    assert forall i :: 0 <= i < n && g.entries[i].key.text == name ==> i == f;
  }

  /** The value i steps down the route is under a list position, or is no default. */
  ghost predicate PlaceSpared(path: Path, g: Node, route: Route, i: nat)
    requires i <= |route|
  {
    && At(g, route[..i]).Some?
    && (i > 0 && route[i - 1].Key? ==> !IsKnownDefault(path + KeysOf(route[..i]), At(g, route[..i]).value))
  }

  lemma PlaceBelow(path: Path, g: Node, route: Route, i: nat)
    requires route != [] && i < |route| && Child(g, route[0]).Some?
    ensures var child := Child(g, route[0]).value;
            var below := if route[0].Key? then path + [route[0].name] else path;
            && At(g, route[..i + 1]) == At(child, route[1..][..i])
            && path + KeysOf(route[..i + 1]) == below + KeysOf(route[1..][..i])
            && (i > 0 ==> (PlaceSpared(path, g, route, i + 1) <==> PlaceSpared(below, child, route[1..], i)))
  {
    hide IsKnownDefault;
    FirstStep(route, i);
    assert i > 0 ==> route[i] == route[1..][i - 1];
    var keys := KeysOf(route[1..][..i]);
    assert route[0].Key? ==> path + ([route[0].name] + keys) == (path + [route[0].name]) + keys;
  }

  lemma FirstStep(route: Route, i: nat)
    requires route != [] && i < |route|
    ensures |route[..i + 1]| == i + 1 && route[..i + 1][0] == route[0] && route[..i + 1][1..] == route[1..][..i]
  {
  }

  /** Spared means that no place on the way that a key leads to holds a default. */
  lemma {:induction false} SparedMeans(path: Path, g: Node, route: Route)
    requires At(g, route).Some?
    ensures Spared(path, g, route) <==> forall i :: 1 <= i <= |route| ==> PlaceSpared(path, g, route, i)
    decreases |route|
  {
    hide IsKnownDefault, PlaceSpared;
    if route != [] {
      var child := Child(g, route[0]).value;
      var below := if route[0].Key? then path + [route[0].name] else path;
      SparedMeans(below, child, route[1..]);
      FirstPlace(path, g, route);
      forall i | 1 <= i <= |route[1..]|
        ensures PlaceSpared(path, g, route, i + 1) <==> PlaceSpared(below, child, route[1..], i)
      {
        PlaceBelow(path, g, route, i);
      }
      if forall i :: 1 <= i <= |route| ==> PlaceSpared(path, g, route, i) {
        forall i | 1 <= i <= |route[1..]| ensures PlaceSpared(below, child, route[1..], i) {
          assert PlaceSpared(path, g, route, i + 1);
        }
      }
      if Spared(path, g, route) {
        forall i | 1 <= i <= |route| ensures PlaceSpared(path, g, route, i) {
          if i > 1 {
            assert PlaceSpared(below, child, route[1..], i - 1);
          }
        }
      }
    }
  }

  lemma FirstPlace(path: Path, g: Node, route: Route)
    requires route != [] && Child(g, route[0]).Some?
    ensures PlaceSpared(path, g, route, 1) <==>
              (route[0].Key? ==> !IsKnownDefault(path + [route[0].name], Child(g, route[0]).value))
  {
    hide IsKnownDefault;
    assert route[..1] == [route[0]] && [route[0]][1..] == [];
    assert At(g, route[..1]) == Child(g, route[0]);
    assert route[0].Key? ==> KeysOf(route[..1]) == [route[0].name];
  }

  /** For a scalar that is no default itself: it is lost exactly when some mapping or list above it, under a key, counts
      as zero as a whole. */
  lemma LostUnderZero(path: Path, g: Node, route: Route)
    requires Generated(g) && At(g, route).Some? && At(g, route).value.Scalar?
    requires !IsKnownDefault(path + KeysOf(route), At(g, route).value)
    ensures At(Pruned(path, g), route) == At(g, route) <==>
              forall i :: 1 <= i < |route| && route[i - 1].Key? ==> NotZeroAt(g, route, i)
  {
    hide IsKnownDefault, IsZero, PlaceSpared;
    PrunedReaches(path, g, route);
    SparedMeans(path, g, route);
    assert route[..|route|] == route;
    forall i | 1 <= i <= |route| ensures PlaceSpared(path, g, route, i) <==> (i < |route| && route[i - 1].Key? ==> NotZeroAt(g, route, i)) {
      PlaceZero(path, g, route, i);
    }
  }

  ghost predicate NotZeroAt(g: Node, route: Route, i: nat)
    requires i <= |route|
  {
    At(g, route[..i]).Some? && !IsZero(At(g, route[..i]).value)
  }

  /** Above the end of a route there are only mappings and lists, which are defaults exactly when they are zero. */
  lemma PlaceZero(path: Path, g: Node, route: Route, i: nat)
    requires 1 <= i <= |route| && At(g, route).Some?
    ensures i < |route| ==> (PlaceSpared(path, g, route, i) <==> (route[i - 1].Key? ==> NotZeroAt(g, route, i)))
    ensures i == |route| && !IsKnownDefault(path + KeysOf(route), At(g, route).value) ==> PlaceSpared(path, g, route, i)
  {
    hide IsZero, IsNamedDefault, Dotted;
    assert route[..|route|] == route;
    AtSplit(g, route, i);
    if i < |route| {
      var place := At(g, route[..i]).value;
      assert Child(place, route[i..][0]).Some?;
      CollectionDefault(path + KeysOf(route[..i]), place, route[i..][0]);
    }
  }

  lemma CollectionDefault(path: Path, node: Node, e: Edge)
    requires Child(node, e).Some?
    ensures IsKnownDefault(path, node) <==> IsZero(node)
  {
    hide IsZero;
  }

  lemma {:induction false} AtSplit(g: Node, route: Route, i: nat)
    requires i <= |route| && At(g, route).Some?
    ensures At(g, route[..i]).Some? && At(g, route) == At(At(g, route[..i]).value, route[i..])
    decreases i
  {
    if i > 0 {
      var child := Child(g, route[0]).value;
      AtSplit(child, route[1..], i - 1);
      assert route[..i][1..] == route[1..][..i - 1] && route[..i][0] == route[0] && route[1..][i - 1..] == route[i..];
    }
  }

  // ----- merged trees -----

  /** How many steps of a route the user's tree follows before the first key it does not have: None if it has all of
      them, or if the part it lacks is copied whole (a value of another kind, or an unmatched list element). */
  function FirstNew(dst: Node, g: Node, route: Route): Option<nat>
    requires At(g, route).Some?
    decreases |route|
  {
    if route == [] then None
    else
      var child := Child(g, route[0]).value;
      match route[0]
      case Key(name) =>
        if !dst.Mapping? then None
        else
          var found := FindKey(dst.entries, name);
          if found.None? then Some(1) else Later(FirstNew(dst.entries[found.value].value, child, route[1..]))
      case Item(index) =>
        if !dst.Sequence? then None
        else
          var matched := Ordered(dst.items, g.items)[index];
          if matched.None? then None else Later(FirstNew(matched.value, child, route[1..]))
  }

  function Later(n: Option<nat>): Option<nat> {
    if n.Some? then Some(n.value + 1) else None
  }

  /** The same data, in whatever style. */
  predicate Says(found: Option<Node>, leaf: Node)
    requires leaf.Scalar?
  {
    found.Some? && found.value.Scalar? && found.value.tag == leaf.tag && found.value.text == leaf.text
  }

  /** A new key is added, and the value at the end of the route is spared below it. */
  predicate AddedWith(path: Path, g: Node, route: Route)
    requires At(g, route).Some?
  {
    !IsKnownDefault(path, Pruned(path, g)) && Spared(path, g, route)
  }

  /** Whether the value at the end of a route reaches the merged tree, along the route. */
  predicate Arrives(dst: Node, g: Node, route: Route, path: Path)
    requires At(g, route).Some?
    decreases |route|
  {
    if route == [] then true
    else
      var child := Child(g, route[0]).value;
      match route[0]
      case Key(name) =>
        if !dst.Mapping? then true
        else
          var found := FindKey(dst.entries, name);
          if found.None? then AddedWith(path + [name], child, route[1..])
          else Arrives(dst.entries[found.value].value, child, route[1..], path + [name])
      case Item(index) =>
        if !dst.Sequence? then true
        else
          var matched := Ordered(dst.items, g.items)[index];
          if matched.None? then true else Arrives(matched.value, child, route[1..], path)
  }

  lemma {:induction false} SameAsItself(g: Node)
    ensures SameData(g, g)
    decreases g
  {
    match g
    case Scalar(_, _, _) =>
    case Sequence(_, _, _, items) =>
      forall i | 0 <= i < |items| ensures SameData(items[i], items[i]) {
        SameAsItself(items[i]);
      }
    case Mapping(_, _, _, entries) =>
      forall i | 0 <= i < |entries| ensures SameData(entries[i].key, entries[i].key) && SameData(entries[i].value, entries[i].value) {
        SameAsItself(entries[i].key);
        SameAsItself(entries[i].value);
      }
  }

  /** What the merge of a mapping holds under a generated key. */
  lemma {:induction false} MergedUnderKey(dst: seq<Entry>, src: Node, n: nat, path: Path, i: nat)
    requires src.Mapping? && i < n <= |src.entries| && DistinctKeys(src.entries)
    ensures var e := src.entries[i];
            var child := path + [e.key.text];
            var after := MergedEntries(dst, src, n, path);
            var was, got := FindKey(dst, e.key.text), FindKey(after, e.key.text);
            if was.Some? then got.Some? && after[got.value].value == Merged(dst[was.value].value, e.value, child)
            else if IsKnownDefault(child, Pruned(child, e.value)) then got == None
            else got.Some? && after[got.value].value == Pruned(child, e.value)
    decreases n
  {
    hide Merged, IsKnownDefault, Pruned, WithEntry, DistinctKeys;
    var e := src.entries[n - 1];
    var before := MergedEntries(dst, src, n - 1, path);
    if i == n - 1 {
      KeysBefore(src, n);
      OtherKeysStay(dst, src, n - 1, path, e.key.text);
      WithEntryOwn(before, e, path);
    } else {
      MergedUnderKey(dst, src, n - 1, path, i);
      DifferentKeys(src, i, n - 1);
      WithEntryOther(before, e, path, src.entries[i].key.text);
    }
  }

  lemma DifferentKeys(src: Node, i: nat, j: nat)
    requires src.Mapping? && i < j < |src.entries| && DistinctKeys(src.entries)
    ensures src.entries[i].key.text != src.entries[j].key.text
  {
  }

  /** A copy that is merged with its own source says all of it. */
  lemma CopySays(dst: Node, g: Node, path: Path)
    requires Generated(g) && (g.Mapping? ==> !dst.Mapping?) && (g.Sequence? ==> !dst.Sequence? && g.items != [])
    requires !g.Scalar?
    ensures if g.Mapping? then Merged(dst, g, path).Mapping? && Merged(dst, g, path).entries == g.entries
            else Merged(dst, g, path).Sequence? && Merged(dst, g, path).items == g.items
  {
    hide IsKnownDefault, Pruned, FindKey, DistinctKeys;
    if g.Mapping? {
      SameAsItself(g);
      UnchangedEntries(g, g, |g.entries|, path);
    } else {
      NothingToMatch(g.items);
      assert Merged(dst, g, path).items == g.items;
    }
  }

  lemma NothingToMatch(targets: seq<Node>)
    ensures forall i :: 0 <= i < |targets| ==> Ordered([], targets)[i] == None
  {
    PicksAreInjective([], targets, |targets|);
  }

  /** Dropping the keys a list element's source lacks loses nothing the source says. */
  lemma ElementChild(dst: Node, src: Node, path: Path, e: Edge)
    requires Generated(src) && Child(src, e).Some?
    ensures Child(MergedElement(dst, src, path), e) == Child(Merged(dst, src, path), e)
  {
    hide Merged, Trim, IsKnownDefault, KeptEntries;
    var merged := Merged(dst, src, path);
    if merged.Mapping? && src.Mapping? && e.Key? {
      var f := FindKey(src.entries, e.name).value;
      assert Trim(src.entries[f].key.text) == Trim(e.name) != "";
      KeptFind(merged.entries, src.entries, e.name);
    }
  }

  /** A generated scalar is in the merged tree exactly when it arrives; otherwise nothing is there. */
  lemma {:induction false} MergedReaches(dst: Node, g: Node, route: Route, path: Path)
    requires Generated(g) && At(g, route).Some? && At(g, route).value.Scalar?
    ensures var found := At(Merged(dst, g, path), route);
            if Arrives(dst, g, route, path) then Says(found, At(g, route).value) else found == None
    decreases |route|, 0
  {
    hide IsKnownDefault, Ordered, DistinctKeys, FindKey;
    if route != [] {
      var child, rest := Child(g, route[0]).value, route[1..];
      GeneratedChild(g, route[0]);
      match route[0]
      case Key(name) =>
        if dst.Mapping? {
          var f := FindKey(g.entries, name).value;
          MergedUnderKey(dst.entries, g, |g.entries|, path, f);
          var found := FindKey(dst.entries, name);
          if found.Some? {
            MergedReaches(dst.entries[found.value].value, child, rest, path + [name]);
          } else {
            PrunedReaches(path + [name], child, rest);
          }
        } else {
          CopySays(dst, g, path);
        }
      case Item(index) =>
        if dst.Sequence? {
          var matched := Ordered(dst.items, g.items)[index];
          if matched.Some? {
            ElementReaches(matched.value, child, rest, path);
          }
        } else {
          CopySays(dst, g, path);
        }
    }
  }

  lemma {:induction false} ElementReaches(dst: Node, g: Node, route: Route, path: Path)
    requires Generated(g) && At(g, route).Some? && At(g, route).value.Scalar?
    ensures var found := At(MergedElement(dst, g, path), route);
            if Arrives(dst, g, route, path) then Says(found, At(g, route).value) else found == None
    decreases |route|, 1
  {
    hide Arrives, IsKnownDefault;
    MergedReaches(dst, g, route, path);
    if route != [] {
      ElementChild(dst, g, path, route[0]);
    }
  }

  /** Said without recursion: a generated scalar reaches the file exactly when the user's tree has every key on the way,
      or the part it lacks is copied whole, or the first key it lacks is added (its pruned value is no default) and below
      that key no key leads to a default. */
  lemma {:induction false} ArrivesExactly(dst: Node, g: Node, route: Route, path: Path)
    requires At(g, route).Some?
    ensures var n := FirstNew(dst, g, route);
            && (n.Some? ==> 1 <= n.value <= |route| && At(g, route[..n.value]).Some?)
            && (Arrives(dst, g, route, path) <==> n.Some? ==> AddedAt(g, route, path, n.value))
    decreases |route|
  {
    hide IsKnownDefault, Ordered, FindKey, Pruned, Spared;
    if route != [] {
      var child, rest := Child(g, route[0]).value, route[1..];
      match route[0]
      case Key(name) =>
        if dst.Mapping? {
          var found := FindKey(dst.entries, name);
          if found.Some? {
            ArrivesExactly(dst.entries[found.value].value, child, rest, path + [name]);
            var n := FirstNew(dst.entries[found.value].value, child, rest);
            if n.Some? {
              AddedBelow(g, route, path, n.value);
            }
          } else {
            assert route[..1] == [route[0]] && [route[0]][1..] == [];
            assert At(g, route[..1]) == Some(child) && KeysOf(route[..1]) == [name];
          }
        }
      case Item(index) =>
        if dst.Sequence? {
          var matched := Ordered(dst.items, g.items)[index];
          if matched.Some? {
            ArrivesExactly(matched.value, child, rest, path);
            var n := FirstNew(matched.value, child, rest);
            if n.Some? {
              AddedBelow(g, route, path, n.value);
            }
          }
        }
    }
  }

  /** The key n steps down the route is added, and what the route leads to is spared below it. */
  predicate AddedAt(g: Node, route: Route, path: Path, n: nat)
    requires n <= |route| && At(g, route).Some?
  {
    && At(g, route[..n]).Some? && At(At(g, route[..n]).value, route[n..]).Some?
    && AddedWith(path + KeysOf(route[..n]), At(g, route[..n]).value, route[n..])
  }

  lemma AddedBelow(g: Node, route: Route, path: Path, n: nat)
    requires route != [] && At(g, route).Some? && n < |route|
    ensures var child := Child(g, route[0]).value;
            var below := if route[0].Key? then path + [route[0].name] else path;
            At(g, route[..n + 1]) == At(child, route[1..][..n])
            && (AddedAt(g, route, path, n + 1) <==> AddedAt(child, route[1..], below, n))
  {
    hide AddedWith;
    PlaceBelow(path, g, route, n);
    assert route[1..][n..] == route[n + 1..];
  }

  // ----- two witnesses -----

  /** An explicit zero weight is no default, but a new mapping that holds nothing else counts as zero and is left out. */
  lemma LoneZeroWeightIsLost(dst: seq<Entry>, e: Entry, path: Path)
    requires e.value == Mapping("!!map", "", "", [Entry(Scalar("!!str", "weight", ""), Scalar("!!int", "0", ""))])
    requires FindKey(dst, e.key.text) == None
    ensures !IsKnownDefault(path + [e.key.text] + ["weight"], e.value.entries[0].value)
    ensures WithEntry(dst, e, path) == dst
  {
    hide Dotted, IsNamedDefault;
    var child := path + [e.key.text];
    assert IsZero(e.value.entries[0].value);
    assert IsZero(e.value);
    PrunedDefault(child, e.value);
  }

  lemma NestedIsGenerated(inner: Node, value: Node)
    requires inner == Mapping("!!map", "", "", [Entry(Scalar("!!str", "weight", ""), Scalar("!!int", "0", ""))])
    requires value == Mapping("!!map", "", "",
               [Entry(Scalar("!!str", "b", ""), inner), Entry(Scalar("!!str", "c", ""), Scalar("!!int", "1", ""))])
    ensures Generated(value)
  {
    assert Trim("b") == "b" && Trim("c") == "c" && Trim("weight") == "weight";
    assert value.entries[0].key.text == "b" && value.entries[1].key.text == "c";
    assert Generated(inner) && DistinctKeys(value.entries);
  }

  /** Beside a value that is kept, such a mapping is lost all the same: the key is added, its zero weight is not. */
  lemma NestedZeroWeightIsLost(inner: Node, e: Entry, path: Path)
    requires inner == Mapping("!!map", "", "", [Entry(Scalar("!!str", "weight", ""), Scalar("!!int", "0", ""))])
    requires e.value == Mapping("!!map", "", "",
               [Entry(Scalar("!!str", "b", ""), inner), Entry(Scalar("!!str", "c", ""), Scalar("!!int", "1", ""))])
    ensures var child := path + [e.key.text];
            && !IsKnownDefault(child + ["b", "weight"], inner.entries[0].value)
            && Child(Pruned(child, e.value), Key("b")) == None
            && Child(Pruned(child, e.value), Key("c")) == Some(e.value.entries[1].value)
  {
    hide Dotted, PrunedEntries, FindKey, Generated, DistinctKeys, Trim;
    var child := path + [e.key.text];
    assert IsZero(inner.entries[0].value);
    assert IsZero(inner) && !IsZero(e.value.entries[1].value);
    assert e.value.entries[0].key.text == "b" && e.value.entries[1].key.text == "c";
    NestedIsGenerated(inner, e.value);
    FindKeyIs(e.value.entries, "b", 0);
    FindKeyIs(e.value.entries, "c", 1);
    assert (child + ["b", "weight"])[|child| + 1] == "weight";
    PrunedEntry(child, e.value, "b");
    PrunedEntry(child, e.value, "c");
  }
}
