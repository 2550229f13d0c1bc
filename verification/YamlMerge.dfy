/** Merging the generated configuration tree into the user's: the user's nodes keep their place, style and
    comments, new keys are added unless they hold defaults, list elements are matched one to one. */
module YamlMerge {
  import opened Bytes
  import opened YamlTree

  // ----- matching list elements -----

  /** Whether an original element is the one a target looks for: by identity (same id for mappings, same text for
      scalars), or by structure. */
  predicate Wanted(original: Node, target: Node, byIdentity: bool) {
    if !byIdentity then StructurallyEqual(original, target)
    else
      match target
      case Mapping(_, _, _, _) => Identity(target) != "" && original.Mapping? && Identity(original) == Identity(target)
      case Scalar(_, text, _) => Trim(text) != "" && original.Scalar? && Trim(original.text) == Trim(text)
      case Sequence(_, _, _, _) => false
  }

  /** The first of the first n originals that is unused and wanted. */
  function FirstWanted(original: seq<Node>, used: seq<bool>, target: Node, byIdentity: bool, n: nat): (r: Option<nat>)
    requires n <= |original| == |used|
    ensures r.Some? ==> r.value < n && !used[r.value] && Wanted(original[r.value], target, byIdentity)
  {
    if n == 0 then None
    else
      var front := FirstWanted(original, used, target, byIdentity, n - 1);
      if front.Some? then front
      else if !used[n - 1] && Wanted(original[n - 1], target, byIdentity) then Some(n - 1) else None
  }

  lemma {:induction false} FirstWantedIs(original: seq<Node>, used: seq<bool>, target: Node, byIdentity: bool, n: nat, i: nat)
    requires i < n <= |original| == |used| && !used[i] && Wanted(original[i], target, byIdentity)
    requires forall j :: 0 <= j < i ==> used[j]
    ensures FirstWanted(original, used, target, byIdentity, n) == Some(i)
  {
    if n > i + 1 {
      FirstWantedIs(original, used, target, byIdentity, n - 1, i);
    } else {
      NoneWanted(original, used, target, byIdentity, i);
    }
  }

  lemma {:induction false} NoneWanted(original: seq<Node>, used: seq<bool>, target: Node, byIdentity: bool, n: nat)
    requires n <= |original| == |used|
    requires forall j :: 0 <= j < n ==> used[j] || !Wanted(original[j], target, byIdentity)
    ensures FirstWanted(original, used, target, byIdentity, n) == None
  {
    if n > 0 {
      NoneWanted(original, used, target, byIdentity, n - 1);
    }
  }

  /** matchSequenceElement: identity first, structure as the fallback. */
  function Match(original: seq<Node>, used: seq<bool>, target: Node): Option<nat>
    requires |used| == |original|
  {
    var byIdentity := FirstWanted(original, used, target, true, |original|);
    if byIdentity.Some? then byIdentity else FirstWanted(original, used, target, false, |original|)
  }

  function Used(count: nat, picks: seq<Option<nat>>): seq<bool> {
    seq(count, j requires 0 <= j < count => Some(j) in picks)
  }

  /** The original each of the first n targets is given. */
  function Picks(original: seq<Node>, targets: seq<Node>, n: nat): (picks: seq<Option<nat>>)
    requires n <= |targets|
    ensures |picks| == n
  {
    if n == 0 then []
    else
      var front := Picks(original, targets, n - 1);
      front + [Match(original, Used(|original|, front), targets[n - 1])]
  }

  /** Picks are in range and no two of them are the same. */
  predicate OneToOne(count: nat, picks: seq<Option<nat>>) {
    && (forall i :: 0 <= i < |picks| ==> picks[i].Some? ==> picks[i].value < count)
    && (forall i, j :: 0 <= i < j < |picks| ==> picks[i].Some? ==> picks[i] != picks[j])
  }

  lemma OneToOneSnoc(count: nat, picks: seq<Option<nat>>, p: Option<nat>)
    requires OneToOne(count, picks) && (p.Some? ==> p.value < count && p !in picks)
    ensures OneToOne(count, picks + [p])
  {
  }

  /** No original element is matched twice. */
  lemma {:induction false} PicksAreInjective(original: seq<Node>, targets: seq<Node>, n: nat)
    requires n <= |targets|
    ensures OneToOne(|original|, Picks(original, targets, n))
    ensures var picks := Picks(original, targets, n);
            forall i, j :: 0 <= i < j < n && picks[i].Some? && picks[j].Some? ==> picks[i].value != picks[j].value
  {
    hide OneToOne, Match;
    NoneTwice(|original|);
    if n == 0 {
      NoPicks(|original|);
    } else {
      PicksAreInjective(original, targets, n - 1);
      var front := Picks(original, targets, n - 1);
      MatchIsUnused(original, front, targets[n - 1]);
      OneToOneSnoc(|original|, front, Match(original, Used(|original|, front), targets[n - 1]));
    }
  }

  lemma NoneTwice(count: nat)
    ensures forall picks: seq<Option<nat>> :: OneToOne(count, picks) ==>
              forall i, j :: 0 <= i < j < |picks| && picks[i].Some? && picks[j].Some? ==> picks[i].value != picks[j].value
  {
  }

  lemma NoPicks(count: nat)
    ensures OneToOne(count, [])
  {
  }

  lemma MatchIsUnused(original: seq<Node>, picks: seq<Option<nat>>, target: Node)
    ensures var r := Match(original, Used(|original|, picks), target);
            r.Some? ==> r.value < |original| && r !in picks
  {
  }

  /** reorderSequenceForMerge: for each target the original matched to it, if any. */
  function Ordered(original: seq<Node>, targets: seq<Node>): (ordered: seq<Option<Node>>)
    ensures |ordered| == |targets|
  {
    PicksAreInjective(original, targets, |targets|);
    var picks := Picks(original, targets, |targets|);
    seq(|targets|, i requires 0 <= i < |targets| => if picks[i].Some? then Some(original[picks[i].value]) else None)
  }

  method MatchSequenceElement(original: seq<Node>, used: array<bool>, target: Node) returns (index: int)
    requires used.Length == |original|
    ensures Match(original, used[..], target) == (if index < 0 then None else Some(index))
    ensures index < |original|
  {
    if !target.Sequence? {
      for i := 0 to |original|
        invariant FirstWanted(original, used[..], target, true, i) == None
      {
        if !used[i] && Wanted(original[i], target, true) {
          FirstWantedStays(original, used[..], target, true, i + 1, |original|);
          return i;
        }
      }
    } else {
      NoneWanted(original, used[..], target, true, |original|);
    }
    for i := 0 to |original|
      invariant FirstWanted(original, used[..], target, false, i) == None
    {
      if !used[i] && StructurallyEqual(original[i], target) {
        FirstWantedStays(original, used[..], target, false, i + 1, |original|);
        return i;
      }
    }
    index := -1;
  }

  lemma {:induction false} FirstWantedStays(original: seq<Node>, used: seq<bool>, target: Node, byIdentity: bool, n: nat, m: nat)
    requires n <= m <= |original| == |used| && FirstWanted(original, used, target, byIdentity, n).Some?
    ensures FirstWanted(original, used, target, byIdentity, m) == FirstWanted(original, used, target, byIdentity, n)
  {
    if n < m {
      FirstWantedStays(original, used, target, byIdentity, n, m - 1);
    }
  }

  method ReorderSequence(original: seq<Node>, targets: seq<Node>) returns (ordered: seq<Option<Node>>)
    ensures ordered == Ordered(original, targets)
  {
    hide Match;
    var used := new bool[|original|](_ => false);
    ordered := [];
    for i := 0 to |targets|
      invariant used[..] == Used(|original|, Picks(original, targets, i))
      invariant |ordered| == i
      invariant forall k :: 0 <= k < i ==>
        ordered[k] == var pick := Picks(original, targets, i)[k];
                      if pick.Some? && pick.value < |original| then Some(original[pick.value]) else None
    {
      var index := MatchSequenceElement(original, used, targets[i]);
      ghost var picks := Picks(original, targets, i);
      if index >= 0 {
        used[index] := true;
        ordered := ordered + [Some(original[index])];
      } else {
        ordered := ordered + [None];
      }
    }
    PicksAreInjective(original, targets, |targets|);
  }

  // ----- merging -----

  /** copyNodeShallow: everything of the source but the destination's style and comments. */
  function CopyShallow(dst: Node, src: Node): Node {
    src.(meta := dst.meta)
  }

  /** mergeNodePreserve */
  function Merged(dst: Node, src: Node, path: Path): Node
    decreases src, 3
  {
    match src
    case Mapping(_, _, _, entries) =>
      var base := if dst.Mapping? then dst else CopyShallow(dst, src);
      base.(entries := MergedEntries(base.entries, src, |entries|, path))
    case Sequence(_, _, _, items) =>
      if dst.Scalar? && dst.tag == "!!null" && items == [] then dst
      else
        var base := if dst.Sequence? then dst else Sequence("!!seq", dst.text, dst.meta, []);
        var ordered := Ordered(base.items, items);
        base.(items := seq(|items|, i requires 0 <= i < |items| =>
                             if ordered[i].Some? then MergedElement(ordered[i].value, items[i], path) else items[i]))
    case Scalar(tag, text, _) => Scalar(tag, text, dst.meta)
  }

  /** One matched list element: merged, and without the keys its source does not have. */
  function MergedElement(dst: Node, src: Node, path: Path): Node
    decreases src, 4
  {
    var merged := Merged(dst, src, path);
    if merged.Mapping? && src.Mapping? then merged.(entries := KeptEntries(merged.entries, src.entries)) else merged
  }

  /** The destination's entries after the first n entries of the source. */
  function MergedEntries(dst: seq<Entry>, src: Node, n: nat, path: Path): seq<Entry>
    requires src.Mapping? && n <= |src.entries|
    decreases src, 2, n
  {
    if n == 0 then dst else WithEntry(MergedEntries(dst, src, n - 1, path), src.entries[n - 1], path)
  }

  /** mergeMappingPreserve, for one generated entry: merge into the first entry with its key, or add it. */
  function WithEntry(dst: seq<Entry>, e: Entry, path: Path): seq<Entry>
    decreases e.value, 4
  {
    var child := path + [e.key.text];
    var found := FindKey(dst, e.key.text);
    if found.Some? then dst[found.value := Entry(dst[found.value].key, Merged(dst[found.value].value, e.value, child))]
    else
      var candidate := Pruned(child, e.value);
      if IsKnownDefault(child, candidate) then dst else dst + [Entry(e.key, candidate)]
  }

  predicate HasTrimmedKey(entries: seq<Entry>, key: string) {
    key != "" && exists i :: 0 <= i < |entries| && Trim(entries[i].key.text) == key
  }

  /** pruneMissingMapKeys: the entries whose key, trimmed, the source has. */
  function KeptEntries(dst: seq<Entry>, src: seq<Entry>): seq<Entry> {
    if dst == [] then []
    else
      var front, last := KeptEntries(dst[..|dst| - 1], src), dst[|dst| - 1];
      if HasTrimmedKey(src, Trim(last.key.text)) then front + [last] else front
  }

  method MergeNode(dst: Node, src: Node, path: Path) returns (merged: Node)
    ensures merged == Merged(dst, src, path)
    decreases src, 1
  {
    match src {
      case Mapping(_, _, _, _) =>
        var base := if dst.Mapping? then dst else CopyShallow(dst, src);
        merged := MergeMapping(base, src, path);
      case Sequence(_, _, _, items) =>
        if dst.Scalar? && dst.tag == "!!null" && |items| == 0 {
          return dst;
        }
        var base := if dst.Sequence? then dst else Sequence("!!seq", dst.text, dst.meta, []);
        var ordered := ReorderSequence(base.items, items);
        var content := [];
        for i := 0 to |items|
          invariant |content| == i
          invariant forall k :: 0 <= k < i ==>
            content[k] == if ordered[k].Some? then MergedElement(ordered[k].value, items[k], path) else items[k]
        {
          if ordered[i].None? {
            content := content + [items[i]];
          } else {
            var element := MergeNode(ordered[i].value, items[i], path);
            if element.Mapping? && items[i].Mapping? {
              element := PruneMissingMapKeys(element, items[i]);
            }
            content := content + [element];
          }
        }
        merged := base.(items := content);
        assert content == Merged(dst, src, path).items;
      case Scalar(tag, text, _) =>
        merged := Scalar(tag, text, dst.meta);
    }
  }

  method MergeMapping(dst: Node, src: Node, path: Path) returns (merged: Node)
    requires dst.Mapping? && src.Mapping?
    ensures merged == dst.(entries := MergedEntries(dst.entries, src, |src.entries|, path))
    decreases src, 0
  {
    var entries := dst.entries;
    for i := 0 to |src.entries|
      invariant entries == MergedEntries(dst.entries, src, i, path)
    {
      var sk, sv := src.entries[i].key, src.entries[i].value;
      var idx := FindKey(entries, sk.text);
      var childPath := path + [sk.text];
      if idx.Some? {
        var dv := MergeNode(entries[idx.value].value, sv, childPath);
        entries := entries[idx.value := Entry(entries[idx.value].key, dv)];
      } else {
        var candidate := PruneKnownDefaults(childPath, sv);
        if !IsKnownDefault(childPath, candidate) {
          entries := entries + [Entry(sk, candidate)];
        }
      }
    }
    merged := dst.(entries := entries);
  }

  method PruneMissingMapKeys(dst: Node, src: Node) returns (pruned: Node)
    requires dst.Mapping? && src.Mapping?
    ensures pruned == dst.(entries := KeptEntries(dst.entries, src.entries))
  {
    var keep: set<string> := {};
    for i := 0 to |src.entries|
      invariant forall k :: k in keep <==> HasTrimmedKey(src.entries[..i], k)
    {
      var key := Trim(src.entries[i].key.text);
      HasTrimmedKeySnoc(src.entries, i);
      if key != "" {
        keep := keep + {key};
      }
    }
    assert src.entries[..|src.entries|] == src.entries;
    var entries := [];
    for i := 0 to |dst.entries|
      invariant entries == KeptEntries(dst.entries[..i], src.entries)
    {
      assert dst.entries[..i + 1][..i] == dst.entries[..i];
      if Trim(dst.entries[i].key.text) in keep {
        entries := entries + [dst.entries[i]];
      }
    }
    assert dst.entries[..|dst.entries|] == dst.entries;
    pruned := dst.(entries := entries);
  }

  lemma HasTrimmedKeySnoc(entries: seq<Entry>, i: nat)
    requires i < |entries|
    ensures forall k :: HasTrimmedKey(entries[..i + 1], k) <==>
              HasTrimmedKey(entries[..i], k) || (k != "" && k == Trim(entries[i].key.text))
  {
    assert entries[..i + 1] == entries[..i] + [entries[i]];
    assert entries[..i + 1][i] == entries[i];
    forall k | HasTrimmedKey(entries[..i], k) ensures HasTrimmedKey(entries[..i + 1], k) {
      var j :| 0 <= j < i && Trim(entries[..i][j].key.text) == k;
      assert entries[..i + 1][j] == entries[..i][j];
    }
  }
}
