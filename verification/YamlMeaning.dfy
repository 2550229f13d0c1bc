/** What the code's own tests on nodes mean: zero values, named defaults, structural equality and identities. */
module YamlMeaning {
  import opened Bytes
  import opened YamlTree
  import opened YamlMerge
  import opened YamlMergeFacts
  import opened YamlReach

  // ----- zero values -----

  /** The scalars that count as zero. */
  predicate ZeroScalar(tag: string, text: string) {
    match tag
    case "!!bool" => text == "false"
    case "!!int" => text in ["0", "0.0"]
    case "!!float" => text in ["0", "0.0"]
    case "!!str" => text == ""
    case _ => tag == "!!null"
  }

  ghost predicate ZeroAt(node: Node, route: Route) {
    At(node, route).Some? && At(node, route).value.Scalar? ==>
      ZeroScalar(At(node, route).value.tag, At(node, route).value.text)
  }

  lemma ZeroBelow(node: Node, e: Edge, route: Route)
    requires Child(node, e).Some? && ZeroAt(node, [e] + route)
    ensures ZeroAt(Child(node, e).value, route)
  {
    assert ([e] + route)[1..] == route;
  }

  /** A generated value is zero exactly when every scalar in it is, however deep; an empty collection is. */
  lemma {:induction false} ZeroMeans(node: Node)
    requires Generated(node)
    ensures IsZero(node) <==> forall route :: ZeroAt(node, route)
    decreases node
  {
    hide ZeroScalar, ZeroAt, At, FindKey, DistinctKeys;
    if IsZero(node) {
      forall route ensures ZeroAt(node, route) {
        ZeroReaches(node, route);
      }
    }
    if forall route :: ZeroAt(node, route) {
      match node
      case Scalar(tag, text, _) =>
        ZeroRoot(tag, text, node.meta);
      case Sequence(_, _, _, items) =>
        forall i | 0 <= i < |items| ensures IsZero(items[i]) {
          ZeroEverywhere(node, Item(i));
          ZeroMeans(items[i]);
        }
      case Mapping(_, _, _, entries) =>
        forall i | 0 <= i < |entries| ensures IsZero(entries[i].value) {
          FindOwnKey(entries, i);
          ZeroEverywhere(node, Key(entries[i].key.text));
          ZeroMeans(entries[i].value);
        }
    }
  }

  lemma ZeroRoot(tag: string, text: string, meta: Meta)
    requires forall route :: ZeroAt(Scalar(tag, text, meta), route)
    ensures IsZero(Scalar(tag, text, meta))
  {
    assert ZeroAt(Scalar(tag, text, meta), []);
  }

  lemma ZeroEverywhere(node: Node, e: Edge)
    requires Child(node, e).Some? && forall route :: ZeroAt(node, route)
    ensures forall route :: ZeroAt(Child(node, e).value, route)
  {
    hide ZeroAt, Child;
    forall route ensures ZeroAt(Child(node, e).value, route) {
      ZeroBelow(node, e, route);
    }
  }

  lemma {:induction false} ZeroReaches(node: Node, route: Route)
    requires IsZero(node)
    ensures ZeroAt(node, route)
    decreases |route|
  {
    hide FindKey;
    if route != [] && Child(node, route[0]).Some? {
      ZeroReaches(Child(node, route[0]).value, route[1..]);
    }
  }

  // ----- named defaults -----

  /** Paths are joined by dots. */
  lemma {:induction false} DottedConcat(a: Path, b: Path)
    requires a != [] && b != []
    ensures Dotted(a + b) == Dotted(a) + "." + Dotted(b)
    decreases |b|
  {
    var n := |b| - 1;
    assert (a + b)[..|a| + n] == a + b[..n] && (a + b)[|a| + n] == b[n];
    if n == 0 {
      assert a + b[..0] == a;
    } else {
      DottedConcat(a, b[..n]);
      assert Dotted(a) + "." + Dotted(b[..n]) + "." + b[n] == Dotted(a) + "." + (Dotted(b[..n]) + "." + b[n]);
    }
  }

  /** The five values that are defaults although they are not zero: the dotted path, the tag and the text. */
  const NAMED: seq<(string, string, string)> :=
    [("pprof.addr", "!!str", "127.0.0.1:8316"),
     ("remote-management.panel-github-repository", "!!str", "https://github.com/router-for-me/Cli-Proxy-API-Management-Center"),
     ("plugins.dir", "!!str", "plugins"),
     ("routing.strategy", "!!str", "round-robin"),
     ("error-logs-max-files", "!!int", "10")]

  predicate Named(fullPath: string, tag: string, text: string) {
    (fullPath, tag, text) in NAMED
  }

  lemma NamedMeans(fullPath: string, tag: string, text: string)
    ensures IsNamedDefault(fullPath, tag, text) <==> Named(fullPath, tag, text)
  {
  }

  lemma ZeroScalars(node: Node)
    requires node.Scalar?
    ensures IsZero(node) <==> ZeroScalar(node.tag, node.text)
  {
  }

  /** Nothing but a zero value or one of these is a default. */
  lemma DefaultMeans(path: Path, node: Node)
    requires node.Scalar? && !(path != [] && path[|path| - 1] == "weight" && node.tag == "!!int")
    ensures IsKnownDefault(path, node) <==> ZeroScalar(node.tag, node.text) || Named(Dotted(path), node.tag, node.text)
  {
    hide IsNamedDefault, Named, Dotted, IsZero, ZeroScalar;
    NamedMeans(Dotted(path), node.tag, node.text);
    ZeroScalars(node);
  }

  /** An integer weight is never a default, zero or not. */
  lemma WeightsAreNoDefaults(path: Path, text: string, meta: Meta)
    ensures !IsKnownDefault(path + ["weight"], Scalar("!!int", text, meta))
  {
    assert (path + ["weight"])[|path|] == "weight";
  }

  // ----- texts -----

  const BLANKS: string := " \t\n\U{000B}\U{000C}\r"
  const UPPER: string := "ABCDEFGHIJKLMNOPQRSTUVWXYZ"
  const LOWER: string := "abcdefghijklmnopqrstuvwxyz"

  lemma BlankMeans(c: char)
    ensures IsBlank(c) <==> c in BLANKS
  {
  }

  predicate AllBlank(s: string) {
    forall c :: c in s ==> c in BLANKS
  }

  /** Trimming takes the blanks off both ends and nothing else. */
  lemma TrimMeans(before: string, text: string, after: string)
    requires AllBlank(before) && AllBlank(after)
    requires text != "" && text[0] !in BLANKS && text[|text| - 1] !in BLANKS
    ensures Trim(before + text + after) == text
  {
    BlankMeans(text[0]);
    BlankMeans(text[|text| - 1]);
    assert before + text + after == before + (text + after);
    TrimLeftOfText(before, text + after);
    TrimRightOfText(text, after);
  }

  lemma {:induction false} TrimLeftOfText(before: string, text: string)
    requires AllBlank(before) && text != "" && !IsBlank(text[0])
    ensures TrimLeft(before + text, IsBlank) == text
    decreases |before|
  {
    if before == "" {
      assert before + text == text;
    } else {
      BlankMeans(before[0]);
      assert (before + text)[1..] == before[1..] + text;
      TrimLeftOfText(before[1..], text);
    }
  }

  lemma {:induction false} TrimRightOfText(text: string, after: string)
    requires AllBlank(after) && text != "" && !IsBlank(text[|text| - 1])
    ensures TrimRight(text + after, IsBlank) == text
    decreases |after|
  {
    if after == "" {
      assert text + after == text;
    } else {
      var n := |after| - 1;
      BlankMeans(after[n]);
      assert (text + after)[..|text| + n] == text + after[..n];
      TrimRightOfText(text, after[..n]);
    }
  }

  /** A text of blanks only is trimmed to nothing. */
  lemma {:induction false} BlankIsTrimmed(s: string)
    requires AllBlank(s)
    ensures Trim(s) == ""
    decreases |s|
  {
    if s != "" {
      BlankMeans(s[0]);
      BlankIsTrimmed(s[1..]);
    }
  }

  lemma UpperLetter(c: char, i: nat)
    requires i < 26 && c == UPPER[i]
    ensures 'A' <= c <= 'Z' && LOWER[i] == (c as int + 32) as char
  {
  }

  lemma CapitalLetter(c: char)
    requires 'A' <= c <= 'Z'
    ensures c in UPPER
  {
    assert c == UPPER[c as int - 65];
  }

  lemma OtherLetter(c: char)
    requires c !in UPPER
    ensures !('A' <= c <= 'Z')
  {
    if 'A' <= c <= 'Z' {
      CapitalLetter(c);
    }
  }

  /** Lower case replaces the capital letters and nothing else. */
  lemma LowerMeans(s: string, i: nat)
    requires i < |s|
    ensures |ToLower(s)| == |s|
    ensures forall k :: 0 <= k < 26 && s[i] == UPPER[k] ==> ToLower(s)[i] == LOWER[k]
    ensures s[i] !in UPPER ==> ToLower(s)[i] == s[i]
  {
    if s[i] in UPPER {
      forall k | 0 <= k < 26 && s[i] == UPPER[k] ensures ToLower(s)[i] == LOWER[k] {
        UpperLetter(s[i], k);
      }
    } else {
      OtherLetter(s[i]);
    }
  }

  // ----- structural equality -----

  /** What structural equality looks at: shapes and trimmed texts. */
  function Skeleton(node: Node): Node {
    match node
    case Scalar(_, text, _) => Scalar("", Trim(text), "")
    case Sequence(_, _, _, items) => Sequence("", "", "", seq(|items|, i requires 0 <= i < |items| => Skeleton(items[i])))
    case Mapping(_, _, _, entries) =>
      Mapping("", "", "", seq(|entries|, i requires 0 <= i < |entries| => Entry(Skeleton(entries[i].key), Skeleton(entries[i].value))))
  }

  lemma {:induction false} EqualMeans(a: Node, b: Node)
    ensures StructurallyEqual(a, b) <==> Skeleton(a) == Skeleton(b)
    decreases a
  {
    hide Trim;
    match a
    case Scalar(_, _, _) =>
    case Sequence(_, _, _, items) =>
      if b.Sequence? && |items| == |b.items| {
        forall i | 0 <= i < |items| ensures StructurallyEqual(items[i], b.items[i]) <==> Skeleton(a).items[i] == Skeleton(b).items[i] {
          EqualMeans(items[i], b.items[i]);
        }
        assert Skeleton(a) == Skeleton(b) <==> Skeleton(a).items == Skeleton(b).items;
      }
    case Mapping(_, _, _, entries) =>
      if b.Mapping? && |entries| == |b.entries| {
        forall i | 0 <= i < |entries|
          ensures StructurallyEqual(entries[i].key, b.entries[i].key) && StructurallyEqual(entries[i].value, b.entries[i].value)
                  <==> Skeleton(a).entries[i] == Skeleton(b).entries[i]
        {
          EqualMeans(entries[i].key, b.entries[i].key);
          EqualMeans(entries[i].value, b.entries[i].value);
        }
        assert Skeleton(a) == Skeleton(b) <==> Skeleton(a).entries == Skeleton(b).entries;
      }
  }

  // ----- pruned copies hold nothing empty -----

  /** No key of a pruned copy leads to an empty mapping or list. */
  lemma {:induction false} NothingEmptyStays(path: Path, node: Node, n: nat)
    requires node.Mapping? && n <= |node.entries|
    ensures forall e :: e in PrunedEntries(path, node, n) ==>
              (e.value.Mapping? ==> e.value.entries != []) && (e.value.Sequence? ==> e.value.items != [])
    decreases n
  {
    hide IsKnownDefault, Pruned;
    if n > 0 {
      NothingEmptyStays(path, node, n - 1);
    }
  }

  // ----- identities -----

  /** By identity a mapping finds a mapping of the same identity, a scalar a scalar of the same trimmed text, and nothing
      that is blank finds anything. */
  lemma WantedMeans(original: Node, target: Node)
    ensures Wanted(original, target, true) <==>
              || (target.Mapping? && original.Mapping? && Identity(original) == Identity(target) != "")
              || (target.Scalar? && original.Scalar? && Trim(original.text) == Trim(target.text) != "")
    ensures Wanted(original, target, false) <==> Skeleton(original) == Skeleton(target)
  {
    hide Identity, Trim, Skeleton, StructurallyEqual;
    EqualMeans(original, target);
  }

  /** An element is known by the first identity key that has a value, in the order of the keys. */
  lemma {:induction false} FirstKeyCounts(entries: seq<Entry>, keys: seq<string>, i: nat)
    requires i < |keys| && ScalarValue(entries, keys[i]) != ""
    requires forall j :: 0 <= j < i ==> ScalarValue(entries, keys[j]) == ""
    ensures FirstIdentity(entries, keys) == keys[i] + "=" + ScalarValue(entries, keys[i])
    decreases i
  {
    hide ScalarValue;
    if i > 0 {
      FirstKeyCounts(entries, keys[1..], i - 1);
    }
  }

  /** A named identity comes before the first scalar. */
  lemma NamedFirst(node: Node)
    requires node.Mapping?
    ensures FirstIdentity(node.entries, IDENTITY_KEYS) != "" ==> Identity(node) == FirstIdentity(node.entries, IDENTITY_KEYS)
    ensures FirstIdentity(node.entries, IDENTITY_KEYS) == "" ==> Identity(node) == FirstScalar(node.entries)
  {
  }
}
