/** YAML node trees as values, and the code's own notions of zero value, known default and element identity.
    Trees have no aliases; a mapping's children are its key/value pairs. */
module YamlTree {
  import opened Bytes

  /** Style, comments, anchor and position of a node. */
  type Meta = string

  datatype Entry = Entry(key: Node, value: Node)

  datatype Node =
    | Mapping(tag: string, text: string, meta: Meta, entries: seq<Entry>)
    | Sequence(tag: string, text: string, meta: Meta, items: seq<Node>)
    | Scalar(tag: string, text: string, meta: Meta)

  type Path = seq<string>

  const DEFAULT_PPROF_ADDR := "127.0.0.1:8316"
  const DEFAULT_PANEL_REPOSITORY := "https://github.com/router-for-me/Cli-Proxy-API-Management-Center"

  predicate IsBlank(c: char) {
    c == ' ' || '\t' <= c <= '\r'
  }

  function Trim(s: string): string {
    TrimRight(TrimLeft(s, IsBlank), IsBlank)
  }

  function ToLower(s: string): string {
    seq(|s|, i requires 0 <= i < |s| => if 'A' <= s[i] <= 'Z' then (s[i] as int + 32) as char else s[i])
  }

  // ----- mapping keys -----

  /** findMapKeyIndex: the first entry with this key. */
  function FindKey(entries: seq<Entry>, key: string): (found: Option<nat>)
    ensures found.Some? ==> found.value < |entries| && entries[found.value].key.text == key
  {
    if entries == [] then None
    else
      var front := FindKey(entries[..|entries| - 1], key);
      if front.Some? then front
      else if entries[|entries| - 1].key.text == key then Some(|entries| - 1) else None
  }

  lemma {:induction false} FindKeyIsFirst(entries: seq<Entry>, key: string)
    ensures var found := FindKey(entries, key);
            && (forall j :: 0 <= j < (if found.Some? then found.value else |entries|) ==> entries[j].key.text != key)
  {
    if entries != [] {
      FindKeyIsFirst(entries[..|entries| - 1], key);
    }
  }

  /** What determines the first entry with a key. */
  lemma FindKeyIs(entries: seq<Entry>, key: string, i: nat)
    requires i < |entries| && entries[i].key.text == key && forall j :: 0 <= j < i ==> entries[j].key.text != key
    ensures FindKey(entries, key) == Some(i)
  {
    FindKeyIsFirst(entries, key);
  }

  lemma FindKeyNone(entries: seq<Entry>, key: string)
    requires forall j :: 0 <= j < |entries| ==> entries[j].key.text != key
    ensures FindKey(entries, key) == None
  {
    FindKeyIsFirst(entries, key);
  }

  // ----- defaults -----

  /** isZeroValueNode */
  predicate IsZero(node: Node) {
    match node
    case Scalar(tag, text, _) =>
      (tag == "!!bool" && text == "false") || ((tag == "!!int" || tag == "!!float") && (text == "0" || text == "0.0"))
      || (tag == "!!str" && text == "") || tag == "!!null"
    case Sequence(_, _, _, items) => forall i :: 0 <= i < |items| ==> IsZero(items[i])
    case Mapping(_, _, _, entries) => forall i :: 0 <= i < |entries| ==> IsZero(entries[i].value)
  }

  /** isKnownDefaultValue */
  predicate IsKnownDefault(path: Path, node: Node) {
    if path != [] && path[|path| - 1] == "weight" && node.Scalar? && node.tag == "!!int" then false
    else IsZero(node) || (node.Scalar? && IsNamedDefault(Dotted(path), node.tag, node.text))
  }

  function Dotted(path: Path): string {
    if path == [] then "" else if |path| == 1 then path[0] else Dotted(path[..|path| - 1]) + "." + path[|path| - 1]
  }

  predicate IsNamedDefault(fullPath: string, tag: string, text: string) {
    || (tag == "!!str" && fullPath == "pprof.addr" && text == DEFAULT_PPROF_ADDR)
    || (tag == "!!str" && fullPath == "remote-management.panel-github-repository" && text == DEFAULT_PANEL_REPOSITORY)
    || (tag == "!!str" && fullPath == "plugins.dir" && text == "plugins")
    || (tag == "!!str" && fullPath == "routing.strategy" && text == "round-robin")
    || (tag == "!!int" && fullPath == "error-logs-max-files" && text == "10")
  }

  /** pruneKnownDefaultsInNewNode */
  function Pruned(path: Path, node: Node): Node
    decreases node, 1
  {
    match node
    case Scalar(_, _, _) => node
    case Sequence(_, _, _, items) => node.(items := seq(|items|, i requires 0 <= i < |items| => Pruned(path, items[i])))
    case Mapping(_, _, _, entries) => node.(entries := PrunedEntries(path, node, |entries|))
  }

  predicate IsEmptyCollection(node: Node) {
    (node.Mapping? && node.entries == []) || (node.Sequence? && node.items == [])
  }

  /** What is left of the first n entries. */
  function PrunedEntries(path: Path, node: Node, n: nat): seq<Entry>
    requires node.Mapping? && n <= |node.entries|
    decreases node, 0, n
  {
    if n == 0 then []
    else
      var e := node.entries[n - 1];
      var child := path + [e.key.text];
      var front := PrunedEntries(path, node, n - 1);
      if IsKnownDefault(child, e.value) || IsEmptyCollection(Pruned(child, e.value)) then front
      else front + [Entry(e.key, Pruned(child, e.value))]
  }

  method PruneKnownDefaults(path: Path, node: Node) returns (pruned: Node)
    ensures pruned == Pruned(path, node)
    decreases node
  {
    match node {
      case Scalar(_, _, _) =>
        pruned := node;
      case Sequence(_, _, _, items) =>
        var children := [];
        for i := 0 to |items|
          invariant |children| == i && forall k :: 0 <= k < i ==> children[k] == Pruned(path, items[k])
        {
          var child := PruneKnownDefaults(path, items[i]);
          children := children + [child];
        }
        assert children == Pruned(path, node).items;
        pruned := node.(items := children);
      case Mapping(_, _, _, entries) =>
        var filtered := [];
        for i := 0 to |entries|
          invariant filtered == PrunedEntries(path, node, i)
        {
          var e := entries[i];
          var childPath := path + [e.key.text];
          if !IsKnownDefault(childPath, e.value) {
            var valueNode := PruneKnownDefaults(childPath, e.value);
            if !IsEmptyCollection(valueNode) {
              filtered := filtered + [Entry(e.key, valueNode)];
            }
          }
        }
        pruned := node.(entries := filtered);
    }
  }

  // ----- element identity -----

  const IDENTITY_KEYS: seq<string> := ["id", "name", "alias", "api-key", "api_key", "apikey", "key", "provider", "model"]

  /** mappingScalarValue: the value of the first scalar entry with this key, whatever its case; "" when there is none. */
  function ScalarValue(entries: seq<Entry>, key: string): string {
    if entries == [] then ""
    else if entries[0].value.Scalar? && ToLower(Trim(entries[0].key.text)) == ToLower(key) then Trim(entries[0].value.text)
    else ScalarValue(entries[1..], key)
  }

  function FirstIdentity(entries: seq<Entry>, keys: seq<string>): string {
    if keys == [] then ""
    else
      var v := ScalarValue(entries, keys[0]);
      if v != "" then keys[0] + "=" + v else FirstIdentity(entries, keys[1..])
  }

  function FirstScalar(entries: seq<Entry>): string {
    if entries == [] then ""
    else if entries[0].value.Scalar? && Trim(entries[0].value.text) != "" then
      ToLower(Trim(entries[0].key.text)) + "=" + Trim(entries[0].value.text)
    else FirstScalar(entries[1..])
  }

  /** sequenceElementIdentity */
  function Identity(node: Node): string {
    if !node.Mapping? then ""
    else
      var named := FirstIdentity(node.entries, IDENTITY_KEYS);
      if named != "" then named else FirstScalar(node.entries)
  }

  /** nodesStructurallyEqual */
  predicate StructurallyEqual(a: Node, b: Node) {
    match a
    case Mapping(_, _, _, entries) =>
      && b.Mapping? && |entries| == |b.entries|
      && forall i :: 0 <= i < |entries| ==>
           StructurallyEqual(entries[i].key, b.entries[i].key) && StructurallyEqual(entries[i].value, b.entries[i].value)
    case Sequence(_, _, _, items) =>
      b.Sequence? && |items| == |b.items| && forall i :: 0 <= i < |items| ==> StructurallyEqual(items[i], b.items[i])
    case Scalar(_, text, _) => b.Scalar? && Trim(text) == Trim(b.text)
  }
}
