/** The deep copy of a YAML node graph: shared nodes and cycles through aliases are copied once. */
module YamlCopy {
  import opened Bytes

  datatype Kind = NoKind | Document | Mapping | Sequence | Scalar | Alias

  /** Style, anchor, comments and position: copied, never looked at. */
  type Meta = string

  class YamlNode {
    var kind: Kind
    var tag: string
    var value: string
    var meta: Meta
    var alias: YamlNode?
    var content: seq<YamlNode?>

    constructor CopyOf(n: YamlNode)
      ensures SameFields(n, this) && alias == n.alias && content == n.content
    {
      kind, tag, value, meta := n.kind, n.tag, n.value, n.meta;
      alias, content := n.alias, n.content;
    }
  }

  predicate SameFields(a: YamlNode, b: YamlNode)
    reads a, b
  {
    a.kind == b.kind && a.tag == b.tag && a.value == b.value && a.meta == b.meta
  }

  /** Every edge out of these nodes leads to one of them, or nowhere. */
  ghost predicate Closed(nodes: set<YamlNode>)
    reads nodes
  {
    forall n :: n in nodes ==>
      (n.alias == null || n.alias in nodes) && (forall i :: 0 <= i < |n.content| ==> n.content[i] == null || n.content[i] in nodes)
  }

  type Copies = map<YamlNode, YamlNode>

  /** The copy of an edge's end, once it is known. */
  predicate Follows(seen: Copies, end: YamlNode?, copied: YamlNode?) {
    if end == null then copied == null else end in seen && copied == seen[end]
  }

  predicate ContentFollows(seen: Copies, content: seq<YamlNode?>, copied: seq<YamlNode?>) {
    |copied| == |content| && forall i :: 0 <= i < |content| ==> Follows(seen, content[i], copied[i])
  }

  /** A node is copied: same fields, and each edge leads to the copy of where the original's edge leads. */
  predicate Copied(seen: Copies, n: YamlNode, cp: YamlNode)
    reads n, cp
  {
    SameFields(n, cp) && Follows(seen, n.alias, cp.alias) && ContentFollows(seen, n.content, cp.content)
  }

  ghost predicate Injective(seen: Copies) {
    forall a, b :: a in seen && b in seen && seen[a] == seen[b] ==> a == b
  }

  ghost predicate Extends(seen: Copies, old_: Copies) {
    forall n :: n in old_ ==> n in seen && seen[n] == old_[n]
  }

  /** The copies so far: distinct, apart from the graph, and complete except for the nodes still being copied. */
  ghost predicate Progress(nodes: set<YamlNode>, seen: Copies, open: set<YamlNode>)
    reads nodes, seen.Values
  {
    && seen.Keys <= nodes && open <= seen.Keys && seen.Values !! nodes && Injective(seen)
    && forall n :: n in seen && n !in open ==> Copied(seen, n, seen[n])
  }

  /** What is left to enter. */
  ghost function Unseen(nodes: set<YamlNode>, seen: Copies): set<YamlNode> {
    nodes - seen.Keys
  }

  lemma UnseenShrinks(nodes: set<YamlNode>, seen: Copies, more: Copies)
    requires Extends(more, seen)
    ensures Unseen(nodes, more) <= Unseen(nodes, seen)
  {
  }

  lemma EnterShrinks(nodes: set<YamlNode>, seen: Copies, n: YamlNode, copy: YamlNode)
    requires n in nodes && n !in seen
    ensures Unseen(nodes, seen[n := copy]) < Unseen(nodes, seen)
    ensures Extends(seen[n := copy], seen)
  {
    assert n in Unseen(nodes, seen) && n !in Unseen(nodes, seen[n := copy]);
  }

  /** Entering a node: its copy is there for whoever meets the node again, but not complete. */
  lemma EnterKeeps(nodes: set<YamlNode>, seen: Copies, open: set<YamlNode>, n: YamlNode, copy: YamlNode)
    requires Progress(nodes, seen, open) && n in nodes && n !in seen && copy !in nodes && copy !in seen.Values
    ensures Progress(nodes, seen[n := copy], open + {n})
  {
    var more := seen[n := copy];
    assert more.Values <= seen.Values + {copy};
    forall m | m in more && m !in open + {n} ensures Copied(more, m, more[m]) {
      assert Copied(seen, m, seen[m]);
    }
  }

  /** Leaving it, complete. */
  lemma LeaveKeeps(nodes: set<YamlNode>, seen: Copies, open: set<YamlNode>, n: YamlNode)
    requires Progress(nodes, seen, open + {n}) && n in seen && Copied(seen, n, seen[n]) && open <= seen.Keys
    ensures Progress(nodes, seen, open)
  {
  }

  /** cp.Alias = …, for the copy of an open node. */
  method SetAlias(copy: YamlNode, alias: YamlNode?,
                  ghost nodes: set<YamlNode>, ghost seen: Copies, ghost open: set<YamlNode>, ghost n: YamlNode)
    requires Progress(nodes, seen, open) && n in open && n in seen && seen[n] == copy
    modifies copy`alias
    ensures copy.alias == alias && Progress(nodes, seen, open)
  {
    copy.alias := alias;
    forall m | m in seen && m !in open ensures Copied(seen, m, seen[m]) {
      assert old(Copied(seen, m, seen[m]));
    }
  }

  /** cp.Content[i] = …, or the whole content, for the copy of an open node. */
  method SetContent(copy: YamlNode, content: seq<YamlNode?>,
                    ghost nodes: set<YamlNode>, ghost seen: Copies, ghost open: set<YamlNode>, ghost n: YamlNode)
    requires Progress(nodes, seen, open) && n in open && n in seen && seen[n] == copy
    modifies copy`content
    ensures copy.content == content && Progress(nodes, seen, open)
  {
    copy.content := content;
    forall m | m in seen && m !in open ensures Copied(seen, m, seen[m]) {
      assert old(Copied(seen, m, seen[m]));
    }
  }

  /** deepCopyNodeSeen */
  method DeepCopySeen(n: YamlNode?, seen: Copies, ghost nodes: set<YamlNode>, ghost open: set<YamlNode>)
    returns (cp: YamlNode?, seen': Copies)
    requires Closed(nodes) && (n == null || n in nodes) && Progress(nodes, seen, open)
    ensures Progress(nodes, seen', open) && Extends(seen', seen) && Follows(seen', n, cp)
    ensures forall m :: m in seen' && m !in seen ==> fresh(seen'[m])
    decreases Unseen(nodes, seen), 0
  {
    if n == null {
      return null, seen;
    }
    if n in seen {
      return seen[n], seen;
    }
    var copy := new YamlNode.CopyOf(n);
    seen' := seen[n := copy];
    EnterKeeps(nodes, seen, open, n, copy);
    EnterShrinks(nodes, seen, n, copy);
    seen' := CopyEdges(n, copy, seen', nodes, open + {n});
    LeaveKeeps(nodes, seen', open, n);
    cp := copy;
  }

  /** The rest of deepCopyNodeSeen: the alias and the content of a node that was just entered. */
  method CopyEdges(n: YamlNode, copy: YamlNode, seen: Copies, ghost nodes: set<YamlNode>, ghost open: set<YamlNode>)
    returns (seen': Copies)
    requires Closed(nodes) && n in nodes && n in open && n in seen && seen[n] == copy && Progress(nodes, seen, open)
    requires copy !in nodes && SameFields(n, copy) && copy.alias == n.alias && copy.content == n.content
    modifies copy
    ensures Progress(nodes, seen', open) && Extends(seen', seen) && Copied(seen', n, copy)
    ensures forall m :: m in seen' && m !in seen ==> fresh(seen'[m])
    decreases Unseen(nodes, seen), 2
  {
    hide Progress;
    seen' := seen;
    if n.alias != null {
      var target;
      target, seen' := DeepCopySeen(n.alias, seen', nodes, open);
      SetAlias(copy, target, nodes, seen', open, n);
    }
    SetContent(copy, seq(|n.content|, _ => null), nodes, seen', open, n);
    for i := 0 to |n.content|
      invariant Extends(seen', seen) && Progress(nodes, seen', open) && Closed(nodes)
      invariant SameFields(n, copy) && Follows(seen', n.alias, copy.alias)
      invariant |copy.content| == |n.content| && forall k :: 0 <= k < i ==> Follows(seen', n.content[k], copy.content[k])
      invariant forall m :: m in seen' && m !in seen ==> fresh(seen'[m])
    {
      UnseenShrinks(nodes, seen, seen');
      seen' := CopyChild(n, copy, seen', nodes, open, i);
    }
  }

  /** cp.Content[i] = deepCopyNodeSeen(n.Content[i], seen) */
  method CopyChild(n: YamlNode, copy: YamlNode, seen: Copies, ghost nodes: set<YamlNode>, ghost open: set<YamlNode>, i: nat)
    returns (seen': Copies)
    requires Closed(nodes) && n in nodes && n in open && n in seen && seen[n] == copy && Progress(nodes, seen, open)
    requires copy !in nodes && |copy.content| == |n.content| && i < |n.content|
    modifies copy`content
    ensures Progress(nodes, seen', open) && Extends(seen', seen)
    ensures exists child :: copy.content == old(copy.content)[i := child] && Follows(seen', n.content[i], child)
    ensures forall m :: m in seen' && m !in seen ==> fresh(seen'[m])
    decreases Unseen(nodes, seen), 1
  {
    hide Progress;
    var child;
    child, seen' := DeepCopySeen(n.content[i], seen, nodes, open);
    SetContent(copy, copy.content[i := child], nodes, seen', open, n);
  }

  /** deepCopyNode: terminates on every finite graph, changes nothing that existed, and returns a copy made of
      new nodes only.  `seen` says which node is the copy of which. */
  method DeepCopy(n: YamlNode?, ghost nodes: set<YamlNode>) returns (cp: YamlNode?, ghost seen: Copies)
    requires Closed(nodes) && (n == null || n in nodes)
    ensures Isomorphic(seen, n, cp) && seen.Keys <= nodes
    ensures fresh(seen.Values)
  {
    var all;
    cp, all := DeepCopySeen(n, map[], nodes, {});
    seen := all;
  }

  /** A one-to-one map of nodes to their copies that maps n to cp and every edge to an edge. */
  ghost predicate Isomorphic(seen: Copies, n: YamlNode?, cp: YamlNode?)
    reads seen.Keys, seen.Values
  {
    && Follows(seen, n, cp) && Injective(seen)
    && forall m :: m in seen ==> Copied(seen, m, seen[m])
  }

  // ----- what a reader of the tree sees -----

  datatype Edge = ToAlias | ToChild(index: nat)

  /** The end of one edge; None when there is no such edge. */
  function Follow(n: YamlNode, e: Edge): Option<YamlNode?>
    reads n
  {
    match e
    case ToAlias => Some(n.alias)
    case ToChild(i) => if i < |n.content| then Some(n.content[i]) else None
  }

  /** Where a path leads inside a set of nodes; None when it leaves the set or takes an edge that is not there. */
  function Walk(nodes: set<YamlNode>, n: YamlNode?, path: seq<Edge>): Option<YamlNode?>
    reads nodes
    decreases |path|
  {
    if path == [] then Some(n)
    else if n == null || n !in nodes then None
    else
      var next := Follow(n, path[0]);
      if next.Some? then Walk(nodes, next.value, path[1..]) else None
  }

  /** A walk takes one edge after the other, from nodes of the set only. */
  lemma WalkOn(nodes: set<YamlNode>, n: YamlNode?, e: Edge, path: seq<Edge>)
    ensures Walk(nodes, n, []) == Some(n)
    ensures Walk(nodes, n, [e] + path) ==
              if n != null && n in nodes && Follow(n, e).Some? then Walk(nodes, Follow(n, e).value, path) else None
  {
    assert ([e] + path)[1..] == path;
  }

  lemma {:induction false} InnerPathsCorrespond(seen: Copies, n: YamlNode?, cp: YamlNode?, path: seq<Edge>)
    requires Isomorphic(seen, n, cp)
    ensures var a, b := Walk(seen.Keys, n, path), Walk(seen.Values, cp, path);
            && (a.Some? <==> b.Some?)
            && (a.Some? ==> Follows(seen, a.value, b.value))
            && (a.Some? && a.value != null ==> SameFields(a.value, b.value) && |a.value.content| == |b.value.content|)
    decreases |path|
  {
    if n != null {
      assert Copied(seen, n, seen[n]);
      if path != [] {
        var next, next' := Follow(n, path[0]), Follow(cp, path[0]);
        if next.Some? {
          assert Follows(seen, next.value, next'.value);
          InnerPathsCorrespond(seen, next.value, next'.value, path[1..]);
        }
      }
    }
  }

  /** Nothing reachable in the original falls outside the copied nodes, so the walk inside them is every walk. */
  lemma {:induction false} WalkStaysInside(seen: Copies, nodes: set<YamlNode>, n: YamlNode?, cp: YamlNode?, path: seq<Edge>)
    requires Isomorphic(seen, n, cp) && seen.Keys <= nodes
    ensures Walk(nodes, n, path) == Walk(seen.Keys, n, path)
    decreases |path|
  {
    if path != [] && n != null {
      assert Copied(seen, n, seen[n]);
      var next, next' := Follow(n, path[0]), Follow(cp, path[0]);
      if next.Some? {
        assert Follows(seen, next.value, next'.value);
        WalkStaysInside(seen, nodes, next.value, next'.value, path[1..]);
      }
    }
  }

  /** Every path leads to corresponding ends: there is an edge in the copy where there is one in the original,
      and what it leads to is the copy, field by field, of what it leads to there. */
  lemma PathsCorrespond(seen: Copies, nodes: set<YamlNode>, n: YamlNode?, cp: YamlNode?, path: seq<Edge>)
    requires Isomorphic(seen, n, cp) && seen.Keys <= nodes
    ensures var a, b := Walk(nodes, n, path), Walk(seen.Values, cp, path);
            && (a.Some? <==> b.Some?)
            && (a.Some? ==> Follows(seen, a.value, b.value))
            && (a.Some? && a.value != null ==> SameFields(a.value, b.value) && |a.value.content| == |b.value.content|)
  {
    InnerPathsCorrespond(seen, n, cp, path);
    WalkStaysInside(seen, nodes, n, cp, path);
  }

  /** Sharing is preserved both ways: two paths meet in the copy exactly when they meet in the original. */
  lemma SharingPreserved(seen: Copies, nodes: set<YamlNode>, n: YamlNode?, cp: YamlNode?, p: seq<Edge>, q: seq<Edge>)
    requires Isomorphic(seen, n, cp) && seen.Keys <= nodes
    requires Walk(nodes, n, p).Some? && Walk(nodes, n, q).Some?
    ensures Walk(nodes, n, p) == Walk(nodes, n, q) <==> Walk(seen.Values, cp, p) == Walk(seen.Values, cp, q)
  {
    PathsCorrespond(seen, nodes, n, cp, p);
    PathsCorrespond(seen, nodes, n, cp, q);
  }
}
