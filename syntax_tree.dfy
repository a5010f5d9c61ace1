/**
 * The nodes of `QueryParser::Nodes` (app/query_parser.rb), held in a table:
 * a node is referred to by its index, its `parent` by the parent's index.
 */
module SyntaxTree {
  import opened Wrappers
  import opened Collections

  /** The node classes the parser creates; `StringNode` is `Nodes::String`, a quoted phrase. */
  datatype Kind = RootNode | StringNode | ExcludesNode | MustIncludeNode | TextNode

  /** An element of `@children`: a Ruby string, or a node given by its index. */
  datatype Child = Word(text: string) | Sub(id: nat)

  datatype Node = Node(kind: Kind, children: seq<Child>, parent: Option<nat>)

  /**
   * The shape every table the parser builds has: node 0 is the one root,
   * its children are nodes, every other node names an earlier node as its
   * parent, and every child node comes after its container and names that
   * container as its parent.
   */
  predicate WellFormed(nodes: seq<Node>) {
    && |nodes| > 0
    && (forall i :: 0 <= i < |nodes| ==> Placed(nodes, i))
    && (forall i, k :: 0 <= i < |nodes| && 0 <= k < |nodes[i].children| ==> ChildLinked(nodes, i, k))
  }

  /** Node `i` is the root (at 0) or a non-root node whose parent comes before it. */
  predicate Placed(nodes: seq<Node>, i: nat)
    requires i < |nodes|
  {
    if i == 0 then
      nodes[0].kind == RootNode && nodes[0].parent == None && forall c <- nodes[0].children :: c.Sub?
    else
      nodes[i].kind != RootNode && nodes[i].parent.Some? && nodes[i].parent.value < i
  }

  /** The `k`-th child of node `i`, when it is a node, comes after `i` and names `i` as its parent. */
  predicate ChildLinked(nodes: seq<Node>, i: nat, k: nat)
    requires i < |nodes| && k < |nodes[i].children|
  {
    var c := nodes[i].children[k];
    c.Sub? ==> i < c.id < |nodes| && nodes[c.id].parent == Some(i)
  }

  /** The child nodes of a node come after it. */
  lemma ChildrenAfter(nodes: seq<Node>, i: nat)
    requires WellFormed(nodes) && i < |nodes|
    ensures forall c <- nodes[i].children :: c.Sub? ==> i < c.id < |nodes| && nodes[c.id].parent == Some(i)
  {
    forall c <- nodes[i].children | c.Sub?
      ensures i < c.id < |nodes| && nodes[c.id].parent == Some(i)
    {
      var k :| 0 <= k < |nodes[i].children| && nodes[i].children[k] == c;
      assert ChildLinked(nodes, i, k);
    }
  }

  /**
   * `Node#<<`: sets the child node's `parent` and appends the child to the
   * node's `@children`.
   */
  function AppendChild(nodes: seq<Node>, p: nat, c: Child): (r: seq<Node>)
    requires p < |nodes| && (c.Sub? ==> c.id < |nodes| && c.id != p)
    ensures |r| == |nodes|
    ensures r[p] == nodes[p].(children := nodes[p].children + [c])
    ensures c.Sub? ==> r[c.id] == nodes[c.id].(parent := Some(p))
    ensures forall j :: 0 <= j < |nodes| && j != p && (c.Sub? ==> j != c.id) ==> r[j] == nodes[j]
  {
    var linked := if c.Sub? then nodes[c.id := nodes[c.id].(parent := Some(p))] else nodes;
    linked[p := linked[p].(children := linked[p].children + [c])]
  }

  /** `Kind.new(children, parent)` followed by `context << node`. */
  function Attach(nodes: seq<Node>, context: nat, kind: Kind, children: seq<Child>, parent: Option<nat>): (r: seq<Node>)
    requires context < |nodes|
    ensures |r| == |nodes| + 1
    ensures r[|nodes|] == Node(kind, children, Some(context))
    ensures r[context] == nodes[context].(children := nodes[context].children + [Sub(|nodes|)])
    ensures forall j :: 0 <= j < |nodes| && j != context ==> r[j] == nodes[j]
  {
    AppendChild(nodes + [Node(kind, children, parent)], context, Sub(|nodes|))
  }

  /**
   * Attaching a new non-root node whose children are strings keeps the
   * table well formed.
   */
  lemma AttachWellFormed(nodes: seq<Node>, context: nat, kind: Kind, children: seq<Child>, parent: Option<nat>)
    requires WellFormed(nodes) && context < |nodes|
    requires kind != RootNode && forall c <- children :: c.Word?
    ensures WellFormed(Attach(nodes, context, kind, children, parent))
  {
    var r := Attach(nodes, context, kind, children, parent);
    forall i | 0 <= i < |r| ensures Placed(r, i) {
      if i < |nodes| {
        assert Placed(nodes, i);
        if i == 0 {
          forall c <- r[0].children ensures c.Sub? {
            if context == 0 {
              assert c in nodes[0].children || c == Sub(|nodes|);
            }
          }
        }
      }
    }
    forall i, k | 0 <= i < |r| && 0 <= k < |r[i].children| ensures ChildLinked(r, i, k) {
      if i == |nodes| {
        assert r[i].children[k] in children;
      } else if i == context && k == |nodes[i].children| {
      } else {
        assert ChildLinked(nodes, i, k);
        assert r[i].children[k] == nodes[i].children[k];
      }
    }
  }

  /** `value` of a node; `None` where the source yields a node object or `nil` instead of a string. */
  function Value(nodes: seq<Node>, i: nat): Option<string>
    requires WellFormed(nodes) && i < |nodes|
    decreases |nodes| - i, 1
  {
    var n := nodes[i];
    match n.kind
    case RootNode => None
    // `children.map(&:value).join(' ')`
    case StringNode =>
      ChildrenAfter(nodes, i);
      var vs := ChildValues(nodes, i, n.children);
      if vs.Some? then Some(Join(vs.value, " ")) else None
    // `children.first.is_a?(Nodes::String) ? children.first.value : children.first`
    case ExcludesNode => FirstValue(nodes, i)
    case MustIncludeNode => FirstValue(nodes, i)
    // `children.first`
    case TextNode => if n.children != [] && n.children[0].Word? then Some(n.children[0].text) else None
  }

  function FirstValue(nodes: seq<Node>, i: nat): Option<string>
    requires WellFormed(nodes) && i < |nodes|
    decreases |nodes| - i, 0
  {
    var n := nodes[i];
    if n.children == [] then None
    else match n.children[0]
      case Word(s) => Some(s)
      case Sub(j) =>
        assert ChildLinked(nodes, i, 0);
        if nodes[j].kind == StringNode then Value(nodes, j) else None
  }

  /** The values of a phrase's children, in order. */
  function ChildValues(nodes: seq<Node>, i: nat, cs: seq<Child>): Option<seq<string>>
    requires WellFormed(nodes) && i < |nodes|
    requires forall c <- cs :: c.Sub? ==> i < c.id < |nodes|
    decreases |nodes| - i, 0, |cs|
  {
    if cs == [] then Some([])
    else match cs[0]
      case Word(_) => None
      case Sub(j) =>
        assert cs[0] in cs;
        var v, vs := Value(nodes, j), ChildValues(nodes, i, cs[1..]);
        if v.Some? && vs.Some? then Some([v.value] + vs.value) else None
  }

  /** The references `Sub(first)`, ..., `Sub(first + count - 1)`. */
  function Subs(first: nat, count: nat): (r: seq<Child>)
    ensures |r| == count && forall k :: 0 <= k < count ==> r[k] == Sub(first + k)
  {
    seq(count, k requires 0 <= k < count => Sub(first + k))
  }

  /**
   * A node's value depends only on the node and what comes after it in the
   * table: a table that agrees from `i` on gives the same value.
   */
  lemma {:induction false} ValueFrame(nodes: seq<Node>, nodes': seq<Node>, i: nat)
    requires WellFormed(nodes) && WellFormed(nodes') && i < |nodes| <= |nodes'|
    requires forall j :: i <= j < |nodes| ==> nodes'[j] == nodes[j]
    ensures Value(nodes', i) == Value(nodes, i)
    decreases |nodes| - i, 1
  {
    var n := nodes[i];
    match n.kind
    case RootNode =>
    case StringNode =>
      ChildrenAfter(nodes, i);
      ChildValuesFrame(nodes, nodes', i, n.children);
    case ExcludesNode =>
      FirstValueFrame(nodes, nodes', i);
    case MustIncludeNode =>
      FirstValueFrame(nodes, nodes', i);
    case TextNode =>
  }

  lemma {:induction false} FirstValueFrame(nodes: seq<Node>, nodes': seq<Node>, i: nat)
    requires WellFormed(nodes) && WellFormed(nodes') && i < |nodes| <= |nodes'|
    requires forall j :: i <= j < |nodes| ==> nodes'[j] == nodes[j]
    ensures FirstValue(nodes', i) == FirstValue(nodes, i)
    decreases |nodes| - i, 0
  {
    var n := nodes[i];
    if n.children != [] && n.children[0].Sub? {
      var j := n.children[0].id;
      assert ChildLinked(nodes, i, 0);
      if nodes[j].kind == StringNode {
        ValueFrame(nodes, nodes', j);
      }
    }
  }

  lemma {:induction false} ChildValuesFrame(nodes: seq<Node>, nodes': seq<Node>, i: nat, cs: seq<Child>)
    requires WellFormed(nodes) && WellFormed(nodes') && i < |nodes| <= |nodes'|
    requires forall j :: i <= j < |nodes| ==> nodes'[j] == nodes[j]
    requires forall c <- cs :: c.Sub? ==> i < c.id < |nodes|
    ensures ChildValues(nodes', i, cs) == ChildValues(nodes, i, cs)
    decreases |nodes| - i, 0, |cs|
  {
    if cs != [] && cs[0].Sub? {
      assert cs[0] in cs;
      ValueFrame(nodes, nodes', cs[0].id);
      ChildValuesFrame(nodes, nodes', i, cs[1..]);
    }
  }

  /** A phrase whose children are text nodes has their words joined by single spaces as its value. */
  lemma PhraseValue(nodes: seq<Node>, p: nat, first: nat, ws: seq<string>)
    requires WellFormed(nodes) && p < first && first + |ws| <= |nodes|
    requires nodes[p].kind == StringNode && nodes[p].children == Subs(first, |ws|)
    requires forall j :: first <= j < first + |ws| ==> nodes[j].kind == TextNode && nodes[j].children == [Word(ws[j - first])]
    ensures Value(nodes, p) == Some(Join(ws, " "))
  {
    TextChildValues(nodes, p, first, ws);
    ChildrenAfter(nodes, p);
    StringValue(nodes, p, ws);
  }

  lemma StringValue(nodes: seq<Node>, p: nat, vs: seq<string>)
    requires WellFormed(nodes) && p < |nodes| && nodes[p].kind == StringNode
    requires forall c <- nodes[p].children :: c.Sub? ==> p < c.id < |nodes|
    requires ChildValues(nodes, p, nodes[p].children) == Some(vs)
    ensures Value(nodes, p) == Some(Join(vs, " "))
  {
  }

  lemma {:induction false} TextChildValues(nodes: seq<Node>, p: nat, first: nat, ws: seq<string>)
    requires WellFormed(nodes) && p < first && first + |ws| <= |nodes|
    requires forall j :: first <= j < first + |ws| ==> nodes[j].kind == TextNode && nodes[j].children == [Word(ws[j - first])]
    ensures ChildValues(nodes, p, Subs(first, |ws|)) == Some(ws)
    decreases |ws|
  {
    if ws != [] {
      assert Subs(first, |ws|)[1..] == Subs(first + 1, |ws| - 1);
      TextChildValues(nodes, p, first + 1, ws[1..]);
      assert [ws[0]] + ws[1..] == ws;
    }
  }

  /**
   * The node store. `nodes` mirrors the heap of node objects: `Add` is
   * `Kind.new`, `Append` is `Node#<<`.
   */
  class Tree {
    var nodes: seq<Node>

    /** `Nodes::Root.new`: a table holding only an empty root. */
    constructor ()
      ensures nodes == [Node(RootNode, [], None)]
      ensures WellFormed(nodes)
    {
      nodes := [Node(RootNode, [], None)];
    }

    /** `Kind.new(children, parent)`: a new, not yet attached node. */
    method Add(kind: Kind, children: seq<Child>, parent: Option<nat>) returns (id: nat)
      modifies this
      ensures id == |old(nodes)| && nodes == old(nodes) + [Node(kind, children, parent)]
    {
      id := |nodes|;
      nodes := nodes + [Node(kind, children, parent)];
    }

    /** `Node#<<`: `node.parent = self if node.is_a?(Node)`, then `@children << node`. */
    method Append(p: nat, c: Child)
      requires p < |nodes| && (c.Sub? ==> c.id < |nodes| && c.id != p)
      modifies this
      ensures nodes == AppendChild(old(nodes), p, c)
    {
      if c.Sub? {
        nodes := nodes[c.id := nodes[c.id].(parent := Some(p))];
      }
      nodes := nodes[p := nodes[p].(children := nodes[p].children + [c])];
    }
  }
}
