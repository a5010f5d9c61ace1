/**
 * The last stage of the query parser and the whole pipeline:
 * `build_query` (app/query_parser.rb:222-231), which sorts the root's
 * children into the four lists of a `Query`, and `parse`
 * (app/query_parser.rb:123-128).
 *
 * A value that is not a string (a bare operator with nothing after it, or an
 * operator whose first child is a plain text node) makes the projection
 * `None`: the source stores that object in the query, where the search
 * cannot use it.
 */
module QueryParser {
  import opened Wrappers
  import opened Lexer
  import opened SyntaxTree
  import opened TreeBuilder
  import opened Queries

  /** Children that are nodes other than the root, as the root's children are. */
  predicate RootChildren(nodes: seq<Node>, cs: seq<Child>) {
    forall c <- cs :: c.Sub? && 0 < c.id < |nodes|
  }

  lemma RootChildrenOf(nodes: seq<Node>)
    requires WellFormed(nodes)
    ensures RootChildren(nodes, nodes[0].children)
  {
    assert Placed(nodes, 0);
    ChildrenAfter(nodes, 0);
  }

  /**
   * `nodes.select { |node| node.is_a?(kind) }.map(&:value)`: the values of
   * the children of the given kind, in order; `None` when one of them is not
   * a string.
   */
  function KindValues(nodes: seq<Node>, cs: seq<Child>, kind: Kind): (r: Option<seq<string>>)
    requires WellFormed(nodes) && RootChildren(nodes, cs)
    ensures r.Some? <==> forall c <- cs :: nodes[c.id].kind == kind ==> Value(nodes, c.id).Some?
    ensures r.Some? ==> |r.value| <= |cs|
    decreases |cs|
  {
    if cs == [] then Some([])
    else
      var init, last := cs[..|cs| - 1], cs[|cs| - 1];
      assert cs == init + [last];
      var before := KindValues(nodes, init, kind);
      if nodes[last.id].kind != kind then before
      else
        var v := Value(nodes, last.id);
        if before.Some? && v.Some? then Some(before.value + [v.value]) else None
  }

  /** `build_query` on a node table: the four lists, or `None` when a selected value is not a string. */
  function Project(nodes: seq<Node>): (r: Option<Terms>)
    requires WellFormed(nodes)
    ensures r.Some? ==>
      |r.value.exactMatches| + |r.value.excludes| + |r.value.includes| + |r.value.mustInclude| == |nodes[0].children|
  {
    RootChildrenOf(nodes);
    var cs := nodes[0].children;
    var e, x, i, m :=
      KindValues(nodes, cs, StringNode), KindValues(nodes, cs, ExcludesNode),
      KindValues(nodes, cs, TextNode), KindValues(nodes, cs, MustIncludeNode);
    if e.Some? && x.Some? && i.Some? && m.Some? then
      KindsPartition(nodes, cs);
      Some(Terms(e.value, x.value, i.value, m.value))
    else None
  }

  /**
   * Every root child has one of the four kinds, so the four selections
   * together take each child exactly once.
   */
  lemma {:induction false} KindsPartition(nodes: seq<Node>, cs: seq<Child>)
    requires WellFormed(nodes) && RootChildren(nodes, cs)
    requires KindValues(nodes, cs, StringNode).Some? && KindValues(nodes, cs, ExcludesNode).Some?
    requires KindValues(nodes, cs, TextNode).Some? && KindValues(nodes, cs, MustIncludeNode).Some?
    ensures |KindValues(nodes, cs, StringNode).value| + |KindValues(nodes, cs, ExcludesNode).value|
          + |KindValues(nodes, cs, TextNode).value| + |KindValues(nodes, cs, MustIncludeNode).value| == |cs|
    decreases |cs|
  {
    if cs != [] {
      var init, last := cs[..|cs| - 1], cs[|cs| - 1];
      assert cs == init + [last];
      assert last in cs;
      assert Placed(nodes, last.id);
      KindsPartition(nodes, init);
    }
  }

  /** `parse` on the token level: build the tree from a fresh root, then project it. */
  function ParseTokens(ts: seq<Token>): Option<Terms> {
    StartInv();
    RunInv(Start, ts);
    Project(Run(Start, ts).nodes)
  }

  /** `parse`: split the query, lex every word, build the tree, project it. */
  function Parsed(query: string): Option<Terms> {
    ParseTokens(LexAll(Words(query)))
  }

  // ---------------------------------------------------------------------------
  // Well-formed queries
  // ---------------------------------------------------------------------------

  /** The values of the items that make nodes of the given kind, in order. */
  function ItemValues(items: seq<Item>, kind: Kind): seq<string> {
    if items == [] then []
    else
      var init, last := items[..|items| - 1], items[|items| - 1];
      ItemValues(init, kind) + if ItemKind(last) == kind then [ItemValue(last)] else []
  }

  /** The query that a sequence of items stands for. */
  function ItemsTerms(items: seq<Item>): Terms {
    Terms(ItemValues(items, StringNode), ItemValues(items, ExcludesNode),
          ItemValues(items, TextNode), ItemValues(items, MustIncludeNode))
  }

  /**
   * A query built from items parses to those items sorted by kind, each
   * list keeping the items' order: phrases to `exact_matches`,
   * `--word`/`--"phrase"` to `excludes`, `+word`/`+"phrase"` to
   * `must_include`, plain words to `includes`.
   */
  lemma ParseItems(items: seq<Item>)
    ensures ParseTokens(ItemsTokens(items)) == Some(ItemsTerms(items))
  {
    var b := Run(Start, ItemsTokens(items));
    RunItems(items);
    var cs := b.nodes[0].children;
    RootChildrenOf(b.nodes);
    RepresentedChildren(b, items);
    ChildrenValues(b.nodes, cs, items, StringNode);
    ChildrenValues(b.nodes, cs, items, ExcludesNode);
    ChildrenValues(b.nodes, cs, items, TextNode);
    ChildrenValues(b.nodes, cs, items, MustIncludeNode);
  }

  /** Child `k` is a node of item `k`'s kind whose value is item `k`'s value. */
  predicate ChildrenStand(nodes: seq<Node>, cs: seq<Child>, items: seq<Item>) {
    && WellFormed(nodes) && |cs| == |items|
    && forall k :: 0 <= k < |cs| ==>
        && cs[k].Sub? && 0 < cs[k].id < |nodes|
        && nodes[cs[k].id].kind == ItemKind(items[k])
        && Value(nodes, cs[k].id) == Some(ItemValue(items[k]))
  }

  lemma RepresentedChildren(b: Builder, items: seq<Item>)
    requires Represents(b, items)
    ensures ChildrenStand(b.nodes, b.nodes[0].children, items)
  {
  }

  /** Children standing for items have, kind by kind, the items' values. */
  lemma {:induction false} ChildrenValues(nodes: seq<Node>, cs: seq<Child>, items: seq<Item>, kind: Kind)
    requires ChildrenStand(nodes, cs, items)
    ensures RootChildren(nodes, cs)
    ensures KindValues(nodes, cs, kind) == Some(ItemValues(items, kind))
    decreases |cs|
  {
    StandingRoot(nodes, cs, items);
    if cs != [] {
      var n := |cs| - 1;
      StandingPrefix(nodes, cs, items);
      ChildrenValues(nodes, cs[..n], items[..n], kind);
      KindValuesSnoc(nodes, cs, kind, ItemValues(items[..n], kind));
    }
  }

  lemma StandingRoot(nodes: seq<Node>, cs: seq<Child>, items: seq<Item>)
    requires ChildrenStand(nodes, cs, items)
    ensures RootChildren(nodes, cs)
  {
    forall c <- cs ensures c.Sub? && 0 < c.id < |nodes| {
      var j :| 0 <= j < |cs| && cs[j] == c;
    }
  }

  lemma StandingPrefix(nodes: seq<Node>, cs: seq<Child>, items: seq<Item>)
    requires ChildrenStand(nodes, cs, items) && cs != []
    ensures ChildrenStand(nodes, cs[..|cs| - 1], items[..|items| - 1])
  {
  }

  /** One more child adds its value when it has the kind, and nothing otherwise. */
  lemma KindValuesSnoc(nodes: seq<Node>, cs: seq<Child>, kind: Kind, vs: seq<string>)
    requires WellFormed(nodes) && RootChildren(nodes, cs) && cs != []
    requires RootChildren(nodes, cs[..|cs| - 1]) && KindValues(nodes, cs[..|cs| - 1], kind) == Some(vs)
    requires Value(nodes, cs[|cs| - 1].id).Some?
    ensures KindValues(nodes, cs, kind) ==
      Some(vs + if nodes[cs[|cs| - 1].id].kind == kind then [Value(nodes, cs[|cs| - 1].id).value] else [])
  {
    assert vs + [] == vs;
  }

  // ---------------------------------------------------------------------------
  // The methods
  // ---------------------------------------------------------------------------

  /** `build_query(tree)`: a new `Query` whose lists are filled one by one. */
  method BuildQuery(tree: Tree) returns (query: Option<Query>)
    requires WellFormed(tree.nodes)
    ensures query.Some? <==> Project(tree.nodes).Some?
    ensures query.Some? ==> fresh(query.value) && query.value.Value() == Project(tree.nodes).value
  {
    RootChildrenOf(tree.nodes);
    var nodes := tree.nodes[0].children;
    var exactMatches := KindValues(tree.nodes, nodes, StringNode);
    var excludes := KindValues(tree.nodes, nodes, ExcludesNode);
    var mustInclude := KindValues(tree.nodes, nodes, MustIncludeNode);
    var includes := KindValues(tree.nodes, nodes, TextNode);
    if exactMatches.Some? && excludes.Some? && mustInclude.Some? && includes.Some? {
      var q := new Query.Default();
      q.SetExactMatches(exactMatches.value);
      q.SetExcludes(excludes.value);
      q.SetMustInclude(mustInclude.value);
      q.SetIncludes(includes.value);
      query := Some(q);
    } else {
      query := None;
    }
  }

  /** `QueryParser.new(query).parse`. */
  method Parse(query: string) returns (result: Option<Query>)
    ensures result.Some? <==> Parsed(query).Some?
    ensures result.Some? ==> fresh(result.value) && result.value.Value() == Parsed(query).value
  {
    var words := Words(query);
    var tokens: seq<Token> := [];
    for i := 0 to |words|
      invariant tokens == LexAll(words[..i])
    {
      assert words[..i + 1][..i] == words[..i];
      tokens := tokens + Lex(words[i]);
    }
    assert words[..|words|] == words;
    var tree := BuildTree(tokens);
    StartInv();
    RunInv(Start, tokens);
    result := BuildQuery(tree);
  }
}
