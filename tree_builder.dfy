/**
 * The second stage of the query parser: `build_tree` / `build_subtree!`
 * (app/query_parser.rb:159-220), a single pass over the tokens that keeps a
 * current context node and three scope flags.
 *
 * `Step` and `Run` state the pass on values; `BuildTree` is the loop itself,
 * climbing through `parent` links as the source does. The model adds the
 * ancestor path of the context, so that every climb is a pop and can be
 * shown never to go above the root.
 */
module TreeBuilder {
  import opened Wrappers
  import opened Collections
  import opened Lexer
  import opened SyntaxTree

  /**
   * The builder's state: the node table, the path of node indices from the
   * root down to the context, and the flags `quote_opened`,
   * `excludes_opened`, `must_include_opened`.
   */
  datatype Builder = Builder(
    nodes: seq<Node>,
    path: seq<nat>,
    quoteOpened: bool,
    excludesOpened: bool,
    mustIncludeOpened: bool)

  function Count(flag: bool): nat {
    if flag then 1 else 0
  }

  /**
   * The invariant of the pass: the table is well formed; the path starts at
   * the root and each entry is the `parent` of the next, so the context's
   * ancestors are exactly the path; and the context is at least one level
   * below the root for every open scope, which is what makes each climb
   * possible.
   */
  predicate Inv(b: Builder) {
    && Sane(b)
    && WellFormed(b.nodes)
    && b.path[0] == 0
    && (forall k :: 0 < k < |b.path| ==> Linked(b.nodes, b.path, k))
  }

  /** The part of the invariant that the pass needs to be defined: the path is in range and deep enough. */
  predicate Sane(b: Builder) {
    && |b.path| >= 1 + Count(b.quoteOpened) + Count(b.excludesOpened) + Count(b.mustIncludeOpened)
    && (forall k :: 0 <= k < |b.path| ==> b.path[k] < |b.nodes|)
  }

  /** The node at position `k` of the path hangs from the one at `k - 1`. */
  predicate Linked(nodes: seq<Node>, path: seq<nat>, k: nat)
    requires 0 < k < |path| && path[k] < |nodes|
  {
    nodes[path[k]].parent == Some(path[k - 1])
  }

  /** `context`. */
  function Context(b: Builder): nat
    requires |b.path| > 0
  {
    b.path[|b.path| - 1]
  }

  /** `root = Nodes::Root.new` with all flags false and the root as context. */
  const Start := Builder([Node(RootNode, [], None)], [0], false, false, false)

  lemma StartInv()
    ensures Inv(Start)
  {
  }

  /** Attaching under the context keeps every link of the path, and the new node hangs from the context. */
  lemma AttachLinks(b: Builder, kind: Kind, children: seq<Child>, parent: Option<nat>)
    requires Inv(b)
    ensures var nodes := Attach(b.nodes, Context(b), kind, children, parent);
      && (forall k :: 0 < k < |b.path| ==> Linked(nodes, b.path, k))
      && nodes[|b.nodes|].parent == Some(Context(b))
  {
    var nodes := Attach(b.nodes, Context(b), kind, children, parent);
    forall k | 0 < k < |b.path| ensures Linked(nodes, b.path, k) {
      assert Linked(b.nodes, b.path, k);
      if b.path[k] == Context(b) {
        assert nodes[b.path[k]].parent == b.nodes[b.path[k]].parent;
      } else {
        assert nodes[b.path[k]] == b.nodes[b.path[k]];
      }
    }
  }

  /** The class of the node a token creates. */
  function NodeKind(t: Token): Kind {
    match t
    case Quote => StringNode
    case Excludes(_) => ExcludesNode
    case MustInclude(_) => MustIncludeNode
    case Text(_) => TextNode
  }

  /** The children a node is created with: the word of a text token or of an operator with a value. */
  function NodeChildren(t: Token): seq<Child> {
    match t
    case Quote => []
    case Excludes(p) => if p.None? then [] else [Word(p.value)]
    case MustInclude(p) => if p.None? then [] else [Word(p.value)]
    case Text(w) => [Word(w)]
  }

  /** A quote (when none is open) and a bare operator open a scope; the other tokens are self-contained. */
  predicate Opens(t: Token) {
    t.Quote? || (!t.Text? && t.payload.None?)
  }

  /**
   * Every token but a closing quote creates one node and appends it to the
   * context: a scope-opening one with `new([], nil)`, sets its flag and
   * makes the new node the context; a self-contained one with
   * `new([word], context)` and leaves the context alone.
   */
  function Create(b: Builder, t: Token): (r: Builder)
    requires Sane(b) && !(t == Quote && b.quoteOpened)
    ensures Sane(r)
  {
    var context := Context(b);
    var nodes := Attach(b.nodes, context, NodeKind(t), NodeChildren(t), if Opens(t) then None else Some(context));
    if Opens(t) then
      b.(nodes := nodes, path := b.path + [|b.nodes|],
         quoteOpened := b.quoteOpened || t.Quote?,
         excludesOpened := b.excludesOpened || t.Excludes?,
         mustIncludeOpened := b.mustIncludeOpened || t.MustInclude?)
    else
      b.(nodes := nodes)
  }

  /**
   * A closing quote: `context.parent.parent` when `excludes_opened` (tested
   * first) or `must_include_opened`, which is cleared; `context.parent`
   * otherwise.
   */
  function Close(b: Builder): (r: Builder)
    requires Sane(b) && b.quoteOpened
    ensures Sane(r) && r.nodes == b.nodes
  {
    if b.excludesOpened then
      b.(path := b.path[..|b.path| - 2], quoteOpened := false, excludesOpened := false)
    else if b.mustIncludeOpened then
      b.(path := b.path[..|b.path| - 2], quoteOpened := false, mustIncludeOpened := false)
    else
      b.(path := b.path[..|b.path| - 1], quoteOpened := false)
  }

  /** One iteration of `tokens.map do |token| ... end`. */
  function Step(b: Builder, t: Token): (r: Builder)
    requires Sane(b)
    ensures Sane(r)
  {
    if t == Quote && b.quoteOpened then Close(b) else Create(b, t)
  }

  /** The pass over a token sequence, token after token. */
  function Run(b: Builder, ts: seq<Token>): (r: Builder)
    requires Sane(b)
    ensures Sane(r)
    decreases |ts|
  {
    if ts == [] then b else Step(Run(b, ts[..|ts| - 1]), ts[|ts| - 1])
  }

  lemma CreateInv(b: Builder, t: Token)
    requires Inv(b) && !(t == Quote && b.quoteOpened)
    ensures Inv(Create(b, t))
  {
    var context := Context(b);
    var parent := if Opens(t) then None else Some(context);
    AttachWellFormed(b.nodes, context, NodeKind(t), NodeChildren(t), parent);
    AttachLinks(b, NodeKind(t), NodeChildren(t), parent);
    var r := Create(b, t);
    if Opens(t) {
      assert r.path == b.path + [|b.nodes|];
      forall k | 0 < k < |r.path| ensures Linked(r.nodes, r.path, k) {
        if k < |b.path| {
          assert Linked(r.nodes, b.path, k);
        }
      }
    } else {
      assert r.path == b.path;
    }
  }

  lemma CloseInv(b: Builder)
    requires Inv(b) && b.quoteOpened
    ensures Inv(Close(b))
  {
    var r := Close(b);
    forall k | 0 < k < |r.path| ensures Linked(r.nodes, r.path, k) {
      assert Linked(b.nodes, b.path, k);
    }
  }

  /**
   * Every token keeps the invariant: in particular no closing quote ever
   * climbs above the root.
   */
  lemma StepInv(b: Builder, t: Token)
    requires Inv(b)
    ensures Inv(Step(b, t))
  {
    if t == Quote && b.quoteOpened {
      CloseInv(b);
    } else {
      CreateInv(b, t);
    }
  }

  lemma {:induction false} RunInv(b: Builder, ts: seq<Token>)
    requires Inv(b)
    ensures Inv(Run(b, ts))
    decreases |ts|
  {
    if ts != [] {
      RunInv(b, ts[..|ts| - 1]);
      StepInv(Run(b, ts[..|ts| - 1]), ts[|ts| - 1]);
    }
  }

  // ---------------------------------------------------------------------------
  // What one token does
  // ---------------------------------------------------------------------------

  /**
   * A closing quote clears `quote_opened`; `excludes_opened` is tested (and
   * cleared) before `must_include_opened`; the context climbs two levels
   * when one of them was set and one level otherwise, and each level is the
   * `parent` of the one below. No node changes.
   */
  lemma ClosingQuote(b: Builder)
    requires Inv(b) && b.quoteOpened
    ensures var r := Step(b, Quote); var d := if b.excludesOpened || b.mustIncludeOpened then 2 else 1;
      && r.nodes == b.nodes && !r.quoteOpened
      && |b.path| > d && r.path == b.path[..|b.path| - d]
      && (b.excludesOpened ==> !r.excludesOpened && r.mustIncludeOpened == b.mustIncludeOpened)
      && (!b.excludesOpened && b.mustIncludeOpened ==> !r.mustIncludeOpened)
      && (!b.excludesOpened && !b.mustIncludeOpened ==> r.excludesOpened == r.mustIncludeOpened == false)
      && b.nodes[Context(b)].parent == Some(b.path[|b.path| - 2])
      && (d == 2 ==> b.nodes[b.path[|b.path| - 2]].parent == Some(Context(r)))
      && (d == 1 ==> b.nodes[Context(b)].parent == Some(Context(r)))
  {
    assert Linked(b.nodes, b.path, |b.path| - 1);
    if |b.path| > 2 {
      assert Linked(b.nodes, b.path, |b.path| - 2);
    }
  }

  /**
   * A quote token always turns `quote_opened` over, and no other token
   * touches it; a closing quote is the only token that clears a scope flag.
   */
  lemma QuoteToggles(b: Builder, t: Token)
    requires Sane(b)
    ensures Step(b, t).quoteOpened == (b.quoteOpened != (t == Quote))
  {
  }

  lemma FlagsStayOpen(b: Builder, t: Token)
    requires Sane(b)
    ensures !(t == Quote && b.quoteOpened) ==>
      (b.excludesOpened ==> Step(b, t).excludesOpened) && (b.mustIncludeOpened ==> Step(b, t).mustIncludeOpened)
  {
  }

  /**
   * A text token or an operator with a value appends one self-contained node
   * under the context and leaves the context and the flags alone; a bare
   * operator or an opening quote appends a node, sets its flag and descends
   * into it.
   */
  lemma TokenPlacement(b: Builder, t: Token)
    requires Sane(b) && !(t == Quote && b.quoteOpened)
    ensures var r, n := Step(b, t), |b.nodes|;
      && |r.nodes| == n + 1
      && r.nodes[n].parent == Some(Context(b))
      && r.nodes[Context(b)].children == b.nodes[Context(b)].children + [Sub(n)]
      && (forall j :: 0 <= j < n && j != Context(b) ==> r.nodes[j] == b.nodes[j])
      && (t.Text? || (!t.Quote? && t.payload.Some?) ==>
            r.path == b.path && r.quoteOpened == b.quoteOpened
            && r.excludesOpened == b.excludesOpened && r.mustIncludeOpened == b.mustIncludeOpened
            && r.nodes[n].children == [Word(if t.Text? then t.word else t.payload.value)])
      && (t.Quote? || (!t.Text? && t.payload.None?) ==>
            r.path == b.path + [n] && r.nodes[n].children == [])
      && r.nodes[n].kind == match t
                            case Quote => StringNode
                            case Excludes(_) => ExcludesNode
                            case MustInclude(_) => MustIncludeNode
                            case Text(_) => TextNode
  {
  }

  // ---------------------------------------------------------------------------
  // Properties of the whole pass
  // ---------------------------------------------------------------------------

  /** The pass over a sequence ending in `last` is one step after the pass over the rest. */
  lemma RunSnoc(b: Builder, ts: seq<Token>, init: seq<Token>, last: Token)
    requires Sane(b) && ts == init + [last]
    ensures Run(b, ts) == Step(Run(b, init), last)
  {
    assert ts[..|ts| - 1] == init;
  }

  lemma {:induction false} RunAppend(b: Builder, xs: seq<Token>, ys: seq<Token>)
    requires Sane(b)
    ensures Run(b, xs + ys) == Run(Run(b, xs), ys)
    decreases |ys|
  {
    if ys == [] {
      assert xs + ys == xs;
    } else {
      var init, last := ys[..|ys| - 1], ys[|ys| - 1];
      RunAppend(b, xs, init);
      SplitLast(xs, ys);
      RunSnoc(b, xs + ys, xs + init, last);
      RunSnoc(Run(b, xs), ys, init, last);
    }
  }

  /** The number of quote tokens. */
  function QuoteCount(ts: seq<Token>): (n: nat)
    ensures n == multiset(ts)[Quote]
  {
    if ts == [] then 0
    else
      var init, last := ts[..|ts| - 1], ts[|ts| - 1];
      assert ts == init + [last];
      QuoteCount(init) + if last == Quote then 1 else 0
  }

  /** Quote tokens alternate between opening and closing: a quote is open after an odd number of them. */
  lemma QuoteParity(ts: seq<Token>)
    ensures Run(Start, ts).quoteOpened <==> multiset(ts)[Quote] % 2 == 1
  {
    RunQuotes(Start, ts);
  }

  lemma {:induction false} RunQuotes(b: Builder, ts: seq<Token>)
    requires Sane(b)
    ensures Run(b, ts).quoteOpened == (b.quoteOpened != (QuoteCount(ts) % 2 == 1))
    decreases |ts|
  {
    if ts != [] {
      var init, last := ts[..|ts| - 1], ts[|ts| - 1];
      RunQuotes(b, init);
      var before := Run(b, init);
      RunLast(b, ts, init, last);
      QuoteToggles(before, last);
      Parity(b.quoteOpened, before.quoteOpened, Run(b, ts).quoteOpened,
             QuoteCount(init), QuoteCount(ts), last == Quote);
    }
  }

  /** One unfolding of `Run` and `QuoteCount` at the last token. */
  lemma RunLast(b: Builder, ts: seq<Token>, init: seq<Token>, last: Token)
    requires Sane(b) && ts != [] && init == ts[..|ts| - 1] && last == ts[|ts| - 1]
    ensures Run(b, ts) == Step(Run(b, init), last)
    ensures QuoteCount(ts) == QuoteCount(init) + (if last == Quote then 1 else 0)
  {
  }

  /** Toggling a flag once per counted quote keeps it equal to the count's parity. */
  lemma Parity(start: bool, before: bool, after: bool, n0: nat, n: nat, isQuote: bool)
    requires before == (start != (n0 % 2 == 1))
    requires after == (before != isQuote)
    requires n == n0 + (if isQuote then 1 else 0)
    ensures after == (start != (n % 2 == 1))
  {
  }

  // ---------------------------------------------------------------------------
  // Well-formed queries
  // ---------------------------------------------------------------------------

  /**
   * The top-level pieces a query is meant to be made of: a word, an
   * operator glued to a word, and a quoted phrase on its own or right
   * after a bare operator.
   */
  datatype Item =
    | Term(word: string)
    | InlineExcludes(word: string)
    | InlineMustInclude(word: string)
    | Phrase(words: seq<string>)
    | ExcludedPhrase(words: seq<string>)
    | RequiredPhrase(words: seq<string>)

  function Texts(ws: seq<string>): (ts: seq<Token>)
    ensures |ts| == |ws| && forall k :: 0 <= k < |ws| ==> ts[k] == Text(ws[k])
  {
    seq(|ws|, k requires 0 <= k < |ws| => Text(ws[k]))
  }

  function ItemTokens(it: Item): seq<Token> {
    match it
    case Term(w) => [Text(w)]
    case InlineExcludes(w) => [Excludes(Some(w))]
    case InlineMustInclude(w) => [MustInclude(Some(w))]
    case Phrase(ws) => [Quote] + Texts(ws) + [Quote]
    case ExcludedPhrase(ws) => [Excludes(None), Quote] + Texts(ws) + [Quote]
    case RequiredPhrase(ws) => [MustInclude(None), Quote] + Texts(ws) + [Quote]
  }

  function ItemsTokens(items: seq<Item>): seq<Token> {
    if items == [] then [] else ItemsTokens(items[..|items| - 1]) + ItemTokens(items[|items| - 1])
  }

  /** The kind of root child an item is meant to become. */
  function ItemKind(it: Item): Kind {
    match it
    case Term(_) => TextNode
    case InlineExcludes(_) => ExcludesNode
    case InlineMustInclude(_) => MustIncludeNode
    case Phrase(_) => StringNode
    case ExcludedPhrase(_) => ExcludesNode
    case RequiredPhrase(_) => MustIncludeNode
  }

  /** The string an item is meant to contribute to the query. */
  function ItemValue(it: Item): string {
    match it
    case Term(w) => w
    case InlineExcludes(w) => w
    case InlineMustInclude(w) => w
    case Phrase(ws) => Join(ws, " ")
    case ExcludedPhrase(ws) => Join(ws, " ")
    case RequiredPhrase(ws) => Join(ws, " ")
  }

  /** Back at the root with no scope open. */
  predicate AtRest(b: Builder) {
    Inv(b) && b.path == [0] && !b.quoteOpened && !b.excludesOpened && !b.mustIncludeOpened
  }

  /** The root's children are one node per item, of the item's kind and with the item's value. */
  predicate Represents(b: Builder, items: seq<Item>) {
    && AtRest(b)
    && |b.nodes[0].children| == |items|
    && forall k :: 0 <= k < |items| ==>
        var c := b.nodes[0].children[k];
        && c.Sub? && 0 < c.id < |b.nodes|
        && b.nodes[c.id].kind == ItemKind(items[k])
        && Value(b.nodes, c.id) == Some(ItemValue(items[k]))
  }

  lemma RunOne(b: Builder, t: Token)
    requires Sane(b)
    ensures Run(b, [t]) == Step(b, t)
  {
    RunSnoc(b, [t], [], t);
  }

  /**
   * `r` is `b` with one text node per word of `ws` appended under the
   * context, in order, and nothing else changed.
   */
  predicate TextsAppended(b: Builder, r: Builder, ws: seq<string>)
    requires Sane(b)
  {
    var c, n := Context(b), |b.nodes|;
    && r.path == b.path && r.quoteOpened == b.quoteOpened
    && r.excludesOpened == b.excludesOpened && r.mustIncludeOpened == b.mustIncludeOpened
    && |r.nodes| == n + |ws|
    && r.nodes[c] == b.nodes[c].(children := b.nodes[c].children + Subs(n, |ws|))
    && (forall j :: 0 <= j < n && j != c ==> r.nodes[j] == b.nodes[j])
    && (forall j :: n <= j < n + |ws| ==> r.nodes[j] == Node(TextNode, [Word(ws[j - n])], Some(c)))
  }

  lemma TextsSnoc(b: Builder, r: Builder, init: seq<string>, last: string)
    requires Sane(b) && Sane(r) && TextsAppended(b, r, init)
    ensures TextsAppended(b, Create(r, Text(last)), init + [last])
  {
    var c, n := Context(b), |b.nodes|;
    var ws := init + [last];
    var r' := Create(r, Text(last));
    assert Subs(n, |init|) + [Sub(n + |init|)] == Subs(n, |ws|);
    forall j | n <= j < n + |ws| ensures r'.nodes[j] == Node(TextNode, [Word(ws[j - n])], Some(c)) {
      if j < n + |init| {
        assert r'.nodes[j] == r.nodes[j];
      }
    }
  }

  /** Text tokens append text nodes under the context, one after the other. */
  lemma {:induction false} RunTexts(b: Builder, ws: seq<string>)
    requires Sane(b)
    ensures TextsAppended(b, Run(b, Texts(ws)), ws)
    decreases |ws|
  {
    var c, n := Context(b), |b.nodes|;
    if ws == [] {
      assert Texts(ws) == [];
      assert b.nodes[c].children + Subs(n, 0) == b.nodes[c].children;
    } else {
      var init, last := ws[..|ws| - 1], ws[|ws| - 1];
      assert Texts(ws) == Texts(init) + [Text(last)];
      RunSnoc(b, Texts(ws), Texts(init), Text(last));
      RunTexts(b, init);
      var r0 := Run(b, Texts(init));
      assert Step(r0, Text(last)) == Create(r0, Text(last));
      TextsSnoc(b, r0, init, last);
      assert init + [last] == ws;
    }
  }

  /**
   * `r` is `b` with one more root child, node `|b.nodes|`, of the given kind
   * and value; the nodes before it are unchanged and `r` is at rest.
   */
  predicate ItemAdded(b: Builder, r: Builder, kind: Kind, value: string)
    requires |b.nodes| > 0
  {
    && AtRest(r) && |b.nodes| < |r.nodes|
    && r.nodes[0].children == b.nodes[0].children + [Sub(|b.nodes|)]
    && (forall j :: 0 < j < |b.nodes| ==> r.nodes[j] == b.nodes[j])
    && r.nodes[|b.nodes|].kind == kind
    && Value(r.nodes, |b.nodes|) == Some(value)
  }

  /** A word, or an operator glued to a word, adds one node holding the word. */
  lemma WordEffect(b: Builder, it: Item)
    requires AtRest(b) && (it.Term? || it.InlineExcludes? || it.InlineMustInclude?)
    ensures ItemAdded(b, Run(b, ItemTokens(it)), ItemKind(it), ItemValue(it))
  {
    var t := ItemTokens(it)[0];
    assert ItemTokens(it) == [t];
    RunOne(b, t);
    TokenPlacement(b, t);
    StepInv(b, t);
  }

  /** An opening quote or a bare operator at rest opens one new node under the root. */
  lemma OpenAtRest(b: Builder, t: Token)
    requires AtRest(b) && (t == Quote || t == Excludes(None) || t == MustInclude(None))
    ensures var r, n := Step(b, t), |b.nodes|;
      && Inv(r) && r.path == [0, n] && |r.nodes| == n + 1
      && r.quoteOpened == (t == Quote) && r.excludesOpened == t.Excludes? && r.mustIncludeOpened == t.MustInclude?
      && r.nodes[0].children == b.nodes[0].children + [Sub(n)]
      && (forall j :: 0 < j < n ==> r.nodes[j] == b.nodes[j])
      && r.nodes[n].children == [] && r.nodes[n].parent == Some(0)
      && r.nodes[n].kind == (if t == Quote then StringNode else if t.Excludes? then ExcludesNode else MustIncludeNode)
  {
    StepInv(b, t);
  }

  /** A quote right after a bare operator opens a phrase inside the operator's node. */
  lemma OpenInScope(b: Builder)
    requires Inv(b) && |b.path| == 2 && !b.quoteOpened
    ensures var r, n, e := Step(b, Quote), |b.nodes|, b.path[1];
      && Inv(r) && r.path == b.path + [n] && |r.nodes| == n + 1 && r.quoteOpened
      && r.excludesOpened == b.excludesOpened && r.mustIncludeOpened == b.mustIncludeOpened
      && r.nodes[e] == b.nodes[e].(children := b.nodes[e].children + [Sub(n)])
      && (forall j :: 0 <= j < n && j != e ==> r.nodes[j] == b.nodes[j])
      && r.nodes[n] == Node(StringNode, [], Some(e))
  {
    StepInv(b, Quote);
  }

  /** Text tokens inside an empty phrase make it a phrase of their words. */
  lemma TextsPhraseValue(b: Builder, ws: seq<string>)
    requires Inv(b) && b.nodes[Context(b)].kind == StringNode && b.nodes[Context(b)].children == []
    ensures Inv(Run(b, Texts(ws))) && TextsAppended(b, Run(b, Texts(ws)), ws)
    ensures Value(Run(b, Texts(ws)).nodes, Context(b)) == Some(Join(ws, " "))
  {
    RunTexts(b, ws);
    RunInv(b, Texts(ws));
    PhraseOfTexts(b, Run(b, Texts(ws)), ws);
  }

  lemma PhraseOfTexts(b: Builder, r: Builder, ws: seq<string>)
    requires Sane(b) && b.nodes[Context(b)].kind == StringNode && b.nodes[Context(b)].children == []
    requires TextsAppended(b, r, ws) && WellFormed(r.nodes)
    ensures Value(r.nodes, Context(b)) == Some(Join(ws, " "))
  {
    var c, n := Context(b), |b.nodes|;
    assert r.nodes[c].children == Subs(n, |ws|);
    PhraseValue(r.nodes, c, n, ws);
  }

  lemma PhraseTokens(b: Builder, ws: seq<string>)
    requires Sane(b)
    ensures Run(b, ItemTokens(Phrase(ws))) == Step(Run(Step(b, Quote), Texts(ws)), Quote)
  {
    var xs := [Quote] + Texts(ws);
    RunSnoc(b, ItemTokens(Phrase(ws)), xs, Quote);
    RunAppend(b, [Quote], Texts(ws));
    RunOne(b, Quote);
  }

  lemma ScopedPhraseTokens(b: Builder, op: Token, ws: seq<string>)
    requires Sane(b)
    ensures Run(b, [op, Quote] + Texts(ws) + [Quote]) == Step(Run(Step(Step(b, op), Quote), Texts(ws)), Quote)
  {
    var xs := [op, Quote] + Texts(ws);
    RunSnoc(b, xs + [Quote], xs, Quote);
    RunAppend(b, [op, Quote], Texts(ws));
    RunTwo(b, op, Quote);
  }

  lemma RunTwo(b: Builder, t1: Token, t2: Token)
    requires Sane(b)
    ensures Run(b, [t1, t2]) == Step(Step(b, t1), t2)
  {
    RunSnoc(b, [t1, t2], [t1], t2);
    RunOne(b, t1);
  }

  /** `r` is `b` with an empty phrase just opened under the root, and the phrase as context. */
  predicate PhraseOpened(b: Builder, r: Builder)
    requires |b.nodes| > 0
  {
    var n := |b.nodes|;
    && Inv(r) && r.path == [0, n] && r.quoteOpened && !r.excludesOpened && !r.mustIncludeOpened
    && |r.nodes| == n + 1
    && r.nodes[0].children == b.nodes[0].children + [Sub(n)]
    && (forall j :: 0 < j < n ==> r.nodes[j] == b.nodes[j])
    && r.nodes[n] == Node(StringNode, [], Some(0))
  }

  /**
   * `r` is `b` with an operator node of the given kind just opened under the
   * root, holding an empty phrase that is the context.
   */
  predicate ScopeOpened(b: Builder, r: Builder, kind: Kind)
    requires |b.nodes| > 0
  {
    var n := |b.nodes|;
    && Inv(r) && r.path == [0, n, n + 1] && r.quoteOpened
    && (r.excludesOpened || r.mustIncludeOpened) && |r.nodes| == n + 2
    && r.nodes[0].children == b.nodes[0].children + [Sub(n)]
    && (forall j :: 0 < j < n ==> r.nodes[j] == b.nodes[j])
    && r.nodes[n] == Node(kind, [Sub(n + 1)], Some(0))
    && r.nodes[n + 1] == Node(StringNode, [], Some(n))
  }

  lemma PhraseOpen(b: Builder)
    requires AtRest(b)
    ensures PhraseOpened(b, Step(b, Quote))
  {
    OpenAtRest(b, Quote);
  }

  /** Words and a closing quote inside a freshly opened phrase complete the phrase item. */
  lemma PhraseFinish(b: Builder, b1: Builder, ws: seq<string>)
    requires AtRest(b) && PhraseOpened(b, b1)
    ensures ItemAdded(b, Step(Run(b1, Texts(ws)), Quote), StringNode, Join(ws, " "))
  {
    TextsPhraseValue(b1, ws);
    var b2 := Run(b1, Texts(ws));
    ClosingQuote(b2);
    var r := Step(b2, Quote);
    assert r.nodes == b2.nodes && r.path == [0];
    assert r.nodes[0] == b1.nodes[0];
  }

  lemma PhraseEffect(b: Builder, ws: seq<string>)
    requires AtRest(b)
    ensures ItemAdded(b, Run(b, ItemTokens(Phrase(ws))), StringNode, Join(ws, " "))
  {
    PhraseTokens(b, ws);
    PhraseOpen(b);
    PhraseFinish(b, Step(b, Quote), ws);
  }

  /** A bare operator at rest followed by a quote opens an empty phrase inside a new operator node. */
  lemma ScopedOpen(b: Builder, op: Token)
    requires AtRest(b) && (op == Excludes(None) || op == MustInclude(None))
    ensures ScopeOpened(b, Step(Step(b, op), Quote), if op.Excludes? then ExcludesNode else MustIncludeNode)
  {
    OpenAtRest(b, op);
    OpenInScope(Step(b, op));
  }

  /** Words and a closing quote inside a freshly opened scope complete the operator's phrase item. */
  lemma ScopedFinish(b: Builder, b2: Builder, kind: Kind, ws: seq<string>)
    requires AtRest(b) && ScopeOpened(b, b2, kind) && (kind == ExcludesNode || kind == MustIncludeNode)
    ensures ItemAdded(b, Step(Run(b2, Texts(ws)), Quote), kind, Join(ws, " "))
  {
    var n := |b.nodes|;
    TextsPhraseValue(b2, ws);
    var b3 := Run(b2, Texts(ws));
    ClosingQuote(b3);
    var r := Step(b3, Quote);
    assert r.nodes == b3.nodes && r.path == [0];
    assert r.nodes[n] == b2.nodes[n];
    assert r.nodes[0] == b2.nodes[0];
  }

  lemma ScopedPhraseEffect(b: Builder, op: Token, ws: seq<string>)
    requires AtRest(b) && (op == Excludes(None) || op == MustInclude(None))
    ensures ItemAdded(b, Run(b, [op, Quote] + Texts(ws) + [Quote]),
      if op.Excludes? then ExcludesNode else MustIncludeNode, Join(ws, " "))
  {
    ScopedPhraseTokens(b, op, ws);
    ScopedOpen(b, op);
    ScopedFinish(b, Step(Step(b, op), Quote), if op.Excludes? then ExcludesNode else MustIncludeNode, ws);
  }

  /** What the tokens of one item do, starting at rest. */
  lemma ItemEffect(b: Builder, it: Item)
    requires AtRest(b)
    ensures ItemAdded(b, Run(b, ItemTokens(it)), ItemKind(it), ItemValue(it))
  {
    match it
    case Term(_) => WordEffect(b, it);
    case InlineExcludes(_) => WordEffect(b, it);
    case InlineMustInclude(_) => WordEffect(b, it);
    case Phrase(ws) => PhraseEffect(b, ws);
    case ExcludedPhrase(ws) => ScopedPhraseEffect(b, Excludes(None), ws);
    case RequiredPhrase(ws) => ScopedPhraseEffect(b, MustInclude(None), ws);
  }

  lemma RepresentsSnoc(b: Builder, r: Builder, init: seq<Item>, last: Item)
    requires Represents(b, init) && ItemAdded(b, r, ItemKind(last), ItemValue(last))
    ensures Represents(r, init + [last])
  {
    var items := init + [last];
    forall k | 0 <= k < |items|
      ensures var c := r.nodes[0].children[k];
        && c.Sub? && 0 < c.id < |r.nodes|
        && r.nodes[c.id].kind == ItemKind(items[k])
        && Value(r.nodes, c.id) == Some(ItemValue(items[k]))
    {
      if k < |init| {
        var c := b.nodes[0].children[k];
        assert r.nodes[0].children[k] == c;
        ValueFrame(b.nodes, r.nodes, c.id);
      }
    }
  }

  /**
   * The tokens of well-formed items build a root with exactly one child per
   * item, in order, each of the item's kind and value.
   */
  lemma {:induction false} RunItems(items: seq<Item>)
    ensures Represents(Run(Start, ItemsTokens(items)), items)
    decreases |items|
  {
    if items != [] {
      var init, last := items[..|items| - 1], items[|items| - 1];
      SplitLast([], items);
      RunItems(init);
      RunItemsStep(init, last);
    }
  }

  lemma RunItemsStep(init: seq<Item>, last: Item)
    requires Represents(Run(Start, ItemsTokens(init)), init)
    ensures Represents(Run(Start, ItemsTokens(init + [last])), init + [last])
  {
    var b := Run(Start, ItemsTokens(init));
    assert (init + [last])[..|init|] == init;
    assert ItemsTokens(init + [last]) == ItemsTokens(init) + ItemTokens(last);
    RunAppend(Start, ItemsTokens(init), ItemTokens(last));
    ItemStep(b, init, last);
  }

  /** The tokens of one more item add its root child. */
  lemma ItemStep(b: Builder, init: seq<Item>, last: Item)
    requires Represents(b, init)
    ensures Represents(Run(b, ItemTokens(last)), init + [last])
  {
    ItemEffect(b, last);
    RepresentsSnoc(b, Run(b, ItemTokens(last)), init, last);
  }

  // ---------------------------------------------------------------------------
  // The loop
  // ---------------------------------------------------------------------------

  /**
   * `build_tree(tokens)`: the loop of `build_subtree!` on a fresh root.
   */
  method BuildTree(tokens: seq<Token>) returns (tree: Tree)
    ensures fresh(tree)
    ensures tree.nodes == Run(Start, tokens).nodes
  {
    tree := new Tree();
    var context: nat := 0;
    var quoteOpened, excludesOpened, mustIncludeOpened := false, false, false;
    ghost var path: seq<nat> := [0];
    StartInv();
    for i := 0 to |tokens|
      invariant Builder(tree.nodes, path, quoteOpened, excludesOpened, mustIncludeOpened) == Run(Start, tokens[..i])
      invariant |path| > 0 && context == path[|path| - 1]
    {
      RunInv(Start, tokens[..i]);
      PrefixSnoc(tokens, i);
      RunSnoc(Start, tokens[..i + 1], tokens[..i], tokens[i]);
      ghost var b := Builder(tree.nodes, path, quoteOpened, excludesOpened, mustIncludeOpened);
      context, quoteOpened, excludesOpened, mustIncludeOpened, path :=
        StepTree(tree, context, quoteOpened, excludesOpened, mustIncludeOpened, path, tokens[i], b);
    }
    assert tokens[..|tokens|] == tokens;
  }

  /**
   * One iteration of the loop of `build_subtree!` on the node store. The
   * context climbs through `parent` links as in the source; the ghost path
   * shows that each link it follows exists.
   */
  method StepTree(tree: Tree, context: nat, quoteOpened: bool, excludesOpened: bool, mustIncludeOpened: bool,
                  ghost path: seq<nat>, token: Token, ghost b: Builder)
    returns (context': nat, quoteOpened': bool, excludesOpened': bool, mustIncludeOpened': bool, ghost path': seq<nat>)
    requires b == Builder(tree.nodes, path, quoteOpened, excludesOpened, mustIncludeOpened) && Inv(b)
    requires context == path[|path| - 1]
    modifies tree
    ensures Builder(tree.nodes, path', quoteOpened', excludesOpened', mustIncludeOpened') == Step(b, token)
    ensures |path'| > 0 && context' == path'[|path'| - 1]
  {
    context', quoteOpened', excludesOpened', mustIncludeOpened', path' :=
      context, quoteOpened, excludesOpened, mustIncludeOpened, path;
    match token
    case Quote =>
      if !quoteOpened {
        quoteOpened' := true;
        context', path' := OpenNode(tree, context, StringNode, b, token);
      } else {
        quoteOpened' := false;
        context', excludesOpened', mustIncludeOpened', path' :=
          CloseQuote(tree, context, excludesOpened, mustIncludeOpened, path);
      }
    case Excludes(p) =>
      if p.None? {
        excludesOpened' := true;
        context', path' := OpenNode(tree, context, ExcludesNode, b, token);
      } else {
        AddNode(tree, context, ExcludesNode, [Word(p.value)], b, token);
      }
    case MustInclude(p) =>
      if p.None? {
        mustIncludeOpened' := true;
        context', path' := OpenNode(tree, context, MustIncludeNode, b, token);
      } else {
        AddNode(tree, context, MustIncludeNode, [Word(p.value)], b, token);
      }
    case Text(w) =>
      AddNode(tree, context, TextNode, [Word(w)], b, token);
  }

  /** A scope-opening token: `new([], nil)`, appended to the context, becomes the context. */
  method OpenNode(tree: Tree, context: nat, kind: Kind, ghost b: Builder, token: Token)
    returns (context': nat, ghost path': seq<nat>)
    requires Sane(b) && tree.nodes == b.nodes && context == Context(b)
    requires Opens(token) && !(token == Quote && b.quoteOpened) && kind == NodeKind(token)
    modifies tree
    ensures Builder(tree.nodes, path', b.quoteOpened || token.Quote?, b.excludesOpened || token.Excludes?,
                    b.mustIncludeOpened || token.MustInclude?) == Step(b, token)
    ensures |path'| > 0 && context' == path'[|path'| - 1]
  {
    StepOpening(b, token);
    context' := NewNode(tree, context, kind, [], None);
    path' := b.path + [context'];
  }

  /** A self-contained token: `new([word], context)`, appended to the context. */
  method AddNode(tree: Tree, context: nat, kind: Kind, children: seq<Child>, ghost b: Builder, token: Token)
    requires Sane(b) && tree.nodes == b.nodes && context == Context(b)
    requires !Opens(token) && token != Quote && kind == NodeKind(token) && children == NodeChildren(token)
    modifies tree
    ensures Builder(tree.nodes, b.path, b.quoteOpened, b.excludesOpened, b.mustIncludeOpened) == Step(b, token)
  {
    StepSelfContained(b, token);
    var _ := NewNode(tree, context, kind, children, Some(context));
  }

  /**
   * A closing quote: climb to `context.parent.parent` and clear the flag when
   * `excludes_opened` (tested first) or `must_include_opened` is set, to
   * `context.parent` otherwise.
   */
  method CloseQuote(tree: Tree, context: nat, excludesOpened: bool, mustIncludeOpened: bool, ghost path: seq<nat>)
    returns (context': nat, excludesOpened': bool, mustIncludeOpened': bool, ghost path': seq<nat>)
    requires Inv(Builder(tree.nodes, path, true, excludesOpened, mustIncludeOpened))
    requires context == path[|path| - 1]
    ensures Builder(tree.nodes, path', false, excludesOpened', mustIncludeOpened')
         == Close(Builder(tree.nodes, path, true, excludesOpened, mustIncludeOpened))
    ensures |path'| > 0 && context' == path'[|path'| - 1]
  {
    ghost var b := Builder(tree.nodes, path, true, excludesOpened, mustIncludeOpened);
    ClosingQuote(b);
    excludesOpened', mustIncludeOpened' := excludesOpened, mustIncludeOpened;
    var up := tree.nodes[context].parent.value;
    if excludesOpened {
      excludesOpened' := false;
      context' := tree.nodes[up].parent.value;
      path' := path[..|path| - 2];
    } else if mustIncludeOpened {
      mustIncludeOpened' := false;
      context' := tree.nodes[up].parent.value;
      path' := path[..|path| - 2];
    } else {
      context' := up;
      path' := path[..|path| - 1];
    }
  }

  /** A scope-opening token: the new node, without a parent, becomes the context and its flag is set. */
  lemma StepOpening(b: Builder, t: Token)
    requires Sane(b) && Opens(t) && !(t == Quote && b.quoteOpened)
    ensures Step(b, t) == b.(nodes := Attach(b.nodes, Context(b), NodeKind(t), NodeChildren(t), None),
                             path := b.path + [|b.nodes|],
                             quoteOpened := b.quoteOpened || t.Quote?,
                             excludesOpened := b.excludesOpened || t.Excludes?,
                             mustIncludeOpened := b.mustIncludeOpened || t.MustInclude?)
  {
  }

  /** A self-contained token: the new node hangs from the context and nothing else changes. */
  lemma StepSelfContained(b: Builder, t: Token)
    requires Sane(b) && !Opens(t) && t != Quote
    ensures Step(b, t) == b.(nodes := Attach(b.nodes, Context(b), NodeKind(t), NodeChildren(t), Some(Context(b))))
  {
  }

  /** `node = Kind.new(children, parent)` followed by `context << node`. */
  method NewNode(tree: Tree, context: nat, kind: Kind, children: seq<Child>, parent: Option<nat>) returns (id: nat)
    requires context < |tree.nodes|
    modifies tree
    ensures id == |old(tree.nodes)|
    ensures tree.nodes == Attach(old(tree.nodes), context, kind, children, parent)
  {
    id := tree.Add(kind, children, parent);
    tree.Append(context, Sub(id));
  }
}
