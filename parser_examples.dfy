/**
 * The queries of spec/units/query_parser_spec.rb, worked through the model.
 */
module ParserExamples {
  import opened Wrappers
  import opened Collections
  import opened Lexer
  import opened SyntaxTree
  import opened TreeBuilder
  import opened Queries
  import opened QueryParser

  // ---------------------------------------------------------------------------
  // Unfolding the folds one element at a time
  // ---------------------------------------------------------------------------

  lemma LexAllFrom(ws: seq<string>, i: nat)
    requires i < |ws|
    ensures LexAll(ws[i..]) == Lex(ws[i]) + LexAll(ws[i + 1..])
  {
    assert ws[i..] == [ws[i]] + ws[i + 1..];
    LexAllAppend([ws[i]], ws[i + 1..]);
    assert [ws[i]][..0] == [];
  }

  lemma {:induction false} ItemsTokensAppend(a: seq<Item>, b: seq<Item>)
    ensures ItemsTokens(a + b) == ItemsTokens(a) + ItemsTokens(b)
    decreases |b|
  {
    if b == [] {
      assert a + b == a;
    } else {
      var init, last := b[..|b| - 1], b[|b| - 1];
      ItemsTokensAppend(a, init);
      SplitLast(a, b);
      ItemsTokensSnoc(a + b, a + init, last);
      ItemsTokensSnoc(b, init, last);
      ConcatAssoc(ItemsTokens(a), ItemsTokens(init), ItemTokens(last));
    }
  }

  lemma ItemsTokensSnoc(items: seq<Item>, init: seq<Item>, last: Item)
    requires items == init + [last]
    ensures ItemsTokens(items) == ItemsTokens(init) + ItemTokens(last)
  {
    assert items[..|items| - 1] == init;
  }

  lemma ItemsTokensFrom(items: seq<Item>, i: nat)
    requires i < |items|
    ensures ItemsTokens(items[i..]) == ItemTokens(items[i]) + ItemsTokens(items[i + 1..])
  {
    var x, rest := items[i], items[i + 1..];
    assert items[i..] == [x] + rest;
    ItemsTokensAppend([x], rest);
    ItemsTokensSnoc([x], [], x);
    ConcatEmpty(ItemTokens(x));
  }

  lemma {:induction false} ItemValuesAppend(a: seq<Item>, b: seq<Item>, kind: Kind)
    ensures ItemValues(a + b, kind) == ItemValues(a, kind) + ItemValues(b, kind)
    decreases |b|
  {
    if b == [] {
      assert a + b == a;
    } else {
      ItemValuesAppend(a, b[..|b| - 1], kind);
      assert (a + b)[..|a + b| - 1] == a + b[..|b| - 1];
    }
  }

  lemma ItemValuesFrom(items: seq<Item>, i: nat, kind: Kind)
    requires i < |items|
    ensures ItemValues(items[i..], kind) ==
      (if ItemKind(items[i]) == kind then [ItemValue(items[i])] else []) + ItemValues(items[i + 1..], kind)
  {
    assert items[i..] == [items[i]] + items[i + 1..];
    ItemValuesAppend([items[i]], items[i + 1..], kind);
    assert [items[i]][..0] == [];
  }

  /** A quote-free word is lexed by the operator and text branches alone. */
  lemma LexWord(w: string)
    requires w != [] && QuoteSymbol !in w
    ensures Lex(w) == [WordToken(w)]
  {
  }

  lemma JoinPair(a: string, b: string)
    ensures Join([a, b], " ") == a + " " + b
  {
    assert [a, b][1..] == [b];
  }

  lemma LexAllOne(w: string)
    ensures LexAll([w]) == Lex(w)
  {
    assert [w][..0] == [];
  }

  lemma LexAllTwo(a: string, b: string)
    ensures LexAll([a, b]) == Lex(a) + Lex(b)
  {
    assert [a, b][..1] == [a];
    LexAllOne(a);
  }

  // ---------------------------------------------------------------------------
  // Splitting
  // ---------------------------------------------------------------------------

  lemma NoSpaceConcat(a: string, b: string)
    requires NoSpace(a) && NoSpace(b)
    ensures NoSpace(a + b)
  {
    forall j | 0 <= j < |a + b| ensures !IsSpace((a + b)[j]) {
      if j >= |a| {
        assert (a + b)[j] == b[j - |a|];
      }
    }
  }

  /** A word after whitespace (or at the start) is split off as the next word. */
  lemma WordsSnocWord(x: string, w: string)
    requires w != [] && NoSpace(w) && (x == [] || IsSpace(x[|x| - 1]))
    ensures Words(x + w) == Words(x) + [w]
  {
    WordsConcat(x, w);
    WordsCons(w, []);
    assert w + [] == w;
  }

  /** Whitespace after anything adds no word. */
  lemma WordsSnocSpaces(x: string, sp: string)
    requires sp != [] && AllSpace(sp)
    ensures Words(x + sp) == Words(x)
  {
    WordsConcat(x, sp);
    WordsOfSpaces(sp);
    assert Words(x) + [] == Words(x);
  }

  // ---------------------------------------------------------------------------
  // Lexing the words of a query
  // ---------------------------------------------------------------------------

  /** A word that is not a quote, an operator or whitespace. */
  predicate PlainWord(w: string) {
    && w != [] && NoSpace(w) && QuoteSymbol !in w
    && !StartsWith(w, ExcludesOperator) && !StartsWith(w, MustIncludeOperator)
  }

  lemma LexPlain(w: string)
    requires PlainWord(w)
    ensures Lex(w) == [Text(w)]
  {
  }

  lemma LexQuoteWord()
    ensures Lex([QuoteSymbol]) == [Quote]
  {
  }

  /** `--word`: one valued Excludes token. */
  lemma LexExcludedWord(w: string)
    requires PlainWord(w)
    ensures NoSpace(ExcludesOperator + w)
    ensures Lex(ExcludesOperator + w) == [Excludes(Some(w))]
  {
    var x := ExcludesOperator + w;
    NoSpaceConcat(ExcludesOperator, w);
    assert x[..2] == ExcludesOperator && x[2..] == w;
    assert QuoteSymbol !in x by {
      forall j | 0 <= j < |x| ensures x[j] != QuoteSymbol {
        if j >= 2 {
          assert x[j] == w[j - 2];
        }
      }
    }
  }

  /** `+word`: one valued MustInclude token. */
  lemma LexRequiredWord(w: string)
    requires PlainWord(w)
    ensures NoSpace(MustIncludeOperator + w)
    ensures Lex(MustIncludeOperator + w) == [MustInclude(Some(w))]
  {
    var x := MustIncludeOperator + w;
    NoSpaceConcat(MustIncludeOperator, w);
    assert x[..1] == MustIncludeOperator && x[1..] == w;
    assert !StartsWith(x, ExcludesOperator) by {
      assert x[0] == '+';
    }
    assert QuoteSymbol !in x by {
      forall j | 0 <= j < |x| ensures x[j] != QuoteSymbol {
        if j >= 1 {
          assert x[j] == w[j - 1];
        }
      }
    }
  }

  /** `--"word` or `+"word`: a bare operator, a quote and the word. */
  lemma LexOpenScope(op: string, w: string)
    requires op == ExcludesOperator || op == MustIncludeOperator
    requires PlainWord(w)
    ensures NoSpace(op + [QuoteSymbol] + w)
    ensures Lex(op + [QuoteSymbol] + w) ==
      [if op == ExcludesOperator then Excludes(None) else MustInclude(None), Quote, Text(w)]
  {
    var x := op + [QuoteSymbol] + w;
    NoSpaceConcat(op, [QuoteSymbol]);
    NoSpaceConcat(op + [QuoteSymbol], w);
    assert x[..|op|] == op && x[|op| + 1..] == w && x[|op|] == QuoteSymbol;
    LexSplitsAtFirstQuote(x, |op|);
    LexWord(op);
    LexPlain(w);
    ConcatThree(WordToken(op), Quote, Text(w));
  }

  /** `word"`: the word and a quote. */
  lemma LexCloseScope(w: string)
    requires PlainWord(w)
    ensures NoSpace(w + [QuoteSymbol])
    ensures Lex(w + [QuoteSymbol]) == [Text(w), Quote]
  {
    var x := w + [QuoteSymbol];
    NoSpaceConcat(w, [QuoteSymbol]);
    assert x[..|w|] == w && x[|w| + 1..] == [] && x[|w|] == QuoteSymbol;
    LexSplitsAtFirstQuote(x, |w|);
  }

  /**
   * The words from `k` on lex to the items from `i` on, when the words
   * `k..k2` lex to item `i` and the words from `k2` on to the items after it.
   */
  lemma LexItem(ws: seq<string>, k: nat, k2: nat, items: seq<Item>, i: nat)
    requires k <= k2 <= |ws| && i < |items|
    requires LexAll(ws[k..k2]) == ItemTokens(items[i])
    requires LexAll(ws[k2..]) == ItemsTokens(items[i + 1..])
    ensures LexAll(ws[k..]) == ItemsTokens(items[i..])
  {
    assert ws[k..] == ws[k..k2] + ws[k2..];
    LexAllAppend(ws[k..k2], ws[k2..]);
    ItemsTokensFrom(items, i);
  }

  // ---------------------------------------------------------------------------
  // The complex query (spec/units/query_parser_spec.rb:38-46)
  // ---------------------------------------------------------------------------

  /**
   * The shape of the test's complex query, with its eleven plain words as
   * parameters and its gaps as in the test.
   */
  function ComplexShape(o: string, a: string, i: string, p: string, m: string, c: string,
                        l: string, r: string, ar: string, im: string, mo: string): string
  {
    "  " + o + " " + a + "   " + [QuoteSymbol] + "  " + i + "    " + p + "  " + [QuoteSymbol]
    + " " + (MustIncludeOperator + m) + " " + (MustIncludeOperator + [QuoteSymbol] + c) + " " + (l + [QuoteSymbol])
    + " " + r + " " + (ExcludesOperator + ar) + " " + (ExcludesOperator + [QuoteSymbol] + im) + " " + (mo + [QuoteSymbol])
    + "  "
  }

  /** The words of the shape, grouped by the item each group spells. */
  function ShapeWords(o: string, a: string, i: string, p: string, m: string, c: string,
                      l: string, r: string, ar: string, im: string, mo: string): seq<string>
  {
    [o] + [a] + [[QuoteSymbol], i, p, [QuoteSymbol]] + [MustIncludeOperator + m]
    + [MustIncludeOperator + [QuoteSymbol] + c, l + [QuoteSymbol]] + [r] + [ExcludesOperator + ar]
    + [ExcludesOperator + [QuoteSymbol] + im, mo + [QuoteSymbol]]
  }

  function ShapeItems(o: string, a: string, i: string, p: string, m: string, c: string,
                      l: string, r: string, ar: string, im: string, mo: string): seq<Item>
  {
    [Term(o)] + [Term(a)] + [Phrase([i, p])] + [InlineMustInclude(m)]
    + [RequiredPhrase([c, l])] + [Term(r)] + [InlineExcludes(ar)] + [ExcludedPhrase([im, mo])]
  }

  predicate AllPlain(o: string, a: string, i: string, p: string, m: string, c: string,
                     l: string, r: string, ar: string, im: string, mo: string)
  {
    && PlainWord(o) && PlainWord(a) && PlainWord(i) && PlainWord(p) && PlainWord(m) && PlainWord(c)
    && PlainWord(l) && PlainWord(r) && PlainWord(ar) && PlainWord(im) && PlainWord(mo)
  }

  /** What splitting gives so far, plus one more word. */
  lemma WordsAddWord(x: string, w: string, acc: seq<string>)
    requires Words(x) == acc
    requires w != [] && NoSpace(w) && (x == [] || IsSpace(x[|x| - 1]))
    ensures Words(x + w) == acc + [w]
  {
    WordsSnocWord(x, w);
  }

  /** What splitting gives so far, unchanged by more whitespace. */
  lemma WordsAddSpaces(x: string, sp: string, acc: seq<string>)
    requires Words(x) == acc
    requires sp != [] && AllSpace(sp)
    ensures Words(x + sp) == acc
  {
    WordsSnocSpaces(x, sp);
  }

  /** The glued words of the shape hold no whitespace. */
  lemma GluedNoSpace(w: string)
    requires PlainWord(w)
    ensures NoSpace(MustIncludeOperator + w) && NoSpace(ExcludesOperator + w)
    ensures NoSpace(MustIncludeOperator + [QuoteSymbol] + w) && NoSpace(ExcludesOperator + [QuoteSymbol] + w)
    ensures NoSpace(w + [QuoteSymbol])
  {
    NoSpaceConcat(MustIncludeOperator, w);
    NoSpaceConcat(ExcludesOperator, w);
    NoSpaceConcat(MustIncludeOperator, [QuoteSymbol]);
    NoSpaceConcat(MustIncludeOperator + [QuoteSymbol], w);
    NoSpaceConcat(ExcludesOperator, [QuoteSymbol]);
    NoSpaceConcat(ExcludesOperator + [QuoteSymbol], w);
    NoSpaceConcat(w, [QuoteSymbol]);
  }

  lemma ShapeWordsHead(o: string, a: string, i: string, p: string, x: string)
    requires PlainWord(o) && PlainWord(a) && PlainWord(i) && PlainWord(p)
    requires x == "  " + o + " " + a + "   " + [QuoteSymbol] + "  " + i + "    " + p + "  " + [QuoteSymbol]
    ensures Words(x) == [o, a, [QuoteSymbol], i, p, [QuoteSymbol]]
  {
    var x0 := "  ";
    WordsOfSpaces(x0);
    var x1 := x0 + o; WordsAddWord(x0, o, []);
    var x2 := x1 + " "; WordsAddSpaces(x1, " ", [o]);
    var x3 := x2 + a; WordsAddWord(x2, a, [o]);
    var x4 := x3 + "   "; WordsAddSpaces(x3, "   ", [o, a]);
    var x5 := x4 + [QuoteSymbol]; WordsAddWord(x4, [QuoteSymbol], [o, a]);
    var x6 := x5 + "  "; WordsAddSpaces(x5, "  ", [o, a, [QuoteSymbol]]);
    var x7 := x6 + i; WordsAddWord(x6, i, [o, a, [QuoteSymbol]]);
    var x8 := x7 + "    "; WordsAddSpaces(x7, "    ", [o, a, [QuoteSymbol], i]);
    var x9 := x8 + p; WordsAddWord(x8, p, [o, a, [QuoteSymbol], i]);
    var x10 := x9 + "  "; WordsAddSpaces(x9, "  ", [o, a, [QuoteSymbol], i, p]);
    var x11 := x10 + [QuoteSymbol]; WordsAddWord(x10, [QuoteSymbol], [o, a, [QuoteSymbol], i, p]);
    assert x == x11;
  }

  lemma ShapeWordsMiddle(m: string, c: string, l: string, x: string, y: string, acc: seq<string>)
    requires PlainWord(m) && PlainWord(c) && PlainWord(l) && Words(x) == acc
    requires y == x + " " + (MustIncludeOperator + m) + " " + (MustIncludeOperator + [QuoteSymbol] + c) + " " + (l + [QuoteSymbol])
    ensures Words(y) == acc + [MustIncludeOperator + m] + [MustIncludeOperator + [QuoteSymbol] + c] + [l + [QuoteSymbol]]
  {
    GluedNoSpace(m);
    GluedNoSpace(c);
    GluedNoSpace(l);
    var w1, w2, w3 := MustIncludeOperator + m, MustIncludeOperator + [QuoteSymbol] + c, l + [QuoteSymbol];
    var x0 := x + " "; WordsAddSpaces(x, " ", acc);
    var x1 := x0 + w1; WordsAddWord(x0, w1, acc);
    var x2 := x1 + " "; WordsAddSpaces(x1, " ", acc + [w1]);
    var x3 := x2 + w2; WordsAddWord(x2, w2, acc + [w1]);
    var x4 := x3 + " "; WordsAddSpaces(x3, " ", acc + [w1] + [w2]);
    var x5 := x4 + w3; WordsAddWord(x4, w3, acc + [w1] + [w2]);
    assert y == x5;
  }

  lemma ShapeWordsTail(r: string, ar: string, im: string, mo: string, x: string, y: string, acc: seq<string>)
    requires PlainWord(r) && PlainWord(ar) && PlainWord(im) && PlainWord(mo) && Words(x) == acc
    requires y == x + " " + r + " " + (ExcludesOperator + ar) + " " + (ExcludesOperator + [QuoteSymbol] + im)
      + " " + (mo + [QuoteSymbol]) + "  "
    ensures Words(y) == acc + [r] + [ExcludesOperator + ar] + [ExcludesOperator + [QuoteSymbol] + im] + [mo + [QuoteSymbol]]
  {
    GluedNoSpace(ar);
    GluedNoSpace(im);
    GluedNoSpace(mo);
    var w1, w2, w3 := ExcludesOperator + ar, ExcludesOperator + [QuoteSymbol] + im, mo + [QuoteSymbol];
    var x0 := x + " "; WordsAddSpaces(x, " ", acc);
    var x1 := x0 + r; WordsAddWord(x0, r, acc);
    var x2 := x1 + " "; WordsAddSpaces(x1, " ", acc + [r]);
    var x3 := x2 + w1; WordsAddWord(x2, w1, acc + [r]);
    var x4 := x3 + " "; WordsAddSpaces(x3, " ", acc + [r] + [w1]);
    var x5 := x4 + w2; WordsAddWord(x4, w2, acc + [r] + [w1]);
    var x6 := x5 + " "; WordsAddSpaces(x5, " ", acc + [r] + [w1] + [w2]);
    var x7 := x6 + w3; WordsAddWord(x6, w3, acc + [r] + [w1] + [w2]);
    var x8 := x7 + "  "; WordsAddSpaces(x7, "  ", acc + [r] + [w1] + [w2] + [w3]);
    assert y == x8;
  }

  lemma ShapeSplit(o: string, a: string, i: string, p: string, m: string, c: string,
                   l: string, r: string, ar: string, im: string, mo: string)
    requires AllPlain(o, a, i, p, m, c, l, r, ar, im, mo)
    ensures Words(ComplexShape(o, a, i, p, m, c, l, r, ar, im, mo)) == ShapeWords(o, a, i, p, m, c, l, r, ar, im, mo)
  {
    var x := "  " + o + " " + a + "   " + [QuoteSymbol] + "  " + i + "    " + p + "  " + [QuoteSymbol];
    var y := x + " " + (MustIncludeOperator + m) + " " + (MustIncludeOperator + [QuoteSymbol] + c) + " " + (l + [QuoteSymbol]);
    var head := [o, a, [QuoteSymbol], i, p, [QuoteSymbol]];
    ShapeWordsHead(o, a, i, p, x);
    var middle := head + [MustIncludeOperator + m] + [MustIncludeOperator + [QuoteSymbol] + c] + [l + [QuoteSymbol]];
    ShapeWordsMiddle(m, c, l, x, y, head);
    ShapeWordsTail(r, ar, im, mo, y, ComplexShape(o, a, i, p, m, c, l, r, ar, im, mo), middle);
    Regroup(o, a, [QuoteSymbol], i, p, MustIncludeOperator + m, MustIncludeOperator + [QuoteSymbol] + c,
            l + [QuoteSymbol], r, ExcludesOperator + ar, ExcludesOperator + [QuoteSymbol] + im, mo + [QuoteSymbol]);
  }

  /** The words of the shape, one by one and grouped by item. */
  lemma Regroup<T>(o: T, a: T, q: T, i: T, p: T, m: T, c: T, l: T, r: T, ar: T, im: T, mo: T)
    ensures [o, a, q, i, p, q] + [m] + [c] + [l] + [r] + [ar] + [im] + [mo]
      == [o] + [a] + [q, i, p, q] + [m] + [c, l] + [r] + [ar] + [im, mo]
  {
  }

  /** A quoted pair of words: the quotes stand alone. */
  lemma LexLonePhrase(i: string, p: string)
    requires PlainWord(i) && PlainWord(p)
    ensures LexAll([[QuoteSymbol], i, p, [QuoteSymbol]]) == ItemTokens(Phrase([i, p]))
  {
    var ws := [[QuoteSymbol], i, p, [QuoteSymbol]];
    assert ws == [[QuoteSymbol], i] + [p, [QuoteSymbol]];
    LexAllAppend([[QuoteSymbol], i], [p, [QuoteSymbol]]);
    LexAllTwo([QuoteSymbol], i);
    LexAllTwo(p, [QuoteSymbol]);
    LexQuoteWord();
    LexPlain(i);
    LexPlain(p);
    assert Texts([i, p]) == [Text(i), Text(p)];
  }

  /** `+"word word"` or `--"word word"`: the quotes are glued to the words. */
  lemma LexGluedPhrase(op: string, c: string, l: string)
    requires op == ExcludesOperator || op == MustIncludeOperator
    requires PlainWord(c) && PlainWord(l)
    ensures LexAll([op + [QuoteSymbol] + c, l + [QuoteSymbol]]) ==
      ItemTokens(if op == ExcludesOperator then ExcludedPhrase([c, l]) else RequiredPhrase([c, l]))
  {
    var t := if op == ExcludesOperator then Excludes(None) else MustInclude(None);
    LexAllTwo(op + [QuoteSymbol] + c, l + [QuoteSymbol]);
    LexOpenScope(op, c);
    LexCloseScope(l);
    GluedTokens(t, c, l);
  }

  lemma GluedTokens(t: Token, c: string, l: string)
    ensures [t, Quote, Text(c)] + [Text(l), Quote] == [t, Quote] + Texts([c, l]) + [Quote]
  {
    assert Texts([c, l]) == [Text(c), Text(l)];
  }

  /** A group of words that lexes to one item's tokens lexes to that one-item sequence's tokens. */
  lemma GroupTokens(ws: seq<string>, it: Item)
    requires LexAll(ws) == ItemTokens(it)
    ensures LexAll(ws) == ItemsTokens([it])
  {
    ItemsTokensSnoc([it], [], it);
    ConcatEmpty(ItemTokens(it));
  }

  /** Two runs of words that lex to two runs of items lex, together, to both runs. */
  lemma GroupsTokens(ws: seq<string>, vs: seq<string>, items: seq<Item>, more: seq<Item>)
    requires LexAll(ws) == ItemsTokens(items) && LexAll(vs) == ItemsTokens(more)
    ensures LexAll(ws + vs) == ItemsTokens(items + more)
  {
    LexAllAppend(ws, vs);
    ItemsTokensAppend(items, more);
  }

  lemma PlainTokens(w: string)
    requires PlainWord(w)
    ensures LexAll([w]) == ItemsTokens([Term(w)])
  {
    LexAllOne(w);
    LexPlain(w);
    GroupTokens([w], Term(w));
  }

  lemma ExcludedTokens(w: string)
    requires PlainWord(w)
    ensures LexAll([ExcludesOperator + w]) == ItemsTokens([InlineExcludes(w)])
  {
    LexAllOne(ExcludesOperator + w);
    LexExcludedWord(w);
    GroupTokens([ExcludesOperator + w], InlineExcludes(w));
  }

  lemma RequiredTokens(w: string)
    requires PlainWord(w)
    ensures LexAll([MustIncludeOperator + w]) == ItemsTokens([InlineMustInclude(w)])
  {
    LexAllOne(MustIncludeOperator + w);
    LexRequiredWord(w);
    GroupTokens([MustIncludeOperator + w], InlineMustInclude(w));
  }

  lemma ShapeLexHead(o: string, a: string, i: string, p: string, m: string)
    requires PlainWord(o) && PlainWord(a) && PlainWord(i) && PlainWord(p) && PlainWord(m)
    ensures LexAll([o] + [a] + [[QuoteSymbol], i, p, [QuoteSymbol]] + [MustIncludeOperator + m])
         == ItemsTokens([Term(o)] + [Term(a)] + [Phrase([i, p])] + [InlineMustInclude(m)])
  {
    PlainTokens(o);
    PlainTokens(a);
    GroupsTokens([o], [a], [Term(o)], [Term(a)]);
    LexLonePhrase(i, p);
    GroupTokens([[QuoteSymbol], i, p, [QuoteSymbol]], Phrase([i, p]));
    GroupsTokens([o] + [a], [[QuoteSymbol], i, p, [QuoteSymbol]], [Term(o)] + [Term(a)], [Phrase([i, p])]);
    RequiredTokens(m);
    GroupsTokens([o] + [a] + [[QuoteSymbol], i, p, [QuoteSymbol]], [MustIncludeOperator + m],
                 [Term(o)] + [Term(a)] + [Phrase([i, p])], [InlineMustInclude(m)]);
  }

  lemma ShapeLex(o: string, a: string, i: string, p: string, m: string, c: string,
                 l: string, r: string, ar: string, im: string, mo: string)
    requires AllPlain(o, a, i, p, m, c, l, r, ar, im, mo)
    ensures LexAll(ShapeWords(o, a, i, p, m, c, l, r, ar, im, mo)) == ItemsTokens(ShapeItems(o, a, i, p, m, c, l, r, ar, im, mo))
  {
    var ws := [o] + [a] + [[QuoteSymbol], i, p, [QuoteSymbol]] + [MustIncludeOperator + m];
    var items := [Term(o)] + [Term(a)] + [Phrase([i, p])] + [InlineMustInclude(m)];
    ShapeLexHead(o, a, i, p, m);
    var g5 := [MustIncludeOperator + [QuoteSymbol] + c, l + [QuoteSymbol]];
    LexGluedPhrase(MustIncludeOperator, c, l);
    GroupTokens(g5, RequiredPhrase([c, l]));
    GroupsTokens(ws, g5, items, [RequiredPhrase([c, l])]);
    PlainTokens(r);
    GroupsTokens(ws + g5, [r], items + [RequiredPhrase([c, l])], [Term(r)]);
    ExcludedTokens(ar);
    GroupsTokens(ws + g5 + [r], [ExcludesOperator + ar], items + [RequiredPhrase([c, l])] + [Term(r)], [InlineExcludes(ar)]);
    var g8 := [ExcludesOperator + [QuoteSymbol] + im, mo + [QuoteSymbol]];
    LexGluedPhrase(ExcludesOperator, im, mo);
    GroupTokens(g8, ExcludedPhrase([im, mo]));
    GroupsTokens(ws + g5 + [r] + [ExcludesOperator + ar], g8,
                 items + [RequiredPhrase([c, l])] + [Term(r)] + [InlineExcludes(ar)], [ExcludedPhrase([im, mo])]);
  }

  lemma ShapeValues(o: string, a: string, i: string, p: string, m: string, c: string,
                    l: string, r: string, ar: string, im: string, mo: string, kind: Kind)
    ensures ItemValues(ShapeItems(o, a, i, p, m, c, l, r, ar, im, mo), kind) ==
      ItemValues([Term(o)], kind) + ItemValues([Term(a)], kind) + ItemValues([Phrase([i, p])], kind)
      + ItemValues([InlineMustInclude(m)], kind) + ItemValues([RequiredPhrase([c, l])], kind)
      + ItemValues([Term(r)], kind) + ItemValues([InlineExcludes(ar)], kind) + ItemValues([ExcludedPhrase([im, mo])], kind)
  {
    var i1 := [Term(o)];
    var i2 := i1 + [Term(a)];
    var i3 := i2 + [Phrase([i, p])];
    var i4 := i3 + [InlineMustInclude(m)];
    var i5 := i4 + [RequiredPhrase([c, l])];
    var i6 := i5 + [Term(r)];
    var i7 := i6 + [InlineExcludes(ar)];
    ItemValuesAppend(i1, [Term(a)], kind);
    ItemValuesAppend(i2, [Phrase([i, p])], kind);
    ItemValuesAppend(i3, [InlineMustInclude(m)], kind);
    ItemValuesAppend(i4, [RequiredPhrase([c, l])], kind);
    ItemValuesAppend(i5, [Term(r)], kind);
    ItemValuesAppend(i6, [InlineExcludes(ar)], kind);
    ItemValuesAppend(i7, [ExcludedPhrase([im, mo])], kind);
  }

  /** One item's value list: its value when it has the kind, nothing otherwise. */
  lemma ItemValuesOne(it: Item, kind: Kind)
    ensures ItemValues([it], kind) == if ItemKind(it) == kind then [ItemValue(it)] else []
  {
    assert [it][..0] == [];
  }

  lemma ShapeKind(o: string, a: string, i: string, p: string, m: string, c: string,
                  l: string, r: string, ar: string, im: string, mo: string, kind: Kind)
    ensures ItemValues(ShapeItems(o, a, i, p, m, c, l, r, ar, im, mo), kind) ==
      match kind
      case StringNode => [Join([i, p], " ")]
      case ExcludesNode => [ar, Join([im, mo], " ")]
      case TextNode => [o, a, r]
      case MustIncludeNode => [m, Join([c, l], " ")]
      case RootNode => []
  {
    ShapeValues(o, a, i, p, m, c, l, r, ar, im, mo, kind);
    ItemValuesOne(Term(o), kind);
    ItemValuesOne(Term(a), kind);
    ItemValuesOne(Phrase([i, p]), kind);
    ItemValuesOne(InlineMustInclude(m), kind);
    ItemValuesOne(RequiredPhrase([c, l]), kind);
    ItemValuesOne(Term(r), kind);
    ItemValuesOne(InlineExcludes(ar), kind);
    ItemValuesOne(ExcludedPhrase([im, mo]), kind);
  }

  /**
   * Any query of the complex query's shape, with plain words in it, parses
   * to its three plain words, one phrase, a `--word` and a `--"phrase"`, a
   * `+word` and a `+"phrase"`.
   */
  lemma ShapeParse(o: string, a: string, i: string, p: string, m: string, c: string,
                   l: string, r: string, ar: string, im: string, mo: string)
    requires AllPlain(o, a, i, p, m, c, l, r, ar, im, mo)
    ensures Parsed(ComplexShape(o, a, i, p, m, c, l, r, ar, im, mo)) ==
      Some(Terms([i + " " + p], [ar, im + " " + mo], [o, a, r], [m, c + " " + l]))
  {
    ShapeSplit(o, a, i, p, m, c, l, r, ar, im, mo);
    ShapeLex(o, a, i, p, m, c, l, r, ar, im, mo);
    ParseItems(ShapeItems(o, a, i, p, m, c, l, r, ar, im, mo));
    ShapeKind(o, a, i, p, m, c, l, r, ar, im, mo, StringNode);
    ShapeKind(o, a, i, p, m, c, l, r, ar, im, mo, ExcludesNode);
    ShapeKind(o, a, i, p, m, c, l, r, ar, im, mo, TextNode);
    ShapeKind(o, a, i, p, m, c, l, r, ar, im, mo, MustIncludeNode);
    JoinPair(i, p);
    JoinPair(im, mo);
    JoinPair(c, l);
  }

  lemma ShapeQueryParse(o: string, a: string, i: string, p: string, m: string, c: string,
                        l: string, r: string, ar: string, im: string, mo: string)
    requires AllPlainChars(o, a, i, p, m, c, l, r, ar, im, mo)
    ensures Parsed(ComplexShape(o, a, i, p, m, c, l, r, ar, im, mo)) ==
      Some(Terms([i + " " + p], [ar, im + " " + mo], [o, a, r], [m, c + " " + l]))
  {
    AllPlainOfChars(o, a, i, p, m, c, l, r, ar, im, mo);
    ShapeParse(o, a, i, p, m, c, l, r, ar, im, mo);
  }

  /** The test's complex query, assembled from its words and gaps. */
  const ComplexQuery: string :=
    ComplexShape("object", "abc", "interpreted", "procedural", "metaprogramming", "Command",
                 "line", "reflective", "array", "interactive", "mode")

  /**
   * The complex query parses to three plain words, one phrase, a `--word`
   * and a `--"phrase"`, a `+word` and a `+"phrase"`.
   */
  lemma ComplexQueryParse()
    ensures Parsed(ComplexQuery) == Some(Terms(
      ["interpreted procedural"], ["array", "interactive mode"],
      ["object", "abc", "reflective"], ["metaprogramming", "Command line"]))
  {
    ComplexShapeParse();
    ComplexPhrases();
  }

  lemma ComplexShapeParse()
    ensures Parsed(ComplexQuery) ==
      Some(Terms(["interpreted" + " " + "procedural"], ["array", "interactive" + " " + "mode"],
                 ["object", "abc", "reflective"], ["metaprogramming", "Command" + " " + "line"]))
  {
    ComplexWordsPlain();
    ShapeQueryParse("object", "abc", "interpreted", "procedural", "metaprogramming", "Command",
                    "line", "reflective", "array", "interactive", "mode");
  }

  lemma ComplexPhrases()
    ensures "interpreted" + " " + "procedural" == "interpreted procedural"
    ensures "interactive" + " " + "mode" == "interactive mode"
    ensures "Command" + " " + "line" == "Command line"
  {
  }

  lemma ComplexWordsPlain()
    ensures AllPlainChars("object", "abc", "interpreted", "procedural", "metaprogramming", "Command",
                          "line", "reflective", "array", "interactive", "mode")
  {
  }

  /** An ASCII letter. */
  predicate Letter(ch: char) {
    'a' <= ch <= 'z' || 'A' <= ch <= 'Z'
  }

  /** A non-empty word of letters only. */
  predicate PlainChars(w: string) {
    w != [] && forall ch <- w :: Letter(ch)
  }

  predicate AllPlainChars(o: string, a: string, i: string, p: string, m: string, c: string,
                          l: string, r: string, ar: string, im: string, mo: string)
  {
    && PlainChars(o) && PlainChars(a) && PlainChars(i) && PlainChars(p) && PlainChars(m) && PlainChars(c)
    && PlainChars(l) && PlainChars(r) && PlainChars(ar) && PlainChars(im) && PlainChars(mo)
  }

  lemma AllPlainOfChars(o: string, a: string, i: string, p: string, m: string, c: string,
                        l: string, r: string, ar: string, im: string, mo: string)
    requires AllPlainChars(o, a, i, p, m, c, l, r, ar, im, mo)
    ensures AllPlain(o, a, i, p, m, c, l, r, ar, im, mo)
  {
    PlainOfChars(o); PlainOfChars(a); PlainOfChars(i); PlainOfChars(p); PlainOfChars(m); PlainOfChars(c);
    PlainOfChars(l); PlainOfChars(r); PlainOfChars(ar); PlainOfChars(im); PlainOfChars(mo);
  }

  /** A word of letters is plain. */
  lemma PlainOfChars(w: string)
    requires PlainChars(w)
    ensures PlainWord(w)
  {
    forall j | 0 <= j < |w| ensures !IsSpace(w[j]) {
      assert w[j] in w;
    }
    assert w[0] in w;
  }

}
