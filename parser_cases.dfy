/**
 * The simpler queries of spec/units/query_parser_spec.rb: plain words with
 * extra whitespace around them, and plain words followed by `--word`s.
 */
module ParserCases {
  import opened Wrappers
  import opened Lexer
  import opened SyntaxTree
  import opened TreeBuilder
  import opened Queries
  import opened QueryParser
  import opened ParserExamples

  // ---------------------------------------------------------------------------
  // Three plain words, with runs of spaces around and between them
  // ---------------------------------------------------------------------------

  function SpacedShape(a: string, b: string, c: string): string {
    " " + a + "  " + b + "  " + c + " "
  }

  lemma SpacedWords(a: string, b: string, c: string)
    requires PlainWord(a) && PlainWord(b) && PlainWord(c)
    ensures Words(SpacedShape(a, b, c)) == [a, b, c]
  {
    var x0 := " ";
    WordsOfSpaces(x0);
    var x1 := x0 + a; WordsAddWord(x0, a, []);
    var x2 := x1 + "  "; WordsAddSpaces(x1, "  ", [a]);
    var x3 := x2 + b; WordsAddWord(x2, b, [a]);
    var x4 := x3 + "  "; WordsAddSpaces(x3, "  ", [a, b]);
    var x5 := x4 + c; WordsAddWord(x4, c, [a, b]);
    var x6 := x5 + " "; WordsAddSpaces(x5, " ", [a, b, c]);
    assert SpacedShape(a, b, c) == x6;
  }

  lemma SpacedTokens(a: string, b: string, c: string)
    requires PlainWord(a) && PlainWord(b) && PlainWord(c)
    ensures LexAll([a, b, c]) == ItemsTokens([Term(a), Term(b), Term(c)])
  {
    PlainTokens(a);
    PlainTokens(b);
    GroupsTokens([a], [b], [Term(a)], [Term(b)]);
    PlainTokens(c);
    GroupsTokens([a, b], [c], [Term(a), Term(b)], [Term(c)]);
    assert [a] + [b] == [a, b] && [a, b] + [c] == [a, b, c];
    assert [Term(a)] + [Term(b)] == [Term(a), Term(b)];
    assert [Term(a), Term(b)] + [Term(c)] == [Term(a), Term(b), Term(c)];
  }

  /** Three items' value list for one kind, item by item. */
  lemma ThreeValues(x: Item, y: Item, z: Item, kind: Kind)
    ensures ItemValues([x, y, z], kind) ==
      ItemValues([x], kind) + ItemValues([y], kind) + ItemValues([z], kind)
  {
    ItemValuesAppend([x], [y], kind);
    ItemValuesAppend([x, y], [z], kind);
    assert [x] + [y] == [x, y];
    assert [x, y] + [z] == [x, y, z];
  }

  lemma SpacedValues(a: string, b: string, c: string, kind: Kind)
    ensures ItemValues([Term(a), Term(b), Term(c)], kind) == if kind == TextNode then [a, b, c] else []
  {
    ThreeValues(Term(a), Term(b), Term(c), kind);
    ItemValuesOne(Term(a), kind);
    ItemValuesOne(Term(b), kind);
    ItemValuesOne(Term(c), kind);
  }

  /**
   * Whatever whitespace surrounds them, three plain words all go to
   * `includes`, in order, and nothing else is filled.
   */
  lemma SpacedParse(a: string, b: string, c: string)
    requires PlainChars(a) && PlainChars(b) && PlainChars(c)
    ensures Parsed(SpacedShape(a, b, c)) == Some(Terms([], [], [a, b, c], []))
  {
    PlainOfChars(a);
    PlainOfChars(b);
    PlainOfChars(c);
    SpacedWords(a, b, c);
    SpacedTokens(a, b, c);
    var items := [Term(a), Term(b), Term(c)];
    ParseItems(items);
    SpacedValues(a, b, c, StringNode);
    SpacedValues(a, b, c, ExcludesNode);
    SpacedValues(a, b, c, TextNode);
    SpacedValues(a, b, c, MustIncludeNode);
  }

  /** The test's query of three words with doubled spaces between them. */
  lemma MultipleWordsParse()
    ensures Parsed(" procedural  iterative  reflective ") ==
      Some(Terms([], [], ["procedural", "iterative", "reflective"], []))
  {
    MultipleWordsText();
    MultipleWordsPlain();
    SpacedParse("procedural", "iterative", "reflective");
  }

  lemma MultipleWordsText()
    ensures SpacedShape("procedural", "iterative", "reflective") == " procedural  iterative  reflective "
  {
    assert " " + "procedural" + "  " == " procedural  ";
    assert " procedural  " + "iterative" + "  " == " procedural  iterative  ";
    assert " procedural  iterative  " + "reflective" + " " == " procedural  iterative  reflective ";
  }

  lemma MultipleWordsPlain()
    ensures PlainChars("procedural") && PlainChars("iterative") && PlainChars("reflective")
  {
  }

  // ---------------------------------------------------------------------------
  // One plain word between single spaces
  // ---------------------------------------------------------------------------

  lemma SingleWordSplit(a: string)
    requires PlainWord(a)
    ensures Words(" " + a + " ") == [a]
  {
    WordsOfSpaces(" ");
    WordsAddWord(" ", a, []);
    WordsAddSpaces(" " + a, " ", [a]);
  }

  /** A lone plain word, spaces around it dropped, goes to `includes`. */
  lemma SingleWordShapeParse(a: string)
    requires PlainChars(a)
    ensures Parsed(" " + a + " ") == Some(Terms([], [], [a], []))
  {
    PlainOfChars(a);
    SingleWordSplit(a);
    PlainTokens(a);
    ParseItems([Term(a)]);
    ItemValuesOne(Term(a), StringNode);
    ItemValuesOne(Term(a), ExcludesNode);
    ItemValuesOne(Term(a), TextNode);
    ItemValuesOne(Term(a), MustIncludeNode);
  }

  /** The test's query of one word with a space on either side. */
  lemma SingleWordParse()
    ensures Parsed(" procedural ") == Some(Terms([], [], ["procedural"], []))
  {
    assert " " + "procedural" + " " == " procedural ";
    SingleWordShapeParse("procedural");
  }

  // ---------------------------------------------------------------------------
  // A plain word followed by two `--word`s
  // ---------------------------------------------------------------------------

  function ExcludedShape(a: string, b: string, c: string): string {
    " " + a + " " + (ExcludesOperator + b) + " " + (ExcludesOperator + c)
  }

  lemma ExcludedWords(a: string, b: string, c: string)
    requires PlainWord(a) && PlainWord(b) && PlainWord(c)
    ensures Words(ExcludedShape(a, b, c)) == [a, ExcludesOperator + b, ExcludesOperator + c]
  {
    GluedNoSpace(b);
    GluedNoSpace(c);
    var x0 := " ";
    WordsOfSpaces(x0);
    var x1 := x0 + a; WordsAddWord(x0, a, []);
    var x2 := x1 + " "; WordsAddSpaces(x1, " ", [a]);
    var x3 := x2 + (ExcludesOperator + b); WordsAddWord(x2, ExcludesOperator + b, [a]);
    var x4 := x3 + " "; WordsAddSpaces(x3, " ", [a, ExcludesOperator + b]);
    var x5 := x4 + (ExcludesOperator + c); WordsAddWord(x4, ExcludesOperator + c, [a, ExcludesOperator + b]);
    assert ExcludedShape(a, b, c) == x5;
  }

  lemma ExcludedShapeTokens(a: string, b: string, c: string)
    requires PlainWord(a) && PlainWord(b) && PlainWord(c)
    ensures LexAll([a, ExcludesOperator + b, ExcludesOperator + c]) ==
      ItemsTokens([Term(a), InlineExcludes(b), InlineExcludes(c)])
  {
    PlainTokens(a);
    ExcludedTokens(b);
    GroupsTokens([a], [ExcludesOperator + b], [Term(a)], [InlineExcludes(b)]);
    ExcludedTokens(c);
    GroupsTokens([a, ExcludesOperator + b], [ExcludesOperator + c],
                 [Term(a), InlineExcludes(b)], [InlineExcludes(c)]);
    assert [a] + [ExcludesOperator + b] == [a, ExcludesOperator + b];
    assert [a, ExcludesOperator + b] + [ExcludesOperator + c] == [a, ExcludesOperator + b, ExcludesOperator + c];
    assert [Term(a)] + [InlineExcludes(b)] == [Term(a), InlineExcludes(b)];
    assert [Term(a), InlineExcludes(b)] + [InlineExcludes(c)] == [Term(a), InlineExcludes(b), InlineExcludes(c)];
  }

  lemma ExcludedValues(a: string, b: string, c: string, kind: Kind)
    ensures ItemValues([Term(a), InlineExcludes(b), InlineExcludes(c)], kind) ==
      if kind == TextNode then [a] else if kind == ExcludesNode then [b, c] else []
  {
    ThreeValues(Term(a), InlineExcludes(b), InlineExcludes(c), kind);
    ItemValuesOne(Term(a), kind);
    ItemValuesOne(InlineExcludes(b), kind);
    ItemValuesOne(InlineExcludes(c), kind);
  }

  /**
   * A plain word goes to `includes` and each `--word` to `excludes` with
   * its operator stripped, in order.
   */
  lemma ExcludedParse(a: string, b: string, c: string)
    requires PlainChars(a) && PlainChars(b) && PlainChars(c)
    ensures Parsed(ExcludedShape(a, b, c)) == Some(Terms([], [b, c], [a], []))
  {
    PlainOfChars(a);
    PlainOfChars(b);
    PlainOfChars(c);
    ExcludedWords(a, b, c);
    ExcludedShapeTokens(a, b, c);
    ParseItems([Term(a), InlineExcludes(b), InlineExcludes(c)]);
    ExcludedValues(a, b, c, StringNode);
    ExcludedValues(a, b, c, ExcludesNode);
    ExcludedValues(a, b, c, TextNode);
    ExcludedValues(a, b, c, MustIncludeNode);
  }

  /** The test's query of a word and two excluded words. */
  lemma ExcludedWordsParse()
    ensures Parsed(" procedural --reflective --metaprogramming") ==
      Some(Terms([], ["reflective", "metaprogramming"], ["procedural"], []))
  {
    ExcludedWordsText();
    ExcludedWordsPlain();
    ExcludedParse("procedural", "reflective", "metaprogramming");
  }

  lemma ExcludedWordsText()
    ensures ExcludedShape("procedural", "reflective", "metaprogramming") == " procedural --reflective --metaprogramming"
  {
    ExcludedPieces();
    assert " procedural " + "--reflective " == " procedural --reflective ";
    assert " procedural --reflective " + "--metaprogramming" == " procedural --reflective --metaprogramming";
  }

  lemma ExcludedPieces()
    ensures ExcludedShape("procedural", "reflective", "metaprogramming") == " procedural " + "--reflective " + "--metaprogramming"
  {
    assert " " + "procedural" + " " == " procedural ";
    assert ExcludesOperator + "reflective" + " " == "--reflective ";
    assert ExcludesOperator + "metaprogramming" == "--metaprogramming";
  }

  lemma ExcludedWordsPlain()
    ensures PlainChars("procedural") && PlainChars("reflective") && PlainChars("metaprogramming")
  {
  }
}
