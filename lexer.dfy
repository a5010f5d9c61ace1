/**
 * The first stage of the query parser: `query.split(' ')` followed by
 * `to_token` on every word (app/query_parser.rb).
 */
module Lexer {
  import opened Wrappers
  import opened Collections

  const QuoteSymbol: char := '"'
  const ExcludesOperator: string := "--"
  const MustIncludeOperator: string := "+"

  // ---------------------------------------------------------------------------
  // Splitting on whitespace
  // ---------------------------------------------------------------------------

  /** The characters that Ruby's `split(' ')` treats as whitespace. */
  predicate IsSpace(c: char) {
    c == ' ' || c == '\t' || c == '\n' || c == '\U{000B}' || c == '\U{000C}' || c == '\r'
  }

  predicate NoSpace(w: string) {
    forall i :: 0 <= i < |w| ==> !IsSpace(w[i])
  }

  predicate AllSpace(s: string) {
    forall i :: 0 <= i < |s| ==> IsSpace(s[i])
  }

  /** Length of the run of non-whitespace characters that starts `s`. */
  function WordLength(s: string): (n: nat)
    ensures n <= |s| && NoSpace(s[..n]) && (n < |s| ==> IsSpace(s[n]))
  {
    if s == [] || IsSpace(s[0]) then 0
    else
      var n := 1 + WordLength(s[1..]);
      assert s[..n] == [s[0]] + s[1..][..n - 1];
      n
  }

  /** `query.split(' ')`: the maximal whitespace-free runs of `s`, in order. */
  function Words(s: string): (ws: seq<string>)
    ensures forall w <- ws :: w != [] && NoSpace(w)
    decreases |s|
  {
    if s == [] then []
    else if IsSpace(s[0]) then Words(s[1..])
    else
      var n := WordLength(s);
      [s[..n]] + Words(s[n..])
  }

  /** `s` with every whitespace character removed. */
  function Unspaced(s: string): (r: string)
    ensures NoSpace(r)
  {
    if s == [] then []
    else (if IsSpace(s[0]) then [] else [s[0]]) + Unspaced(s[1..])
  }

  /** A word followed by whitespace (or by nothing) is the first word. */
  lemma {:induction false} WordLengthOfWord(w: string, rest: string)
    requires NoSpace(w) && (rest == [] || IsSpace(rest[0]))
    ensures WordLength(w + rest) == |w|
    decreases |w|
  {
    if w != [] {
      assert (w + rest)[1..] == w[1..] + rest;
      WordLengthOfWord(w[1..], rest);
    } else {
      assert w + rest == rest;
    }
  }

  /**
   * Splitting distributes over a concatenation whose seam is next to
   * whitespace: no word is glued together or cut in two.
   */
  lemma {:induction false} WordsConcat(a: string, b: string)
    requires a == [] || b == [] || IsSpace(a[|a| - 1]) || IsSpace(b[0])
    ensures Words(a + b) == Words(a) + Words(b)
    decreases |a|, 1
  {
    if a == [] {
      assert a + b == b;
    } else if b == [] {
      assert a + b == a;
    } else if IsSpace(a[0]) {
      assert (a + b)[1..] == a[1..] + b;
      assert Words(a + b) == Words(a[1..] + b);
      assert Words(a) == Words(a[1..]);
      WordsConcat(a[1..], b);
    } else if WordLength(a) < |a| {
      WordsConcatAtWord(a, b);
    } else {
      assert a[..|a|][|a| - 1] == a[|a| - 1];
      WordsWholeWord(a, b);
    }
  }

  /** The first word of `a` ends inside `a`: split it off and go on with the rest. */
  lemma {:induction false} WordsConcatAtWord(a: string, b: string)
    requires a != [] && b != [] && !IsSpace(a[0]) && WordLength(a) < |a|
    requires IsSpace(a[|a| - 1]) || IsSpace(b[0])
    ensures Words(a + b) == Words(a) + Words(b)
    decreases |a|, 0
  {
    var n := WordLength(a);
    var rest := a[n..];
    assert rest[|rest| - 1] == a[|a| - 1];
    WordsFirstWordInside(a, b);
    WordsConcat(rest, b);
    WordsFirst(a);
    ConcatAssoc([a[..n]], Words(rest), Words(b));
  }

  /** A string that starts with a word splits into that word and the words after it. */
  lemma WordsFirst(a: string)
    requires a != [] && !IsSpace(a[0])
    ensures Words(a) == [a[..WordLength(a)]] + Words(a[WordLength(a)..])
  {
  }

  /** When the first word of `a` ends inside `a`, it is also the first word of `a + b`. */
  lemma WordsFirstWordInside(a: string, b: string)
    requires a != [] && !IsSpace(a[0]) && WordLength(a) < |a|
    ensures Words(a + b) == [a[..WordLength(a)]] + Words(a[WordLength(a)..] + b)
  {
    var n := WordLength(a);
    WordLengthOfWord(a[..n], a[n..] + b);
    assert a + b == a[..n] + (a[n..] + b);
    assert (a + b)[..n] == a[..n];
    assert (a + b)[n..] == a[n..] + b;
  }

  /** A word-only `a` followed by whitespace is the first word of `a + b`. */
  lemma WordsWholeWord(a: string, b: string)
    requires a != [] && !IsSpace(a[0]) && WordLength(a) == |a| && (b == [] || IsSpace(b[0]))
    ensures Words(a + b) == Words(a) + Words(b)
  {
    assert a[..|a|] == a && a[|a|..] == [];
    assert Words(a) == [a];
    WordLengthOfWord(a, b);
    assert (a + b)[..|a|] == a;
    assert (a + b)[|a|..] == b;
  }

  /** A run of whitespace splits into nothing. */
  lemma {:induction false} WordsOfSpaces(s: string)
    requires AllSpace(s)
    ensures Words(s) == []
    decreases |s|
  {
    if s != [] {
      WordsOfSpaces(s[1..]);
    }
  }

  /** A word followed by whitespace or by nothing splits off as the first word. */
  lemma WordsCons(w: string, rest: string)
    requires w != [] && NoSpace(w) && (rest == [] || IsSpace(rest[0]))
    ensures Words(w + rest) == [w] + Words(rest)
  {
    WordLengthOfWord(w, rest);
    assert (w + rest)[..|w|] == w && (w + rest)[|w|..] == rest;
  }

  /** Whitespace in front of a string splits into nothing. */
  lemma WordsSkipSpaces(sp: string, rest: string)
    requires AllSpace(sp)
    ensures Words(sp + rest) == Words(rest)
  {
    WordsConcat(sp, rest);
    WordsOfSpaces(sp);
  }

  /** Whitespace, then a word, then whitespace or the end: exactly that word comes first. */
  lemma WordsAt(s: string, i: nat, j: nat, k: nat)
    requires i <= j < k <= |s|
    requires AllSpace(s[i..j]) && NoSpace(s[j..k]) && (k == |s| || IsSpace(s[k]))
    ensures Words(s[i..]) == [s[j..k]] + Words(s[k..])
  {
    assert s[i..] == s[i..j] + (s[j..k] + s[k..]);
    WordsSkipSpaces(s[i..j], s[j..k] + s[k..]);
    WordsCons(s[j..k], s[k..]);
  }

  /**
   * Leading, trailing and repeated whitespace add nothing: one more
   * whitespace character next to whitespace (or at either end) does not
   * change the words.
   */
  lemma ExtraSpaceIgnored(a: string, c: char, b: string)
    requires IsSpace(c) && (a == [] || IsSpace(a[|a| - 1]) || b == [] || IsSpace(b[0]))
    ensures Words(a + [c] + b) == Words(a + b)
  {
    var ac := a + [c];
    assert AllSpace([c]);
    WordsOfSpaces([c]);
    WordsConcat(a, [c]);
    assert Words(ac) == Words(a) + [] == Words(a);
    assert ac[|ac| - 1] == c;
    WordsConcat(ac, b);
    WordsConcat(a, b);
  }

  /** Joining well-formed words with single spaces and splitting gives them back. */
  lemma {:induction false} WordsOfJoin(ws: seq<string>)
    requires forall w <- ws :: w != [] && NoSpace(w)
    ensures Words(Join(ws, " ")) == ws
    decreases |ws|
  {
    if ws == [] {
    } else if |ws| == 1 {
      assert ws[0] in ws;
      WordsCons(ws[0], []);
      ConcatEmpty(ws[0]);
      ConcatEmpty([ws[0]]);
    } else {
      var tail := Join(ws[1..], " ");
      ConcatAssoc(ws[0], " ", tail);
      assert ws[0] in ws && (" " + tail)[0] == ' ';
      WordsCons(ws[0], " " + tail);
      assert AllSpace(" ");
      WordsSkipSpaces(" ", tail);
      assert forall w <- ws[1..] :: w in ws;
      WordsOfJoin(ws[1..]);
      SplitFirst(ws);
    }
  }

  lemma {:induction false} UnspacedConcat(a: string, b: string)
    ensures Unspaced(a + b) == Unspaced(a) + Unspaced(b)
    decreases |a|
  {
    if a == [] {
      assert a + b == b;
    } else {
      assert (a + b)[1..] == a[1..] + b;
      UnspacedConcat(a[1..], b);
    }
  }

  lemma {:induction false} UnspacedOfWord(w: string)
    requires NoSpace(w)
    ensures Unspaced(w) == w
    decreases |w|
  {
    if w != [] {
      UnspacedOfWord(w[1..]);
    }
  }

  /** Splitting drops whitespace and nothing else. */
  lemma {:induction false} WordsKeepText(s: string)
    ensures Join(Words(s), "") == Unspaced(s)
    decreases |s|
  {
    if s == [] {
    } else if IsSpace(s[0]) {
      WordsKeepText(s[1..]);
    } else {
      var n := WordLength(s);
      assert s == s[..n] + s[n..];
      UnspacedConcat(s[..n], s[n..]);
      UnspacedOfWord(s[..n]);
      WordsKeepText(s[n..]);
      JoinEmptyCons(s[..n], Words(s[n..]));
    }
  }

  lemma JoinEmptyCons(w: string, ws: seq<string>)
    ensures Join([w] + ws, "") == w + Join(ws, "")
  {
    if ws == [] {
      assert [w] + ws == [w];
    } else {
      assert ([w] + ws)[1..] == ws;
    }
  }

  // ---------------------------------------------------------------------------
  // Tokens
  // ---------------------------------------------------------------------------

  /** The token hashes `{ type: ..., value: ... }`; a missing `:value` is `None`. */
  datatype Token =
    | Quote
    | Excludes(payload: Option<string>)
    | MustInclude(payload: Option<string>)
    | Text(word: string)

  predicate StartsWith(s: string, prefix: string) {
    |prefix| <= |s| && s[..|prefix|] == prefix
  }

  /** The operator's remainder, deleted from the token when it is empty. */
  function Payload(rest: string): (p: Option<string>)
    ensures p.Some? ==> p.value == rest && rest != []
    ensures p.None? <==> rest == []
  {
    if rest == [] then None else Some(rest)
  }

  /** `string.index(QUOTE)`: the first position of `c`. */
  function IndexOf(s: string, c: char): (i: nat)
    requires c in s
    ensures i < |s| && s[i] == c && c !in s[..i]
  {
    if s[0] == c then 0
    else
      var i := 1 + IndexOf(s[1..], c);
      assert s[..i] == [s[0]] + s[1..][..i - 1];
      i
  }

  /** `to_token`: the tokens of one whitespace-free word. */
  function Lex(w: string): (ts: seq<Token>)
    decreases |w|
  {
    if w == [] then []
    else if w == [QuoteSymbol] then [Quote]
    else if QuoteSymbol in w then
      var i := IndexOf(w, QuoteSymbol);
      Lex(w[..i]) + [Quote] + Lex(w[i + 1..])
    else [WordToken(w)]
  }

  /** The operator and text branches of `to_token`, reached by quote-free words only. */
  function WordToken(w: string): Token {
    if StartsWith(w, ExcludesOperator) then Excludes(Payload(w[|ExcludesOperator|..]))
    else if StartsWith(w, MustIncludeOperator) then MustInclude(Payload(w[|MustIncludeOperator|..]))
    else Text(w)
  }

  /** The characters a token was made from. */
  function Spelling(t: Token): string {
    match t
    case Quote => [QuoteSymbol]
    case Excludes(p) => ExcludesOperator + (if p.Some? then p.value else [])
    case MustInclude(p) => MustIncludeOperator + (if p.Some? then p.value else [])
    case Text(w) => w
  }

  /** The characters a token sequence was made from. */
  function Unlex(ts: seq<Token>): string {
    if ts == [] then [] else Spelling(ts[0]) + Unlex(ts[1..])
  }

  /**
   * What the lexer can produce: payloads are non-empty and quote-free, and a
   * text token is not an operator.
   */
  predicate WellFormedToken(t: Token) {
    match t
    case Quote => true
    case Excludes(p) => p.Some? ==> p.value != [] && QuoteSymbol !in p.value
    case MustInclude(p) => p.Some? ==> p.value != [] && QuoteSymbol !in p.value
    case Text(w) =>
      w != [] && QuoteSymbol !in w && !StartsWith(w, ExcludesOperator) && !StartsWith(w, MustIncludeOperator)
  }

  lemma {:induction false} UnlexConcat(a: seq<Token>, b: seq<Token>)
    ensures Unlex(a + b) == Unlex(a) + Unlex(b)
    decreases |a|
  {
    if a == [] {
      assert a + b == b;
    } else {
      assert (a + b)[1..] == a[1..] + b;
      UnlexConcat(a[1..], b);
    }
  }

  /** The lexer loses and invents nothing: its tokens spell the word back. */
  lemma {:induction false} LexRoundTrip(w: string)
    ensures Unlex(Lex(w)) == w
    decreases |w|
  {
    if w == [] || w == [QuoteSymbol] {
    } else if QuoteSymbol in w {
      var i := IndexOf(w, QuoteSymbol);
      LexRoundTrip(w[..i]);
      LexRoundTrip(w[i + 1..]);
      SpellingAroundQuote(w, i);
    } else {
      WordTokenSpelling(w);
    }
  }

  lemma SpellingAroundQuote(w: string, i: nat)
    requires w != [QuoteSymbol] && QuoteSymbol in w && i == IndexOf(w, QuoteSymbol)
    requires Unlex(Lex(w[..i])) == w[..i] && Unlex(Lex(w[i + 1..])) == w[i + 1..]
    ensures Unlex(Lex(w)) == w
  {
    LexAroundQuote(w);
    UnlexAroundQuote(Lex(w[..i]), Lex(w[i + 1..]));
    QuoteSplit(w, i);
  }

  /** A word holding a quote, other than the quote alone, lexes around its first quote. */
  lemma LexAroundQuote(w: string)
    requires w != [QuoteSymbol] && QuoteSymbol in w
    ensures Lex(w) == Lex(w[..IndexOf(w, QuoteSymbol)]) + [Quote] + Lex(w[IndexOf(w, QuoteSymbol) + 1..])
  {
  }

  lemma QuoteSplit(w: string, i: nat)
    requires i < |w| && w[i] == QuoteSymbol
    ensures w == w[..i] + [QuoteSymbol] + w[i + 1..]
  {
  }

  lemma UnlexAroundQuote(x: seq<Token>, y: seq<Token>)
    ensures Unlex(x + [Quote] + y) == Unlex(x) + [QuoteSymbol] + Unlex(y)
  {
    UnlexConcat(x + [Quote], y);
    UnlexConcat(x, [Quote]);
  }

  lemma WordTokenSpelling(w: string)
    ensures Unlex([WordToken(w)]) == w
  {
    if StartsWith(w, ExcludesOperator) {
      assert w == ExcludesOperator + w[2..];
    } else if StartsWith(w, MustIncludeOperator) {
      assert w == MustIncludeOperator + w[1..];
    }
  }

  /** Every token the lexer produces is well formed. */
  lemma {:induction false} LexWellFormed(w: string)
    ensures forall t <- Lex(w) :: WellFormedToken(t)
    decreases |w|
  {
    if w == [] || w == [QuoteSymbol] {
    } else if QuoteSymbol in w {
      var i := IndexOf(w, QuoteSymbol);
      var a, b := w[..i], w[i + 1..];
      assert Lex(w) == Lex(a) + [Quote] + Lex(b);
      LexWellFormed(a);
      LexWellFormed(b);
    } else if StartsWith(w, ExcludesOperator) {
      QuoteFreeSuffix(w, 2);
    } else if StartsWith(w, MustIncludeOperator) {
      QuoteFreeSuffix(w, 1);
    }
  }

  lemma QuoteFreeSuffix(w: string, k: nat)
    requires k <= |w| && QuoteSymbol !in w
    ensures QuoteSymbol !in w[k..]
  {
    forall i | 0 <= i < |w[k..]| ensures w[k..][i] != QuoteSymbol {
      assert w[k..][i] == w[i + k];
    }
  }

  lemma SpellingQuotes(t: Token)
    requires WellFormedToken(t)
    ensures multiset(Spelling(t))[QuoteSymbol] == if t == Quote then 1 else 0
  {
    if t != Quote {
      assert QuoteSymbol !in Spelling(t);
    }
  }

  /** Each quote character becomes one Quote token and no token hides one. */
  lemma {:induction false} QuotesOfSpelling(ts: seq<Token>)
    requires forall t <- ts :: WellFormedToken(t)
    ensures multiset(Unlex(ts))[QuoteSymbol] == multiset(ts)[Quote]
    decreases |ts|
  {
    if ts != [] {
      var head, tail := ts[0], ts[1..];
      assert forall t <- tail :: t in ts;
      QuotesOfSpelling(tail);
      assert head in ts;
      SpellingQuotes(head);
      SplitFirst(ts);
    }
  }

  /** The number of Quote tokens of a word is the number of quote characters in it. */
  lemma LexQuoteCount(w: string)
    ensures multiset(Lex(w))[Quote] == multiset(w)[QuoteSymbol]
  {
    LexRoundTrip(w);
    LexWellFormed(w);
    QuotesOfSpelling(Lex(w));
  }

  /**
   * The first quote of a word splits it: whatever `i` is, as long as it is
   * the position of the first quote.
   */
  lemma LexSplitsAtFirstQuote(w: string, i: nat)
    requires i < |w| && w[i] == QuoteSymbol && QuoteSymbol !in w[..i]
    ensures Lex(w) == Lex(w[..i]) + [Quote] + Lex(w[i + 1..])
  {
    if w == [QuoteSymbol] {
      assert w[..0] == [] && w[1..] == [];
    } else {
      assert IndexOf(w, QuoteSymbol) == i;
    }
  }

  /**
   * A quote-free word is one token that spells the word: an operator token
   * when the word starts with `--` or `+` (quote detection comes first, so
   * only quote-free words reach this), a text token otherwise.
   */
  lemma LexQuoteFreeWord(w: string)
    requires w != [] && QuoteSymbol !in w
    ensures |Lex(w)| == 1 && Spelling(Lex(w)[0]) == w
    ensures Lex(w)[0].Excludes? <==> StartsWith(w, ExcludesOperator)
    ensures Lex(w)[0].MustInclude? <==> !StartsWith(w, ExcludesOperator) && StartsWith(w, MustIncludeOperator)
    ensures Lex(w)[0].Text? <==> !StartsWith(w, ExcludesOperator) && !StartsWith(w, MustIncludeOperator)
    ensures Lex(w)[0].Excludes? ==> Lex(w)[0].payload == Payload(w[2..])
    ensures Lex(w)[0].MustInclude? ==> Lex(w)[0].payload == Payload(w[1..])
  {
    if StartsWith(w, ExcludesOperator) {
      assert w == ExcludesOperator + w[2..];
    } else if StartsWith(w, MustIncludeOperator) {
      assert w == MustIncludeOperator + w[1..];
    }
  }

  // ---------------------------------------------------------------------------
  // The whole query
  // ---------------------------------------------------------------------------

  /** The tokens of a sequence of words, word after word (`tokens += to_token(string)`). */
  function LexAll(ws: seq<string>): seq<Token> {
    if ws == [] then [] else LexAll(ws[..|ws| - 1]) + Lex(ws[|ws| - 1])
  }

  /** The tokens of two runs of words are the first run's tokens followed by the second's. */
  lemma {:induction false} LexAllAppend(a: seq<string>, b: seq<string>)
    ensures LexAll(a + b) == LexAll(a) + LexAll(b)
    decreases |b|
  {
    if b == [] {
      assert a + b == a;
    } else {
      var init, last := b[..|b| - 1], b[|b| - 1];
      LexAllAppend(a, init);
      assert (a + b)[..|a + b| - 1] == a + init && (a + b)[|a + b| - 1] == last;
    }
  }

  lemma {:induction false} LexAllSpelling(ws: seq<string>)
    ensures Unlex(LexAll(ws)) == Join(ws, "")
    ensures forall t <- LexAll(ws) :: WellFormedToken(t)
    decreases |ws|
  {
    if ws != [] {
      var init, last := ws[..|ws| - 1], ws[|ws| - 1];
      LexAllSpelling(init);
      LexRoundTrip(last);
      LexWellFormed(last);
      UnlexConcat(LexAll(init), Lex(last));
      JoinEmptySnoc(init, last);
      assert ws == init + [last];
    }
  }

  lemma {:induction false} JoinEmptySnoc(ws: seq<string>, w: string)
    ensures Join(ws + [w], "") == Join(ws, "") + w
    decreases |ws|
  {
    if ws == [] {
      assert ws + [w] == [w];
    } else {
      assert (ws + [w])[1..] == ws[1..] + [w];
      JoinEmptySnoc(ws[1..], w);
      if |ws| == 1 {
        assert ws[1..] == [];
      }
    }
  }

  /** The tokens of a query spell the query with its whitespace removed. */
  lemma QueryTokensSpellQuery(q: string)
    ensures Unlex(LexAll(Words(q))) == Unspaced(q)
    ensures forall t <- LexAll(Words(q)) :: WellFormedToken(t)
  {
    LexAllSpelling(Words(q));
    WordsKeepText(q);
  }

  lemma {:induction false} UnspacedQuotes(s: string)
    ensures multiset(Unspaced(s))[QuoteSymbol] == multiset(s)[QuoteSymbol]
    decreases |s|
  {
    if s != [] {
      UnspacedQuotes(s[1..]);
      SplitFirst(s);
    }
  }

  /** The number of Quote tokens of a query is the number of quote characters in it. */
  lemma QueryQuoteCount(q: string)
    ensures multiset(LexAll(Words(q)))[Quote] == multiset(q)[QuoteSymbol]
  {
    QueryTokensSpellQuery(q);
    QuotesOfSpelling(LexAll(Words(q)));
    UnspacedQuotes(q);
  }

  /** `--"x"`: the quote is found before the operator, so the operator is bare. */
  lemma LexQuotedExclusion()
    ensures Lex("--\"x\"") == [Excludes(None), Quote, Text("x"), Quote]
  {
    QuotedExclusionSplit();
    LexSplitsAtFirstQuote("--\"x\"", 2);
    LexBareExcludes();
    LexTrailingQuote();
  }

  lemma QuotedExclusionSplit()
    ensures var w := "--\"x\""; (w[2] == QuoteSymbol && QuoteSymbol !in w[..2] && w[..2] == "--" && w[3..] == "x\"")
  {
  }

  lemma LexBareExcludes()
    ensures Lex("--") == [Excludes(None)]
  {
    assert StartsWith("--", ExcludesOperator);
  }

  lemma LexTrailingQuote()
    ensures Lex("x\"") == [Text("x"), Quote]
  {
    LexSplitsAtFirstQuote("x\"", 1);
    assert "x\""[..1] == "x" && "x\""[2..] == [];
  }
}
