# Programming language search, modelled in Dafny

The repository is a small search engine over a catalogue of programming
languages. A query string is parsed into four lists of search terms:

- `exact_matches`: quoted phrases;
- `excludes`: `--word` and `--"phrase"`;
- `must_include`: `+word` and `+"phrase"`;
- `includes`: plain words.

The search then filters and ranks the languages against those lists.

The model covers three parts of that pipeline:

- **The query parser** (`app/query_parser.rb`). It has three stages:
  - splitting the query on whitespace and turning each word into tokens (`to_token`);
  - a single pass over the tokens that builds a syntax tree of nodes (`build_subtree!`);
  - projecting the root's children, by node kind, onto a `Query` (`build_query`).
- **The `Query` object** with its four lists (`app/query.rb`).
- **The search** (`app/search.rb`):
  - `must_include` and `exact_matches` filter as "every term matches";
  - `excludes` filters as "no term matches";
  - `includes` ranks by points (3 for the name, 2 for a tag, 1 for an author) and drops the languages that score nothing.

A `Language` (`app/language.rb`) is a record of a name, tags and authors.

Files:

- **wrappers.dfy**: `Option`.
- **collections.dfy**: `Join`, the `select` fold, subsequences.
- **language.dfy**: the language record.
- **query.dfy**: the `Query` class.
- **lexer.dfy**: `split(' ')` and `to_token`.
- **syntax_tree.dfy**: the node kinds, `Node#<<` and the `value` rules.
  Nodes live in a table; a `parent` is a table index.
- **tree_builder.dfy**: `build_subtree!`, in two forms:
  - as a step function over a builder state;
  - as a method that mutates a `Tree` object and is proved equal to that step function.
- **query_parser.dfy**: `build_query` and `parse`.
- **search.dfy**: `Search#perform` and its helpers.
- **parser_examples.dfy** and **parser_cases.dfy**: the queries of `spec/units/query_parser_spec.rb`.
- **search_examples.dfy**: the catalogue and the cases of `spec/units/search_spec.rb`.

## Model

| member | source | states |
|---|---|---|
| Lexer.Words | app/query_parser.rb:125 | every word `split(' ')` yields is non-empty and holds no whitespace |
| Lexer.ExtraSpaceIgnored | app/query_parser.rb:125 | one more whitespace character next to whitespace or at either end of the query does not change the words |
| Lexer.WordsOfJoin | app/query_parser.rb:125 | splitting words joined by single spaces gives back exactly those words |
| Lexer.WordsKeepText | app/query_parser.rb:125 | the words, concatenated, are the query with every whitespace character removed: splitting loses nothing else |
| Lexer.LexRoundTrip | app/query_parser.rb:132-157 | spelling out the tokens of a word gives back the word: `to_token` drops no character |
| Lexer.LexWellFormed | app/query_parser.rb:143-155 | every token `to_token` makes is well formed: operator payloads are non-empty and quote-free, and a text token is non-empty, quote-free and starts with no operator |
| Lexer.LexSplitsAtFirstQuote | app/query_parser.rb:137-142 | a word with a quote is tokenised as the part before its first quote, a quote token, then the part after it |
| Lexer.LexQuoteFreeWord | app/query_parser.rb:143-155 | a quote-free word gives one token: an exclusion exactly when it starts with `--`, a must-include exactly when it starts with `+` and not `--`, text otherwise; an operator's payload is the rest of the word, missing when that is empty |
| Lexer.LexQuoteCount | app/query_parser.rb:135-142 | a word yields exactly as many quote tokens as it has quote characters |
| Lexer.LexQuotedExclusion | app/query_parser.rb:135-146 | `--"x"` tokenises as a bare exclusion operator, a quote, the text `x` and a quote |
| Lexer.QueryTokensSpellQuery | app/query_parser.rb:123-125 | the tokens of a whole query spell the query without its whitespace, and all of them are well formed |
| Lexer.QueryQuoteCount | app/query_parser.rb:123-125 | the tokens of a whole query hold exactly as many quotes as the query has quote characters |
| SyntaxTree.AppendChild | app/query_parser.rb:39-42 | `<<` appends the child to the parent's children, sets a node child's `parent` to the parent, and changes no other node |
| SyntaxTree.Attach | app/query_parser.rb:175-176 | a new node of the given kind is appended to the table under the context: its `parent` is the context, the context's children gain it, and no other node changes |
| SyntaxTree.AttachWellFormed | app/query_parser.rb:39-42 | attaching a new non-root node whose children are words keeps the table well formed: every node child is later in the table, points back to its parent, and the root stays parentless |
| SyntaxTree.ValueFrame | app/query_parser.rb:62-102 | a node's `value` depends only on the node and the nodes after it, so adding nodes later does not change it |
| SyntaxTree.PhraseValue | app/query_parser.rb:62-64 | a string node whose children are text nodes has as `value` their words joined by single spaces |
| SyntaxTree.TextChildValues | app/query_parser.rb:100-102 | text nodes holding words have those words as values, in order |
| SyntaxTree.Tree.constructor | app/query_parser.rb:160 | a new tree holds only a parentless, childless root |
| SyntaxTree.Tree.Add | app/query_parser.rb:34-37 | `Kind.new(children, parent)` adds exactly one node to the table and returns its index |
| SyntaxTree.Tree.Append | app/query_parser.rb:39-42 | `<<` on the tree object leaves the table equal to `AppendChild` of the old table |
| TreeBuilder.Step | app/query_parser.rb:171-216 | handling one token keeps the context path deep enough for every climb a later quote can make |
| TreeBuilder.CreateInv | app/query_parser.rb:173-177 | creating a node preserves the builder invariant: the table stays well formed, and the context path runs from the root with each entry the `parent` of the next |
| TreeBuilder.CloseInv | app/query_parser.rb:178-189 | closing a quote preserves the builder invariant |
| TreeBuilder.StepInv | app/query_parser.rb:171-216 | every token preserves the builder invariant |
| TreeBuilder.RunInv | app/query_parser.rb:165-220 | the whole pass preserves the builder invariant, for any token sequence, so the `parent` climbs never leave the tree |
| TreeBuilder.ClosingQuote | app/query_parser.rb:178-189 | a closing quote adds no node and clears `quote_opened`. If `excludes_opened` was set, it clears that flag and climbs two levels to the grandparent. Otherwise, if `must_include_opened` was set, it does the same with that flag. Otherwise it climbs one level to the parent. |
| TreeBuilder.QuoteToggles | app/query_parser.rb:172-189 | a quote token flips `quote_opened`; other tokens leave it alone |
| TreeBuilder.FlagsStayOpen | app/query_parser.rb:191-211 | only a closing quote clears `excludes_opened` or `must_include_opened` |
| TreeBuilder.TokenPlacement | app/query_parser.rb:172-216 | any token other than a closing quote adds one node, under the context, of the token's kind. A word token or an operator with a payload holds that word and leaves context and flags alone. An opening quote or a bare operator starts empty and becomes the context. |
| TreeBuilder.QuoteParity | app/query_parser.rb:172-189 | after the whole pass a quote is left open exactly when the tokens hold an odd number of quotes |
| TreeBuilder.RunQuotes | app/query_parser.rb:172-189 | from any start state, `quote_opened` ends as its start value flipped once per quote token |
| TreeBuilder.ItemEffect | app/query_parser.rb:172-216 | from rest, the tokens of one item add a root child of the item's kind whose value is the item's string, and return to rest |
| TreeBuilder.RunItems | app/query_parser.rb:159-220 | for a query made of items, the root gets one child per item, in order, each of the item's kind and with the item's value, and the pass ends at rest |
| TreeBuilder.BuildTree | app/query_parser.rb:159-220 | the loop that mutates the tree leaves it equal to the step function run over all the tokens |
| TreeBuilder.StepTree | app/query_parser.rb:171-217 | one iteration on the tree object and the local flags computes exactly the step function's next state |
| TreeBuilder.OpenNode | app/query_parser.rb:173-177 | an opening quote or a bare operator adds its node under the context and makes it the new context, as the step function does |
| TreeBuilder.AddNode | app/query_parser.rb:198-215 | a word token or an operator with a payload adds its node under the context, as the step function does |
| TreeBuilder.CloseQuote | app/query_parser.rb:178-189 | the climb on a closing quote computes the step function's path and flags |
| TreeBuilder.NewNode | app/query_parser.rb:175-176 | `Kind.new` then `context << node` leaves the table equal to `Attach` of the old table, and returns the new node's index |
| QueryParser.KindValues | app/query_parser.rb:225-228 | `select { kind }.map(&:value)` yields strings exactly when every selected node's value is a string, and never more values than root children |
| QueryParser.Project | app/query_parser.rb:222-231 | the four lists together have exactly as many entries as the root has children |
| QueryParser.KindsPartition | app/query_parser.rb:225-228 | the four kind selections partition the root's children: their sizes sum to the number of children |
| QueryParser.ParseItems | app/query_parser.rb:123-128 | a query made of items parses to the items sorted by kind, each list in the items' order: phrases to `exact_matches`, `--word` and `--"phrase"` to `excludes`, plain words to `includes`, `+word` and `+"phrase"` to `must_include` |
| QueryParser.ChildrenValues | app/query_parser.rb:225-228 | over root children that stand for items, each kind's selection yields exactly the values of the items of that kind |
| QueryParser.BuildQuery | app/query_parser.rb:222-231 | `build_query` returns a new `Query` whose lists are the projection of the tree, and none exactly when some selected value is not a string |
| QueryParser.Parse | app/query_parser.rb:123-128 | `parse` returns a new `Query` whose lists are split, lex, build and project composed, and none exactly when that composition has none |
| ParserExamples.ShapeParse | spec/units/query_parser_spec.rb:38-46 | every query with the complex query's layout and plain words in it parses to its three plain words, one phrase with inner whitespace collapsed, a `+word` and a `+"phrase"`, and a `--word` and a `--"phrase"` |
| ParserExamples.ComplexQueryParse | spec/units/query_parser_spec.rb:38-46 | the complex query parses to includes `object, abc, reflective`, exact match `interpreted procedural`, excludes `array, interactive mode`, must-include `metaprogramming, Command line` |
| ParserCases.SpacedParse | spec/units/query_parser_spec.rb:10-13 | three plain words with runs of spaces around them all go to `includes`, in order, and nothing else is filled |
| ParserCases.MultipleWordsParse | spec/units/query_parser_spec.rb:10-13 | ` procedural  iterative  reflective ` parses to includes `procedural, iterative, reflective` |
| ParserCases.SingleWordShapeParse | spec/units/query_parser_spec.rb:5-8 | a lone plain word between spaces goes to `includes` and nothing else is filled |
| ParserCases.SingleWordParse | spec/units/query_parser_spec.rb:5-8 | ` procedural ` parses to includes `procedural` |
| ParserCases.ExcludedParse | spec/units/query_parser_spec.rb:21-25 | a plain word followed by two `--word`s: the word goes to `includes`, the excluded words, stripped of `--`, to `excludes` in order |
| ParserCases.ExcludedWordsParse | spec/units/query_parser_spec.rb:21-25 | ` procedural --reflective --metaprogramming` parses to includes `procedural` and excludes `reflective, metaprogramming` |
| Queries.Query.constructor | app/query.rb:10-15 | a new query holds exactly the four lists it was given |
| Queries.Query.Default | app/query.rb:10-15 | `Query.new` with no arguments holds four empty lists and is empty |
| Queries.Query.IsEmpty | app/query.rb:17-19 | `empty?` holds exactly when all four lists are empty |
| Queries.Query.SetExactMatches | app/query.rb:8 | the writer replaces `exact_matches` and leaves the other three lists as they were |
| Queries.Query.SetExcludes | app/query.rb:8 | the writer replaces `excludes` and leaves the other three lists as they were |
| Queries.Query.SetIncludes | app/query.rb:8 | the writer replaces `includes` and leaves the other three lists as they were |
| Queries.Query.SetMustInclude | app/query.rb:8 | the writer replaces `must_include` and leaves the other three lists as they were |
| Search.FirstMatch | app/search.rb:54 | the leftmost position at which the term occurs between word boundaries, or none when there is no such position |
| Search.MatchesStringFirst | app/search.rb:53-55 | `matches_string?` holds exactly when the leftmost-match search on the downcased strings finds a position |
| Search.MatchesStringInArray | app/search.rb:57-59 | holds exactly when some string of the array matches the term |
| Search.MatchesLanguageCase | app/search.rb:53-55 | matching ignores letter case: two terms equal after `downcase` match the same languages |
| Search.MustIncludeFilter | app/search.rb:61-69 | the result keeps the input's order, and a language appears in it as often as in the input when every term matches it, otherwise not at all |
| Search.ExcludesFilter | app/search.rb:71-79 | the result keeps the input's order, and a language appears in it as often as in the input when no term matches it, otherwise not at all |
| Search.MustIncludeFilterSnoc | app/search.rb:61-69 | one more language at the end of the input adds it at the end of the result exactly when every term matches it |
| Search.ExcludesFilterSnoc | app/search.rb:71-79 | one more language at the end of the input adds it at the end of the result exactly when no term matches it |
| Search.WordPoints | app/search.rb:93-97 | one include word earns at most 3 + 2 + 1 points and earns some exactly when it matches the name, a tag or an author; a matching name alone earns at least 3 |
| Search.Score | app/search.rb:87-100 | the points for a list of include words are at most six per word |
| Search.ScoreZero | app/search.rb:87-100 | a language scores nothing exactly when no include word matches it |
| Search.CalculatePoints | app/search.rb:87-100 | the loop over the include words computes the language's score |
| Search.Insert | app/search.rb:84 | inserting into a sorted list of keyed pairs keeps it sorted and adds exactly that pair |
| Search.SortByKey | app/search.rb:84 | `sort_by(&:first)` gives the same pairs, sorted by key |
| Search.RejectZeroCount | app/search.rb:84 | `reject { points == 0 }` keeps every pair with a non-zero key as often as it occurs and drops all others |
| Search.RejectZeroSorted | app/search.rb:84 | rejecting keeps a sorted list sorted |
| Search.Unpaired | app/search.rb:84 | `map(&:last)` takes the language of each pair, in order |
| Search.Ranking | app/search.rb:81-85 | the result is in non-increasing order of points, and holds each language exactly as often as the input when it has points, otherwise not at all |
| Search.UnpairKeyed | app/search.rb:82-84 | pairing each language with its negated points and then taking the languages back gives the input |
| Search.OrderLanguagesByRelevance | app/search.rb:81-85 | ranking by include words orders the result by non-increasing score, and keeps exactly the scoring languages with their multiplicities |
| Search.MustIncludeStage | app/search.rb:32-38 | a must-include stage is skipped for an empty list, and otherwise keeps in order exactly the languages every term matches |
| Search.ExcludesStage | app/search.rb:40-42 | the excludes stage is skipped for an empty list, and otherwise keeps in order exactly the languages no term matches |
| Search.RelevanceStage | app/search.rb:44-46 | the ranking stage returns its input unchanged without include words, and otherwise keeps exactly the scoring languages |
| Search.Perform | app/search.rb:25-49 | `perform` returns what the stages compute, and a query that is `empty?` returns the languages unchanged |
| Search.SearchedContents | app/search.rb:25-49 | a language is in the result as often as in the input when every must-include and exact term matches it, no exclude term does, and it scores when there are include words; otherwise it is absent |
| Search.SearchedFromInput | app/search.rb:25-49 | every language in the result came from the input and passes every stage |
| Search.SearchedOrder | app/search.rb:44-46 | with include words, the result is in non-increasing order of score |
| Search.SearchedKeepsOrder | app/search.rb:32-42 | without include words, the result is a subsequence of the input, in the input's order |
| Search.EmptyFiltersKeepAll | app/search.rb:61-79 | either filter with no terms returns its input unchanged |
| Search.NoIncludesRankNothing | app/search.rb:81-85 | ranking with no include words drops every language, which is why `perform` skips that stage for an empty list |
| SearchExamples.IncludesSearch | spec/units/search_spec.rb:49-53 | searching the test catalogue for includes `actionscript` returns only ActionScript |
| SearchExamples.ExcludesQuery | spec/units/search_spec.rb:55-59 | excluding `array` and `Curly-bracket` keeps Bash and BASIC, in catalogue order |
| SearchExamples.ExcludesSearch | spec/units/search_spec.rb:55-59 | a search with only those excludes returns Bash and BASIC |
| SearchExamples.ImperativeProceduralQuery | spec/units/search_spec.rb:61-71 | requiring `imperative` and `procedural` keeps BASIC and C, in catalogue order |
| SearchExamples.ImperativeProceduralSearch | spec/units/search_spec.rb:61-71 | those two terms as must-include, and as exact matches, both return BASIC and C |
| SearchExamples.ComplexSearch | spec/units/search_spec.rb:73-77 | the complex search returns only AWK |
| SearchExamples.CurlyBracketCase | spec/units/search_spec.rb:55-59 | `Curly-bracket` and `curly-bracket` match the same languages |

## Left out

- Loading the catalogue (`LanguagesLoader`, JSON parsing, `examples/from_json_file.rb`) and the command-line entry point are I/O. A catalogue is a parameter of the search, and the test catalogue is written out as constants.
- `matches_string?` builds a regular expression from the term, so in the source regular-expression metacharacters in a term (`c++`, `.`) take effect as pattern syntax.
  A term with an unbalanced `(` or `[` makes building that expression raise `RegexpError` (app/search.rb:54), an error path the model does not have.
  The model treats every term as literal text between `\b` boundaries.
- Search.Lower and Search.IsWordChar: `downcase` and `\w` are modelled for ASCII only. Non-ASCII letters keep their case and count as non-word characters.
- Search.Ranking: Ruby's `sort_by` is not stable, so the source leaves the order of languages with equal points open.
  The model sorts by insertion and promises only the non-increasing order of points and the multiset of languages.
- QueryParser.Parse: the model returns none instead of a query whenever some node value that `build_query` collects is not a string. The source instead runs on, in three ways:
  - A trailing bare operator (`foo --`, or `--` alone) has the value `nil`, so the source's list is `[nil]`. `[nil].any?` is false, so `perform` skips that stage (app/search.rb:32-42) and returns an ordinary result.
  - A phrase holding a node whose value is not a string still has a string value in the source. For example, `" -- "` holds an empty operator node: `join(' ')` turns that `nil` into `""`, and a node into its `to_s`. So the source stores `""` or such text in `exact_matches`.
  - A `NoMethodError` happens only when a node, or a `nil` next to other terms, reaches `downcase` in `matches_string?` (app/search.rb:53-55). This happens for example with `--` followed by a separate word, or `--a --`.
  The model's none covers all three cases, and none of these source behaviours is modelled.
- `Node#inspect`, `pretty_value`, `registered_node_types`, `add_children` and the unused `Nodes::Includes` are not modelled, because the parser never calls them.
- The `value=` writers of the node classes are not modelled, because the parser never calls them.
- Node objects and their `parent` references are a table of nodes with parent indices. The builder's `context` is the last entry of a path of ancestors, so object identity and sharing are not modelled.
- `Language` is a record of a name and two lists (tags and authors), which are all of its attributes; its loading code is not modelled.
- Search.Perform returns a sequence value. The source returns the very `languages` array for an empty query; the model shows only that the contents are equal.
- The query parser tests for a phrase with a hyphenated word (spec/units/query_parser_spec.rb:15-19) and for `--"…"`/`+"…"` phrases (lines 27-36) are not worked through as literal examples. Their layout is covered by QueryParser.ParseItems and, for glued phrases, by ParserExamples.ShapeParse.
