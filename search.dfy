/**
 * `Search` (app/search.rb): a fixed sequence of stages over a list of
 * languages. Two AND filters (`must_include`, then `exact_matches`), a NOR
 * filter (`excludes`), and for `includes` a relevance score that drops the
 * languages scoring nothing and orders the rest by descending score.
 */
module Search {
  import opened Wrappers
  import opened Collections
  import opened Languages
  import opened Queries

  // ---------------------------------------------------------------------------
  // matches_string? (app/search.rb:53-55)
  // ---------------------------------------------------------------------------

  /** `downcase` on one character, for ASCII letters. */
  function Lower(ch: char): char {
    if 'A' <= ch <= 'Z' then (ch as int + 32) as char else ch
  }

  /** `String#downcase`, for ASCII letters. */
  function Downcase(s: string): string {
    seq(|s|, i requires 0 <= i < |s| => Lower(s[i]))
  }

  /** A character of the regular-expression class `\w`. */
  predicate IsWordChar(ch: char) {
    'a' <= ch <= 'z' || 'A' <= ch <= 'Z' || '0' <= ch <= '9' || ch == '_'
  }

  /** `\b` at position `i`: a word character on exactly one side; outside the string counts as non-word. */
  predicate Boundary(s: string, i: nat)
    requires i <= |s|
  {
    (0 < i && IsWordChar(s[i - 1])) != (i < |s| && IsWordChar(s[i]))
  }

  /** `t` occurs in `s` at `i` with a word boundary on both sides, as `/\bt\b/` matches there. */
  predicate OccursAt(s: string, t: string, i: int) {
    0 <= i && i + |t| <= |s| && s[i..i + |t|] == t && Boundary(s, i) && Boundary(s, i + |t|)
  }

  /** The leftmost match at or after `from`, the position `=~` returns. */
  function FirstMatch(s: string, t: string, from: nat): (r: Option<nat>)
    ensures r.Some? ==> from <= r.value && OccursAt(s, t, r.value)
    ensures r.Some? ==> forall j :: from <= j < r.value ==> !OccursAt(s, t, j)
    ensures r.None? ==> forall j :: from <= j ==> !OccursAt(s, t, j)
    decreases |s| + 1 - from
  {
    if from + |t| > |s| then None
    else if OccursAt(s, t, from) then Some(from)
    else FirstMatch(s, t, from + 1)
  }

  /** `matches_string?`: the term occurs in the data, ignoring case, between word boundaries. */
  predicate MatchesString(data: string, input: string) {
    exists i :: 0 <= i <= |data| && OccursAt(Downcase(data), Downcase(input), i)
  }

  /** `=~` finds a match exactly when there is one, so `matches_string?` tests its result for `nil`. */
  lemma MatchesStringFirst(data: string, input: string)
    ensures MatchesString(data, input) <==> FirstMatch(Downcase(data), Downcase(input), 0).Some?
  {
  }

  /** `matches_string_in_array?`: some string of the array matches. */
  function MatchesStringInArray(data: seq<string>, input: string): (r: bool)
    ensures r <==> exists d <- data :: MatchesString(d, input)
    decreases |data|
  {
    if data == [] then false
    else
      assert data == [data[0]] + data[1..];
      MatchesString(data[0], input) || MatchesStringInArray(data[1..], input)
  }

  /** The test both filters apply to each string: the name, an author or a tag matches. */
  predicate MatchesLanguage(language: Language, input: string) {
    || MatchesString(language.name, input)
    || MatchesStringInArray(language.authors, input)
    || MatchesStringInArray(language.tags, input)
  }

  /** `downcase` on both sides: a term matches a language exactly when the term written in other letter cases does. */
  lemma MatchesLanguageCase(language: Language, input: string, other: string)
    requires Downcase(input) == Downcase(other)
    ensures MatchesLanguage(language, input) <==> MatchesLanguage(language, other)
  {
  }

  /** `strings.all? { … }`. */
  predicate MatchesAll(language: Language, strings: seq<string>) {
    forall s <- strings :: MatchesLanguage(language, s)
  }

  /** `strings.none? { … }`. */
  predicate MatchesNone(language: Language, strings: seq<string>) {
    forall s <- strings :: !MatchesLanguage(language, s)
  }

  // ---------------------------------------------------------------------------
  // The filters (app/search.rb:61-79)
  // ---------------------------------------------------------------------------

  /** `must_include_filter`: the languages every string matches, in their order. */
  function MustIncludeFilter(languages: seq<Language>, strings: seq<string>): (r: seq<Language>)
    ensures IsSubsequence(r, languages)
    ensures forall l :: multiset(r)[l] == if MatchesAll(l, strings) then multiset(languages)[l] else 0
  {
    SelectSubsequence(languages, l => MatchesAll(l, strings));
    SelectCount(languages, l => MatchesAll(l, strings));
    Select(languages, l => MatchesAll(l, strings))
  }

  /** `excludes_filter`: the languages no string matches, in their order. */
  function ExcludesFilter(languages: seq<Language>, strings: seq<string>): (r: seq<Language>)
    ensures IsSubsequence(r, languages)
    ensures forall l :: multiset(r)[l] == if MatchesNone(l, strings) then multiset(languages)[l] else 0
  {
    SelectSubsequence(languages, l => MatchesNone(l, strings));
    SelectCount(languages, l => MatchesNone(l, strings));
    Select(languages, l => MatchesNone(l, strings))
  }

  /** The filter on a list with one more language at the end. */
  lemma MustIncludeFilterSnoc(languages: seq<Language>, l: Language, strings: seq<string>)
    ensures MustIncludeFilter(languages + [l], strings) ==
      MustIncludeFilter(languages, strings) + if MatchesAll(l, strings) then [l] else []
  {
    SelectSnoc(languages, l, l => MatchesAll(l, strings));
  }

  lemma ExcludesFilterSnoc(languages: seq<Language>, l: Language, strings: seq<string>)
    ensures ExcludesFilter(languages + [l], strings) ==
      ExcludesFilter(languages, strings) + if MatchesNone(l, strings) then [l] else []
  {
    SelectSnoc(languages, l, l => MatchesNone(l, strings));
  }

  // ---------------------------------------------------------------------------
  // calculate_points_for_language (app/search.rb:87-100)
  // ---------------------------------------------------------------------------

  const NameMultiplier: nat := 3
  const TagMultiplier: nat := 2
  const AuthorMultiplier: nat := 1

  /** What one include word adds: 3 for the name, 2 for a tag, 1 for an author. */
  function WordPoints(language: Language, word: string): (p: nat)
    ensures p <= NameMultiplier + TagMultiplier + AuthorMultiplier
    ensures p > 0 <==> MatchesLanguage(language, word)
    ensures MatchesString(language.name, word) ==> p >= NameMultiplier
  {
    (if MatchesString(language.name, word) then NameMultiplier else 0)
    + (if MatchesStringInArray(language.tags, word) then TagMultiplier else 0)
    + (if MatchesStringInArray(language.authors, word) then AuthorMultiplier else 0)
  }

  /** The points of a language for the include words, summed word by word. */
  function Score(language: Language, words: seq<string>): (p: nat)
    ensures p <= (NameMultiplier + TagMultiplier + AuthorMultiplier) * |words|
    decreases |words|
  {
    if words == [] then 0
    else
      var init := words[..|words| - 1];
      assert words == init + [words[|words| - 1]];
      Score(language, init) + WordPoints(language, words[|words| - 1])
  }

  /** A language scores nothing exactly when no include word matches it. */
  lemma {:induction false} ScoreZero(language: Language, words: seq<string>)
    ensures Score(language, words) == 0 <==> MatchesNone(language, words)
    decreases |words|
  {
    if words != [] {
      var init, last := words[..|words| - 1], words[|words| - 1];
      assert words == init + [last];
      ScoreZero(language, init);
    }
  }

  /** `calculate_points_for_language`: the loop adds each word's points in turn. */
  method CalculatePoints(language: Language, includes: seq<string>) returns (points: nat)
    ensures points == Score(language, includes)
  {
    points := 0;
    for i := 0 to |includes|
      invariant points == Score(language, includes[..i])
    {
      var word := includes[i];
      assert includes[..i + 1][..i] == includes[..i];
      if MatchesString(language.name, word) {
        points := points + NameMultiplier;
      }
      if MatchesStringInArray(language.tags, word) {
        points := points + TagMultiplier;
      }
      if MatchesStringInArray(language.authors, word) {
        points := points + AuthorMultiplier;
      }
    }
    assert includes[..|includes|] == includes;
  }

  // ---------------------------------------------------------------------------
  // order_languages_by_relevance (app/search.rb:81-85)
  // ---------------------------------------------------------------------------

  /** The pair `[points * -1, language]`, with the points of a language given by `points`. */
  datatype Ranked = Ranked(key: int, language: Language)

  /** `languages.map { |language| [points * -1, language] }`. */
  function Keyed(languages: seq<Language>, points: Language -> nat): seq<Ranked>
    decreases |languages|
  {
    if languages == [] then []
    else [Ranked(-(points(languages[0]) as int), languages[0])] + Keyed(languages[1..], points)
  }

  predicate SortedByKey(ps: seq<Ranked>) {
    forall i, j :: 0 <= i < j < |ps| ==> ps[i].key <= ps[j].key
  }

  /** No key in `ps` is below `k`. */
  predicate KeysFrom(k: int, ps: seq<Ranked>) {
    forall q <- ps :: k <= q.key
  }

  /** A sorted sequence is its first pair, below all the others, before a sorted rest. */
  lemma SortedSplit(ps: seq<Ranked>)
    requires SortedByKey(ps) && ps != []
    ensures SortedByKey(ps[1..]) && KeysFrom(ps[0].key, ps[1..])
  {
    forall q <- ps[1..] ensures ps[0].key <= q.key {
      var j :| 0 <= j < |ps[1..]| && ps[1..][j] == q;
      assert ps[j + 1] == q;
    }
  }

  lemma SortedCons(x: Ranked, ps: seq<Ranked>)
    requires SortedByKey(ps) && KeysFrom(x.key, ps)
    ensures SortedByKey([x] + ps)
  {
    var r := [x] + ps;
    forall i, j | 0 <= i < j < |r| ensures r[i].key <= r[j].key {
      assert r[j] == ps[j - 1] && r[j] in ps;
      if 0 < i {
        assert r[i] == ps[i - 1];
      }
    }
  }

  /** The same pairs, so the same lower bounds. */
  lemma KeysFromSame(k: int, ps: seq<Ranked>, qs: seq<Ranked>)
    requires KeysFrom(k, ps) && multiset(qs) <= multiset(ps)
    ensures KeysFrom(k, qs)
  {
    forall q <- qs ensures k <= q.key {
      assert q in multiset(qs);
      assert q in multiset(ps);
    }
  }

  /** A pair no greater than the first of a sorted sequence can go before it. */
  lemma SortedFront(x: Ranked, ps: seq<Ranked>)
    requires SortedByKey(ps) && (ps == [] || x.key <= ps[0].key)
    ensures SortedByKey([x] + ps)
  {
    if ps != [] {
      SortedSplit(ps);
      assert ps == [ps[0]] + ps[1..];
    }
    SortedCons(x, ps);
  }

  /** The first pair of a sorted sequence can go before any sorted selection of the rest. */
  lemma SortedKept(ps: seq<Ranked>, rest: seq<Ranked>)
    requires ps != [] && multiset(rest) <= multiset(ps[1..])
    requires SortedByKey(ps[1..]) ==> SortedByKey(rest)
    ensures SortedByKey(ps) ==> SortedByKey([ps[0]] + rest)
  {
    if SortedByKey(ps) {
      SortedSplit(ps);
      KeysFromSame(ps[0].key, ps[1..], rest);
      SortedCons(ps[0], rest);
    }
  }

  /** One pair put in front of the first pair whose key is not smaller. */
  function Insert(x: Ranked, ps: seq<Ranked>): (r: seq<Ranked>)
    requires SortedByKey(ps)
    ensures SortedByKey(r) && multiset(r) == multiset(ps) + multiset{x}
    decreases |ps|
  {
    if ps == [] || x.key <= ps[0].key then
      SortedFront(x, ps);
      [x] + ps
    else
      SortedSplit(ps);
      var rest := Insert(x, ps[1..]);
      assert ps == [ps[0]] + ps[1..];
      KeysFromSame(ps[0].key, ps[1..] + [x], rest);
      SortedCons(ps[0], rest);
      [ps[0]] + rest
  }

  /** `sort_by(&:first)`: the pairs in ascending key order. */
  function SortByKey(ps: seq<Ranked>): (r: seq<Ranked>)
    ensures SortedByKey(r) && multiset(r) == multiset(ps)
    decreases |ps|
  {
    if ps == [] then []
    else
      assert ps == [ps[0]] + ps[1..];
      Insert(ps[0], SortByKey(ps[1..]))
  }

  /** `reject { |arr| arr.first == 0 }`; what it keeps is stated by the two lemmas below. */
  function RejectZero(ps: seq<Ranked>): seq<Ranked>
    decreases |ps|
  {
    if ps == [] then []
    else if ps[0].key == 0 then RejectZero(ps[1..])
    else [ps[0]] + RejectZero(ps[1..])
  }

  /** Only the pairs of zero key are dropped, each other pair as often as it occurs. */
  lemma {:induction false} RejectZeroCount(ps: seq<Ranked>)
    ensures forall p :: multiset(RejectZero(ps))[p] == if p.key != 0 then multiset(ps)[p] else 0
    decreases |ps|
  {
    if ps != [] {
      RejectZeroCount(ps[1..]);
      assert ps == [ps[0]] + ps[1..];
    }
  }

  /** Dropping pairs keeps the order of the others. */
  lemma {:induction false} RejectZeroSorted(ps: seq<Ranked>)
    requires SortedByKey(ps)
    ensures SortedByKey(RejectZero(ps))
    decreases |ps|
  {
    if ps != [] {
      SortedSplit(ps);
      RejectZeroSorted(ps[1..]);
      if ps[0].key != 0 {
        var rest := RejectZero(ps[1..]);
        RejectZeroCount(ps[1..]);
        assert multiset(rest) <= multiset(ps[1..]);
        SortedKept(ps, rest);
      }
    }
  }

  /** `map(&:last)`. */
  function Unpaired(ps: seq<Ranked>): (r: seq<Language>)
    ensures |r| == |ps| && forall i :: 0 <= i < |ps| ==> r[i] == ps[i].language
    decreases |ps|
  {
    if ps == [] then [] else [ps[0].language] + Unpaired(ps[1..])
  }

  /** Score, sort by negated score, drop the zeros, unpair. */
  function Ranking(languages: seq<Language>, points: Language -> nat): (r: seq<Language>)
    ensures forall i, j :: 0 <= i < j < |r| ==> points(r[i]) >= points(r[j])
    ensures forall l :: multiset(r)[l] == if points(l) > 0 then multiset(languages)[l] else 0
  {
    var keyed := Keyed(languages, points);
    var sorted := SortByKey(keyed);
    var kept := RejectZero(sorted);
    RejectZeroCount(sorted);
    RejectZeroSorted(sorted);
    KeyedHonest(languages, points);
    HonestSame(keyed, sorted, points);
    HonestRejected(sorted, kept, points);
    RelevanceCounts(languages, points, sorted, kept);
    RankedOrder(kept, points);
    Unpaired(kept)
  }

  /** Pairs sorted by negated score, unpaired, come highest score first. */
  lemma RankedOrder(ps: seq<Ranked>, points: Language -> nat)
    requires SortedByKey(ps) && Honest(ps, points)
    ensures forall i, j :: 0 <= i < j < |Unpaired(ps)| ==> points(Unpaired(ps)[i]) >= points(Unpaired(ps)[j])
  {
    var r := Unpaired(ps);
    forall i, j | 0 <= i < j < |r| ensures points(r[i]) >= points(r[j]) {
      assert ps[i] in ps && ps[j] in ps;
      assert ps[i].key <= ps[j].key;
    }
  }

  /** Every pair carries its own language's negated score. */
  ghost predicate Honest(ps: seq<Ranked>, points: Language -> nat) {
    forall p <- ps :: p.key == -(points(p.language) as int)
  }

  lemma {:induction false} KeyedHonest(languages: seq<Language>, points: Language -> nat)
    ensures Honest(Keyed(languages, points), points)
    decreases |languages|
  {
    if languages != [] {
      KeyedHonest(languages[1..], points);
    }
  }

  /** Unpairing gives the languages back. */
  lemma {:induction false} UnpairKeyed(languages: seq<Language>, points: Language -> nat)
    ensures Unpaired(Keyed(languages, points)) == languages
    decreases |languages|
  {
    if languages != [] {
      UnpairKeyed(languages[1..], points);
    }
  }

  /** Each language gives exactly one pair, the one with its own score `k`. */
  lemma KeyedCount(languages: seq<Language>, points: Language -> nat, l: Language, k: int)
    requires k == -(points(l) as int)
    ensures multiset(Keyed(languages, points))[Ranked(k, l)] == multiset(languages)[l]
  {
    var ps := Keyed(languages, points);
    KeyedHonest(languages, points);
    HonestKeys(ps, points, l, k);
    UnpairedCount(ps, l, k);
    UnpairKeyed(languages, points);
  }

  lemma HonestKeys(ps: seq<Ranked>, points: Language -> nat, l: Language, k: int)
    requires Honest(ps, points) && k == -(points(l) as int)
    ensures forall p <- ps :: p.language == l ==> p.key == k
  {
  }

  lemma HonestSame(ps: seq<Ranked>, qs: seq<Ranked>, points: Language -> nat)
    requires Honest(ps, points) && multiset(qs) == multiset(ps)
    ensures Honest(qs, points)
  {
    forall q <- qs ensures q.key == -(points(q.language) as int) {
      assert q in multiset(qs);
    }
  }

  lemma HonestRejected(ps: seq<Ranked>, qs: seq<Ranked>, points: Language -> nat)
    requires Honest(ps, points)
    requires forall p :: multiset(qs)[p] == if p.key != 0 then multiset(ps)[p] else 0
    ensures Honest(qs, points)
  {
    forall q <- qs ensures q.key == -(points(q.language) as int) {
      assert q in multiset(qs);
      assert q in multiset(ps);
    }
  }

  /** When every pair of `l` has key `k`, unpairing counts `l` by its pairs `Ranked(k, l)`. */
  lemma {:induction false} UnpairedCount(ps: seq<Ranked>, l: Language, k: int)
    requires forall p <- ps :: p.language == l ==> p.key == k
    ensures multiset(Unpaired(ps))[l] == multiset(ps)[Ranked(k, l)]
    decreases |ps|
  {
    if ps != [] {
      assert ps == [ps[0]] + ps[1..];
      forall p <- ps[1..] ensures p.language == l ==> p.key == k {
        assert p in ps;
      }
      UnpairedCount(ps[1..], l, k);
      assert Unpaired(ps) == [ps[0].language] + Unpaired(ps[1..]);
    }
  }

  lemma RelevanceCounts(languages: seq<Language>, points: Language -> nat, sorted: seq<Ranked>, kept: seq<Ranked>)
    requires multiset(sorted) == multiset(Keyed(languages, points))
    requires forall p :: multiset(kept)[p] == if p.key != 0 then multiset(sorted)[p] else 0
    requires Honest(kept, points)
    ensures forall l :: multiset(Unpaired(kept))[l] == if points(l) > 0 then multiset(languages)[l] else 0
  {
    forall l ensures multiset(Unpaired(kept))[l] == if points(l) > 0 then multiset(languages)[l] else 0 {
      KeyedCount(languages, points, l, -(points(l) as int));
      UnpairedCount(kept, l, -(points(l) as int));
      assert multiset(kept)[Ranked(-(points(l) as int), l)] ==
        if points(l) > 0 then multiset(sorted)[Ranked(-(points(l) as int), l)] else 0;
    }
  }

  /**
   * `order_languages_by_relevance`: the languages that score, highest score
   * first; those scoring nothing are gone.
   */
  function OrderLanguagesByRelevance(languages: seq<Language>, includes: seq<string>): (r: seq<Language>)
    ensures forall i, j :: 0 <= i < j < |r| ==> Score(r[i], includes) >= Score(r[j], includes)
    ensures forall l :: multiset(r)[l] == if Score(l, includes) > 0 then multiset(languages)[l] else 0
  {
    Ranking(languages, l => Score(l, includes))
  }

  // ---------------------------------------------------------------------------
  // perform (app/search.rb:25-49)
  // ---------------------------------------------------------------------------

  /** A `must_include_filter` stage, skipped when its list is empty (`any?` fails). */
  function MustIncludeStage(languages: seq<Language>, strings: seq<string>): (r: seq<Language>)
    ensures IsSubsequence(r, languages)
    ensures forall l :: multiset(r)[l] == if MatchesAll(l, strings) then multiset(languages)[l] else 0
  {
    SubsequenceRefl(languages);
    if strings != [] then MustIncludeFilter(languages, strings) else languages
  }

  /** The `excludes_filter` stage, skipped when its list is empty. */
  function ExcludesStage(languages: seq<Language>, strings: seq<string>): (r: seq<Language>)
    ensures IsSubsequence(r, languages)
    ensures forall l :: multiset(r)[l] == if MatchesNone(l, strings) then multiset(languages)[l] else 0
  {
    SubsequenceRefl(languages);
    if strings != [] then ExcludesFilter(languages, strings) else languages
  }

  /** The ranking stage, skipped when there are no include words. */
  function RelevanceStage(languages: seq<Language>, includes: seq<string>): (r: seq<Language>)
    ensures forall l :: multiset(r)[l] == if includes == [] || Score(l, includes) > 0 then multiset(languages)[l] else 0
    ensures includes == [] ==> r == languages
  {
    if includes != [] then OrderLanguagesByRelevance(languages, includes) else languages
  }

  /** What `perform` returns for a query with the given lists. */
  function Searched(terms: Terms, languages: seq<Language>): seq<Language> {
    if terms == NoTerms then languages
    else
      var a := MustIncludeStage(languages, terms.mustInclude);
      var b := MustIncludeStage(a, terms.exactMatches);
      var c := ExcludesStage(b, terms.excludes);
      RelevanceStage(c, terms.includes)
  }

  /** `Search.new(query, languages).perform`: each stage whose list is not empty replaces the languages. */
  method Perform(query: Query, languages: seq<Language>) returns (result: seq<Language>)
    ensures result == Searched(query.Value(), languages)
    ensures query.IsEmpty() ==> result == languages
  {
    result := languages;
    if query.IsEmpty() {
      return;
    }
    if query.mustInclude != [] {
      result := MustIncludeFilter(result, query.mustInclude);
    }
    if query.exactMatches != [] {
      result := MustIncludeFilter(result, query.exactMatches);
    }
    if query.excludes != [] {
      result := ExcludesFilter(result, query.excludes);
    }
    if query.includes != [] {
      result := OrderLanguagesByRelevance(result, query.includes);
    }
  }

  /**
   * What the stages together ask of one language: every `must_include` and
   * every `exact_matches` string matches it, no `excludes` string does, and
   * it scores when there are include words.
   */
  predicate Accepted(terms: Terms, language: Language) {
    && MatchesAll(language, terms.mustInclude)
    && MatchesAll(language, terms.exactMatches)
    && MatchesNone(language, terms.excludes)
    && (terms.includes != [] ==> Score(language, terms.includes) > 0)
  }

  /**
   * The search returns exactly the accepted languages, each as often as the
   * input holds it, whatever the query (an empty query accepts everything).
   */
  lemma SearchedContents(terms: Terms, languages: seq<Language>, l: Language)
    ensures multiset(Searched(terms, languages))[l] == if Accepted(terms, l) then multiset(languages)[l] else 0
  {
  }

  /** Every language of the result comes from the input. */
  lemma SearchedFromInput(terms: Terms, languages: seq<Language>, l: Language)
    requires l in Searched(terms, languages)
    ensures l in languages && Accepted(terms, l)
  {
    SearchedContents(terms, languages, l);
    assert l in multiset(Searched(terms, languages));
  }

  /** With include words, the result goes from the highest score down. */
  lemma SearchedOrder(terms: Terms, languages: seq<Language>, i: nat, j: nat)
    requires terms.includes != [] && i < j < |Searched(terms, languages)|
    ensures Score(Searched(terms, languages)[i], terms.includes) >= Score(Searched(terms, languages)[j], terms.includes)
  {
  }

  /** Without include words, the filters keep the input order. */
  lemma SearchedKeepsOrder(terms: Terms, languages: seq<Language>)
    requires terms.includes == []
    ensures IsSubsequence(Searched(terms, languages), languages)
  {
    if terms != NoTerms {
      var a := MustIncludeStage(languages, terms.mustInclude);
      var b := MustIncludeStage(a, terms.exactMatches);
      SubsequenceTrans(b, a, languages);
      SubsequenceTrans(ExcludesStage(b, terms.excludes), b, languages);
    } else {
      SubsequenceRefl(languages);
    }
  }

  /** An empty list makes its filter stage a no-op, so skipping it changes nothing. */
  lemma EmptyFiltersKeepAll(languages: seq<Language>)
    ensures MustIncludeFilter(languages, []) == languages
    ensures ExcludesFilter(languages, []) == languages
  {
    SelectAll(languages, l => MatchesAll(l, []));
    SelectAll(languages, l => MatchesNone(l, []));
  }

  /** With no include words every language scores nothing, so `any?` is needed before ranking. */
  lemma NoIncludesRankNothing(languages: seq<Language>)
    ensures OrderLanguagesByRelevance(languages, []) == []
  {
  }
}
