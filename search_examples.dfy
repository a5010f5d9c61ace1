/**
 * The search on the catalogue of spec/units/search_spec.rb:5-47: the single
 * include of lines 49-53 returns ActionScript, the excludes of lines 55-59
 * return bash and BASIC, the exact matches and must-includes of lines 61-71
 * return BASIC and C, and the complex query of lines 73-77 returns AWK alone.
 */
module SearchExamples {
  import opened Collections
  import opened Languages
  import opened Queries
  import opened Search

  const ActionScript := Language("ActionScript",
    ["Compiled", "Curly-bracket", "Procedural", "Reflective", "Scripting", "Object-oriented class-based"],
    ["Gary Grossman"])
  const Awk := Language("AWK", ["Curly-bracket", "Scripting"], ["Alfred Aho", "Peter Weinberger", "Brian Kernighan"])
  const B := Language("B", ["Curly-bracket"], ["Ken Thompson"])
  const Bash := Language("bash", ["Command line interface", "Scripting"], ["Brian Fox"])
  const Basic := Language("BASIC",
    ["Imperative", "Compiled", "Procedural", "Interactive mode", "Interpreted"],
    ["John George Kemeny", "Thomas Eugene Kurtz"])
  const C := Language("C", ["Compiled", "Curly-bracket", "Imperative", "Procedural"], ["Dennis Ritchie"])
  const Chapel := Language("Chapel", ["Array"], ["David Callahan", "Hans Zima", "Brad Chamberlain", "John Plevyak"])
  const Cilk := Language("Cilk", ["Curly-bracket"], ["MIT"])

  /** The eight languages, in the order the tests build them. */
  const Catalogue := [ActionScript] + [Awk] + [B] + [Bash] + [Basic] + [C] + [Chapel] + [Cilk]

  // ---------------------------------------------------------------------------
  // Matching single strings
  // ---------------------------------------------------------------------------

  /** No character of `d` is `c` once lowered. */
  predicate Lacks(d: string, c: char) {
    forall ch <- d :: Lower(ch) != c
  }

  /** A term cannot occur where one of its letters, in either case, is missing. */
  lemma Missing(data: string, term: string, k: nat)
    requires k < |term| && Lacks(data, Lower(term[k]))
    ensures !MatchesString(data, term)
  {
    forall i | 0 <= i <= |data| ensures !OccursAt(Downcase(data), Downcase(term), i) {
      if i + |term| <= |data| {
        assert Downcase(data)[i + k] == Lower(data[i + k]) && Downcase(term)[k] == Lower(term[k]);
        assert data[i + k] in data;
        assert Downcase(data)[i..i + |term|][k] != Downcase(term)[k];
      }
    }
  }

  /** The same for a list of strings that all lack the same letter. */
  lemma NoneMatch(data: seq<string>, term: string, k: nat)
    requires k < |term| && forall d <- data :: Lacks(d, Lower(term[k]))
    ensures forall d <- data :: !MatchesString(d, term)
  {
    forall d <- data ensures !MatchesString(d, term) {
      Missing(d, term, k);
    }
  }

  /** A language misses a term that none of its strings matches. */
  lemma LanguageMisses(l: Language, t: string)
    requires !MatchesString(l.name, t)
    requires forall d <- l.tags :: !MatchesString(d, t)
    requires forall d <- l.authors :: !MatchesString(d, t)
    ensures !MatchesLanguage(l, t)
  {
  }

  /** A string that is the term up to case matches it. */
  lemma Whole(data: string, term: string)
    requires Downcase(data) == Downcase(term) && data != [] && IsWordChar(data[0]) && IsWordChar(data[|data| - 1])
    ensures MatchesString(data, term)
  {
    assert Downcase(data)[0..|term|] == Downcase(term);
    assert OccursAt(Downcase(data), Downcase(term), 0);
  }

  lemma CurlyBracket()
    ensures MatchesString("Curly-bracket", "curly-bracket")
  {
    assert Downcase("Curly-bracket") == "curly-bracket" == Downcase("curly-bracket");
    Whole("Curly-bracket", "curly-bracket");
  }

  lemma Scripting()
    ensures MatchesString("Scripting", "scripting")
  {
    assert Downcase("Scripting") == "scripting" == Downcase("scripting");
    Whole("Scripting", "scripting");
  }

  /** `gary` starts `Gary Grossman` and a space ends it. */
  lemma Gary()
    ensures MatchesString("Gary Grossman", "gary")
  {
    assert Downcase("Gary Grossman")[0..4] == "gary" == Downcase("gary");
    assert OccursAt(Downcase("Gary Grossman"), Downcase("gary"), 0);
  }

  // ---------------------------------------------------------------------------
  // Matching languages
  // ---------------------------------------------------------------------------

  lemma CurlyBracketLanguages()
    ensures MatchesLanguage(ActionScript, "curly-bracket") && MatchesLanguage(Awk, "curly-bracket")
    ensures MatchesLanguage(B, "curly-bracket") && MatchesLanguage(C, "curly-bracket")
    ensures MatchesLanguage(Cilk, "curly-bracket")
  {
    CurlyBracket();
    assert "Curly-bracket" in ActionScript.tags && "Curly-bracket" in Awk.tags && "Curly-bracket" in B.tags;
    assert "Curly-bracket" in C.tags && "Curly-bracket" in Cilk.tags;
  }

  lemma ArrayChapel()
    ensures MatchesLanguage(Chapel, "array")
  {
    assert Downcase("Array") == "array" == Downcase("array");
    Whole("Array", "array");
    assert "Array" in Chapel.tags;
  }

  lemma ImperativeProcedural()
    ensures MatchesLanguage(Basic, "imperative") && MatchesLanguage(Basic, "procedural")
    ensures MatchesLanguage(C, "imperative") && MatchesLanguage(C, "procedural")
  {
    Imperative();
    Procedural();
    assert "Imperative" in Basic.tags && "Procedural" in Basic.tags;
    assert "Imperative" in C.tags && "Procedural" in C.tags;
  }

  lemma Imperative()
    ensures MatchesString("Imperative", "imperative")
  {
    assert Downcase("Imperative") == "imperative" == Downcase("imperative");
    Whole("Imperative", "imperative");
  }

  lemma Procedural()
    ensures MatchesString("Procedural", "procedural")
  {
    assert Downcase("Procedural") == "procedural" == Downcase("procedural");
    Whole("Procedural", "procedural");
  }

  lemma ActionScriptName()
    ensures MatchesLanguage(ActionScript, "actionscript")
  {
    assert Downcase("ActionScript") == "actionscript" == Downcase("actionscript");
    Whole("ActionScript", "actionscript");
  }

  /*
   * Each language below misses the term: every one of its strings lacks one
   * of the term's letters, in either case (the index into the term is the
   * last argument of `NoneMatch`).
   */


  lemma NoCurlyBracketBash()
    ensures !MatchesLanguage(Bash, "curly-bracket")
  {
    NoCurlyBracketBashPart1();
    NoCurlyBracketBashPart2();
    LanguageMisses(Bash, "curly-bracket");
  }

  lemma NoCurlyBracketBashPart1()
    ensures forall d <- ["bash", "Command line interface"] :: !MatchesString(d, "curly-bracket")
  {
    NoneMatch(["bash", "Command line interface"], "curly-bracket", 1);
  }

  lemma NoCurlyBracketBashPart2()
    ensures forall d <- ["Scripting", "Brian Fox"] :: !MatchesString(d, "curly-bracket")
  {
    NoneMatch(["Scripting", "Brian Fox"], "curly-bracket", 1);
  }

  lemma NoCurlyBracketBasic()
    ensures !MatchesLanguage(Basic, "curly-bracket")
  {
    NoCurlyBracketBasicPart1();
    NoCurlyBracketBasicPart2();
    NoCurlyBracketBasicPart3();
    NoCurlyBracketBasicPart4();
    LanguageMisses(Basic, "curly-bracket");
  }

  lemma NoCurlyBracketBasicPart1()
    ensures forall d <- ["BASIC", "Imperative", "Compiled", "Procedural"] :: !MatchesString(d, "curly-bracket")
  {
    NoneMatch(["BASIC", "Imperative", "Compiled", "Procedural"], "curly-bracket", 5);
  }

  lemma NoCurlyBracketBasicPart2()
    ensures forall d <- ["Interactive mode", "Interpreted"] :: !MatchesString(d, "curly-bracket")
  {
    NoneMatch(["Interactive mode", "Interpreted"], "curly-bracket", 5);
  }

  lemma NoCurlyBracketBasicPart3()
    ensures forall d <- ["John George Kemeny"] :: !MatchesString(d, "curly-bracket")
  {
    NoneMatch(["John George Kemeny"], "curly-bracket", 5);
  }

  lemma NoCurlyBracketBasicPart4()
    ensures forall d <- ["Thomas Eugene Kurtz"] :: !MatchesString(d, "curly-bracket")
  {
    NoneMatch(["Thomas Eugene Kurtz"], "curly-bracket", 5);
  }

  lemma NoCurlyBracketChapel()
    ensures !MatchesLanguage(Chapel, "curly-bracket")
  {
    NoCurlyBracketChapelPart1();
    NoCurlyBracketChapelPart2();
    LanguageMisses(Chapel, "curly-bracket");
  }

  lemma NoCurlyBracketChapelPart1()
    ensures forall d <- ["Chapel", "Array", "David Callahan", "Hans Zima"] :: !MatchesString(d, "curly-bracket")
  {
    NoneMatch(["Chapel", "Array", "David Callahan", "Hans Zima"], "curly-bracket", 1);
  }

  lemma NoCurlyBracketChapelPart2()
    ensures forall d <- ["Brad Chamberlain", "John Plevyak"] :: !MatchesString(d, "curly-bracket")
  {
    NoneMatch(["Brad Chamberlain", "John Plevyak"], "curly-bracket", 1);
  }

  lemma NoGaryAwk()
    ensures !MatchesLanguage(Awk, "gary")
  {
    NoGaryAwkPart1();
    NoGaryAwkPart2();
    NoGaryAwkPart3();
    LanguageMisses(Awk, "gary");
  }

  lemma NoGaryAwkPart1()
    ensures forall d <- ["AWK", "Scripting", "Alfred Aho"] :: !MatchesString(d, "gary")
  {
    NoneMatch(["AWK", "Scripting", "Alfred Aho"], "gary", 3);
  }

  lemma NoGaryAwkPart2()
    ensures forall d <- ["Peter Weinberger", "Brian Kernighan"] :: !MatchesString(d, "gary")
  {
    NoneMatch(["Peter Weinberger", "Brian Kernighan"], "gary", 3);
  }

  lemma NoGaryAwkPart3()
    ensures forall d <- ["Curly-bracket"] :: !MatchesString(d, "gary")
  {
    NoneMatch(["Curly-bracket"], "gary", 0);
  }

  lemma NoGaryB()
    ensures !MatchesLanguage(B, "gary")
  {
    NoneMatch(["B", "Curly-bracket", "Ken Thompson"], "gary", 0);
    LanguageMisses(B, "gary");
  }

  lemma NoGaryC()
    ensures !MatchesLanguage(C, "gary")
  {
    NoGaryCPart1();
    NoGaryCPart2();
    LanguageMisses(C, "gary");
  }

  lemma NoGaryCPart1()
    ensures forall d <- ["C", "Compiled", "Curly-bracket", "Imperative"] :: !MatchesString(d, "gary")
  {
    NoneMatch(["C", "Compiled", "Curly-bracket", "Imperative"], "gary", 0);
  }

  lemma NoGaryCPart2()
    ensures forall d <- ["Procedural", "Dennis Ritchie"] :: !MatchesString(d, "gary")
  {
    NoneMatch(["Procedural", "Dennis Ritchie"], "gary", 0);
  }

  lemma NoGaryCilk()
    ensures !MatchesLanguage(Cilk, "gary")
  {
    NoneMatch(["Cilk", "Curly-bracket", "MIT"], "gary", 0);
    LanguageMisses(Cilk, "gary");
  }

  lemma NoScriptingB()
    ensures !MatchesLanguage(B, "scripting")
  {
    NoneMatch(["B", "Curly-bracket", "Ken Thompson"], "scripting", 3);
    LanguageMisses(B, "scripting");
  }

  lemma NoScriptingC()
    ensures !MatchesLanguage(C, "scripting")
  {
    NoScriptingCPart1();
    NoScriptingCPart2();
    LanguageMisses(C, "scripting");
  }

  lemma NoScriptingCPart1()
    ensures forall d <- ["C", "Compiled", "Curly-bracket", "Imperative"] :: !MatchesString(d, "scripting")
  {
    NoneMatch(["C", "Compiled", "Curly-bracket", "Imperative"], "scripting", 8);
  }

  lemma NoScriptingCPart2()
    ensures forall d <- ["Procedural", "Dennis Ritchie"] :: !MatchesString(d, "scripting")
  {
    NoneMatch(["Procedural", "Dennis Ritchie"], "scripting", 8);
  }

  lemma NoScriptingCilk()
    ensures !MatchesLanguage(Cilk, "scripting")
  {
    NoneMatch(["Cilk", "Curly-bracket", "MIT"], "scripting", 0);
    LanguageMisses(Cilk, "scripting");
  }

  lemma NoArrayBash()
    ensures !MatchesLanguage(Bash, "array")
  {
    NoArrayBashPart1();
    NoArrayBashPart2();
    LanguageMisses(Bash, "array");
  }

  lemma NoArrayBashPart1()
    ensures forall d <- ["bash", "Command line interface"] :: !MatchesString(d, "array")
  {
    NoneMatch(["bash", "Command line interface"], "array", 4);
  }

  lemma NoArrayBashPart2()
    ensures forall d <- ["Scripting", "Brian Fox"] :: !MatchesString(d, "array")
  {
    NoneMatch(["Scripting", "Brian Fox"], "array", 4);
  }

  lemma NoArrayBasic()
    ensures !MatchesLanguage(Basic, "array")
  {
    NoArrayBasicPart1();
    NoArrayBasicPart2();
    NoArrayBasicPart3();
    NoArrayBasicPart4();
    LanguageMisses(Basic, "array");
  }

  lemma NoArrayBasicPart1()
    ensures forall d <- ["BASIC", "Imperative", "Compiled", "Procedural"] :: !MatchesString(d, "array")
  {
    NoneMatch(["BASIC", "Imperative", "Compiled", "Procedural"], "array", 4);
  }

  lemma NoArrayBasicPart2()
    ensures forall d <- ["Interactive mode", "Interpreted"] :: !MatchesString(d, "array")
  {
    NoneMatch(["Interactive mode", "Interpreted"], "array", 4);
  }

  lemma NoArrayBasicPart3()
    ensures forall d <- ["Thomas Eugene Kurtz"] :: !MatchesString(d, "array")
  {
    NoneMatch(["Thomas Eugene Kurtz"], "array", 4);
  }

  lemma NoArrayBasicPart4()
    ensures forall d <- ["John George Kemeny"] :: !MatchesString(d, "array")
  {
    NoneMatch(["John George Kemeny"], "array", 0);
  }

  lemma NoImperativeActionScript()
    ensures !MatchesLanguage(ActionScript, "imperative")
  {
    NoImperativeActionScriptPart1();
    NoImperativeActionScriptPart2();
    NoImperativeActionScriptPart3();
    NoImperativeActionScriptPart4();
    NoImperativeActionScriptPart5();
    LanguageMisses(ActionScript, "imperative");
  }

  lemma NoImperativeActionScriptPart1()
    ensures forall d <- ["ActionScript", "Compiled", "Curly-bracket"] :: !MatchesString(d, "imperative")
  {
    NoneMatch(["ActionScript", "Compiled", "Curly-bracket"], "imperative", 8);
  }

  lemma NoImperativeActionScriptPart2()
    ensures forall d <- ["Procedural", "Scripting"] :: !MatchesString(d, "imperative")
  {
    NoneMatch(["Procedural", "Scripting"], "imperative", 8);
  }

  lemma NoImperativeActionScriptPart3()
    ensures forall d <- ["Object-oriented class-based"] :: !MatchesString(d, "imperative")
  {
    NoneMatch(["Object-oriented class-based"], "imperative", 8);
  }

  lemma NoImperativeActionScriptPart4()
    ensures forall d <- ["Gary Grossman"] :: !MatchesString(d, "imperative")
  {
    NoneMatch(["Gary Grossman"], "imperative", 8);
  }

  lemma NoImperativeActionScriptPart5()
    ensures forall d <- ["Reflective"] :: !MatchesString(d, "imperative")
  {
    NoneMatch(["Reflective"], "imperative", 1);
  }

  lemma NoImperativeAwk()
    ensures !MatchesLanguage(Awk, "imperative")
  {
    NoImperativeAwkPart1();
    NoImperativeAwkPart2();
    NoImperativeAwkPart3();
    LanguageMisses(Awk, "imperative");
  }

  lemma NoImperativeAwkPart1()
    ensures forall d <- ["AWK", "Curly-bracket", "Scripting"] :: !MatchesString(d, "imperative")
  {
    NoneMatch(["AWK", "Curly-bracket", "Scripting"], "imperative", 1);
  }

  lemma NoImperativeAwkPart2()
    ensures forall d <- ["Alfred Aho", "Peter Weinberger"] :: !MatchesString(d, "imperative")
  {
    NoneMatch(["Alfred Aho", "Peter Weinberger"], "imperative", 1);
  }

  lemma NoImperativeAwkPart3()
    ensures forall d <- ["Brian Kernighan"] :: !MatchesString(d, "imperative")
  {
    NoneMatch(["Brian Kernighan"], "imperative", 1);
  }

  lemma NoImperativeB()
    ensures !MatchesLanguage(B, "imperative")
  {
    NoneMatch(["B", "Curly-bracket", "Ken Thompson"], "imperative", 0);
    LanguageMisses(B, "imperative");
  }

  lemma NoImperativeBash()
    ensures !MatchesLanguage(Bash, "imperative")
  {
    NoImperativeBashPart1();
    NoImperativeBashPart2();
    LanguageMisses(Bash, "imperative");
  }

  lemma NoImperativeBashPart1()
    ensures forall d <- ["bash", "Command line interface"] :: !MatchesString(d, "imperative")
  {
    NoneMatch(["bash", "Command line interface"], "imperative", 8);
  }

  lemma NoImperativeBashPart2()
    ensures forall d <- ["Scripting", "Brian Fox"] :: !MatchesString(d, "imperative")
  {
    NoneMatch(["Scripting", "Brian Fox"], "imperative", 8);
  }

  lemma NoImperativeChapel()
    ensures !MatchesLanguage(Chapel, "imperative")
  {
    NoImperativeChapelPart1();
    NoImperativeChapelPart2();
    LanguageMisses(Chapel, "imperative");
  }

  lemma NoImperativeChapelPart1()
    ensures forall d <- ["Chapel", "Array", "David Callahan", "Hans Zima"] :: !MatchesString(d, "imperative")
  {
    NoneMatch(["Chapel", "Array", "David Callahan", "Hans Zima"], "imperative", 6);
  }

  lemma NoImperativeChapelPart2()
    ensures forall d <- ["Brad Chamberlain", "John Plevyak"] :: !MatchesString(d, "imperative")
  {
    NoneMatch(["Brad Chamberlain", "John Plevyak"], "imperative", 6);
  }

  lemma NoImperativeCilk()
    ensures !MatchesLanguage(Cilk, "imperative")
  {
    NoneMatch(["Cilk", "Curly-bracket", "MIT"], "imperative", 2);
    LanguageMisses(Cilk, "imperative");
  }

  lemma NoActionScriptAwk()
    ensures !MatchesLanguage(Awk, "actionscript")
  {
    NoActionScriptAwkPart1();
    NoActionScriptAwkPart2();
    NoActionScriptAwkPart3();
    LanguageMisses(Awk, "actionscript");
  }

  lemma NoActionScriptAwkPart1()
    ensures forall d <- ["AWK", "Curly-bracket", "Scripting"] :: !MatchesString(d, "actionscript")
  {
    NoneMatch(["AWK", "Curly-bracket", "Scripting"], "actionscript", 4);
  }

  lemma NoActionScriptAwkPart2()
    ensures forall d <- ["Peter Weinberger", "Brian Kernighan"] :: !MatchesString(d, "actionscript")
  {
    NoneMatch(["Peter Weinberger", "Brian Kernighan"], "actionscript", 4);
  }

  lemma NoActionScriptAwkPart3()
    ensures forall d <- ["Alfred Aho"] :: !MatchesString(d, "actionscript")
  {
    NoneMatch(["Alfred Aho"], "actionscript", 1);
  }

  lemma NoActionScriptB()
    ensures !MatchesLanguage(B, "actionscript")
  {
    NoneMatch(["B", "Curly-bracket", "Ken Thompson"], "actionscript", 3);
    LanguageMisses(B, "actionscript");
  }

  lemma NoActionScriptBash()
    ensures !MatchesLanguage(Bash, "actionscript")
  {
    NoActionScriptBashPart1();
    NoActionScriptBashPart2();
    NoActionScriptBashPart3();
    LanguageMisses(Bash, "actionscript");
  }

  lemma NoActionScriptBashPart1()
    ensures forall d <- ["bash", "Command line interface"] :: !MatchesString(d, "actionscript")
  {
    NoneMatch(["bash", "Command line interface"], "actionscript", 10);
  }

  lemma NoActionScriptBashPart2()
    ensures forall d <- ["Brian Fox"] :: !MatchesString(d, "actionscript")
  {
    NoneMatch(["Brian Fox"], "actionscript", 10);
  }

  lemma NoActionScriptBashPart3()
    ensures forall d <- ["Scripting"] :: !MatchesString(d, "actionscript")
  {
    NoneMatch(["Scripting"], "actionscript", 0);
  }

  lemma NoActionScriptBasic()
    ensures !MatchesLanguage(Basic, "actionscript")
  {
    NoActionScriptBasicPart1();
    NoActionScriptBasicPart2();
    NoActionScriptBasicPart3();
    NoActionScriptBasicPart4();
    LanguageMisses(Basic, "actionscript");
  }

  lemma NoActionScriptBasicPart1()
    ensures forall d <- ["Imperative", "Compiled", "Procedural"] :: !MatchesString(d, "actionscript")
  {
    NoneMatch(["Imperative", "Compiled", "Procedural"], "actionscript", 6);
  }

  lemma NoActionScriptBasicPart2()
    ensures forall d <- ["Interactive mode", "Interpreted"] :: !MatchesString(d, "actionscript")
  {
    NoneMatch(["Interactive mode", "Interpreted"], "actionscript", 6);
  }

  lemma NoActionScriptBasicPart3()
    ensures forall d <- ["John George Kemeny"] :: !MatchesString(d, "actionscript")
  {
    NoneMatch(["John George Kemeny"], "actionscript", 6);
  }

  lemma NoActionScriptBasicPart4()
    ensures forall d <- ["BASIC", "Thomas Eugene Kurtz"] :: !MatchesString(d, "actionscript")
  {
    NoneMatch(["BASIC", "Thomas Eugene Kurtz"], "actionscript", 10);
  }

  lemma NoActionScriptC()
    ensures !MatchesLanguage(C, "actionscript")
  {
    NoActionScriptCPart1();
    NoActionScriptCPart2();
    NoActionScriptCPart3();
    LanguageMisses(C, "actionscript");
  }

  lemma NoActionScriptCPart1()
    ensures forall d <- ["C", "Compiled", "Curly-bracket", "Imperative"] :: !MatchesString(d, "actionscript")
  {
    NoneMatch(["C", "Compiled", "Curly-bracket", "Imperative"], "actionscript", 5);
  }

  lemma NoActionScriptCPart2()
    ensures forall d <- ["Procedural"] :: !MatchesString(d, "actionscript")
  {
    NoneMatch(["Procedural"], "actionscript", 5);
  }

  lemma NoActionScriptCPart3()
    ensures forall d <- ["Dennis Ritchie"] :: !MatchesString(d, "actionscript")
  {
    NoneMatch(["Dennis Ritchie"], "actionscript", 0);
  }

  lemma NoActionScriptChapel()
    ensures !MatchesLanguage(Chapel, "actionscript")
  {
    NoActionScriptChapelPart1();
    NoActionScriptChapelPart2();
    LanguageMisses(Chapel, "actionscript");
  }

  lemma NoActionScriptChapelPart1()
    ensures forall d <- ["Chapel", "Array", "David Callahan", "Hans Zima"] :: !MatchesString(d, "actionscript")
  {
    NoneMatch(["Chapel", "Array", "David Callahan", "Hans Zima"], "actionscript", 2);
  }

  lemma NoActionScriptChapelPart2()
    ensures forall d <- ["Brad Chamberlain", "John Plevyak"] :: !MatchesString(d, "actionscript")
  {
    NoneMatch(["Brad Chamberlain", "John Plevyak"], "actionscript", 2);
  }

  lemma NoActionScriptCilk()
    ensures !MatchesLanguage(Cilk, "actionscript")
  {
    NoneMatch(["Cilk", "Curly-bracket", "MIT"], "actionscript", 4);
    LanguageMisses(Cilk, "actionscript");
  }

  // ---------------------------------------------------------------------------
  // The stages on any languages
  // ---------------------------------------------------------------------------

  /** The selected elements of a short sequence, taken one at a time. */
  function Kept<T>(x: T, keep: T -> bool): seq<T> {
    if keep(x) then [x] else []
  }

  /** Selection from five elements keeps the passing ones in order. */
  lemma SelectOfFive<T>(x1: T, x2: T, x3: T, x4: T, x5: T, keep: T -> bool)
    ensures Select([x1] + [x2] + [x3] + [x4] + [x5], keep) ==
      Kept(x1, keep) + Kept(x2, keep) + Kept(x3, keep) + Kept(x4, keep) + Kept(x5, keep)
  {
    var s1 := [x1];
    assert [] + [x1] == s1;
    SelectSnoc([], x1, keep);
    assert Select(s1, keep) == Kept(x1, keep);
    var s2 := s1 + [x2];
    SelectSnoc(s1, x2, keep);
    var s3 := s2 + [x3];
    SelectSnoc(s2, x3, keep);
    var s4 := s3 + [x4];
    SelectSnoc(s3, x4, keep);
    var s5 := s4 + [x5];
    SelectSnoc(s4, x5, keep);
  }

  /** The same for eight elements. */
  lemma SelectOfEight<T>(x1: T, x2: T, x3: T, x4: T, x5: T, x6: T, x7: T, x8: T, keep: T -> bool)
    ensures Select([x1] + [x2] + [x3] + [x4] + [x5] + [x6] + [x7] + [x8], keep) ==
      Kept(x1, keep) + Kept(x2, keep) + Kept(x3, keep) + Kept(x4, keep) + Kept(x5, keep)
      + Kept(x6, keep) + Kept(x7, keep) + Kept(x8, keep)
  {
    var s5 := [x1] + [x2] + [x3] + [x4] + [x5];
    SelectOfFive(x1, x2, x3, x4, x5, keep);
    var s6 := s5 + [x6];
    SelectSnoc(s5, x6, keep);
    var s7 := s6 + [x7];
    SelectSnoc(s6, x7, keep);
    var s8 := s7 + [x8];
    SelectSnoc(s7, x8, keep);
  }

  /** The filter on eight languages of which the first, second, third, sixth and eighth match `t`. */
  lemma MustIncludeFive(x1: Language, x2: Language, x3: Language, x4: Language,
                        x5: Language, x6: Language, x7: Language, x8: Language, t: string)
    requires MatchesLanguage(x1, t) && MatchesLanguage(x2, t) && MatchesLanguage(x3, t)
    requires !MatchesLanguage(x4, t) && !MatchesLanguage(x5, t) && MatchesLanguage(x6, t)
    requires !MatchesLanguage(x7, t) && MatchesLanguage(x8, t)
    ensures MustIncludeFilter([x1] + [x2] + [x3] + [x4] + [x5] + [x6] + [x7] + [x8], [t]) ==
      [x1] + [x2] + [x3] + [x6] + [x8]
  {
    var keep := l => MatchesAll(l, [t]);
    KeptWhenMatches(x1, t);
    KeptWhenMatches(x2, t);
    KeptWhenMatches(x3, t);
    KeptWhenMatches(x4, t);
    KeptWhenMatches(x5, t);
    KeptWhenMatches(x6, t);
    KeptWhenMatches(x7, t);
    KeptWhenMatches(x8, t);
    SelectOfEight(x1, x2, x3, x4, x5, x6, x7, x8, keep);
    var front := Kept(x1, keep) + Kept(x2, keep) + Kept(x3, keep) + Kept(x4, keep) + Kept(x5, keep);
    assert front == [x1] + [x2] + [x3];
    assert front + Kept(x6, keep) + Kept(x7, keep) == [x1] + [x2] + [x3] + [x6];
  }

  /** A language passes the filter on a single term exactly when it matches that term. */
  lemma KeptWhenMatches(x: Language, t: string)
    ensures Kept(x, l => MatchesAll(l, [t])) == if MatchesLanguage(x, t) then [x] else []
  {
    assert MatchesAll(x, [t]) <==> MatchesLanguage(x, t) by {
      assert t in [t];
    }
  }

  /** The excludes filter on five languages of which only the first matches `t`. */
  lemma ExcludesFirst(x1: Language, x2: Language, x3: Language, x4: Language, x5: Language, t: string)
    requires MatchesLanguage(x1, t) && !MatchesLanguage(x2, t) && !MatchesLanguage(x3, t)
    requires !MatchesLanguage(x4, t) && !MatchesLanguage(x5, t)
    ensures ExcludesFilter([x1] + [x2] + [x3] + [x4] + [x5], [t]) == [x2] + [x3] + [x4] + [x5]
  {
    var keep := l => MatchesNone(l, [t]);
    KeptWhenMisses(x1, t);
    KeptWhenMisses(x2, t);
    KeptWhenMisses(x3, t);
    KeptWhenMisses(x4, t);
    KeptWhenMisses(x5, t);
    SelectOfFive(x1, x2, x3, x4, x5, keep);
    assert Kept(x1, keep) + Kept(x2, keep) == [x2];
  }

  /** A language passes the excludes filter on a single term exactly when it misses that term. */
  lemma KeptWhenMisses(x: Language, t: string)
    ensures Kept(x, l => MatchesNone(l, [t])) == if MatchesLanguage(x, t) then [] else [x]
  {
    assert MatchesNone(x, [t]) <==> !MatchesLanguage(x, t) by {
      assert t in [t];
    }
  }

  /** A language meets the must-include condition on two terms exactly when it matches both. */
  lemma MatchesBoth(x: Language, t1: string, t2: string)
    ensures MatchesAll(x, [t1, t2]) <==> MatchesLanguage(x, t1) && MatchesLanguage(x, t2)
  {
    assert t1 in [t1, t2] && t2 in [t1, t2];
  }

  /** A language meets the excludes condition on two terms exactly when it misses both. */
  lemma MissesBoth(x: Language, t1: string, t2: string)
    ensures MatchesNone(x, [t1, t2]) <==> !MatchesLanguage(x, t1) && !MatchesLanguage(x, t2)
  {
    assert t1 in [t1, t2] && t2 in [t1, t2];
  }

  /** The filter on two terms over eight languages of which only the fifth and sixth match both. */
  lemma MustIncludeMiddle(x1: Language, x2: Language, x3: Language, x4: Language,
                          x5: Language, x6: Language, x7: Language, x8: Language, t1: string, t2: string)
    requires !MatchesLanguage(x1, t1) && !MatchesLanguage(x2, t1) && !MatchesLanguage(x3, t1)
    requires !MatchesLanguage(x4, t1) && !MatchesLanguage(x7, t1) && !MatchesLanguage(x8, t1)
    requires MatchesLanguage(x5, t1) && MatchesLanguage(x5, t2)
    requires MatchesLanguage(x6, t1) && MatchesLanguage(x6, t2)
    ensures MustIncludeFilter([x1] + [x2] + [x3] + [x4] + [x5] + [x6] + [x7] + [x8], [t1, t2]) == [x5] + [x6]
  {
    MatchesBoth(x1, t1, t2);
    MatchesBoth(x2, t1, t2);
    MatchesBoth(x3, t1, t2);
    MatchesBoth(x4, t1, t2);
    MatchesBoth(x5, t1, t2);
    MatchesBoth(x6, t1, t2);
    MatchesBoth(x7, t1, t2);
    MatchesBoth(x8, t1, t2);
    SelectFifthSixth(x1, x2, x3, x4, x5, x6, x7, x8, l => MatchesAll(l, [t1, t2]));
  }

  /** The excludes filter on two terms over eight languages of which only the fourth and fifth miss both. */
  lemma ExcludesMiddle(x1: Language, x2: Language, x3: Language, x4: Language,
                       x5: Language, x6: Language, x7: Language, x8: Language, t1: string, t2: string)
    requires MatchesLanguage(x1, t2) && MatchesLanguage(x2, t2) && MatchesLanguage(x3, t2)
    requires MatchesLanguage(x6, t2) && MatchesLanguage(x7, t1) && MatchesLanguage(x8, t2)
    requires !MatchesLanguage(x4, t1) && !MatchesLanguage(x4, t2)
    requires !MatchesLanguage(x5, t1) && !MatchesLanguage(x5, t2)
    ensures ExcludesFilter([x1] + [x2] + [x3] + [x4] + [x5] + [x6] + [x7] + [x8], [t1, t2]) == [x4] + [x5]
  {
    MissesBoth(x1, t1, t2);
    MissesBoth(x2, t1, t2);
    MissesBoth(x3, t1, t2);
    MissesBoth(x4, t1, t2);
    MissesBoth(x5, t1, t2);
    MissesBoth(x6, t1, t2);
    MissesBoth(x7, t1, t2);
    MissesBoth(x8, t1, t2);
    SelectFourthFifth(x1, x2, x3, x4, x5, x6, x7, x8, l => MatchesNone(l, [t1, t2]));
  }

  /** Selection from eight elements of which only the fifth and sixth pass. */
  lemma SelectFifthSixth<T>(x1: T, x2: T, x3: T, x4: T, x5: T, x6: T, x7: T, x8: T, keep: T -> bool)
    requires !keep(x1) && !keep(x2) && !keep(x3) && !keep(x4) && keep(x5) && keep(x6) && !keep(x7) && !keep(x8)
    ensures Select([x1] + [x2] + [x3] + [x4] + [x5] + [x6] + [x7] + [x8], keep) == [x5] + [x6]
  {
    SelectOfEight(x1, x2, x3, x4, x5, x6, x7, x8, keep);
    var front := Kept(x1, keep) + Kept(x2, keep) + Kept(x3, keep) + Kept(x4, keep);
    assert front == [];
    assert front + Kept(x5, keep) + Kept(x6, keep) == [x5] + [x6];
  }

  /** Selection from eight elements of which only the fourth and fifth pass. */
  lemma SelectFourthFifth<T>(x1: T, x2: T, x3: T, x4: T, x5: T, x6: T, x7: T, x8: T, keep: T -> bool)
    requires !keep(x1) && !keep(x2) && !keep(x3) && keep(x4) && keep(x5) && !keep(x6) && !keep(x7) && !keep(x8)
    ensures Select([x1] + [x2] + [x3] + [x4] + [x5] + [x6] + [x7] + [x8], keep) == [x4] + [x5]
  {
    SelectOfEight(x1, x2, x3, x4, x5, x6, x7, x8, keep);
    var front := Kept(x1, keep) + Kept(x2, keep) + Kept(x3, keep);
    assert front == [];
    assert front + Kept(x4, keep) + Kept(x5, keep) == [x4] + [x5];
  }

  /** The ranking of eight languages of which only the first earns points. */
  lemma RankFirstOfEight(x1: Language, x2: Language, x3: Language, x4: Language,
                         x5: Language, x6: Language, x7: Language, x8: Language, points: Language -> nat)
    requires points(x1) > 0 && points(x2) == 0 && points(x3) == 0 && points(x4) == 0
    requires points(x5) == 0 && points(x6) == 0 && points(x7) == 0 && points(x8) == 0
    ensures Ranking([x1] + [x2] + [x3] + [x4] + [x5] + [x6] + [x7] + [x8], points) == [x1]
  {
    assert [x1] + [x2] + [x3] + [x4] + [x5] + [x6] + [x7] + [x8] == [x1] + [x2, x3, x4, x5, x6, x7, x8];
    RankAlone(x1, [x2, x3, x4, x5, x6, x7, x8], points);
  }

  /** The ranking of four languages of which only the first earns points. */
  lemma RankFirst(x1: Language, x2: Language, x3: Language, x4: Language, points: Language -> nat)
    requires points(x1) > 0 && points(x2) == 0 && points(x3) == 0 && points(x4) == 0
    ensures Ranking([x1] + [x2] + [x3] + [x4], points) == [x1]
  {
    assert [x1] + [x2] + [x3] + [x4] == [x1] + [x2, x3, x4];
    RankAlone(x1, [x2, x3, x4], points);
  }

  /** Languages of which only the first earns points: the ranking is that one alone. */
  lemma RankAlone(x: Language, rest: seq<Language>, points: Language -> nat)
    requires points(x) > 0 && forall y <- rest :: points(y) == 0
    ensures Ranking([x] + rest, points) == [x]
  {
    OnlyEarner(Ranking([x] + rest, points), x, rest, points);
  }

  /** A sequence holding each earning element of `[x] + rest` as often as it occurs there, and nothing else. */
  lemma OnlyEarner(r: seq<Language>, x: Language, rest: seq<Language>, points: Language -> nat)
    requires points(x) > 0 && forall y <- rest :: points(y) == 0
    requires forall l :: multiset(r)[l] == if points(l) > 0 then multiset([x] + rest)[l] else 0
    ensures r == [x]
  {
    forall l ensures multiset(r)[l] == multiset{x}[l] {
      if points(l) > 0 {
        assert l !in rest;
        assert multiset([x] + rest)[l] == multiset{x}[l] + multiset(rest)[l];
      } else {
        assert l != x;
      }
    }
    assert multiset(r) == multiset{x};
    assert |r| == 1;
    assert r[0] in multiset(r);
  }

  // ---------------------------------------------------------------------------
  // The queries of spec/units/search_spec.rb:49-77
  // ---------------------------------------------------------------------------

  /** must_include `curly-bracket`, excludes `gary`, includes `scripting`. */
  const ComplexTerms := Terms([], ["gary"], ["scripting"], ["curly-bracket"])

  lemma ComplexMustInclude()
    ensures MustIncludeFilter(Catalogue, ["curly-bracket"]) == [ActionScript] + [Awk] + [B] + [C] + [Cilk]
  {
    CurlyBracketLanguages();
    NoCurlyBracketBash();
    NoCurlyBracketBasic();
    NoCurlyBracketChapel();
    MustIncludeFive(ActionScript, Awk, B, Bash, Basic, C, Chapel, Cilk, "curly-bracket");
  }

  lemma ComplexExcludes()
    ensures ExcludesFilter([ActionScript] + [Awk] + [B] + [C] + [Cilk], ["gary"]) == [Awk] + [B] + [C] + [Cilk]
  {
    Gary();
    assert "Gary Grossman" in ActionScript.authors;
    NoGaryAwk();
    NoGaryB();
    NoGaryC();
    NoGaryCilk();
    ExcludesFirst(ActionScript, Awk, B, C, Cilk, "gary");
  }

  lemma ComplexRanking()
    ensures OrderLanguagesByRelevance([Awk] + [B] + [C] + [Cilk], ["scripting"]) == [Awk]
  {
    ScriptingScores();
    RankFirst(Awk, B, C, Cilk, l => Score(l, ["scripting"]));
  }

  /** Only AWK scores for `scripting`. */
  lemma ScriptingScores()
    ensures Score(Awk, ["scripting"]) > 0 && Score(B, ["scripting"]) == 0
    ensures Score(C, ["scripting"]) == 0 && Score(Cilk, ["scripting"]) == 0
  {
    ScriptingAwk();
    ScoresOne(Awk, "scripting");
    NoScriptingB();
    ScoresOne(B, "scripting");
    NoScriptingC();
    ScoresOne(C, "scripting");
    NoScriptingCilk();
    ScoresOne(Cilk, "scripting");
  }

  lemma ScriptingAwk()
    ensures MatchesLanguage(Awk, "scripting")
  {
    Scripting();
    assert Awk.tags[1] == "Scripting";
  }

  /** A one-word query scores a language exactly when the word matches it. */
  lemma ScoresOne(l: Language, w: string)
    ensures Score(l, [w]) > 0 <==> MatchesLanguage(l, w)
  {
    ScoreZero(l, [w]);
  }

  /** The complex query returns AWK alone. */
  lemma ComplexSearch()
    ensures Searched(ComplexTerms, Catalogue) == [Awk]
  {
    ComplexMustInclude();
    ComplexExcludes();
    ComplexRanking();
  }

  /** `Curly-bracket` and `curly-bracket` match the same languages, the match ignoring case. */
  lemma CurlyBracketCase(l: Language)
    ensures MatchesLanguage(l, "Curly-bracket") <==> MatchesLanguage(l, "curly-bracket")
  {
    assert Downcase("Curly-bracket") == "curly-bracket" == Downcase("curly-bracket");
    MatchesLanguageCase(l, "Curly-bracket", "curly-bracket");
  }

  /** includes `actionscript`: only ActionScript scores. */
  lemma IncludesRanking()
    ensures OrderLanguagesByRelevance(Catalogue, ["actionscript"]) == [ActionScript]
  {
    ActionScriptScores();
    RankFirstOfEight(ActionScript, Awk, B, Bash, Basic, C, Chapel, Cilk, l => Score(l, ["actionscript"]));
  }

  /** Only ActionScript scores for `actionscript`. */
  lemma ActionScriptScores()
    ensures Score(ActionScript, ["actionscript"]) > 0
    ensures Score(Awk, ["actionscript"]) == 0 && Score(B, ["actionscript"]) == 0
    ensures Score(Bash, ["actionscript"]) == 0 && Score(Basic, ["actionscript"]) == 0
    ensures Score(C, ["actionscript"]) == 0 && Score(Chapel, ["actionscript"]) == 0
    ensures Score(Cilk, ["actionscript"]) == 0
  {
    ActionScriptName();
    ScoresOne(ActionScript, "actionscript");
    NoActionScriptAwk();
    ScoresOne(Awk, "actionscript");
    NoActionScriptB();
    ScoresOne(B, "actionscript");
    NoActionScriptBash();
    ScoresOne(Bash, "actionscript");
    NoActionScriptBasic();
    ScoresOne(Basic, "actionscript");
    NoActionScriptC();
    ScoresOne(C, "actionscript");
    NoActionScriptChapel();
    ScoresOne(Chapel, "actionscript");
    NoActionScriptCilk();
    ScoresOne(Cilk, "actionscript");
  }

  /** The query with the single include `actionscript` returns ActionScript. */
  lemma IncludesSearch()
    ensures Searched(Terms([], [], ["actionscript"], []), Catalogue) == [ActionScript]
  {
    IncludesRanking();
  }

  /** excludes `array` and `Curly-bracket`: only bash and BASIC miss both. */
  lemma ExcludesQuery()
    ensures ExcludesFilter(Catalogue, ["array", "Curly-bracket"]) == [Bash] + [Basic]
  {
    CurlyBracketLanguages();
    CurlyBracketCase(ActionScript);
    CurlyBracketCase(Awk);
    CurlyBracketCase(B);
    CurlyBracketCase(C);
    CurlyBracketCase(Cilk);
    ArrayChapel();
    NoArrayBash();
    NoCurlyBracketBash();
    CurlyBracketCase(Bash);
    NoArrayBasic();
    NoCurlyBracketBasic();
    CurlyBracketCase(Basic);
    ExcludesMiddle(ActionScript, Awk, B, Bash, Basic, C, Chapel, Cilk, "array", "Curly-bracket");
  }

  /** The query excluding `array` and `Curly-bracket` returns bash and BASIC, in that order. */
  lemma ExcludesSearch()
    ensures Searched(Terms([], ["array", "Curly-bracket"], [], []), Catalogue) == [Bash, Basic]
  {
    ExcludesQuery();
  }

  /** `imperative` and `procedural` together: only BASIC and C match both. */
  lemma ImperativeProceduralQuery()
    ensures MustIncludeFilter(Catalogue, ["imperative", "procedural"]) == [Basic] + [C]
  {
    ImperativeProcedural();
    NoImperativeActionScript();
    NoImperativeAwk();
    NoImperativeB();
    NoImperativeBash();
    NoImperativeChapel();
    NoImperativeCilk();
    MustIncludeMiddle(ActionScript, Awk, B, Bash, Basic, C, Chapel, Cilk, "imperative", "procedural");
  }

  /** The same two words as must-includes or as exact matches return BASIC and C, in that order. */
  lemma ImperativeProceduralSearch()
    ensures Searched(Terms([], [], [], ["imperative", "procedural"]), Catalogue) == [Basic, C]
    ensures Searched(Terms(["imperative", "procedural"], [], [], []), Catalogue) == [Basic, C]
  {
    ImperativeProceduralQuery();
  }
}
