/**
 * `Query` (app/query.rb): the four lists of search options that the parser
 * produces and the search consumes.
 */
module Queries {

  /** The contents of a `Query`, as a value. */
  datatype Terms = Terms(
    exactMatches: seq<string>,
    excludes: seq<string>,
    includes: seq<string>,
    mustInclude: seq<string>)

  /** The contents of `Query.new` called with no arguments. */
  const NoTerms := Terms([], [], [], [])

  class Query {
    var exactMatches: seq<string>
    var excludes: seq<string>
    var includes: seq<string>
    var mustInclude: seq<string>

    /** `Query.new(exact_matches:, excludes:, includes:, must_include:)`: each argument is stored as given. */
    constructor (exactMatches: seq<string>, excludes: seq<string>, includes: seq<string>, mustInclude: seq<string>)
      ensures Value() == Terms(exactMatches, excludes, includes, mustInclude)
    {
      this.exactMatches := exactMatches;
      this.excludes := excludes;
      this.includes := includes;
      this.mustInclude := mustInclude;
    }

    /** `Query.new` with every keyword argument defaulted to `[]`. */
    constructor Default()
      ensures Value() == NoTerms && IsEmpty()
    {
      exactMatches, excludes, includes, mustInclude := [], [], [], [];
    }

    /** The four lists as one value. */
    function Value(): Terms
      reads this
    {
      Terms(exactMatches, excludes, includes, mustInclude)
    }

    /** `empty?`: all four lists are empty. */
    predicate IsEmpty()
      reads this
      ensures IsEmpty() <==> Value() == NoTerms
    {
      exactMatches == [] && excludes == [] && includes == [] && mustInclude == []
    }

    /** `exact_matches=`: only that list changes. */
    method SetExactMatches(v: seq<string>)
      modifies this
      ensures Value() == old(Value()).(exactMatches := v)
    {
      exactMatches := v;
    }

    /** `excludes=`: only that list changes. */
    method SetExcludes(v: seq<string>)
      modifies this
      ensures Value() == old(Value()).(excludes := v)
    {
      excludes := v;
    }

    /** `includes=`: only that list changes. */
    method SetIncludes(v: seq<string>)
      modifies this
      ensures Value() == old(Value()).(includes := v)
    {
      includes := v;
    }

    /** `must_include=`: only that list changes. */
    method SetMustInclude(v: seq<string>)
      modifies this
      ensures Value() == old(Value()).(mustInclude := v)
    {
      mustInclude := v;
    }
  }
}
