/** `Language` (app/language.rb): a record with no behaviour of its own. */
module Languages {

  /** One language of the catalogue: its name, its tags and its authors. */
  datatype Language = Language(name: string, tags: seq<string>, authors: seq<string>)
}
