/**
 This module defines the decoded JSON values the stream carries and the shape
 of the parser the engine is given. Parsing itself (Foundation's
 `JSONSerialization`) is not modelled: it is a parameter.
 */
module JsonValue {

  import opened Wrappers

  /** A decoded JSON value. Objects are maps, so equality is structural and
      independent of the order in which the keys were written. */
  datatype Json =
    | Null
    | Bool(b: bool)
    | Number(n: real)
    | Str(s: string)
    | Array(items: seq<Json>)
    | Object(fields: map<string, Json>)

  /** A parser of candidate slices: `Some` on a complete JSON text, `None`
      when the text does not parse (the caught error of the scan loop). Being
      a function value it is deterministic. */
  type Parser = seq<char> -> Option<Json>

  /** The one assumption the scan loop relies on: a lone closing brace is not
      a JSON text. */
  predicate RejectsLoneBrace(parse: Parser)
  {
    parse(['}']) == None
  }

}
