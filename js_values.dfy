/** The JavaScript values the import pipeline handles, and its error and result types. */
module JsValues {

  /** A value stored in a parsed record: a string cell, a numeric cell, or a nested mapping. */
  datatype Value =
    | Str(s: string)
    | Num(n: real)
    | Obj(fields: map<string, Value>)

  /** A parsed CSV line: a mapping from top-level keys to values. */
  type Record = map<string, Value>

  /** JavaScript truthiness on the values above: "" and 0 are falsy, every mapping is truthy. */
  predicate Truthy(v: Value) {
    match v
    case Str(s) => s != ""
    case Num(n) => n != 0.0
    case Obj(_) => true
  }

  /** Array.prototype.join: the parts with `sep` between neighbours. */
  function Join(parts: seq<string>, sep: string): string
    decreases |parts|
  {
    if |parts| == 0 then "" else if |parts| == 1 then parts[0] else parts[0] + sep + Join(parts[1..], sep)
  }

  datatype Option<+T> = None | Some(value: T)

  /** A thrown JavaScript error; only its `message` is observable by the importer. */
  datatype Error = Error(message: string)

  /** The settlement of a promise that carries no value. */
  datatype Outcome = Pass | Fail(error: Error)

  /** The settlement of a computation that returns a value or throws. */
  datatype Result<+T> = Success(value: T) | Failure(error: Error)

  /**
   * The engine's number conversions, left uninterpreted: `parse(s)` is `Number(s)`,
   * with None where that yields NaN, and `render(n)` is the text `${n}` produces.
   */
  datatype Numerals = Numerals(parse: string -> Option<real>, render: real -> string)
}
