/** The JavaScript built-ins whose behaviour the model does not define, taken as
    parameters (oracles): the regular-expression engine, the WHATWG `URL` parser,
    `parseInt` and `JSON.parse`. Each answers either a failure (`None`, standing
    for a thrown exception or `NaN`) or a result, so that every "exception
    becomes false" in the source is an explicit branch of the model. */
module Platform {
  import opened Wrappers

  /** `new RegExp(source, "i")`: `None` when construction throws, otherwise the
      (case-insensitive, searching) `test` function of the compiled expression. */
  type RegexEngine = string -> Option<string -> bool>

  /** The parts of a parsed `URL` that the source reads. */
  datatype UrlParts = UrlParts(
    origin: string,
    hostname: string,
    pathname: string,
    search: string,
    hash: string)

  /** `new URL(text)`: `None` when the constructor throws. */
  type UrlParser = string -> Option<UrlParts>

  /** `parseInt(text)`: `None` for `NaN`. */
  type IntParser = string -> Option<int>
}
