/** The exceptions the core throws, as values: a Kotlin `throw` becomes a returned
    `Failure(e)` or `Some(e)` in this model. */
module Exceptions {
  import opened Wrappers

  /** What the string scanners throw on malformed input. */
  datatype ParseError =
    | StringIndexOutOfBounds                  // `substring` with a range outside the text
    | IndexOutOfBounds                        // `list[i]` past the end of a list
    | NoSuchElement                           // `first()` of an empty text or list
    | ImpossibleValue(found: char, rest: string)
      // removeComma's "received impossible value: $first - expected a comma instead: $rest"

  /** What a handler, a waiter or the dispatch itself throws. */
  datatype Throwable =
    | ApplicationFailure(detail: Option<string>)   // thrown by application code or the payload codec
    | NullResponseId                             // `responseId!!` on an envelope without an id
    | ResponseStoreException(text: string)       // ResponseStorable found no waiter
    | WSResponseException(cause: Throwable, text: string)
  {
    /** Kotlin `Throwable.message`. */
    function Message(): Option<string> {
      match this
      case ApplicationFailure(t) => t
      case NullResponseId => None
      case ResponseStoreException(t) => Some(t)
      case WSResponseException(_, t) => Some(t)
    }
  }

  /** Kotlin's string template of a nullable string: the value, or "null". */
  function ShowNullable(o: Option<string>): string {
    match o
    case None => "null"
    case Some(v) => v
  }

  function ShowBool(b: bool): string {
    if b then "true" else "false"
  }
}
