/** Optional values and results with an error, the two ways the parsers report absence and contract violations. */
module Wrappers {

  /** A value that may be absent: `undefined` or `null` in the parsed records. */
  datatype Option<+T> = None | Some(value: T) {
    function GetOr(default: T): T {
      match this
      case Some(v) => v
      case None => default
    }
  }

  /** The outcome of code that may throw: `Failure` stands for the thrown error. */
  datatype Result<+T, +E> = Success(value: T) | Failure(error: E)

  /** The errors the parsers throw: a required attribute that is absent, text that is no member of an
      enumeration, and a medium that cannot be extracted although its support check passed. */
  datatype Thrown = MissingAttribute(name: string) | NotInEnum(text: string) | UnextractableMedium
}
