/** Option and Result values standing for JavaScript's `undefined`/`null` and for thrown errors. */
module Wrappers {

  /** A value that may be missing (`undefined` or `null` in the source). */
  datatype Option<+T> = None | Some(value: T) {
    /** The value, or `default` when missing: the source's `x ?? default` / `x || default` on strings. */
    function GetOr(default: T): T {
      match this
      case Some(v) => v
      case None => default
    }
  }

  /** The outcome of a computation that may throw; `name` is the JavaScript error's `name`. */
  datatype Result<+T> = Ok(value: T) | Err(name: string)

  const TypeError := "TypeError"
  const SyntaxError := "SyntaxError"
  const AbortError := "AbortError"
}
