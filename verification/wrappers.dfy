/** The two wrappers the model uses in place of the source's `Option` and
    `Result` types (and of JavaScript's `null`/`undefined` for optional
    values). */
module Wrappers {

  /** An optional value: Rust's `Option<T>`, or a possibly absent field. */
  datatype Option<+T> = None | Some(value: T) {

    /** `unwrap_or`: the value when present, `default` otherwise. */
    function GetOr(default: T): T
    {
      match this
      case Some(v) => v
      case None => default
    }
  }

  /** A success value or an error value: Rust's `Result<T, E>`. */
  datatype Result<+T, +E> = Success(value: T) | Failure(error: E)
}
