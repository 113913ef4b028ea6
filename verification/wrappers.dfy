/** Option and Result, plus the kinds of Python exception the scraper's
    extractors can raise. A `Result` is failure-compatible, so `:-` models
    an exception propagating out of an expression. */
module Wrappers {

  datatype Option<+T> = None | Some(value: T)

  /** What a Python extractor raises: a `WebDriverWait` that times out, an
      attribute read on the `None` that `find` returned, or an out-of-range
      list index. */
  datatype PyError = TimedOut | NoneAttribute | IndexError

  datatype Result<+T, +E> = Success(value: T) | Failure(error: E) {

    predicate IsFailure() {
      Failure?
    }

    function PropagateFailure<U>(): Result<U, E>
      requires Failure?
    {
      Failure(error)
    }

    function Extract(): T
      requires Success?
    {
      value
    }

    /** The value on success, `default` otherwise. */
    function GetOr(default: T): T {
      match this
      case Success(v) => v
      case Failure(_) => default
    }
  }
}
