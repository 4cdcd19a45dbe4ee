/** Option and Result, the shapes JavaScript gives as `T | null | undefined` and as
    "returns a value or throws an Error". */
module Common {

  /** `None` stands for both `null` and `undefined`. */
  datatype Option<+T> = None | Some(value: T) {
    function GetOr(default: T): T {
      match this
      case Some(v) => v
      case None => default
    }
  }

  /** A computation that returns `value` or throws an error described by `error`. */
  datatype Result<+R, +E> = Success(value: R) | Failure(error: E)

  /** A check that passes or throws `error` (a function returning `void`). */
  datatype Outcome<+E> = Pass | Fail(error: E)
}
