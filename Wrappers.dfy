/** Option and Result datatypes shared by the model's modules. */
module Wrappers {

  /** An optional value: JavaScript's `undefined`/`null` versus a present value. */
  datatype Option<+T> = None | Some(value: T) {
    /** The value, or `default` when there is none (JavaScript's `x || default` on strings). */
    function GetOr(default: T): T {
      match this
      case Some(v) => v
      case None => default
    }
  }

  /** Either a value or the error that a JavaScript expression would throw. */
  datatype Result<+R, +E> = Success(value: R) | Failure(error: E)
}
