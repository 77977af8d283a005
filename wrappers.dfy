/** Option and Result, plus the JavaScript `a || b` choice between two optional values. */
module Wrappers {

  datatype Option<+T> = None | Some(value: T)

  datatype Result<+R, +E> = Success(value: R) | Failure(error: E)

  /** `a || b` where `undefined` is the only falsy value that can occur: keep `a` once it is set. */
  function OrElse<T>(a: Option<T>, b: Option<T>): Option<T>
  {
    if a.Some? then a else b
  }
}
