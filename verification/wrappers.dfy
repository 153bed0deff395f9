/** Optional values and results with an error, shared by the carousel and product modules. */
module Wrappers {

  /** A value that may be absent: a DOM lookup that found nothing, an unset data attribute, no timer. */
  datatype Option<+T> = None | Some(value: T)

  /** The outcome of a handler that may throw before it has changed anything. */
  datatype Result<+R, +E> = Success(value: R) | Failure(error: E)
}
