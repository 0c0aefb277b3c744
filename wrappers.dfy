/**
 * The optional value used wherever the source returns null or signals end of
 * data, and the outcome of an operation that can throw.
 */
module Wrappers {

  datatype Option<+T> = None | Some(value: T)

  datatype Result<+T> = Success(value: T) | Failure(error: string)

}
