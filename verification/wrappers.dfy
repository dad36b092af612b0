/** Failure-carrying datatypes shared by the codec and the transcoder. */
module Wrappers {

  datatype Option<+T> = None | Some(value: T)

  /** Either a value or the error that prevented computing it. */
  datatype Result<+R, +E> = Success(value: R) | Failure(error: E)
}
