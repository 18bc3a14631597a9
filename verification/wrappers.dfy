/** Failure-carrying values used by every stage of the sounding pipeline. */
module Wrappers {

  /** A value that may be absent. */
  datatype Option<T> = None | Some(value: T)

  /** The outcome of a step that either yields a value or stops with an error. */
  datatype Result<T, E> = Success(value: T) | Failure(error: E)
}
