/** Failure-carrying values shared by the configuration parser and the
    site renderer. */
module Wrappers {

  /** A value that may be absent; models Python's `None`. */
  datatype Option<+T> = None | Some(value: T)

  /** Either a computed value or the error that aborted the computation;
      models a Python function that returns or raises. */
  datatype Result<+R, +E> = Success(value: R) | Failure(error: E)
}
