/** Failure-carrying values shared by the other modules. */
module Wrappers {

  datatype Option<+T> = None | Some(value: T)

  datatype Result<+T, +E> = Success(value: T) | Failure(error: E)

  /** The Python exceptions the modelled code can raise. */
  datatype PyError =
    | IndexError      // a list index out of range
    | AssertionError  // a failed `assert` statement
    | KeyError        // a dictionary lookup of a missing key
}
