/** Failure-carrying results for the operations whose source raises an exception. */
module Wrappers {

  /** Why a Python operation of the model raises instead of returning. */
  datatype Error =
    | IndexOutOfRange     // a list index past the end (IndexError)
    | EmptyConcatenation  // numpy.concatenate of an empty list (ValueError)
    | ValueNotFound       // list.index of a value that is not there (ValueError)
    | EmptyReduction      // numpy.min of an empty list (ValueError)

  datatype Result<+T> = Ok(value: T) | Err(error: Error)

  datatype Option<+T> = None | Some(value: T)
}
