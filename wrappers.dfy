/** Failure-carrying results shared by the other modules. */
module Wrappers {

  /** A value that may be missing, such as the number `int.Parse` finds in a string. */
  datatype Option<+T> = None | Some(value: T)

  /** The value an operation computes, or the exception it raises instead. */
  datatype Result<+T, +E> = Ok(value: T) | Err(error: E)

  /** Completion of an operation that returns nothing, or the exception it raises. */
  datatype Outcome<+E> = Pass | Fail(error: E)
}
