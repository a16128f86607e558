/** Small failure-carrying datatypes shared by the other modules.
    `Option` stands for a .NET reference that may be null, `Result` for a
    call that either returns a value or throws an exception. */
module Wrappers {

  /** A value that may be absent (a null reference in the source). */
  datatype Option<+T> = None | Some(value: T)

  /** The outcome of a call: its return value, or the exception it throws. */
  datatype Result<+R, +E> = Success(value: R) | Failure(error: E)
}
