/** Option, the exceptions the modelled code can raise, and the shapes that carry them. */
module Wrappers {
  datatype Option<T> = None | Some(value: T)

  /** The exceptions of the source that the model keeps. */
  datatype Error =
    | ArgumentException      // a location path shorter than three characters
    | DivideByZeroException  // a progress divisor, or a progress total, of zero
    | IOException            // a scan root that cannot be enumerated, or a file that cannot be read
    | SqlException           // a statement the database rejects: a location path holding a single quote

  /** A value, or the exception raised instead of returning it. */
  datatype Result<T> = Success(value: T) | Failure(error: Error)

  /** How an operation without a result ended: normally, or by an exception. */
  datatype Outcome = Pass | Fail(error: Error)
}
