/** Failure-compatible result types shared by the model. Java exceptions thrown by the
    modelled code become `Failure`/`Fail` values carrying the exception's kind. */
module Wrappers {

  datatype Option<+T> = None | Some(value: T)

  /** The Java exception classes the modelled code throws. */
  datatype Error =
    | IllegalArgument       // java.lang.IllegalArgumentException
    | IllegalState          // java.lang.IllegalStateException
    | UnsupportedOperation  // java.lang.UnsupportedOperationException
    | NoSuchElement         // java.util.NoSuchElementException (Iterator.next past the end)
    | IndexOutOfBounds      // java.lang.IndexOutOfBoundsException (List.get)

  /** A value, or the exception that was thrown instead. */
  datatype Result<+T> = Success(value: T) | Failure(error: Error)

  /** Normal completion of a void method, or the exception it threw. */
  datatype Outcome = Pass | Fail(error: Error)
}
