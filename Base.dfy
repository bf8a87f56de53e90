/** Shared failure-carrying datatypes: Java's null and thrown exceptions. */
module Base {

  /** A Java reference that may be null. */
  datatype Option<+T> = None | Some(value: T)

  /** The exceptions the connector raises or lets through. */
  datatype Exception =
    | TapException(message: string)
    | IllegalArgumentException(message: string)
    | NullPointerException
    | ArrayIndexOutOfBoundsException(index: int)

  /** A value, or the exception thrown instead of returning it. */
  datatype Result<+T> = Success(value: T) | Failure(error: Exception)

  /** Completion of a `void` method: normal return, or a thrown exception. */
  datatype Outcome = Pass | Fail(error: Exception)
}
