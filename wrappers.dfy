/** Optional values (Java's nullable references and java.util.Optional) and
    results that carry either a value or the exception the library throws. */
module Wrappers {

  /** None stands for Java's null (or an empty Optional). */
  datatype Option<+T> = None | Some(value: T)

  /** The exceptions the modelled code throws, by kind. */
  datatype Failure =
    | NoSuchElement          // java.util.NoSuchElementException
    | IllegalArgument        // IllegalArgumentException
    | IndexOutOfBounds       // IndexOutOfBoundsException and ArrayIndexOutOfBoundsException
    | UnsupportedOperation   // UnsupportedOperationException
    | NullPointer            // NullPointerException (Objects.requireNonNull and friends)
    | IllegalState           // IllegalStateException

  /** Either the value an operation returns or the exception it throws. */
  datatype Result<+T> = Ok(value: T) | Err(error: Failure)
}
