/** Result type used where the library throws. */
module Wrappers {

  /** Either a computed value or the error the library would have thrown. */
  datatype Result<+R, +E> = Success(value: R) | Failure(error: E)
}
