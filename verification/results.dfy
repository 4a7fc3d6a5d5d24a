/** Values standing in for Java's null references and thrown exceptions. */
module Results {

  /** A reference that may be null: `None` plays the part of null. */
  datatype Option<+T> = None | Some(value: T)

  /** Either the value a call returns or the exception it throws instead. */
  datatype Result<+R, +E> = Success(value: R) | Failure(error: E)
}
