/** Value-or-absence and value-or-error datatypes shared by the model. */
module Wrappers {

  /** An optional value; stands in for a traversal that may or may not yield something. */
  datatype Option<+T> = None | Some(value: T)

  /** Either a value or the exception the Java code would have thrown. */
  datatype Result<+R, +E> = Success(value: R) | Failure(error: E)
}
