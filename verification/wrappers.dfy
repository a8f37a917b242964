/** Small failure-carrying datatypes shared by every module of the model.
- Option<T> stands for a Go pointer or interface value that may be nil.
- Outcome<T, E> stands for the Go pair `(value, error)` of an operation whose
  value is meaningless when the error is non-nil.
 */
module Wrappers {

  datatype Option<+T> = None | Some(value: T)

  datatype Outcome<+T, +E> = Ok(value: T) | Err(error: E)

}
