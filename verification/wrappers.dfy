/** Option and Result datatypes used throughout the model:
    - Option<T> stands for a lookup that may find nothing (a JavaScript
      `undefined` result);
    - Result<R, E> stands for an operation that either returns a value or
      throws an error.
 */
module Wrappers {

  /** Either nothing (`None`) or a value (`Some`). */
  datatype Option<+T> = None | Some(value: T)

  /** Either a returned value (`Success`) or a thrown error (`Failure`). */
  datatype Result<+R, +E> = Success(value: R) | Failure(error: E)
}
