/** Optional values and results carrying either a value or an error, used in
    place of Python's `None` and of exceptions that escape an operation. */
module Outcomes {

  datatype Option<+T> = None | Some(value: T)

  datatype Result<+T, +E> = Success(value: T) | Failure(error: E)
}
