/** The optional-value and outcome datatypes used across the model: `Option` stands for a
    JavaScript value that may be `null`/`undefined`, `Result` for an operation
    that is refused with a reason. */
module Wrappers {

  datatype Option<+T> = None | Some(value: T)

  datatype Result<+T, +E> = Success(value: T) | Failure(error: E)
}
