/** Option and Result values used throughout the model: `None` stands for a
    null pointer or a missing key, `Failure` for an exception the source throws
    (its message is kept as text). */
module Wrappers {

  datatype Option<+T> = None | Some(value: T)

  datatype Result<+T> = Success(value: T) | Failure(error: string)
}
