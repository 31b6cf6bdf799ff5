/** Optional values and results with an error message, the model's stand-in
    for C++ out-parameters that may stay unset and for thrown exceptions. */
module Outcomes {

  datatype Option<+T> = None | Some(value: T)

  /** `Failure` carries the message of the `std::runtime_error` the source throws. */
  datatype Result<+T> = Success(value: T) | Failure(message: string)
}
