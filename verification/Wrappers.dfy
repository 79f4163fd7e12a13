/** Result shapes shared by the models. */
module Wrappers {

  datatype Option<+T> = None | Some(value: T)

  /** Outcome of an operation that the Go code ends with a nil or a non-nil error. */
  datatype Result<+T> = Ok(value: T) | Err

  datatype Status = Done | Failed
}
