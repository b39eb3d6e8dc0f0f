/** Failure-carrying values used throughout the model: Go's `(T, error)`
    returns become `Result`, and Go's nil-or-error returns become `Option`. */
module Results {

  /** An optional value; `None` plays the role of Go's nil. */
  datatype Option<+T> = None | Some(value: T)

  /** Either a value or an error, as a Go function returning `(T, error)`. */
  datatype Result<+T, +E> = Success(value: T) | Failure(error: E)
}
