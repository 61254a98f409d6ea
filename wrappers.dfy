/** Option and Result values standing in for Go's `(value, error)` pairs.
    A Go `error` is modelled by its message, `err.Error()`. */
module Wrappers {

  datatype Option<+T> = None | Some(value: T)

  datatype Result<+T> = Ok(value: T) | Err(error: string)
}
