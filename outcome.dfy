// The two failure-carrying results the model uses: an optional value, and a
// value or the message of a fatal error (mooseError, which aborts the run).

module Outcome {

  datatype Option<T> = None | Some(value: T)

  datatype Result<T> = Ok(value: T) | Fatal(message: string)
}
