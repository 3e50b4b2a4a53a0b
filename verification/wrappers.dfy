/** Failure-carrying result types used where the Go code halts the process
    (`log.Fatal`, `panic`, `exitOnError`): the model returns the reason instead. */
module Wrappers {

  datatype Option<+T> = None | Some(value: T)

  datatype Result<+T, +E> = Ok(value: T) | Err(error: E)

  datatype Outcome<+E> = Pass | Fail(error: E)
}
