/** Failure-carrying values shared by the whole model.
    - Option<T>: Rust's Option.
    - Result<T, E>: Rust's Result; usable with `:-`, which plays the role of Rust's `?`.
    - Checked<T>: a computation that either yields a value or panics (an index out of
      bounds, a slice off a UTF-8 character boundary). A panic aborts the process, so it is
      kept apart from the error values a Result carries. */
module Outcomes {

  datatype Option<+T> = None | Some(value: T)

  datatype Result<+T, +E> = Ok(value: T) | Err(error: E) {
    predicate IsFailure() { Err? }

    function PropagateFailure<U>(): Result<U, E>
      requires Err?
    {
      Err(error)
    }

    function Extract(): T
      requires Ok?
    {
      value
    }
  }

  datatype Checked<+T> = Value(value: T) | Panicked(reason: string)
}
