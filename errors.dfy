/** Outcomes of the library's operations: the string-carrying error of
    src/error.rs, and panics (an `unwrap` on a failed parse, an index out of
    bounds, a slice that does not fall on a character boundary), which the
    model reports as values instead of aborting. */
module Errors {

  datatype Error =
    | Failure(message: string)   // the library's `Error(&'static str)`
    | Panic(reason: string)      // a Rust panic in the modelled code

  datatype Option<+T> = None | Some(value: T)

  /** `Result<T>` of src/error.rs, usable with `:-` like Rust's `?`. */
  datatype Result<+T> = Ok(value: T) | Err(error: Error) {
    predicate IsFailure() {
      Err?
    }

    function PropagateFailure<U>(): Result<U>
      requires Err?
    {
      Err(error)
    }

    function Extract(): T
      requires Ok?
    {
      value
    }
  }
}
