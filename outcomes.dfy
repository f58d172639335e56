/** The Rust `Option` and `Result` types, shared by the lexer and the
    parser. `Result` is failure-compatible, so `:-` stands in for Rust's `?`
    on it; `Option` is matched on explicitly. */
module Outcomes {

  datatype Option<+T> = None | Some(value: T)

  datatype Result<+T, +E> = Ok(value: T) | Err(error: E) {

    predicate IsFailure() {
      Err?
    }

    function PropagateFailure<U>(): Result<U, E>
      requires Err?
    {
      Err(error)
    }

    function Extract(): T
      requires Ok?
    {
      value
    }
  }
}
