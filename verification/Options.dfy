/** Optional values, and results of what can fail. */
module Options {
  datatype Option<+T> = None | Some(value: T)

  /** What a function gives, or the error it returns or throws. */
  datatype Result<+T, +E> = Ok(value: T) | Err(error: E) {
    predicate IsFailure() { Err? }

    function PropagateFailure<U>(): Result<U, E>
      requires Err?
    { Err(error) }

    function Extract(): T
      requires Ok?
    { value }
  }
}
