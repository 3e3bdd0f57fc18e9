/** Optional values and fallible results, without error texts. */
module Results {
  datatype Option<+T> = None | Some(value: T)

  /** A result whose error carries no detail, for the source's `anyhow` errors. */
  datatype Result<+T> = Ok(value: T) | Err {
    predicate IsFailure() {
      Err?
    }

    function PropagateFailure<U>(): Result<U>
      requires Err?
    {
      Err
    }

    function Extract(): T
      requires Ok?
    {
      value
    }
  }
}
