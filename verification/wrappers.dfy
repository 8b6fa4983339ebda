/** Option and Result, the stock failure-compatible wrappers used across the model.
    `Err` stands for every place where the C code prints a message and calls exit(1). */
module Wrappers {

  datatype Option<T> = None | Some(value: T)

  datatype Result<T, E> = Ok(value: T) | Err(error: E) {
    predicate IsFailure() { Err? }

    function PropagateFailure<U>(): Result<U, E>
      requires Err?
    {
      Err(error)
    }

    function Extract(): T
      requires Ok?
    {
      value
    }
  }

  datatype Outcome<E> = Pass | Fail(error: E)
}
