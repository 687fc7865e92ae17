/** Failure-carrying results used throughout the model. */
module Wrappers {

  /** A value that may be absent: the model of a Java method that returns `null`. */
  datatype Option<T> = None | Some(value: T)

  /** The outcome of a Java call that either returns a value or throws.
      The exception class and its message are not modelled: every throw is `Err`. */
  datatype Result<T> = Ok(value: T) | Err {

    predicate IsFailure() {
      Err?
    }

    function PropagateFailure<U>(): Result<U>
      requires Err?
    {
      Err
    }

    function Extract(): T
      requires Ok?
    {
      value
    }
  }
}
