/** Failure-carrying values shared by every module: Python's `None` and
    Python's exceptions, written as data. */
module Wrappers {

  datatype Option<T> = None | Some(value: T)

  /** The Python exception classes the modelled code raises or lets escape. */
  datatype Error =
    | ValueError
    | TypeError
    | KeyError
    | IndexError
    | IOError
    | AttributeError
    | AssertionError
    | NameError
    | NotImplementedError
    | StopIteration

  datatype Result<T> = Ok(value: T) | Err(error: Error) {
    predicate IsFailure() { Err? }

    function PropagateFailure<U>(): Result<U>
      requires Err?
    {
      Err(error)
    }

    function Extract(): T
      requires Ok?
    {
      value
    }
  }
}
