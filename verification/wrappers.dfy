/** Failure-carrying results for the operations of the model.  The source
    signals failures by raising Python exceptions; each exception class the
    modelled code can raise is one constructor of `Error`. */
module Wrappers {

  datatype Option<+T> = None | Some(value: T)

  /** The Python exception classes the modelled code raises. */
  datatype Error =
    | KeyError(key: string)
    | ValueError(message: string)
    | NotImplementedError(message: string)
    | IndexError
    | ZeroDivisionError
    | AttributeError

  datatype Result<+T> = Ok(value: T) | Err(error: Error) {

    predicate IsFailure() {
      Err?
    }

    function PropagateFailure<U>(): Result<U>
      requires Err?
    {
      Err(error)
    }

    function Extract(): T
      requires Ok?
    {
      value
    }
  }
}
