/** Exceptions as values: one constructor per exception class the modelled code throws. */
module Results {

  datatype Error =
    | ProtocolError
    | BufferLimitViolation
    | InvalidOperation
    | InvalidArgument
    | DataTypeError
    | NumericCastError
    | ConnectionError
    | RequestTimeout
    | RemoteError
    | OutOfMemory

  datatype Option<+T> = None | Some(value: T)

  datatype Result<+T> = Ok(value: T) | Err(error: Error) {
    predicate IsFailure() { Err? }

    function PropagateFailure<U>(): Result<U>
      requires Err?
    {
      Err(error)
    }

    function Extract(): T
      requires Ok?
    {
      value
    }
  }
}
