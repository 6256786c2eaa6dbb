/** Option and Result wrappers, and the exceptions the core can raise. */
module Wrappers {

  /** A value that may be absent: the model of a C# reference that may be null. */
  datatype Option<+T> = None | Some(value: T)

  /** The outcome of an operation that may throw. */
  datatype Result<+T, +E> = Ok(value: T) | Err(error: E) {
    predicate IsFailure() { Err? }

    function PropagateFailure<U>(): Result<U, E>
      requires Err?
    {
      Err(error)
    }

    function Extract(): T
      requires Ok?
    {
      value
    }
  }

  /** The .NET exceptions raised by the modelled code, with their messages where the code gives one. */
  datatype Exception =
    | InvalidOperation(message: string)
    | NotSupported(message: string)
    | InvalidCast
    | NullReference
    | IndexOutOfRange
    | ArgumentOutOfRange
    | ArgumentNull(paramName: string)
    | Argument(message: string)
    | DuplicateKey(key: string)  // the ArgumentException of Dictionary.Add for a key already present, whose message
                                 // is "An item with the same key has already been added. Key: " followed by the key
    | KeyNotFound(key: string)
}
