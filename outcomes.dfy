/** Python exceptions as values: every operation of the model that can raise
    returns a Result instead. */
module Outcomes {

  /** The exception classes the modelled code can raise. */
  datatype PyException =
    | KeyError(key: string)      // a dict lookup of a missing key
    | ValueError(item: string)   // list.index of a missing item, or a tuple of the wrong length
    | IndexError                 // a list or string index out of range
    | TypeError                  // an operation applied to a value of the wrong type
    | AttributeError             // a method missing on a value (None.get, int.isoformat)

  datatype Option<+T> = None | Some(value: T)

  datatype Result<+T> = Ok(value: T) | Err(error: PyException) {

    predicate IsFailure() {
      Err?
    }

    function PropagateFailure<U>(): Result<U>
      requires Err?
    {
      Err(error)
    }

    function Extract(): T
      requires Ok?
    {
      value
    }
  }
}
