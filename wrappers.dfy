/** Option and Result: the shapes used for Python's None returns and raised exceptions. */
module Wrappers {

  datatype Option<+T> = None | Some(value: T)

  /** The exceptions the modelled Python code can raise. */
  datatype Error =
    | StructError    // struct.pack / struct.unpack on a value out of range or too few bytes
    | OverflowError  // int.to_bytes(4, ...) on a length of 2^32 or more
    | KeyError       // a keyword argument the chosen action needs is missing

  datatype Result<+T> = Ok(value: T) | Err(error: Error) {
    predicate IsFailure() { Err? }
    function PropagateFailure<U>(): Result<U>
      requires Err?
    {
      Err(error)
    }
    function Extract(): T
      requires Ok?
    {
      value
    }
  }
}
