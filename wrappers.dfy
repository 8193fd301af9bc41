// Optional values: the model's counterpart of a C# reference that may be null.
module Wrappers {
  datatype Option<T> = None | Some(value: T)
  {
    function GetOr(fallback: T): T
    {
      if Some? then value else fallback
    }
  }

  /** The outcome of an operation that can throw: its value, or the fault
      that ends it. */
  datatype Result<T, E> = Success(value: T) | Failure(error: E)
}
