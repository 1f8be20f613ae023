/** Option and Result values used where the modelled code returns a NULL
    pointer, an empty `Maybe`, or aborts with an error. */
module Wrappers {
  datatype Option<T> = None | Some(value: T)

  datatype Result<T, E> = Success(value: T) | Failure(error: E)
  {
    predicate IsFailure() { Failure? }
  }
}
