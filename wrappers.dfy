/** Failure-carrying values, and one fact about sequences, shared by every component of the model. */
module Wrappers {

  /** A value that may be absent (a nil pointer or a failed decode in the program). */
  datatype Option<T> = None | Some(value: T)

  /** A value or the error that stopped the computation (Go's `(value, error)` pair). */
  datatype Result<T, E> = Ok(value: T) | Err(error: E)

  /** Appending in two steps is appending once; buffers and slices grow this way throughout. */
  lemma ConcatAssociative<T>(a: seq<T>, b: seq<T>, c: seq<T>)
    ensures (a + b) + c == a + (b + c)
  {
  }
}
