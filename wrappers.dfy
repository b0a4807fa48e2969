/** Small value wrappers shared by the pipeline stages. */
module Wrappers {

  /** A field that may be absent from a loosely structured record. */
  datatype Option<+T> = None | Some(value: T)

  /** The outcome of a stage that can raise: its value, or the error it raises. */
  datatype Result<+R, +E> = Success(value: R) | Failure(error: E)

  /** No element occurs twice. */
  predicate NoDups<T(==)>(s: seq<T>)
  {
    forall i, j :: 0 <= i < j < |s| ==> s[i] != s[j]
  }
}
