/** Optional values and success-or-error results shared by the other modules. */
module Wrappers {

  /** A value that may be absent: JSON `null`, a missing key or an unmatched search. */
  datatype Option<T> = None | Some(value: T)

  /** The outcome of a step that can fail with an error of type E. */
  datatype Result<T, E> = Success(value: T) | Failure(error: E)

  /** No value occurs twice in the sequence. */
  predicate NoDuplicates<T(==)>(s: seq<T>) {
    forall i, j :: 0 <= i < j < |s| ==> s[i] != s[j]
  }
}
