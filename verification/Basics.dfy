/** Small definitions shared by the models. */
module Basics {

  datatype Option<+T> = None | Some(value: T)

  /** Nanoseconds, the unit of all clock readings. */
  const SECOND := 1_000_000_000

  ghost predicate Distinct<T>(s: seq<T>) {
    forall i, j :: 0 <= i < j < |s| ==> s[i] != s[j]
  }
}
