/** What several modules share: optional values, and lists without repetition. */
module Wrappers {
  datatype Option<+T> = None | Some(value: T)

  ghost predicate NoDuplicates<T>(all: seq<T>) {
    forall i, j :: 0 <= i < j < |all| ==> all[i] != all[j]
  }
}
