/** What several modules share. */
module Common {

  datatype Option<T> = None | Some(value: T)

  ghost predicate NoDuplicates<T>(s: seq<T>) {
    forall i, j :: 0 <= i < j < |s| ==> s[i] != s[j]
  }
}
