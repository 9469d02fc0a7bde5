/** Small vocabulary shared by every part of the model. */
module Common {
  /** Rust's `Option`. */
  datatype Option<T> = None | Some(value: T)

  /** No element occurs twice. */
  ghost predicate NoDuplicates<T>(s: seq<T>)
  {
    forall i, j | 0 <= i < j < |s| :: s[i] != s[j]
  }
}
