/** The optional value used wherever the source returns `None`/`null` or a value. */
module Wrappers {

  datatype Option<+T> = None | Some(value: T)

  /** True iff no element of `s` occurs twice. */
  predicate NoDup<T(==)>(s: seq<T>)
  {
    forall i, j :: 0 <= i < j < |s| ==> s[i] != s[j]
  }
}
