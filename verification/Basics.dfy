/** Small notions shared by the modules. */
module Basics {

  datatype Option<+T> = None | Some(value: T)

  /** Cache keys and row ids are only ever compared for equality. */
  type Key(==, 00, !new)

  function Members<T>(xs: seq<T>): set<T> {
    set x | x in xs
  }

  predicate Distinct<T(==)>(xs: seq<T>) {
    forall i, j :: 0 <= i < j < |xs| ==> xs[i] != xs[j]
  }
}
