module Wrappers {
  datatype Option<+T> = None | Some(value: T)

  ghost function Choose<T>(s: set<T>): (x: T)
    requires s != {}
    ensures x in s
  {
    var x :| x in s;
    x
  }

  /** The next key a `for range` over a Go map visits: any one that is left. */
  method AnyOf<T(==)>(left: set<T>) returns (x: T)
    requires left != {}
    ensures x in left
  {
    x :| x in left;
  }
}
