/** Optional values and results: Swift's `T?` and `Result<T, E>`, Python's `None`. */
module Wrappers {

  datatype Option<+T> = None | Some(value: T) {
    /** Swift's `??`: the wrapped value, or `default` when there is none. */
    function GetOr(default: T): T {
      match this
      case Some(v) => v
      case None => default
    }
  }

  datatype Result<+T, +E> = Success(value: T) | Failure(error: E)

  /** Some element of a non-empty set: the next one a `forEach` over the set visits. */
  method Pick<U>(s: set<U>) returns (x: U)
    requires s != {}
    ensures x in s
  {
    x :| x in s;
  }
}
