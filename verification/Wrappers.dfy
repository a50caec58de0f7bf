/** Optional values, as returned by the analyzer's partial operations. */
module Wrappers {
  datatype Option<+T> = None | Some(value: T)

  function OrElse<T>(a: Option<T>, b: Option<T>): Option<T> { if a.Some? then a else b }

  function ToSeq<T>(o: Option<T>): seq<T> { match o case None => [] case Some(x) => [x] }
}
