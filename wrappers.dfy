/** Optional values, standing for `undefined` in TypeScript and NULL in C. */
module Wrappers {

  datatype Option<+T> = None | Some(value: T)

  /** The zero-or-one element sequence of an optional value. */
  function ToSeq<T>(o: Option<T>): (r: seq<T>)
    ensures |r| <= 1
    ensures o.None? <==> r == []
    ensures o.Some? ==> r == [o.value]
  {
    match o
    case None => []
    case Some(v) => [v]
  }
}
