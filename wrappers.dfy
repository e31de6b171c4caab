module Wrappers {

  datatype Option<+T> = None | Some(value: T)

  /** The zero or one element an optional value contributes to a list. */
  function OptSeq<T>(o: Option<T>): (r: seq<T>)
    ensures |r| <= 1 && (r != [] <==> o.Some?)
    ensures o.Some? ==> r[0] == o.value
  {
    if o.Some? then [o.value] else []
  }
}
