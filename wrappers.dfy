/** Option and Result values shared by the other modules. */
module Wrappers {

  datatype Option<+T> = None | Some(value: T)

  /** The outcome of a parse step that may fail with an error message. */
  datatype Result<+T> = Ok(value: T) | Err(msg: string)

  /** The contents of an optional list, `[]` when there is none. */
  function OrEmpty<T>(o: Option<seq<T>>): (s: seq<T>)
    ensures o.Some? ==> s == o.value
    ensures o.None? ==> s == []
  {
    match o
    case Some(v) => v
    case None => []
  }
}
