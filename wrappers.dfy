/** Optional values and results, standing in for Python's `None` and for
    exceptions that the core raises and catches. */
module Wrappers {

  datatype Option<+T> = None | Some(value: T)

  datatype Result<+T, +E> = Ok(value: T) | Err(error: E)

  /** The first element of a sequence, or None when it is empty. */
  function Head<T>(s: seq<T>): Option<T>
  {
    if s == [] then None else Some(s[0])
  }
}
