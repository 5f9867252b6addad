/** Result types and collections shared by every module. */
module Wrappers {

  datatype Option<+T> = None | Some(value: T)

  /** What an operation of the source returns: a value, or one of its errors. */
  datatype Result<+T, +E> = Ok(value: T) | Err(error: E)

  ghost function Elements<T>(l: seq<T>): set<T> {
    set x | x in l
  }
}
