/** The optional value used wherever the source returns `None`, misses a lookup, or
    swallows an exception and falls back. */
module Wrappers {

  datatype Option<+T> = None | Some(value: T)
}
