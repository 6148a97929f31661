/** Optional values: Java's nullable references to immutable values (a `Long` id). */
module Wrappers {
  datatype Option<+T> = None | Some(value: T)
}
