/** Small shared vocabulary: an optional value and the byte type. */
module Wrappers {

  datatype Option<+T> = None | Some(value: T)

  /** An octet, as Python's `bytes` holds them. */
  newtype byte = x: int | 0 <= x < 256

  /** True when `s` begins with `prefix` (Python's `startswith`). */
  predicate StartsWith<T(==)>(s: seq<T>, prefix: seq<T>)
  {
    |prefix| <= |s| && s[..|prefix|] == prefix
  }
}
