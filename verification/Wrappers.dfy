/** Shared result types and the byte type. */
module Wrappers {
  datatype Option<+T> = None | Some(value: T)

  type byte = n: int | 0 <= n < 256
}
