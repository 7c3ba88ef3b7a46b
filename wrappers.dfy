/** Small shared vocabulary: an optional value and the byte type. */
module Wrappers {

  /** Python's `None` or a value. */
  datatype Option<+T> = None | Some(value: T)

  /** One octet, as Python's `bytes` holds them. */
  type byte = b: int | 0 <= b < 0x100
}
