/** What several components share. */
module Basics {
  type Byte = b: int | 0 <= b < 0x100

  datatype Option<+T> = None | Some(value: T)
}
