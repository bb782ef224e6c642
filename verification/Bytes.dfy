/** Bytes, key strings and C strings shared by the storage and wire modules. */
module Bytes {

  /** An `unsigned char`. */
  type Byte = b: int | 0 <= b < 256

  /** A character of a key: keys are C strings, so they hold no NUL. */
  type Chr = c: int | 0 < c < 256 witness 1

  type Key = seq<Chr>

  datatype Option<T> = None | Some(value: T)
}
