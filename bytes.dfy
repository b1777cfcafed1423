/** Bytes as the wire frame and the key code space see them: the values 0..255. */
module Bytes {

  newtype Byte = b: int | 0 <= b < 256
}
