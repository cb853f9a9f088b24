/** Raw bytes, as in a Python `bytes` or `bytearray`. */
module Bytes {

  newtype Byte = b: int | 0 <= b < 256
}
