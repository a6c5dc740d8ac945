/** Bytes, as files and sockets carry them. */
module Bytes {
  newtype byte = b: int | 0 <= b < 256
  type bytes = seq<byte>
}
