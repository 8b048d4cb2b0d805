/** Byte strings: what a Go string or a []byte holds. */
module ByteStrings {
  newtype byte = b: int | 0 <= b < 256
  type Bytes = seq<byte>
}
