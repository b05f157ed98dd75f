/** Octets. */
module Bytes {
  newtype byte = x: int | 0 <= x < 256

  type Octets = seq<byte>
}
