/** Bytes, and their SHA-256 taken to be injective: a digest stands for the bytes it was computed from. */
module Hashing {
  type Bytes = seq<nat>

  datatype Digest = Sha256(content: Bytes)
}
