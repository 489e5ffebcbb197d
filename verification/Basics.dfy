// Bytes, digests and optional values shared by the other modules.

module Basics {

  newtype byte = x: int | 0 <= x < 256

  type Bytes = seq<byte>

  datatype Option<+T> = None | Some(value: T)

  // SHA-256 is a parameter everywhere: any function from bytes to bytes.
  type Hash = Bytes -> Bytes

  const DIGEST_SIZE := 32

  // The one fact about SHA-256 the proofs use, and only where it is required.
  ghost predicate IsDigest(h: Hash) {
    forall x: Bytes :: |h(x)| == DIGEST_SIZE
  }

  // Two different inputs with one digest.
  predicate Collision(h: Hash, x: Bytes, y: Bytes) {
    x != y && h(x) == h(y)
  }
}
