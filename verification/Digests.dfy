/** Digests. No property of SHA-256 is assumed; theorems name the pair of inputs that must not collide. */
module Digests {
  import opened Utf8

  type Sha256 = bytes -> string

  /** These two byte strings do not collide. */
  predicate NoCollision(sha256: Sha256, x: bytes, y: bytes) {
    sha256(x) == sha256(y) ==> x == y
  }
}
