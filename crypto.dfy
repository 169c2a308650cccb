/** The password hasher the user workflow delegates to. Its primitives are
    foreign code, so they are values handed to the service rather than
    definitions; the one fact assumed about them is that a password always
    matches its own hash. */
module Crypto {

  /** `hash(plaintext, rounds, salt)` is the salted one-way hash;
      `compare(plaintext, digest)` checks a plaintext against a digest. */
  datatype Hasher = Hasher(hash: (string, nat, string) -> string, compare: (string, string) -> bool) {

    /** Every plaintext matches every digest made from it, whatever the
        cost factor and the salt. */
    ghost predicate Sound() {
      forall p, rounds, salt :: compare(p, hash(p, rounds, salt))
    }
  }

  /** The hashers the services may be built with: those that are sound. */
  type SoundHasher = h: Hasher | h.Sound()
    ghost witness Hasher((p, rounds, salt) => p, (p, digest) => p == digest)
}
