/** The password hashing the application delegates to bcrypt, kept
    uninterpreted: the model only ever calls `hash` and `verify`. */
module Crypto {

  datatype Hasher = Hasher(hash: string -> string, verify: (string, string) -> bool)

  /** The one property the application relies on: a secret verifies against
      the digest made from it. */
  ghost predicate Sound(h: Hasher) {
    forall secret :: h.verify(secret, h.hash(secret))
  }
}
