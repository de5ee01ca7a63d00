/** The third-party libraries the user model calls. Their algorithms are not part of this
    model: each is a function value handed to the operations, constrained only where a
    lemma states the one property it relies on. */
module Collaborators {

  /** A salt as produced by `bcrypt.genSalt`; the random generation is left to the caller. */
  type Salt = string

  /** `validator.isEmail` and `validator.isStrongPassword`. */
  datatype Validator = Validator(isEmail: string -> bool, isStrongPassword: string -> bool)

  /** `bcrypt.hash(plaintext, salt)` and `bcrypt.compare(plaintext, hash)`. */
  datatype Bcrypt = Bcrypt(hash: (string, Salt) -> string, compare: (string, string) -> bool)

  /** The contract bcrypt keeps: a plaintext matches every hash made from it, whatever the salt. */
  ghost predicate CompareAcceptsOwnHash(b: Bcrypt)
  {
    forall p: string, s: Salt :: b.compare(p, b.hash(p, s))
  }
}
