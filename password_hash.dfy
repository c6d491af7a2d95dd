/**
 * bcrypt as the auth routes use it. Hashing is salted at random, so the salt is a
 * parameter; all the routes rely on is that a password matches its own hash.
 */
module PasswordHash {
  /** `bcrypt.compare(p, bcrypt.hash(p, rounds))` holds whatever salt was drawn. */
  ghost predicate Sound(hash: (string, string) -> string, compare: (string, string) -> bool) {
    forall password, salt :: compare(password, hash(password, salt))
  }
}
