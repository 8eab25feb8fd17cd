/** The password hasher (`bcrypt`). Salting, the cost factor and the
    constant-time comparison are the library's; the model keeps only the
    two operations and the one law the service relies on. */
module Hashing {

  /** `bcrypt.hash(plain, 10)` and `bcrypt.compare(plain, hashed)`. */
  datatype Bcrypt = Bcrypt(hash: string -> string, compare: (string, string) -> bool)

  /** The hasher's law: a password matches its own hash. */
  ghost predicate Sound(b: Bcrypt)
  {
    forall p: string {:trigger b.hash(p)} :: b.compare(p, b.hash(p))
  }
}
