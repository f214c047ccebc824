/** The password hasher (`bcrypt`), kept abstract: the handlers only rely on
    a stored hash matching the password it was made from. */
module Bcrypt {
  import opened Wrappers
  import opened Js

  /** `bcrypt.hash(data, saltRounds)` and `bcrypt.compare(data, encrypted)`
      on strings. Salting and the work factor are inside `hash`. */
  datatype Hasher = Hasher(hash: (string, nat) -> string, compare: (string, string) -> bool)

  /** The one law the handlers depend on: every password matches its own hash. */
  ghost predicate Lawful(h: Hasher) {
    forall p, rounds :: h.compare(p, h.hash(p, rounds))
  }

  /** `bcrypt.hash` on a JSON value: it throws unless the data is a string. */
  function Hash(h: Hasher, data: JsValue, rounds: nat): Option<string> {
    if data.Str? then Some(h.hash(data.s, rounds)) else None
  }

  /** `bcrypt.compare` on a JSON value: it throws unless the data is a string. */
  function Compare(h: Hasher, data: JsValue, encrypted: string): Option<bool> {
    if data.Str? then Some(h.compare(data.s, encrypted)) else None
  }

  /** A hasher that stores the password itself. It satisfies the law, so the
      law is consistent; it has none of bcrypt's security. */
  function ReferenceHasher(): Hasher {
    Hasher((p: string, rounds: nat) => p, (p: string, encrypted: string) => p == encrypted)
  }

  lemma ReferenceHasherIsLawful()
    ensures Lawful(ReferenceHasher())
  {
  }
}
