/**
 Facts that are used as a whole. A fact is sealed by stating it under a quantifier over a key; proofs
 that look into it mention the key with `Opened`, which holds of everything, and all others carry it
 along without unfolding it. A `Verdict` names such a fact by a value.
 */
module Seals {
  ghost predicate Opened<T>(key: T) { true }

  datatype Verdict = Met | Unmet
}
