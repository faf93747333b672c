/** Types and functions every component uses. */
module Common {
  datatype Option<+T> = None | Some(value: T)

  /** A byte as a number. */
  type Octet = n: nat | n < 256

  function Min(a: nat, b: nat): (m: nat) { if a < b then a else b }

  /** A mark: predicates kept folded under it open up only in proofs that name it. */
  ghost predicate Inside(k: nat) { k >= 0 }
}
