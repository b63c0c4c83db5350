/** Small definitions shared by every module. */
module Wrappers {
  /** The optional value used for Rust's `Option`. */
  datatype Option<+T> = None | Some(value: T)

  const PAGE_SIZE: nat := 4096

  /** Always true. An invariant stated under `Key` stays folded until a proof
      names a key. */
  predicate Key(k: nat) { true }

  ghost predicate NoDup(l: seq<nat>) {
    forall i, j :: 0 <= i < j < |l| ==> l[i] != l[j]
  }

  /** The front of a list, as a list head holds it. */
  function HeadOf(l: seq<nat>): Option<nat> {
    if l == [] then None else Some(l[0])
  }
}
