/** Facts about sequences that the proofs of both the merge and the generator use. */
module Sequences {

  /** Concatenation regroups freely; stated once so that long chains of appends can be rebracketed step by step. */
  lemma Assoc<T>(a: seq<T>, b: seq<T>, c: seq<T>)
    ensures (a + b) + c == a + (b + c)
  {
  }
}
