/** A fact about sequences that proofs name where they need it. */
module Sequences {

  lemma Assoc<A>(a: seq<A>, b: seq<A>, c: seq<A>)
    ensures (a + b) + c == a + (b + c)
  {
  }
}
