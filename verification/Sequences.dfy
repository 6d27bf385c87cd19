/** Regrouping of concatenations, and bytes. */
module Sequences {

  type Byte = b: nat | b < 256

  lemma Regroup<T>(a: seq<T>, b: seq<T>, c: seq<T>)
    ensures a + b + c == a + (b + c)
  {
  }
}
