/** Sequences of sequences, put together in order. */
module Sequences {

  function Concat<T>(slices: seq<seq<T>>): seq<T> {
    if slices == [] then [] else slices[0] + Concat(slices[1..])
  }

  lemma {:induction false} ConcatSnoc<T>(slices: seq<seq<T>>, last: seq<T>)
    ensures Concat(slices + [last]) == Concat(slices) + last
  {
    if slices == [] {
      assert slices + [last] == [last] && [last][1..] == [];
    } else {
      assert (slices + [last])[1..] == slices[1..] + [last];
      ConcatSnoc(slices[1..], last);
    }
  }
}
