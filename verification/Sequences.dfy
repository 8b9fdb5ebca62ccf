/** Prefixes of sequences, as loops grow them. */
module Sequences {

  lemma Longer<T>(xs: seq<T>, i: nat)
    requires i < |xs|
    ensures xs[..i + 1] == xs[..i] + [xs[i]]
    ensures xs[..i + 1][..i] == xs[..i]
  {
  }

  lemma WithoutLast<T>(x: T, xs: seq<T>)
    requires xs != []
    ensures ([x] + xs)[..|xs|] == [x] + xs[..|xs| - 1]
  {
  }

  lemma Whole<T>(xs: seq<T>)
    ensures xs[..|xs|] == xs
  {
  }
}
