/** Sorted arrangements of a sequence. */
module Sorting {

  ghost predicate SortedBy<T(!new)>(xs: seq<T>, le: (T, T) -> bool) {
    forall i, j :: 0 <= i < j < |xs| ==> le(xs[i], xs[j])
  }

  /** ys is what some sort of xs may produce. */
  ghost predicate Arranges<T(!new)>(xs: seq<T>, ys: seq<T>, le: (T, T) -> bool) {
    multiset(xs) == multiset(ys) && SortedBy(ys, le)
  }

  // Two different members of xs are never in a tie.
  ghost predicate NoTies<T(!new)>(xs: seq<T>, le: (T, T) -> bool) {
    forall x, y :: x in xs && y in xs && le(x, y) && le(y, x) ==> x == y
  }

  lemma HeadAndTail<T>(a: seq<T>)
    requires a != []
    ensures a[0] in a && multiset(a[1..]) == multiset(a) - multiset{a[0]}
    ensures forall x :: x in a <==> x in multiset(a)
  {
    assert a == [a[0]] + a[1..];
  }

  lemma TailSorted<T(!new)>(a: seq<T>, le: (T, T) -> bool)
    requires a != [] && SortedBy(a, le)
    ensures SortedBy(a[1..], le)
  {
  }

  lemma TailNoTies<T(!new)>(a: seq<T>, le: (T, T) -> bool)
    requires a != [] && NoTies(a, le)
    ensures NoTies(a[1..], le)
  {
    assert forall x :: x in a[1..] ==> x in a;
  }

  lemma HeadFirst<T(!new)>(a: seq<T>, x: T, le: (T, T) -> bool)
    requires SortedBy(a, le) && x in a
    ensures x == a[0] || le(a[0], x)
  {
  }

  // Both heads come before everything else, so they tie.
  lemma SameHead<T(!new)>(a: seq<T>, b: seq<T>, le: (T, T) -> bool)
    requires a != [] && b != [] && multiset(a) == multiset(b)
    requires SortedBy(a, le) && SortedBy(b, le) && NoTies(a, le)
    ensures a[0] == b[0]
  {
    HeadAndTail(a);
    HeadAndTail(b);
    HeadFirst(a, b[0], le);
    HeadFirst(b, a[0], le);
  }

  lemma SameTail<T>(a: seq<T>, b: seq<T>)
    requires a != [] && b != [] && multiset(a) == multiset(b) && a[0] == b[0]
    ensures multiset(a[1..]) == multiset(b[1..])
  {
    HeadAndTail(a);
    HeadAndTail(b);
  }

  lemma SameLength<T>(a: seq<T>, b: seq<T>)
    requires multiset(a) == multiset(b)
    ensures |a| == |b|
  {
    assert |multiset(a)| == |a| && |multiset(b)| == |b|;
  }

  /** Without ties there is only one sorted arrangement. */
  lemma {:induction false} SortedUnique<T(!new)>(a: seq<T>, b: seq<T>, le: (T, T) -> bool)
    requires multiset(a) == multiset(b) && SortedBy(a, le) && SortedBy(b, le) && NoTies(a, le)
    ensures a == b
  {
    SameLength(a, b);
    if a != [] {
      SameHead(a, b, le);
      SameTail(a, b);
      TailSorted(a, le);
      TailSorted(b, le);
      TailNoTies(a, le);
      SortedUnique(a[1..], b[1..], le);
      assert a == [a[0]] + a[1..] && b == [b[0]] + b[1..];
    }
  }
}
