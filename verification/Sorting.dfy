/** The stable sort of a list by a comparator. */
module Sorting {

  /** leq(x, y) says that x may stand before y. */
  ghost predicate TotalOrder<T(!new)>(leq: (T, T) -> bool) {
    && (forall x, y :: leq(x, y) || leq(y, x))
    && (forall x, y, z :: leq(x, y) && leq(y, z) ==> leq(x, z))
  }

  ghost predicate Ordered<T>(xs: seq<T>, leq: (T, T) -> bool) {
    forall i, j :: 0 <= i < j < |xs| ==> leq(xs[i], xs[j])
  }

  /** Goes in behind everything that may stand before it, so equal elements keep their order. */
  function Insert<T>(xs: seq<T>, x: T, leq: (T, T) -> bool): seq<T> {
    if xs == [] then [x]
    else if leq(xs[|xs| - 1], x) then xs + [x]
    else Insert(xs[..|xs| - 1], x, leq) + [xs[|xs| - 1]]
  }

  function SortBy<T>(xs: seq<T>, leq: (T, T) -> bool): seq<T> {
    if xs == [] then [] else Insert(SortBy(xs[..|xs| - 1], leq), xs[|xs| - 1], leq)
  }

  lemma {:induction false} InsertOrdered<T(!new)>(xs: seq<T>, x: T, leq: (T, T) -> bool)
    requires TotalOrder(leq) && Ordered(xs, leq)
    ensures Ordered(Insert(xs, x, leq), leq)
    ensures multiset(Insert(xs, x, leq)) == multiset(xs) + multiset{x}
  {
    if xs != [] {
      var init, last := xs[..|xs| - 1], xs[|xs| - 1];
      assert xs == init + [last];
      if leq(last, x) {
        forall i | 0 <= i < |xs|
          ensures leq(xs[i], x)
        {
          assert i == |xs| - 1 || leq(xs[i], last);
        }
      } else {
        InsertOrdered(init, x, leq);
        var rest := Insert(init, x, leq);
        forall i | 0 <= i < |rest|
          ensures leq(rest[i], last)
        {
          assert rest[i] in multiset(rest);
          assert rest[i] in init || rest[i] == x;
        }
      }
    }
  }

  lemma {:induction false} SortedIsOrdered<T(!new)>(xs: seq<T>, leq: (T, T) -> bool)
    requires TotalOrder(leq)
    ensures Ordered(SortBy(xs, leq), leq) && multiset(SortBy(xs, leq)) == multiset(xs)
    ensures |SortBy(xs, leq)| == |xs|
  {
    if xs != [] {
      SortedIsOrdered(xs[..|xs| - 1], leq);
      InsertOrdered(SortBy(xs[..|xs| - 1], leq), xs[|xs| - 1], leq);
      assert xs == xs[..|xs| - 1] + [xs[|xs| - 1]];
    }
    assert |SortBy(xs, leq)| == |multiset(SortBy(xs, leq))|;
  }

  lemma SortedHasSame<T(!new)>(xs: seq<T>, leq: (T, T) -> bool)
    requires TotalOrder(leq)
    ensures forall x :: x in SortBy(xs, leq) <==> x in xs
  {
    SortedIsOrdered(xs, leq);
    forall x
      ensures x in SortBy(xs, leq) <==> x in xs
    {
      assert x in multiset(SortBy(xs, leq)) <==> x in multiset(xs);
    }
  }

  predicate NoTwoEqual<T(==)>(xs: seq<T>) {
    forall i, j :: 0 <= i < j < |xs| ==> xs[i] != xs[j]
  }

  lemma {:induction false} InsertKeepsDistinct<T(!new)>(xs: seq<T>, x: T, leq: (T, T) -> bool)
    requires TotalOrder(leq) && Ordered(xs, leq) && NoTwoEqual(xs) && x !in xs
    ensures NoTwoEqual(Insert(xs, x, leq))
  {
    if xs != [] && !leq(xs[|xs| - 1], x) {
      var init, last := xs[..|xs| - 1], xs[|xs| - 1];
      assert xs == init + [last];
      InsertKeepsDistinct(init, x, leq);
      InsertOrdered(init, x, leq);
      var rest := Insert(init, x, leq);
      forall i | 0 <= i < |rest|
        ensures rest[i] != last
      {
        assert rest[i] in multiset(rest);
        assert rest[i] in init || rest[i] == x;
      }
    }
  }

  lemma {:induction false} SortKeepsDistinct<T(!new)>(xs: seq<T>, leq: (T, T) -> bool)
    requires TotalOrder(leq) && NoTwoEqual(xs)
    ensures NoTwoEqual(SortBy(xs, leq))
  {
    if xs != [] {
      var init, last := xs[..|xs| - 1], xs[|xs| - 1];
      assert forall i :: 0 <= i < |init| ==> xs[i] != xs[|init|];
      SortKeepsDistinct(init, leq);
      SortedIsOrdered(init, leq);
      SortedHasSame(init, leq);
      InsertKeepsDistinct(SortBy(init, leq), last, leq);
    }
  }
}
