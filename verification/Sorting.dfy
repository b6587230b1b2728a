/** Python's sorted() on numbers, and what it determines. */
module Sorting {

  predicate Ordered(xs: seq<real>)
  {
    forall i, j :: 0 <= i < j < |xs| ==> xs[i] <= xs[j]
  }

  predicate Ascending(xs: seq<real>)
  {
    forall i, j :: 0 <= i < j < |xs| ==> xs[i] < xs[j]
  }

  function Insert(x: real, xs: seq<real>): seq<real>
  {
    if xs == [] || x <= xs[0] then [x] + xs else [xs[0]] + Insert(x, xs[1..])
  }

  function Sorted(xs: seq<real>): seq<real>
  {
    if xs == [] then [] else Insert(xs[0], Sorted(xs[1..]))
  }

  lemma LeastFirst(least: real, rest: seq<real>, held: multiset<real>)
    requires Ordered(rest) && multiset(rest) == held
    requires forall y <- held :: least <= y
    ensures Ordered([least] + rest)
  {
    forall k | 0 <= k < |rest|
      ensures least <= rest[k]
    {
      assert rest[k] in held;
    }
  }

  lemma {:induction false} InsertSorts(x: real, xs: seq<real>)
    requires Ordered(xs)
    ensures Ordered(Insert(x, xs))
    ensures multiset(Insert(x, xs)) == multiset{x} + multiset(xs)
    decreases xs
  {
    if xs == [] {
      assert Insert(x, xs) == [x];
    } else if x <= xs[0] {
      assert Insert(x, xs) == [x] + xs;
    } else {
      InsertSorts(x, xs[1..]);
      assert xs == [xs[0]] + xs[1..];
      LeastFirst(xs[0], Insert(x, xs[1..]), multiset{x} + multiset(xs[1..]));
    }
  }

  /** The result is in order and a rearrangement of the input. */
  lemma {:induction false} SortedSorts(xs: seq<real>)
    ensures Ordered(Sorted(xs)) && multiset(Sorted(xs)) == multiset(xs)
    ensures |Sorted(xs)| == |xs|
  {
    if xs != [] {
      SortedSorts(xs[1..]);
      InsertSorts(xs[0], Sorted(xs[1..]));
      assert xs == [xs[0]] + xs[1..];
    }
    assert |multiset(Sorted(xs))| == |multiset(xs)|;
  }

  lemma SameFirst(xs: seq<real>, ys: seq<real>)
    requires Ordered(xs) && Ordered(ys) && multiset(xs) == multiset(ys) && xs != []
    ensures ys != [] && xs[0] == ys[0]
  {
    assert |multiset(ys)| == |multiset(xs)|;
    assert xs[0] in multiset(ys) && ys[0] in multiset(xs);
  }

  lemma RestOf(xs: seq<real>)
    requires xs != []
    ensures multiset(xs[1..]) == multiset(xs) - multiset{xs[0]}
  {
    assert xs == [xs[0]] + xs[1..];
  }

  /** An ordered list is settled by what it holds. */
  lemma {:induction false} OrderedUnique(xs: seq<real>, ys: seq<real>)
    requires Ordered(xs) && Ordered(ys) && multiset(xs) == multiset(ys)
    ensures xs == ys
  {
    if xs == [] {
      assert |multiset(ys)| == 0;
    } else {
      SameFirst(xs, ys);
      RestOf(xs);
      RestOf(ys);
      OrderedUnique(xs[1..], ys[1..]);
      assert xs == [xs[0]] + xs[1..] && ys == [ys[0]] + ys[1..];
    }
  }
}
