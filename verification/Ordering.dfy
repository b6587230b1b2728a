/** The order Python sorts strings and pairs of strings in. */
module Ordering {

  predicate Less(a: string, b: string)
  {
    b != "" && (a == "" || a[0] < b[0] || (a[0] == b[0] && Less(a[1..], b[1..])))
  }

  lemma {:induction false} LessIsStrict(a: string, b: string)
    ensures !(Less(a, b) && Less(b, a)) && !Less(a, a)
  {
    if a != "" {
      LessIsStrict(a[1..], if b == "" then "" else b[1..]);
    }
  }

  lemma {:induction false} LessIsTotal(a: string, b: string)
    ensures Less(a, b) || a == b || Less(b, a)
  {
    if a != "" && b != "" && a[0] == b[0] {
      LessIsTotal(a[1..], b[1..]);
      assert a == [a[0]] + a[1..] && b == [b[0]] + b[1..];
    }
  }

  lemma {:induction false} LessChains(a: string, b: string, c: string)
    requires Less(a, b) && Less(b, c)
    ensures Less(a, c)
  {
    if a != "" && a[0] == b[0] == c[0] {
      LessChains(a[1..], b[1..], c[1..]);
    }
  }

  predicate LessPair(a: (string, string), b: (string, string))
  {
    Less(a.0, b.0) || (a.0 == b.0 && Less(a.1, b.1))
  }

  lemma PairChains(a: (string, string), b: (string, string), c: (string, string))
    requires LessPair(a, b) && LessPair(b, c)
    ensures LessPair(a, c)
  {
    if Less(a.0, b.0) && Less(b.0, c.0) {
      LessChains(a.0, b.0, c.0);
    } else if a.0 == b.0 == c.0 {
      LessChains(a.1, b.1, c.1);
    }
  }

  lemma PairTotal(a: (string, string), b: (string, string))
    ensures LessPair(a, b) || a == b || LessPair(b, a)
  {
    LessIsTotal(a.0, b.0);
    LessIsTotal(a.1, b.1);
  }

  predicate InOrder(ps: seq<(string, string)>)
  {
    forall i, j :: 0 <= i < j < |ps| ==> LessPair(ps[i], ps[j])
  }

  /** A pair put where it belongs among sorted ones. */
  function InsertPair(p: (string, string), ps: seq<(string, string)>): (r: seq<(string, string)>)
    ensures |r| == |ps| + 1 && forall q :: q in r <==> q == p || q in ps
  {
    if ps == [] || LessPair(p, ps[0]) then [p] + ps else [ps[0]] + InsertPair(p, ps[1..])
  }

  lemma {:induction false} InsertKeepsOrder(p: (string, string), ps: seq<(string, string)>)
    requires InOrder(ps) && p !in ps
    ensures InOrder(InsertPair(p, ps))
    decreases ps
  {
    if ps != [] {
      var rest, r := ps[1..], InsertPair(p, ps);
      assert ps[0] in ps && forall q <- rest :: q in ps;
      hide Less;
      if LessPair(p, ps[0]) {
        forall j | 0 <= j < |ps|
          ensures LessPair(p, ps[j])
        {
          if j > 0 {
            PairChains(p, ps[0], ps[j]);
          }
        }
      } else {
        PairTotal(p, ps[0]);
        InsertKeepsOrder(p, rest);
        forall j | 1 <= j < |r|
          ensures LessPair(ps[0], r[j])
        {
          assert r[j] == InsertPair(p, rest)[j - 1] && r[j] in InsertPair(p, rest);
          if r[j] != p {
            var i :| 0 <= i < |rest| && rest[i] == r[j];
            assert ps[i + 1] == r[j];
          }
        }
      }
    }
  }

  /** sorted() over pairs of strings, repeats kept. */
  function SortPairs(ps: seq<(string, string)>): seq<(string, string)>
    decreases ps
  {
    if ps == [] then [] else InsertPair(ps[0], SortPairs(ps[1..]))
  }

  predicate NoneBefore(p: (string, string), ps: seq<(string, string)>)
  {
    forall q <- ps :: !LessPair(q, p)
  }

  /** No pair stands before a lesser one. */
  predicate Ascends(ps: seq<(string, string)>)
  {
    ps == [] || (NoneBefore(ps[0], ps) && Ascends(ps[1..]))
  }

  lemma PairIsStrict(a: (string, string), b: (string, string))
    ensures !(LessPair(a, b) && LessPair(b, a)) && !LessPair(a, a)
  {
    LessIsStrict(a.0, b.0);
    LessIsStrict(a.1, b.1);
  }

  lemma LesserFirst(p: (string, string), ps: seq<(string, string)>)
    requires ps == [] || (NoneBefore(ps[0], ps) && LessPair(p, ps[0]))
    ensures NoneBefore(p, [p] + ps)
  {
    hide LessPair;
    forall q | q in [p] + ps
      ensures !LessPair(q, p)
    {
      PairIsStrict(p, p);
      if q in ps && LessPair(q, p) {
        PairChains(q, p, ps[0]);
      }
    }
  }

  lemma {:induction false} InsertAscends(p: (string, string), ps: seq<(string, string)>)
    requires Ascends(ps)
    ensures Ascends(InsertPair(p, ps)) && multiset(InsertPair(p, ps)) == multiset(ps) + multiset{p}
    decreases ps
  {
    hide LessPair;
    if ps == [] || LessPair(p, ps[0]) {
      LesserFirst(p, ps);
      assert ([p] + ps)[1..] == ps;
    } else {
      var rest := ps[1..];
      InsertAscends(p, rest);
      assert ps == [ps[0]] + rest && InsertPair(p, ps)[1..] == InsertPair(p, rest);
    }
  }

  lemma {:induction false} SortPairsSorts(ps: seq<(string, string)>)
    ensures Ascends(SortPairs(ps)) && multiset(SortPairs(ps)) == multiset(ps)
    decreases ps
  {
    if ps != [] {
      SortPairsSorts(ps[1..]);
      InsertAscends(ps[0], SortPairs(ps[1..]));
      assert ps == [ps[0]] + ps[1..];
    }
  }

  lemma SameFirst(xs: seq<(string, string)>, ys: seq<(string, string)>)
    requires xs != [] && ys != [] && NoneBefore(xs[0], xs) && NoneBefore(ys[0], ys) && multiset(xs) == multiset(ys)
    ensures xs[0] == ys[0]
  {
    hide LessPair;
    assert xs[0] in multiset(ys) && ys[0] in multiset(xs);
    PairTotal(xs[0], ys[0]);
  }

  lemma RestOf(xs: seq<(string, string)>)
    requires xs != [] && Ascends(xs)
    ensures NoneBefore(xs[0], xs) && Ascends(xs[1..])
    ensures multiset(xs[1..]) == multiset(xs) - multiset{xs[0]} && xs == [xs[0]] + xs[1..]
  {
    assert xs == [xs[0]] + xs[1..];
  }

  lemma {:induction false} AscendingUnique(xs: seq<(string, string)>, ys: seq<(string, string)>)
    requires Ascends(xs) && Ascends(ys) && multiset(xs) == multiset(ys)
    ensures xs == ys
    decreases xs
  {
    hide NoneBefore, Ascends;
    assert |multiset(xs)| == |multiset(ys)|;
    if xs != [] {
      RestOf(xs);
      RestOf(ys);
      SameFirst(xs, ys);
      AscendingUnique(xs[1..], ys[1..]);
    }
  }

  /** Two lists of pairs sort alike exactly when they hold the same pairs equally often. */
  lemma SortedAlikeIff(xs: seq<(string, string)>, ys: seq<(string, string)>)
    ensures SortPairs(xs) == SortPairs(ys) <==> multiset(xs) == multiset(ys)
  {
    SortPairsSorts(xs);
    SortPairsSorts(ys);
    if multiset(xs) == multiset(ys) {
      AscendingUnique(SortPairs(xs), SortPairs(ys));
    }
  }
}
