/** The interpolated percentile of bench/analyze.py. */
module Percentile {
  import opened Prelude
  import opened Sorting

  /** The value at a position between ranks, on a straight line from one to the next. */
  function ValueAt(ordered: seq<real>, position: real): real
    requires ordered != [] && 0.0 <= position <= (|ordered| - 1) as real
  {
    var lower := position.Floor;
    var upper := if lower + 1 < |ordered| - 1 then lower + 1 else |ordered| - 1;
    Mix(ordered[lower], ordered[upper], position - lower as real)
  }

  function Mix(x: real, y: real, f: real): real
  {
    x + (y - x) * f
  }

  function Position(n: nat, percent: real): (position: real)
    requires n >= 1 && 0.0 <= percent <= 100.0
    ensures 0.0 <= position <= (n - 1) as real
  {
    InRange((n - 1) as real, percent);
    (n - 1) as real * percent / 100.0
  }

  function Percentile(values: seq<real>, percent: real): Option<real>
    requires 0.0 <= percent <= 100.0
  {
    SortedSorts(values);
    var ordered := Sorted(values);
    if ordered == [] then None
    else if |ordered| == 1 then Some(ordered[0])
    else Some(ValueAt(ordered, Position(|ordered|, percent)))
  }

  lemma InRange(last: real, percent: real)
    requires last >= 0.0 && 0.0 <= percent <= 100.0
    ensures 0.0 <= last * percent / 100.0 <= last
  {
    assert last * percent <= last * 100.0;
  }

  // -------------------------------------------------------------- permutations

  /** The order of the samples does not matter. */
  lemma PermutationInvariant(xs: seq<real>, ys: seq<real>, percent: real)
    requires multiset(xs) == multiset(ys) && 0.0 <= percent <= 100.0
    ensures Percentile(xs, percent) == Percentile(ys, percent)
  {
    SortedSorts(xs);
    SortedSorts(ys);
    OrderedUnique(Sorted(xs), Sorted(ys));
  }

  // ----------------------------------------------------- between, and monotone

  lemma MixAscends(x: real, y: real, f: real, g: real)
    requires x <= y && 0.0 <= f <= g <= 1.0
    ensures x <= Mix(x, y, f) <= Mix(x, y, g) <= y
  {
    var gap := y - x;
    assert 0.0 <= gap * f <= gap * g <= gap * 1.0;
  }

  lemma MixEnds(x: real, y: real)
    ensures Mix(x, y, 0.0) == x && Mix(x, y, 1.0) == y
  {
  }

  function Above(ordered: seq<real>, position: real): (i: nat)
    requires ordered != [] && 0.0 <= position <= (|ordered| - 1) as real
    ensures i < |ordered|
  {
    if position.Floor + 1 < |ordered| - 1 then position.Floor + 1 else |ordered| - 1
  }

  /** A value between ranks is between the values of the ranks. */
  lemma BetweenRanks(ordered: seq<real>, position: real)
    requires ordered != [] && Ordered(ordered) && 0.0 <= position <= (|ordered| - 1) as real
    ensures ordered[position.Floor] <= ValueAt(ordered, position) <= ordered[Above(ordered, position)]
  {
    hide Mix;
    MixAscends(ordered[position.Floor], ordered[Above(ordered, position)], position - position.Floor as real, 1.0);
  }

  lemma ValueAscends(ordered: seq<real>, position: real, later: real)
    requires ordered != [] && Ordered(ordered) && 0.0 <= position <= later <= (|ordered| - 1) as real
    ensures ValueAt(ordered, position) <= ValueAt(ordered, later)
  {
    hide Mix;
    var lower := position.Floor;
    if lower == later.Floor {
      MixAscends(ordered[lower], ordered[Above(ordered, position)], position - lower as real, later - lower as real);
    } else {
      BetweenRanks(ordered, position);
      BetweenRanks(ordered, later);
    }
  }

  lemma ProductAscends(x: real, a: real, b: real)
    requires x >= 0.0 && a <= b
    ensures x * a <= x * b
  {
    var d := b - a;
    assert x * d >= 0.0;
    assert x * (a + d) == x * a + x * d;
  }

  lemma PositionAscends(n: nat, low: real, high: real)
    requires n >= 1 && 0.0 <= low <= high <= 100.0
    ensures Position(n, low) <= Position(n, high)
  {
    ProductAscends((n - 1) as real, low, high);
    var x, y := (n - 1) as real * low, (n - 1) as real * high;
    assert x / 100.0 <= y / 100.0;
  }

  /** A higher percentage never gives a lower percentile, across ranks too. */
  lemma MonotoneInPercent(values: seq<real>, low: real, high: real)
    requires values != [] && 0.0 <= low <= high <= 100.0
    ensures Percentile(values, low).Some? && Percentile(values, high).Some?
    ensures Percentile(values, low).value <= Percentile(values, high).value
  {
    hide Position;
    hide ValueAt;
    SortedSorts(values);
    var ordered := Sorted(values);
    if |ordered| > 1 {
      PositionAscends(|ordered|, low, high);
      ValueAscends(ordered, Position(|ordered|, low), Position(|ordered|, high));
    }
  }

  lemma ValueAtEnds(ordered: seq<real>)
    requires ordered != []
    ensures ValueAt(ordered, 0.0) == ordered[0] && ValueAt(ordered, (|ordered| - 1) as real) == ordered[|ordered| - 1]
  {
    hide Mix;
    var last := |ordered| - 1;
    assert (last as real).Floor == last && (0.0 as real).Floor == 0;
    MixEnds(ordered[0], ordered[Above(ordered, 0.0)]);
    MixEnds(ordered[last], ordered[last]);
  }

  lemma PositionEnds(n: nat)
    requires n >= 1
    ensures Position(n, 0.0) == 0.0 && Position(n, 100.0) == (n - 1) as real
  {
  }

  /** At 0 the percentile is the least sample and at 100 the greatest. */
  lemma Extremes(values: seq<real>)
    requires values != []
    ensures var least, most := Percentile(values, 0.0), Percentile(values, 100.0);
            && least.Some? && least.value in values && (forall x <- values :: least.value <= x)
            && most.Some? && most.value in values && (forall x <- values :: x <= most.value)
  {
    hide Position;
    hide ValueAt;
    SortedSorts(values);
    var ordered := Sorted(values);
    ValueAtEnds(ordered);
    PositionEnds(|ordered|);
    assert ordered[0] in multiset(ordered) && ordered[|ordered| - 1] in multiset(ordered);
    forall x | x in values
      ensures ordered[0] <= x <= ordered[|ordered| - 1]
    {
      assert x in multiset(values);
      assert x in ordered;
    }
  }

  /** Every percentile lies between the least and the greatest sample. */
  lemma WithinSamples(values: seq<real>, percent: real)
    requires values != [] && 0.0 <= percent <= 100.0
    ensures var p := Percentile(values, percent);
            p.Some? && (exists x <- values :: x <= p.value) && (exists y <- values :: p.value <= y)
  {
    hide Percentile;
    Extremes(values);
    MonotoneInPercent(values, 0.0, percent);
    MonotoneInPercent(values, percent, 100.0);
  }

  // ------------------------------------------------------------------- shifting

  function Shifted(values: seq<real>, d: real): (r: seq<real>)
    ensures |r| == |values|
  {
    if values == [] then [] else [values[0] + d] + Shifted(values[1..], d)
  }

  lemma {:induction false} ShiftedAt(values: seq<real>, d: real, i: nat)
    requires i < |values|
    ensures Shifted(values, d)[i] == values[i] + d
  {
    if i > 0 {
      ShiftedAt(values[1..], d, i - 1);
    }
  }

  lemma {:induction false} InsertShifted(x: real, xs: seq<real>, d: real)
    ensures Insert(x + d, Shifted(xs, d)) == Shifted(Insert(x, xs), d)
    decreases xs
  {
    if xs == [] {
      assert Insert(x, xs) == [x] && [x][1..] == [];
    } else if x <= xs[0] {
      assert Insert(x, xs)[1..] == xs;
    } else {
      InsertShifted(x, xs[1..], d);
      assert Shifted(xs, d)[1..] == Shifted(xs[1..], d);
      assert Insert(x, xs)[1..] == Insert(x, xs[1..]);
    }
  }

  lemma {:induction false} SortedShifted(values: seq<real>, d: real)
    ensures Sorted(Shifted(values, d)) == Shifted(Sorted(values), d)
  {
    if values != [] {
      SortedShifted(values[1..], d);
      assert Shifted(values, d)[1..] == Shifted(values[1..], d);
      InsertShifted(values[0], Sorted(values[1..]), d);
    }
  }

  lemma MixShifted(x: real, y: real, f: real, d: real)
    ensures Mix(x + d, y + d, f) == Mix(x, y, f) + d
  {
    assert (y + d) - (x + d) == y - x;
  }

  lemma ValueAtShifted(ordered: seq<real>, d: real, position: real)
    requires ordered != [] && 0.0 <= position <= (|ordered| - 1) as real
    ensures ValueAt(Shifted(ordered, d), position) == ValueAt(ordered, position) + d
  {
    hide Mix;
    hide Shifted;
    var upper := Above(ordered, position);
    ShiftedAt(ordered, d, position.Floor);
    ShiftedAt(ordered, d, upper);
    MixShifted(ordered[position.Floor], ordered[upper], position - position.Floor as real, d);
  }

  /** Shifting every sample shifts the percentile by exactly as much. */
  lemma ShiftEquivariant(values: seq<real>, d: real, percent: real)
    requires 0.0 <= percent <= 100.0
    ensures Percentile(Shifted(values, d), percent)
            == if values == [] then None else Some(Percentile(values, percent).value + d)
    ensures values != [] ==> Percentile(values, percent).Some?
  {
    hide ValueAt;
    hide Position;
    hide Sorted;
    hide Shifted;
    SortedSorts(values);
    SortedSorts(Shifted(values, d));
    SortedShifted(values, d);
    var ordered := Sorted(values);
    if |ordered| == 1 {
      ShiftedAt(ordered, d, 0);
    } else if |ordered| > 1 {
      ValueAtShifted(ordered, d, Position(|ordered|, percent));
    }
  }

  // ------------------------------------------------------------- interpolation

  /** How many samples are not above x, and how many not below it. */
  function NotAbove(values: seq<real>, x: real): nat
  {
    if values == [] then 0 else NotAbove(values[..|values| - 1], x) + (if values[|values| - 1] <= x then 1 else 0)
  }

  function NotBelow(values: seq<real>, x: real): nat
  {
    if values == [] then 0 else NotBelow(values[..|values| - 1], x) + (if values[|values| - 1] >= x then 1 else 0)
  }

  lemma {:induction false} CountsBoth(xs: seq<real>, ys: seq<real>, x: real)
    ensures NotAbove(xs + ys, x) == NotAbove(xs, x) + NotAbove(ys, x) && NotBelow(xs + ys, x) == NotBelow(xs, x) + NotBelow(ys, x)
  {
    if ys == [] {
      assert xs + ys == xs;
    } else {
      var n := |ys| - 1;
      assert (xs + ys)[..|xs + ys| - 1] == xs + ys[..n];
      CountsBoth(xs, ys[..n], x);
    }
  }

  lemma {:induction false} InsertCounts(y: real, xs: seq<real>, x: real)
    ensures NotAbove(Insert(y, xs), x) == NotAbove([y] + xs, x) && NotBelow(Insert(y, xs), x) == NotBelow([y] + xs, x)
    decreases xs
  {
    CountsBoth([y], xs, x);
    if xs != [] && y > xs[0] {
      var rest := xs[1..];
      InsertCounts(y, rest, x);
      CountsBoth([y], rest, x);
      CountsBoth([xs[0]], rest, x);
      CountsBoth([xs[0]], Insert(y, rest), x);
      assert xs == [xs[0]] + rest && Insert(y, xs) == [xs[0]] + Insert(y, rest);
    }
  }

  lemma {:induction false} SortedCounts(values: seq<real>, x: real)
    ensures NotAbove(Sorted(values), x) == NotAbove(values, x) && NotBelow(Sorted(values), x) == NotBelow(values, x)
  {
    if values != [] {
      var rest := values[1..];
      SortedCounts(rest, x);
      InsertCounts(values[0], Sorted(rest), x);
      CountsBoth([values[0]], Sorted(rest), x);
      CountsBoth([values[0]], rest, x);
      assert values == [values[0]] + rest;
    }
  }

  lemma {:induction false} AllNotAbove(xs: seq<real>, x: real)
    requires forall i :: 0 <= i < |xs| ==> xs[i] <= x
    ensures NotAbove(xs, x) == |xs|
  {
    if xs != [] {
      AllNotAbove(xs[..|xs| - 1], x);
    }
  }

  lemma {:induction false} AllNotBelow(xs: seq<real>, x: real)
    requires forall i :: 0 <= i < |xs| ==> xs[i] >= x
    ensures NotBelow(xs, x) == |xs|
  {
    if xs != [] {
      AllNotBelow(xs[..|xs| - 1], x);
    }
  }

  /** A value at a rank has that many samples not above it, itself included, and the
      others not below it. */
  lemma RankCounts(ordered: seq<real>, k: nat)
    requires Ordered(ordered) && k < |ordered|
    ensures NotAbove(ordered, ordered[k]) >= k + 1 && NotBelow(ordered, ordered[k]) >= |ordered| - k
  {
    hide NotAbove, NotBelow;
    var x, low, high := ordered[k], ordered[..k + 1], ordered[k + 1..];
    assert ordered == low + high;
    AllNotAbove(low, x);
    CountsBoth(low, high, x);
    low, high := ordered[..k], ordered[k..];
    assert ordered == low + high;
    AllNotBelow(high, x);
    CountsBoth(low, high, x);
  }

  /** The percentage at which rank k stands. */
  function PercentAt(n: nat, k: nat): (percent: real)
    requires n >= 2 && k < n
  {
    100.0 * k as real / (n - 1) as real
  }

  lemma QuotientInRange(x: real, d: real)
    requires d > 0.0 && 0.0 <= x <= 100.0 * d
    ensures 0.0 <= x / d <= 100.0
  {
  }

  lemma PercentInRange(n: nat, k: nat)
    requires n >= 2 && k < n
    ensures 0.0 <= PercentAt(n, k) <= 100.0 && Position(n, PercentAt(n, k)) == k as real
  {
    var d, x := (n - 1) as real, k as real;
    var p := PercentAt(n, k);
    assert p * d == 100.0 * x && d * p / 100.0 == x;
    QuotientInRange(100.0 * x, d);
  }

  lemma WholePosition(ordered: seq<real>, k: nat)
    requires k < |ordered|
    ensures ValueAt(ordered, k as real) == ordered[k]
  {
    hide Mix;
    assert (k as real).Floor == k;
    MixEnds(ordered[k], ordered[Above(ordered, k as real)]);
  }

  /** At the percentage of rank k the percentile is a sample with k others not above it and
      all further ones not below it. */
  lemma AtRanks(values: seq<real>, k: nat)
    requires |values| >= 2 && k < |values|
    ensures 0.0 <= PercentAt(|values|, k) <= 100.0
    ensures var r := Percentile(values, PercentAt(|values|, k));
            r.Some? && r.value in values && NotAbove(values, r.value) >= k + 1 && NotBelow(values, r.value) >= |values| - k
  {
    hide Position, ValueAt, PercentAt;
    var n, ordered := |values|, Sorted(values);
    PercentInRange(n, k);
    SortedSorts(values);
    WholePosition(ordered, k);
    RankCounts(ordered, k);
    SortedCounts(values, ordered[k]);
    assert ordered[k] in multiset(ordered);
  }

  /** The point a share t of the way from p to q. */
  function Between(p: real, q: real, t: real): real
  {
    (1.0 - t) * p + t * q
  }

  /** The straight line that starts at x and climbs by gap from k to k + 1. */
  function Line(x: real, gap: real, k: real, p: real): real
  {
    x + gap * (p - k)
  }

  /** Between two ranks the value runs on a straight line. */
  lemma OnTheLine(ordered: seq<real>, k: nat, position: real)
    requires k + 1 < |ordered| && k as real <= position <= (k + 1) as real
    ensures ValueAt(ordered, position) == Line(ordered[k], ordered[k + 1] - ordered[k], k as real, position)
  {
    if position == (k + 1) as real {
      WholePosition(ordered, k + 1);
    } else {
      assert position.Floor == k;
    }
  }

  lemma LineOfBetween(x: real, gap: real, k: real, p: real, q: real, t: real)
    ensures Line(x, gap, k, Between(p, q, t)) == Between(Line(x, gap, k, p), Line(x, gap, k, q), t)
  {
    var u, v := p - k, q - k;
    assert Between(p, q, t) - k == Between(u, v, t) by {
      assert (1.0 - t) * p == (1.0 - t) * u + (1.0 - t) * k && t * q == t * v + t * k;
      assert (1.0 - t) * k + t * k == k;
    }
    assert gap * Between(u, v, t) == (1.0 - t) * (gap * u) + t * (gap * v);
    assert (1.0 - t) * (x + gap * u) == (1.0 - t) * x + (1.0 - t) * (gap * u);
    assert t * (x + gap * v) == t * x + t * (gap * v);
    assert (1.0 - t) * x + t * x == x;
  }

  lemma BetweenIsMix(p: real, q: real, t: real)
    ensures Between(p, q, t) == Mix(p, q, t) == Mix(q, p, 1.0 - t)
  {
  }

  lemma BetweenBounds(p: real, q: real, t: real, lo: real, hi: real)
    requires lo <= p <= hi && lo <= q <= hi && 0.0 <= t <= 1.0
    ensures lo <= Between(p, q, t) <= hi
  {
    BetweenIsMix(p, q, t);
    hide Between, Mix;
    if p <= q {
      MixAscends(p, q, t, 1.0);
    } else {
      MixAscends(q, p, 1.0 - t, 1.0);
    }
  }

  lemma PositionOfBetween(n: nat, p: real, q: real, t: real)
    requires n >= 1 && 0.0 <= p <= 100.0 && 0.0 <= q <= 100.0 && 0.0 <= t <= 1.0
    ensures 0.0 <= Between(p, q, t) <= 100.0
    ensures Position(n, Between(p, q, t)) == Between(Position(n, p), Position(n, q), t)
  {
    BetweenBounds(p, q, t, 0.0, 100.0);
    var c := (n - 1) as real / 100.0;
    Scaled(n, p);
    Scaled(n, q);
    Scaled(n, Between(p, q, t));
    assert c * Between(p, q, t) == (1.0 - t) * (c * p) + t * (c * q);
  }

  lemma Scaled(n: nat, p: real)
    requires n >= 1 && 0.0 <= p <= 100.0
    ensures Position(n, p) == (n - 1) as real / 100.0 * p
  {
  }

  lemma PositionBetweenRanks(n: nat, k: nat, p: real)
    requires k + 1 < n && 0.0 <= p <= 100.0 && PercentAt(n, k) <= p <= PercentAt(n, k + 1)
    ensures k as real <= Position(n, p) <= (k + 1) as real
  {
    PercentInRange(n, k);
    PercentInRange(n, k + 1);
    PositionAscends(n, PercentAt(n, k), p);
    PositionAscends(n, p, PercentAt(n, k + 1));
  }

  /** Between the percentages of two neighbouring ranks the percentile is interpolated:
      part of the way from p to q it has gone that part of the way between its values there. */
  lemma Interpolated(values: seq<real>, k: nat, p: real, q: real, t: real)
    requires k + 1 < |values| && 0.0 <= t <= 1.0
    requires PercentAt(|values|, k) <= p <= PercentAt(|values|, k + 1) && PercentAt(|values|, k) <= q <= PercentAt(|values|, k + 1)
    ensures 0.0 <= p <= 100.0 && 0.0 <= q <= 100.0 && 0.0 <= Between(p, q, t) <= 100.0
    ensures var u, v, w := Percentile(values, p), Percentile(values, q), Percentile(values, Between(p, q, t));
            u.Some? && v.Some? && w.Some? && w.value == Between(u.value, v.value, t)
  {
    var n, ordered := |values|, Sorted(values);
    PercentInRange(n, k);
    PercentInRange(n, k + 1);
    SortedSorts(values);
    PositionOfBetween(n, p, q, t);
    PositionBetweenRanks(n, k, p);
    PositionBetweenRanks(n, k, q);
    hide Position, ValueAt, PercentAt, Between;
    ValueOfBetween(ordered, k, Position(n, p), Position(n, q), t);
  }

  lemma ValueOfBetween(ordered: seq<real>, k: nat, x: real, y: real, t: real)
    requires k + 1 < |ordered| && 0.0 <= t <= 1.0 && k as real <= x <= (k + 1) as real && k as real <= y <= (k + 1) as real
    ensures k as real <= Between(x, y, t) <= (k + 1) as real
    ensures ValueAt(ordered, Between(x, y, t)) == Between(ValueAt(ordered, x), ValueAt(ordered, y), t)
  {
    hide ValueAt, Between, Line;
    BetweenBounds(x, y, t, k as real, (k + 1) as real);
    LineOfBetween(ordered[k], ordered[k + 1] - ordered[k], k as real, x, y, t);
    var z := Between(x, y, t);
    assert k as real <= z <= (k + 1) as real;
    OnTheLine(ordered, k, x);
    OnTheLine(ordered, k, y);
    OnTheLine(ordered, k, z);
  }
}
