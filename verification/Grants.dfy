/** What any fixed-window limiter leaves behind: the calls it granted, each with the
    instant of the call, the start of the window it was charged to, and its cost.
    The bounds here hold of the grants alone, so the in-memory limiters, the Redis
    limiter and the denial audit budget all inherit them. */
module Grants {

  datatype Grant = Grant(time: real, start: real, cost: nat)

  /** Total cost of the grants that satisfy p. */
  function CostWhere(grants: seq<Grant>, p: Grant -> bool): nat
  {
    if grants == [] then 0
    else (if p(grants[0]) then grants[0].cost else 0) + CostWhere(grants[1..], p)
  }

  /** Grants made in the half-open interval from lo to hi. */
  function During(lo: real, hi: real): Grant -> bool
  {
    (g: Grant) => lo <= g.time < hi
  }

  /** Grants charged to the window that starts at s. */
  function ChargedTo(s: real): Grant -> bool
  {
    (g: Grant) => g.start == s
  }

  /** Grants charged to a window that starts at lo or later. */
  function StartingFrom(lo: real): Grant -> bool
  {
    (g: Grant) => lo <= g.start
  }

  function Anything(): Grant -> bool
  {
    (g: Grant) => true
  }

  /** Window g is over, and its grants made, before window h opens. */
  predicate Precedes(w: real, g: Grant, h: Grant)
  {
    g.start + w <= h.start && g.time <= h.start
  }

  /** No grant is made before its window opens, windows follow one another at least a
      window length apart, and no window is charged more than the limit. */
  ghost predicate WellSpaced(w: real, limit: int, grants: seq<Grant>)
  {
    && (forall g <- grants :: g.start <= g.time)
    && (forall g <- grants, h <- grants :: g.start == h.start || Precedes(w, g, h) || Precedes(w, h, g))
    && (forall s: real :: CostWhere(grants, ChargedTo(s)) <= limit)
  }

  /** Every window that was charged was opened by a grant at its very start. */
  ghost predicate Anchored(grants: seq<Grant>)
  {
    forall g <- grants :: OpenedAt(grants, g.start)
  }

  ghost predicate OpenedAt(grants: seq<Grant>, s: real)
  {
    exists h <- grants :: h.time == s && h.start == s && h.cost >= 1
  }

  lemma {:induction false} CostNone(grants: seq<Grant>, p: Grant -> bool)
    requires forall g <- grants :: !p(g)
    ensures CostWhere(grants, p) == 0
  {
    if grants != [] {
      CostNone(grants[1..], p);
    }
  }

  lemma {:induction false} CostMono(grants: seq<Grant>, p: Grant -> bool, q: Grant -> bool)
    requires forall g <- grants :: p(g) ==> q(g)
    ensures CostWhere(grants, p) <= CostWhere(grants, q)
  {
    if grants != [] {
      CostMono(grants[1..], p, q);
    }
  }

  lemma {:induction false} CostUnion(grants: seq<Grant>, p: Grant -> bool, q: Grant -> bool, r: Grant -> bool)
    requires forall g <- grants :: p(g) ==> q(g) || r(g)
    ensures CostWhere(grants, p) <= CostWhere(grants, q) + CostWhere(grants, r)
  {
    if grants != [] {
      CostUnion(grants[1..], p, q, r);
    }
  }

  /** When q holds wherever p does and some costly grant has q but not p, p is dearer by at least that. */
  lemma {:induction false} CostStrict(grants: seq<Grant>, p: Grant -> bool, q: Grant -> bool, h: Grant)
    requires forall g <- grants :: p(g) ==> q(g)
    requires h in grants && q(h) && !p(h)
    ensures CostWhere(grants, p) + h.cost <= CostWhere(grants, q)
  {
    if grants[0] == h {
      CostMono(grants[1..], p, q);
    } else {
      assert h in grants[1..];
      CostStrict(grants[1..], p, q, h);
    }
  }

  lemma {:induction false} CostAppend(grants: seq<Grant>, more: seq<Grant>, p: Grant -> bool)
    ensures CostWhere(grants + more, p) == CostWhere(grants, p) + CostWhere(more, p)
  {
    if grants == [] {
      assert grants + more == more;
    } else {
      assert (grants + more)[1..] == grants[1..] + more;
      CostAppend(grants[1..], more, p);
    }
  }

  /** A further grant keeps the windows well spaced when it is charged to the latest
      window, or opens one after it, and fits the limit. */
  lemma Extend(w: real, limit: int, grants: seq<Grant>, g: Grant)
    requires w > 0.0 && WellSpaced(w, limit, grants)
    requires g.start <= g.time
    requires forall h <- grants :: h.start == g.start || Precedes(w, h, g)
    requires CostWhere(grants, ChargedTo(g.start)) + g.cost <= limit
    ensures WellSpaced(w, limit, grants + [g])
    ensures CostWhere(grants + [g], ChargedTo(g.start)) == CostWhere(grants, ChargedTo(g.start)) + g.cost
  {
    forall s: real
      ensures CostWhere(grants + [g], ChargedTo(s)) == CostWhere(grants, ChargedTo(s)) + (if s == g.start then g.cost else 0)
    {
      CostAppend(grants, [g], ChargedTo(s));
    }
  }

  /** At most two windows can meet an interval as long as a window. */
  lemma AtMostTwoWindows(w: real, limit: int, grants: seq<Grant>, a: real, g: Grant, h: Grant)
    requires WellSpaced(w, limit, grants)
    requires g in grants && h in grants && g.start < h.start
    requires During(a, a + w)(g) && During(a, a + w)(h)
    ensures forall x <- grants :: During(a, a + w)(x) ==> ChargedTo(g.start)(x) || ChargedTo(h.start)(x)
    ensures g.start < a
  {
  }

  /** Two windows of grants: the interval holds at most twice the limit, and one less
      when windows open with a grant. */
  lemma TwoWindowBound(w: real, limit: int, grants: seq<Grant>, a: real, g: Grant, h: Grant)
    requires WellSpaced(w, limit, grants)
    requires g in grants && h in grants && g.start < h.start
    requires During(a, a + w)(g) && During(a, a + w)(h)
    ensures CostWhere(grants, During(a, a + w)) <= 2 * limit
    ensures Anchored(grants) ==> CostWhere(grants, During(a, a + w)) <= 2 * limit - 1
  {
    AtMostTwoWindows(w, limit, grants, a, g, h);
    CostUnion(grants, During(a, a + w), ChargedTo(g.start), ChargedTo(h.start));
    if Anchored(grants) {
      assert OpenedAt(grants, g.start);
      var opener :| opener in grants && opener.time == g.start && opener.start == g.start && opener.cost >= 1;
      var late: Grant -> bool := (x: Grant) => x.start == g.start && a <= x.time;
      CostStrict(grants, late, ChargedTo(g.start), opener);
      CostUnion(grants, During(a, a + w), late, ChargedTo(h.start));
    }
  }

  /** Any half-open interval as long as a window sees at most twice the limit; at most
      twice the limit less one when every window opens with a grant. */
  lemma IntervalBound(w: real, limit: int, grants: seq<Grant>, a: real)
    requires limit >= 1 && WellSpaced(w, limit, grants)
    ensures CostWhere(grants, During(a, a + w)) <= 2 * limit
    ensures Anchored(grants) ==> CostWhere(grants, During(a, a + w)) <= 2 * limit - 1
  {
    if g, h :| g in grants && h in grants && g.start < h.start && During(a, a + w)(g) && During(a, a + w)(h) {
      TwoWindowBound(w, limit, grants, a, g, h);
    } else if g :| g in grants && During(a, a + w)(g) {
      CostMono(grants, During(a, a + w), ChargedTo(g.start));
    } else {
      CostNone(grants, During(a, a + w));
    }
  }

  /** The n-th boundary when windows of length w are laid end to end from zero. */
  function Boundary(n: int, w: real): real
  {
    n as real * w
  }

  lemma BoundaryStep(n: int, w: real)
    ensures Boundary(n + 1, w) == Boundary(n, w) + w
  {
    assert (n + 1) as real == n as real + 1.0;
  }

  lemma BoundaryOrder(m: int, n: int, w: real)
    requires w > 0.0
    ensures m < n ==> Boundary(m, w) + w <= Boundary(n, w)
    ensures Boundary(m, w) == Boundary(n, w) <==> m == n
  {
    BoundaryStep(m, w);
    if m < n {
      ProductOrder((m + 1) as real, n as real, w);
    } else if n < m {
      ProductOrder(n as real, m as real, w);
    }
  }

  /** Windows that start within n window lengths of lo are charged at most n limits. */
  lemma {:induction false} WindowCountBound(w: real, limit: nat, grants: seq<Grant>, lo: real, n: nat)
    requires w > 0.0 && WellSpaced(w, limit, grants)
    requires forall g <- grants :: g.start < lo + Boundary(n, w)
    ensures CostWhere(grants, StartingFrom(lo)) <= n * limit
    decreases n
  {
    if n == 0 {
      CostNone(grants, StartingFrom(lo));
    } else {
      BoundaryStep(n - 1, w);
      assert (n - 1) * limit + limit == n * limit;
      WindowCountBound(w, limit, grants, lo + w, n - 1);
      if g :| g in grants && lo <= g.start < lo + w {
        CostUnion(grants, StartingFrom(lo), ChargedTo(g.start), StartingFrom(lo + w));
      } else {
        CostMono(grants, StartingFrom(lo), StartingFrom(lo + w));
      }
    }
  }

  lemma ProductOrder(x: real, y: real, w: real)
    requires w > 0.0
    ensures x <= y ==> x * w <= y * w
    ensures x < y ==> x * w < y * w
  {
  }

  /** The whole number of windows that fit before x. */
  function Windows(x: real, w: real): int
    requires w > 0.0
  {
    (x / w).Floor
  }

  lemma FloorBracket(q: real, w: real)
    requires w > 0.0
    ensures Boundary(q.Floor, w) <= q * w
    ensures q * w < Boundary(q.Floor, w) + w
  {
    var f := q.Floor;
    assert f as real <= q && q < (f + 1) as real;
    ProductOrder(f as real, q, w);
    ProductOrder(q, (f + 1) as real, w);
    BoundaryStep(f, w);
  }

  lemma WindowsBracket(x: real, w: real)
    requires w > 0.0
    ensures Boundary(Windows(x, w), w) <= x < Boundary(Windows(x, w), w) + w
  {
    assert (x / w) * w == x;
    FloorBracket(x / w, w);
  }

  lemma WindowsMonotone(x: real, y: real, w: real)
    requires w > 0.0 && x <= y
    ensures Windows(x, w) <= Windows(y, w)
  {
    WindowsBracket(x, w);
    WindowsBracket(y, w);
    BoundaryOrder(Windows(y, w), Windows(x, w), w);
  }

  /** Over a run whose windows all start between t0 and t0 + span, the grants cost at
      most the limit times one more than the whole windows in the span. */
  lemma SpanBound(w: real, limit: nat, grants: seq<Grant>, t0: real, span: real)
    requires w > 0.0 && span >= 0.0 && WellSpaced(w, limit, grants)
    requires forall g <- grants :: t0 <= g.start <= t0 + span
    ensures CostWhere(grants, Anything()) <= (Windows(span, w) + 1) * limit
  {
    WindowsBracket(span, w);
    var n := Windows(span, w) + 1;
    BoundaryOrder(Windows(span, w), 0, w);
    BoundaryStep(Windows(span, w), w);
    WindowCountBound(w, limit, grants, t0, n);
    CostMono(grants, Anything(), StartingFrom(t0));
  }

  /** Windows laid end to end from zero: each grant is charged to the window it falls in. */
  lemma AlignedInterval(w: real, limit: int, grants: seq<Grant>, a: real)
    requires w > 0.0 && limit >= 1
    requires forall g <- grants :: g.start == Boundary(Windows(g.time, w), w)
    requires forall s: real :: CostWhere(grants, ChargedTo(s)) <= limit
    ensures CostWhere(grants, During(a, a + w)) <= 2 * limit
  {
    forall g <- grants, h <- grants
      ensures g.start <= g.time && (g.start == h.start || Precedes(w, g, h) || Precedes(w, h, g))
    {
      WindowsBracket(g.time, w);
      WindowsBracket(h.time, w);
      BoundaryOrder(Windows(g.time, w), Windows(h.time, w), w);
      BoundaryOrder(Windows(h.time, w), Windows(g.time, w), w);
    }
    IntervalBound(w, limit, grants, a);
  }

  /** n equal grants. */
  function Repeated(g: Grant, n: nat): seq<Grant>
  {
    if n == 0 then [] else Repeated(g, n - 1) + [g]
  }

  lemma {:induction false} RepeatedCost(g: Grant, n: nat, p: Grant -> bool)
    ensures CostWhere(Repeated(g, n), p) == if p(g) then n * g.cost else 0
  {
    if n > 0 {
      RepeatedCost(g, n - 1, p);
      CostAppend(Repeated(g, n - 1), [g], p);
      assert n * g.cost == (n - 1) * g.cost + g.cost;
    }
  }
}
