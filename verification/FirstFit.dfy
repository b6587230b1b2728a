/** First come, first served against one limit: the reference both limiter forms are
    compared with inside a single window. */
module FirstFit {

  predicate Positive(costs: seq<int>)
  {
    forall i :: 0 <= i < |costs| ==> costs[i] >= 1
  }

  predicate AllAre(costs: seq<int>, c: int)
  {
    forall i :: 0 <= i < |costs| ==> costs[i] == c
  }

  /** The first `fit` and no others. */
  predicate Earliest(oks: seq<bool>, fit: int)
  {
    && Granted(oks) == (if |oks| <= fit then |oks| else fit)
    && forall i :: 0 <= i < |oks| ==> (oks[i] <==> i < fit)
  }

  /** Admit each cost that still fits what earlier admitted costs left over. */
  function Verdicts(limit: int, used: int, costs: seq<int>): (oks: seq<bool>)
    ensures |oks| == |costs|
    decreases costs
  {
    if costs == [] then []
    else
      var ok := used + costs[0] <= limit;
      [ok] + Verdicts(limit, if ok then used + costs[0] else used, costs[1..])
  }

  /** Total of the admitted costs. */
  function Admitted(costs: seq<int>, oks: seq<bool>): int
    requires |costs| == |oks|
  {
    if costs == [] then 0
    else (if oks[0] then costs[0] else 0) + Admitted(costs[1..], oks[1..])
  }

  function Granted(oks: seq<bool>): nat
  {
    if oks == [] then 0 else (if oks[0] then 1 else 0) + Granted(oks[1..])
  }

  /** What the window holds after serving the costs. */
  function Spent(limit: int, used: int, costs: seq<int>): int
  {
    used + Admitted(costs, Verdicts(limit, used, costs))
  }

  lemma {:induction false} SpentGrows(limit: int, used: int, costs: seq<int>)
    requires Positive(costs)
    ensures used <= Spent(limit, used, costs)
    ensures used <= limit ==> Spent(limit, used, costs) <= limit
    ensures Spent(limit, used, costs) == used <==> true !in Verdicts(limit, used, costs)
    decreases costs
  {
    if costs != [] {
      var ok := used + costs[0] <= limit;
      SpentGrows(limit, if ok then used + costs[0] else used, costs[1..]);
    }
  }

  /** A refused cost would not fit even the final count. */
  lemma {:induction false} RefusedNeverFits(limit: int, used: int, costs: seq<int>, i: nat)
    requires Positive(costs)
    requires i < |costs| && !Verdicts(limit, used, costs)[i]
    ensures Spent(limit, used, costs) + costs[i] > limit
    decreases costs
  {
    var ok := used + costs[0] <= limit;
    var now := if ok then used + costs[0] else used;
    if i == 0 {
      SpentGrows(limit, now, costs[1..]);
    } else {
      RefusedNeverFits(limit, now, costs[1..], i - 1);
    }
  }

  /** Equal costs: exactly as many are admitted as fit, and they are the earliest. */
  lemma {:induction false} EqualCosts(limit: int, used: int, costs: seq<int>, c: int)
    requires c >= 1 && used <= limit
    requires AllAre(costs, c)
    ensures Earliest(Verdicts(limit, used, costs), (limit - used) / c)
    decreases costs
  {
    if costs != [] {
      assert costs[0] == c;
      var ok := used + c <= limit;
      var oks := Verdicts(limit, used, costs);
      EqualCosts(limit, if ok then used + c else used, costs[1..], c);
      if ok {
        DivStep(limit - used, c);
      } else {
        assert (limit - used) / c == 0;
      }
      assert oks[1..] == Verdicts(limit, if ok then used + c else used, costs[1..]);
    }
  }

  lemma DivStep(room: int, c: int)
    requires c >= 1
    ensures (room - c) / c == room / c - 1
  {
    assert room == (room / c) * c + room % c;
    var q := room / c - 1;
    assert room - c == q * c + room % c;
    DivUnique(room - c, c, q, room % c);
  }

  lemma DivUnique(n: int, d: int, q: int, r: int)
    requires d >= 1 && 0 <= r < d && n == q * d + r
    ensures n / d == q
  {
    var q', r' := n / d, n % d;
    assert n == q' * d + r';
    AtLeastOneStep(q - q', d);
    AtLeastOneStep(q' - q, d);
    assert (q - q') * d == q * d - q' * d == r' - r;
    assert (q' - q) * d == q' * d - q * d == r - r';
  }

  lemma AtLeastOneStep(k: int, d: int)
    requires d >= 1
    ensures k >= 1 ==> k * d >= d
  {
    if k >= 1 {
      assert k * d == (k - 1) * d + d;
      assert (k - 1) * d >= 0;
    }
  }

  /** Serving costs one after the other composes. */
  lemma {:induction false} Snoc(limit: int, used: int, costs: seq<int>, c: int)
    ensures var ok := Spent(limit, used, costs) + c <= limit;
            && Verdicts(limit, used, costs + [c]) == Verdicts(limit, used, costs) + [ok]
            && Spent(limit, used, costs + [c]) == Spent(limit, used, costs) + (if ok then c else 0)
    decreases costs
  {
    if costs == [] {
      assert costs + [c] == [c];
    } else {
      assert (costs + [c])[1..] == costs[1..] + [c];
      var ok := used + costs[0] <= limit;
      Snoc(limit, if ok then used + costs[0] else used, costs[1..], c);
    }
  }
}
