/** Limiter latency pooled over the conditions of a benchmark (bench/analyze.py). */
module Pooling {
  import opened Prelude
  import opened LimiterDelta
  import opened Metrics

  // ------------------------------------------------------------ rows by name

  type Condition = seq<(string, Row)>

  function RowsIn(condition: Condition, name: string): seq<Row>
  {
    if condition == [] then []
    else
      RowsIn(condition[..|condition| - 1], name)
      + (if condition[|condition| - 1].0 == name then [condition[|condition| - 1].1] else [])
  }

  /** All rows of one limiter, condition by condition. */
  function RowsOf(conditions: seq<Condition>, name: string): seq<Row>
  {
    if conditions == [] then [] else RowsOf(conditions[..|conditions| - 1], name) + RowsIn(conditions[|conditions| - 1], name)
  }

  function CountSum(rows: seq<Row>): int
  {
    if rows == [] then 0 else CountSum(rows[..|rows| - 1]) + rows[|rows| - 1].count
  }

  /** A missing mean weighs nothing. */
  function Weight(r: Row): real
  {
    (if r.mean.Some? then r.mean.value else 0.0) * r.count as real
  }

  function WeightedSum(rows: seq<Row>): real
  {
    if rows == [] then 0.0 else WeightedSum(rows[..|rows| - 1]) + Weight(rows[|rows| - 1])
  }

  datatype Percent = P50 | P95 | P99

  function Pick(r: Row, p: Percent): Option<real>
  {
    match p case P50 => r.p50 case P95 => r.p95 case P99 => r.p99
  }

  predicate Observed(r: Row)
  {
    r.count > 0
  }

  /** What conservative_max_bound promises about rows: a bound only if every observed row
      has one, and then the greatest of them. */
  ghost predicate IsMaxBound(rows: seq<Row>, p: Percent, b: Option<real>)
  {
    match b
    case None => (forall r <- rows :: !Observed(r)) || exists r <- rows :: Observed(r) && Pick(r, p).None?
    case Some(x) =>
      && (forall r <- rows :: Observed(r) ==> Pick(r, p).Some? && Pick(r, p).value <= x)
      && exists r <- rows :: Observed(r) && Pick(r, p) == Some(x)
  }

  /** conservative_max_bound */
  method ConservativeMaxBound(rows: seq<Row>, p: Percent) returns (b: Option<real>)
    ensures IsMaxBound(rows, p, b)
  {
    b := None;
    for i := 0 to |rows|
      invariant b.None? ==> forall j :: 0 <= j < i ==> !Observed(rows[j])
      invariant b.Some? ==> forall j :: 0 <= j < i ==> Observed(rows[j]) ==> Pick(rows[j], p).Some? && Pick(rows[j], p).value <= b.value
      invariant b.Some? ==> exists j :: 0 <= j < i && Observed(rows[j]) && Pick(rows[j], p) == b
    {
      if Observed(rows[i]) {
        var own := Pick(rows[i], p);
        if own.None? {
          assert rows[i] in rows;
          return None;
        }
        if b.None? || b.value < own.value {
          b := own;
        }
      }
    }
  }

  datatype Pooled = Pooled(backend: string, count: int, mean: Option<real>, p50: Option<real>, p95: Option<real>, p99: Option<real>)

  ghost predicate IsPooled(rows: seq<Row>, c: Pooled)
  {
    && rows != [] && c.backend == rows[0].backend && c.count == CountSum(rows)
    && c.mean == (if CountSum(rows) == 0 then None else Some(WeightedSum(rows) / CountSum(rows) as real))
    && IsMaxBound(rows, P50, c.p50) && IsMaxBound(rows, P95, c.p95) && IsMaxBound(rows, P99, c.p99)
  }

  function Entry(entries: map<string, seq<Row>>, name: string): seq<Row>
  {
    if name in entries then entries[name] else []
  }

  /** The entries hold these rows of every limiter, and no limiter without rows. */
  ghost predicate Collected(entries: map<string, seq<Row>>, conditions: seq<Condition>)
  {
    && (forall name :: Entry(entries, name) == RowsOf(conditions, name))
    && forall name <- entries :: entries[name] != []
  }

  lemma NoRowsYet()
    ensures forall name :: RowsIn([], name) == [] && Entry(map[], name) == []
  {
  }

  lemma NextRow(items: Condition, j: nat, name: string)
    requires j < |items|
    ensures RowsIn(items[..j + 1], name) == RowsIn(items[..j], name) + (if items[j].0 == name then [items[j].1] else [])
  {
    assert items[..j + 1][..j] == items[..j];
  }

  /** The entries are the ones before with the rows of some items added. */
  ghost predicate Grown(entries: map<string, seq<Row>>, before: map<string, seq<Row>>, items: Condition)
  {
    && (forall name :: Entry(entries, name) == Entry(before, name) + RowsIn(items, name))
    && forall name <- entries :: entries[name] != []
  }

  lemma GrowsByOne(entries: map<string, seq<Row>>, before: map<string, seq<Row>>, items: Condition, j: nat)
    requires j < |items| && Grown(entries, before, items[..j])
    ensures Grown(entries[items[j].0 := Entry(entries, items[j].0) + [items[j].1]], before, items[..j + 1])
  {
    hide RowsIn;
    var (name, row) := items[j];
    var longer := entries[name := Entry(entries, name) + [row]];
    forall k: string
      ensures Entry(longer, k) == Entry(before, k) + RowsIn(items[..j + 1], k)
    {
      NextRow(items, j, k);
      assert Entry(longer, k) == Entry(entries, k) + if k == name then [row] else [];
      assert Entry(entries, k) == Entry(before, k) + RowsIn(items[..j], k);
    }
  }

  lemma NotYetGrown(before: map<string, seq<Row>>, items: Condition)
    requires forall name <- before :: before[name] != []
    ensures Grown(before, before, items[..0])
  {
    NoRowsYet();
    assert items[..0] == [];
  }

  method AddCondition(before: map<string, seq<Row>>, items: Condition) returns (entries: map<string, seq<Row>>)
    requires forall name <- before :: before[name] != []
    ensures Grown(entries, before, items)
  {
    hide Grown;
    hide Entry;
    NotYetGrown(before, items);
    entries := before;
    for j := 0 to |items|
      invariant Grown(entries, before, items[..j])
    {
      GrowsByOne(entries, before, items, j);
      var (name, row) := items[j];
      entries := entries[name := Entry(entries, name) + [row]];
    }
    assert items[..|items|] == items;
  }

  method Collect(conditions: seq<Condition>) returns (entries: map<string, seq<Row>>)
    ensures Collected(entries, conditions)
  {
    hide RowsIn;
    hide Entry;
    entries := map[];
    NoRowsYet();
    for i := 0 to |conditions|
      invariant Collected(entries, conditions[..i])
    {
      assert conditions[..i + 1][..i] == conditions[..i];
      entries := AddCondition(entries, conditions[i]);
    }
    assert conditions[..|conditions|] == conditions;
  }

  method PoolAll(entries: map<string, seq<Row>>) returns (result: map<string, Pooled>)
    requires forall name <- entries :: entries[name] != []
    ensures result.Keys == entries.Keys
    ensures forall name <- result :: IsPooled(entries[name], result[name])
  {
    hide IsPooled;
    result := map[];
    var names := entries.Keys;
    while names != {}
      invariant names <= entries.Keys && result.Keys == entries.Keys - names
      invariant forall name <- result :: IsPooled(entries[name], result[name])
      decreases |names|
    {
      var name :| name in names;
      var pooled := PoolRows(entries[name]);
      result := result[name := pooled];
      names := names - {name};
    }
  }

  /** combine_limiter_latency: rows are collected per limiter, then pooled. */
  method CombineLimiterLatency(conditions: seq<Condition>) returns (r: Option<map<string, Pooled>>)
    ensures r.None? <==> forall name :: RowsOf(conditions, name) == []
    ensures r.Some? ==> forall name :: name in r.value <==> RowsOf(conditions, name) != []
    ensures r.Some? ==> forall name <- r.value :: IsPooled(RowsOf(conditions, name), r.value[name])
  {
    hide IsPooled;
    hide RowsOf;
    var entries := Collect(conditions);
    assert forall name :: name in entries <==> RowsOf(conditions, name) != [];
    if entries == map[] {
      return None;
    }
    var result := PoolAll(entries);
    var some :| some in entries;
    assert RowsOf(conditions, some) != [];
    return Some(result);
  }

  method PoolRows(rows: seq<Row>) returns (c: Pooled)
    requires rows != []
    ensures IsPooled(rows, c)
  {
    hide IsMaxBound;
    var count := CountSum(rows);
    var weighted := WeightedSum(rows);
    var p50 := ConservativeMaxBound(rows, P50);
    var p95 := ConservativeMaxBound(rows, P95);
    var p99 := ConservativeMaxBound(rows, P99);
    c := Pooled(rows[0].backend, count, if count == 0 then None else Some(weighted / count as real), p50, p95, p99);
  }

  // ----------------------------------------- what the pooled numbers guarantee

  function Flatten(samples: seq<seq<real>>): seq<real>
  {
    if samples == [] then [] else Flatten(samples[..|samples| - 1]) + samples[|samples| - 1]
  }

  /** The observations (in milliseconds) behind each row: their number; their mean, times
      their number off the sum by no more than some slack; and a bound, where there is
      one, that covers the percentage of them. */
  predicate Behind(rows: seq<Row>, samples: seq<seq<real>>, p: Percent, percent: nat, slack: real)
  {
    |rows| == |samples|
    && forall i :: 0 <= i < |rows| ==> RowBehind(rows[i], samples[i], p, percent, slack)
  }

  predicate RowBehind(r: Row, values: seq<real>, p: Percent, percent: nat, slack: real)
  {
    && r.count == |values|
    && (r.mean.None? <==> values == [])
    && (r.mean.Some? ==> -slack <= r.mean.value * |values| as real - SumOf(values) <= slack)
    && (Observed(r) && Pick(r, p).Some? ==> Covers(values, Pick(r, p).value, percent))
  }

  /** At least ceil(percent * n / 100) of the n values are not above b. */
  predicate Covers(values: seq<real>, b: real, percent: nat)
  {
    100 * AtMost(values, b) >= percent * |values|
  }

  lemma CoversBoth(xs: seq<real>, ys: seq<real>, b: real, percent: nat)
    requires Covers(xs, b, percent) && Covers(ys, b, percent)
    ensures Covers(xs + ys, b, percent)
  {
    hide AtMost;
    AtMostBoth(xs, ys, b);
    Distribute(percent, |xs|, |ys|);
  }

  lemma Distribute(n: int, x: int, y: int)
    ensures n * (x + y) == n * x + n * y
  {
  }

  lemma LastCovered(r: Row, values: seq<real>, p: Percent, percent: nat, slack: real, b: real)
    requires RowBehind(r, values, p, percent, slack) && (Observed(r) ==> Pick(r, p).Some? && Pick(r, p).value <= b)
    ensures Covers(values, b, percent)
  {
    if Observed(r) {
      AtMostMonotone(values, Pick(r, p).value, b);
    } else {
      assert values == [];
    }
  }

  /** A bound not below those of the observed rows covers the percentage of the pool. */
  lemma {:induction false} PoolCovered(rows: seq<Row>, samples: seq<seq<real>>, p: Percent, percent: nat, slack: real, b: real)
    requires Behind(rows, samples, p, percent, slack)
    requires forall r <- rows :: Observed(r) ==> Pick(r, p).Some? && Pick(r, p).value <= b
    ensures Covers(Flatten(samples), b, percent)
  {
    if rows != [] {
      hide Covers;
      hide RowBehind;
      var n := |rows| - 1;
      assert forall r <- rows[..n] :: r in rows;
      assert rows[n] in rows;
      PoolCovered(rows[..n], samples[..n], p, percent, slack, b);
      LastCovered(rows[n], samples[n], p, percent, slack, b);
      CoversBoth(Flatten(samples[..n]), samples[n], b, percent);
    }
  }

  /** The pooled bound never understates: it covers the percentage of all observations. It
      is missing exactly when nothing was observed or some observed row has no bound. */
  lemma PooledNeverUnderstates(rows: seq<Row>, samples: seq<seq<real>>, p: Percent, percent: nat, slack: real, b: Option<real>)
    requires Behind(rows, samples, p, percent, slack) && IsMaxBound(rows, p, b)
    ensures b.Some? ==> Covers(Flatten(samples), b.value, percent)
    ensures b.None? <==> Flatten(samples) == [] || exists r <- rows :: Observed(r) && Pick(r, p).None?
  {
    if b.Some? {
      PoolCovered(rows, samples, p, percent, slack, b.value);
    }
    NothingObserved(rows, samples, p, percent, slack);
  }

  lemma {:induction false} NothingObserved(rows: seq<Row>, samples: seq<seq<real>>, p: Percent, percent: nat, slack: real)
    requires Behind(rows, samples, p, percent, slack)
    ensures Flatten(samples) == [] <==> forall r <- rows :: !Observed(r)
  {
    hide Covers;
    if rows != [] {
      var n := |rows| - 1;
      NothingObserved(rows[..n], samples[..n], p, percent, slack);
      assert RowBehind(rows[n], samples[n], p, percent, slack);
      assert rows == rows[..n] + [rows[n]] && rows[n] in rows;
      assert |Flatten(samples)| == |Flatten(samples[..n])| + |samples[n]|;
    }
  }

  lemma WeightIsSum(r: Row, values: seq<real>, p: Percent, percent: nat, slack: real)
    requires RowBehind(r, values, p, percent, slack) && slack >= 0.0
    ensures -slack <= Weight(r) - SumOf(values) <= slack
  {
    hide Covers;
  }

  function Times(n: nat, x: real): real
  {
    n as real * x
  }

  lemma TimesOneMore(n: nat, x: real)
    ensures Times(n + 1, x) == Times(n, x) + x
  {
  }

  lemma {:induction false} SumsOfPool(rows: seq<Row>, samples: seq<seq<real>>, p: Percent, percent: nat, slack: real)
    requires Behind(rows, samples, p, percent, slack) && slack >= 0.0
    ensures CountSum(rows) == |Flatten(samples)|
    ensures -Times(|rows|, slack) <= WeightedSum(rows) - SumOf(Flatten(samples)) <= Times(|rows|, slack)
  {
    if rows != [] {
      var n := |rows| - 1;
      SumsOfPool(rows[..n], samples[..n], p, percent, slack);
      AtMostBoth(Flatten(samples[..n]), samples[n], 0.0);
      WeightIsSum(rows[n], samples[n], p, percent, slack);
      TimesOneMore(n, slack);
      hide Weight, Covers, RowBehind, Times;
    }
  }

  /** Pooled rows count all observations, and the weighted mean times their number is their
      sum, off by no more than the rows' own slack together. */
  lemma PooledMeanIsMean(rows: seq<Row>, samples: seq<seq<real>>, p: Percent, percent: nat, slack: real, c: Pooled)
    requires Behind(rows, samples, p, percent, slack) && slack >= 0.0 && IsPooled(rows, c)
    ensures var pool := Flatten(samples);
            && c.count == |pool| && (c.mean.None? <==> pool == [])
            && (c.mean.Some? ==> -Times(|rows|, slack) <= c.mean.value * |pool| as real - SumOf(pool) <= Times(|rows|, slack))
  {
    hide IsMaxBound, Behind, Times;
    SumsOfPool(rows, samples, p, percent, slack);
    var n, sum := CountSum(rows), WeightedSum(rows);
    if n != 0 {
      TimesItsNumber(sum, n);
    }
  }

  lemma TimesItsNumber(sum: real, n: int)
    requires n != 0
    ensures sum / n as real * n as real == sum
  {
  }

  /** Rows whose means are exact pool to the exact mean. */
  lemma ExactMeansPoolExactly(rows: seq<Row>, samples: seq<seq<real>>, p: Percent, percent: nat, c: Pooled)
    requires Behind(rows, samples, p, percent, 0.0) && IsPooled(rows, c)
    ensures var pool := Flatten(samples);
            c.mean == if pool == [] then None else Some(SumOf(pool) / |pool| as real)
  {
    hide Behind, IsPooled, Times, Flatten, SumOf;
    PooledMeanIsMean(rows, samples, p, percent, 0.0, c);
    NoSlack(|rows|);
    if c.mean.Some? {
      OnlyQuotient(c.mean.value, |Flatten(samples)|, SumOf(Flatten(samples)), Times(|rows|, 0.0));
    }
  }

  lemma NoSlack(n: nat)
    ensures Times(n, 0.0) == 0.0
  {
  }

  lemma OnlyQuotient(m: real, n: int, sum: real, slack: real)
    requires n != 0 && slack == 0.0 && -slack <= m * n as real - sum <= slack
    ensures m == sum / n as real
  {
    var d := n as real;
    assert m * d == sum;
  }
}
