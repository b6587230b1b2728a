/** The aggregate snapshot of gateway/telemetry_snapshot.py: samples into counters and
    histograms, histograms into upper bounds. */
module Snapshot {
  import opened Prelude
  import opened Exposition
  import opened Labels
  import opened Numbers

  /** A bucket line: its upper bound and its cumulative count. */
  datatype Bar<V> = Bar(bound: Number, held: V)

  datatype ModelLatency = ModelLatency(buckets: seq<Bar<int>>, count: int, sum: Number)

  datatype Tally = Tally(requests: map<string, int>, tokens: map<string, int>, latency: map<string, ModelLatency>)

  datatype SnapshotFailure = Unreadable(why: Failure) | NotACount | NotABound

  const NO_LATENCY := ModelLatency([], 0, Fin(0.0))

  const NO_TALLY := Tally(map[], map[], map[])

  /** as_int: the count k is read off the number k and off no other number. */
  function AsInt(v: Number): (n: Option<int>)
    ensures forall k: int :: n == Some(k) <==> k >= 0 && v == Fin(k as real)
  {
    if v.Fin? && v.r >= 0.0 && IsInteger(v.r) then Some(v.r.Floor) else None
  }

  /** labels.get: an absent label and an empty one are treated alike. */
  function Get(labels: LabelMap, key: string): string
  {
    if key in labels then labels[key] else ""
  }

  function LatencyOf(t: Tally, model: string): ModelLatency
  {
    if model in t.latency then t.latency[model] else NO_LATENCY
  }

  /** One sample taken into the tally. */
  function Take(t: Tally, s: Sample): Result<Tally, SnapshotFailure>
  {
    var outcome, model, le := Get(s.labels, "outcome"), Get(s.labels, "model_id"), Get(s.labels, "le");
    var n := AsInt(s.value);
    if s.name == REQUESTS || s.name == TOKENS then
      if outcome == "" then Ok(t)
      else if n.None? then Err(NotACount)
      else if s.name == REQUESTS then Ok(t.(requests := Bump(t.requests, outcome, n.value)))
      else Ok(t.(tokens := Bump(t.tokens, outcome, n.value)))
    else if s.name == BUCKET then
      if model == "" || le == "" then Ok(t)
      else if NumberOf(le).None? then Err(NotABound)
      else if n.None? then Err(NotACount)
      else
        var l := LatencyOf(t, model);
        Ok(t.(latency := t.latency[model := l.(buckets := l.buckets + [Bar(NumberOf(le).value, n.value)])]))
    else if s.name == COUNT then
      if model == "" then Ok(t)
      else if n.None? then Err(NotACount)
      else Ok(t.(latency := t.latency[model := LatencyOf(t, model).(count := n.value)]))
    else if s.name == SUM then
      if model == "" then Ok(t) else Ok(t.(latency := t.latency[model := LatencyOf(t, model).(sum := s.value)]))
    else Ok(t)
  }

  /** A sample that has the labels its metric is tallied by, none of them empty. */
  predicate Complete(s: Sample)
  {
    if s.name == REQUESTS || s.name == TOKENS then Has(s, "outcome")
    else if s.name == BUCKET then Has(s, "model_id") && Has(s, "le")
    else (s.name == COUNT || s.name == SUM) && Has(s, "model_id")
  }

  predicate Has(s: Sample, key: string)
  {
    key in s.labels && s.labels[key] != ""
  }

  /** Any other sample is passed over, whatever its value; a complete one fails exactly if
      its bound is no number or the value of any metric but the sum is no count. */
  lemma TakenOrPassedOver(t: Tally, s: Sample)
    ensures !Complete(s) ==> Take(t, s) == Ok(t)
    ensures Complete(s) ==>
              && (Take(t, s) == Err(NotABound) <==> s.name == BUCKET && NumberOf(s.labels["le"]).None?)
              && (Take(t, s) == Err(NotACount) <==> s.name != SUM && AsInt(s.value).None? && (s.name == BUCKET ==> NumberOf(s.labels["le"]).Some?))
              && (Take(t, s).Err? ==> Take(t, s).error == NotABound || Take(t, s).error == NotACount)
  {
    hide NumberOf;
    MetricsDiffer();
  }

  lemma MetricsDiffer()
    ensures BUCKET != REQUESTS && BUCKET != TOKENS && COUNT != REQUESTS && COUNT != TOKENS && SUM != REQUESTS && SUM != TOKENS
    ensures BUCKET != COUNT && BUCKET != SUM && COUNT != SUM && REQUESTS != TOKENS
  {
    assert REQUESTS[|REQUESTS| - 1] == 'l' && TOKENS[|TOKENS| - 1] == 'l';
    assert BUCKET[|BUCKET| - 1] == 't' && COUNT[|COUNT| - 1] == 't' && SUM[|SUM| - 1] == 'm';
    assert BUCKET[|BUCKET| - 2] == 'e' && COUNT[|COUNT| - 2] == 'n';
    assert |REQUESTS| != |TOKENS|;
  }

  function TakeAll(t: Tally, samples: seq<Sample>): Result<Tally, SnapshotFailure>
    decreases samples
  {
    if samples == [] then Ok(t)
    else match Take(t, samples[0])
      case Err(why) => Err(why)
      case Ok(t') => TakeAll(t', samples[1..])
  }

  function TallyOf(text: string): Result<Tally, SnapshotFailure>
  {
    match Parsed(text)
    case Err(why) => Err(Unreadable(why))
    case Ok(samples) => TakeAll(NO_TALLY, samples)
  }

  /** The aggregation loop of build_snapshot. */
  method BuildTally(text: string) returns (r: Result<Tally, SnapshotFailure>)
    ensures r == TallyOf(text)
  {
    hide Parsed;
    hide NumberOf;
    hide AsInt;
    var parsed := ParsePrometheus(text);
    if parsed.Err? {
      return Err(Unreadable(parsed.error));
    }
    var samples := parsed.value;
    var t := NO_TALLY;
    var i := 0;
    assert samples[0..] == samples;
    while i < |samples|
      invariant 0 <= i <= |samples| && TakeAll(NO_TALLY, samples) == TakeAll(t, samples[i..])
    {
      assert samples[i..][1..] == samples[i + 1..];
      var s := samples[i];
      i := i + 1;
      if s.name == REQUESTS || s.name == TOKENS {
        var outcome := Get(s.labels, "outcome");
        if outcome != "" {
          var n := AsInt(s.value);
          if n.None? {
            return Err(NotACount);
          }
          if s.name == REQUESTS {
            t := t.(requests := Bump(t.requests, outcome, n.value));
          } else {
            t := t.(tokens := Bump(t.tokens, outcome, n.value));
          }
        }
      } else if s.name == BUCKET {
        var model, le := Get(s.labels, "model_id"), Get(s.labels, "le");
        if model != "" && le != "" {
          var bound, n := NumberOf(le), AsInt(s.value);
          if bound.None? {
            return Err(NotABound);
          }
          if n.None? {
            return Err(NotACount);
          }
          var l := LatencyOf(t, model);
          t := t.(latency := t.latency[model := l.(buckets := l.buckets + [Bar(bound.value, n.value)])]);
        }
      } else if s.name == COUNT {
        var model := Get(s.labels, "model_id");
        if model != "" {
          var n := AsInt(s.value);
          if n.None? {
            return Err(NotACount);
          }
          t := t.(latency := t.latency[model := LatencyOf(t, model).(count := n.value)]);
        }
      } else if s.name == SUM {
        var model := Get(s.labels, "model_id");
        if model != "" {
          t := t.(latency := t.latency[model := LatencyOf(t, model).(sum := s.value)]);
        }
      }
    }
    return Ok(t);
  }

  // ------------------------------------------------------ the latency summary

  /** x < y between numbers; nothing is below or above what is not a number. */
  predicate Below(x: Number, y: Number)
  {
    match (x, y)
    case (Fin(a), Fin(b)) => a < b
    case (Fin(_), PosInf) => true
    case (NegInf, Fin(_)) => true
    case (NegInf, PosInf) => true
    case _ => false
  }

  /** A stable sort by bound. */
  function InsertBar<V>(x: Bar<V>, bars: seq<Bar<V>>): seq<Bar<V>>
  {
    if bars == [] || !Below(bars[0].bound, x.bound) then [x] + bars else [bars[0]] + InsertBar(x, bars[1..])
  }

  function SortBars<V>(bars: seq<Bar<V>>): seq<Bar<V>>
  {
    if bars == [] then [] else InsertBar(bars[0], SortBars(bars[1..]))
  }

  datatype Summary = Summary(count: int, mean: Option<Number>, p95: Option<Number>)

  function Thousand(v: Number): Number
  {
    if v.Fin? then Fin(v.r * 1000.0) else v
  }

  /** ceil(percent * n / 100) */
  function Rank(n: int, percent: int): int
  {
    (n * percent + 99) / 100
  }

  function Target(count: int): int
  {
    if Rank(count, 95) < 1 then 1 else Rank(count, 95)
  }

  /** The bound of the first bar that holds the target, unless an infinite one comes first. */
  function FirstHolding(bars: seq<Bar<int>>, target: int): Option<Number>
  {
    if bars == [] then None
    else if bars[0].bound.PosInf? || bars[0].bound.NegInf? then None
    else if bars[0].held >= target then Some(Thousand(bars[0].bound))
    else FirstHolding(bars[1..], target)
  }

  function MeanOf(sum: Number, count: int): Option<Number>
  {
    if count == 0 then None
    else if sum.Fin? then Some(Fin(sum.r * 1000.0 / count as real))
    else Some(sum)
  }

  function SummaryOf(v: ModelLatency): Summary
  {
    Summary(v.count, MeanOf(v.sum, v.count), if v.count == 0 then None else FirstHolding(SortBars(v.buckets), Target(v.count)))
  }

  /** latency_summary: a search through the sorted buckets. */
  method LatencySummary(v: ModelLatency) returns (s: Summary)
    ensures s == SummaryOf(v)
  {
    var bars := SortBars(v.buckets);
    var p95 := None;
    if v.count != 0 && bars != [] {
      var target := Target(v.count);
      var i := 0;
      assert bars[0..] == bars;
      while i < |bars|
        invariant 0 <= i <= |bars| && p95 == None
        invariant FirstHolding(bars, target) == FirstHolding(bars[i..], target)
      {
        assert bars[i..][1..] == bars[i + 1..];
        var infinite := bars[i].bound.PosInf? || bars[i].bound.NegInf?;
        if infinite || bars[i].held >= target {
          p95 := if infinite then None else Some(Thousand(bars[i].bound));
          break;
        }
        i := i + 1;
      }
    }
    s := Summary(v.count, MeanOf(v.sum, v.count), p95);
  }

  // --------------------------------------- the search, whatever order bars come in

  /** Bounds that are numbers or the upper end. */
  predicate Bounded(bars: seq<Bar<int>>)
  {
    forall b <- bars :: b.bound.Fin? || b.bound.PosInf?
  }

  predicate Ascends(bars: seq<Bar<int>>)
  {
    bars == [] || ((forall b <- bars :: !Below(b.bound, bars[0].bound)) && Ascends(bars[1..]))
  }

  lemma NotBelowChains(a: Number, b: Number, c: Number)
    requires (a.Fin? || a.PosInf?) && (b.Fin? || b.PosInf?) && (c.Fin? || c.PosInf?)
    requires !Below(b, a) && !Below(c, b)
    ensures !Below(c, a) && !Below(a, a)
  {
  }

  lemma InsertHolds(x: Bar<int>, bars: seq<Bar<int>>)
    ensures multiset(InsertBar(x, bars)) == multiset(bars) + multiset{x}
    decreases bars
  {
    if bars != [] {
      assert bars == [bars[0]] + bars[1..];
    }
  }

  lemma {:induction false} InsertAscends(x: Bar<int>, bars: seq<Bar<int>>)
    requires Bounded([x] + bars) && Ascends(bars)
    ensures Ascends(InsertBar(x, bars))
    decreases bars
  {
    assert x in [x] + bars && forall b <- bars :: b in [x] + bars;
    hide Below;
    if bars == [] || !Below(bars[0].bound, x.bound) {
      assert ([x] + bars)[1..] == bars;
      forall b | b in [x] + bars
        ensures !Below(b.bound, x.bound)
      {
        XNotBelow(x.bound, x.bound);
        if b != x {
          NotBelowChains(x.bound, bars[0].bound, b.bound);
        }
      }
    } else {
      var rest := bars[1..];
      assert bars == [bars[0]] + rest && InsertBar(x, bars)[1..] == InsertBar(x, rest);
      assert forall b <- [x] + rest :: b == x || b in bars;
      InsertAscends(x, rest);
      InsertHolds(x, bars);
      forall b | b in InsertBar(x, bars)
        ensures !Below(b.bound, bars[0].bound)
      {
        assert b in multiset(InsertBar(x, bars));
        XNotBelow(bars[0].bound, x.bound);
      }
    }
  }

  lemma XNotBelow(a: Number, b: Number)
    ensures Below(a, b) ==> !Below(b, a)
  {
  }

  lemma {:induction false} SortAscends(bars: seq<Bar<int>>)
    requires Bounded(bars)
    ensures Ascends(SortBars(bars)) && multiset(SortBars(bars)) == multiset(bars)
    decreases bars
  {
    if bars != [] {
      var rest := bars[1..];
      assert bars == [bars[0]] + rest && forall b <- rest :: b in bars;
      SortAscends(rest);
      var sorted := SortBars(rest);
      forall b | b in [bars[0]] + sorted
        ensures b in bars
      {
        if b in sorted {
          assert b in multiset(sorted) && b in multiset(rest);
        }
      }
      InsertAscends(bars[0], sorted);
      InsertHolds(bars[0], sorted);
    }
  }

  lemma {:induction false} FirstIsLeast(bars: seq<Bar<int>>, target: int)
    requires Bounded(bars) && Ascends(bars)
    ensures LeastHolding(bars, target, FirstHolding(bars, target))
    decreases bars
  {
    if bars != [] {
      var rest := bars[1..];
      assert bars == [bars[0]] + rest && bars[0] in bars && forall b <- rest :: b in bars;
      FirstIsLeast(rest, target);
    }
  }

  /** A thousand times the least finite bound whose bar holds the target; none if there is
      no such bar. */
  ghost predicate LeastHolding(bars: seq<Bar<int>>, target: int, r: Option<Number>)
  {
    match r
    case None => forall b <- bars :: b.bound.Fin? ==> b.held < target
    case Some(x) =>
      exists b <- bars :: b.bound.Fin? && b.held >= target && x == Fin(b.bound.r * 1000.0)
        && forall c <- bars :: c.bound.Fin? && c.bound.r < b.bound.r ==> c.held < target
  }

  /** In whatever order the bars are read: the summary has the count; a mean of the sum over
      it in milliseconds, unless it is zero; and as p95 the least bound that holds 95 in a
      hundred of it, rounded up. */
  lemma SummaryTells(v: ModelLatency)
    requires Bounded(v.buckets) && v.count >= 1 && v.sum.Fin?
    ensures var s := SummaryOf(v);
            && s.count == v.count
            && s.mean == Some(Fin(v.sum.r * 1000.0 / v.count as real))
            && exists target :: 100 * (target - 1) < 95 * v.count <= 100 * target && LeastHolding(v.buckets, target, s.p95)
    ensures SummaryOf(v.(count := 0)) == Summary(0, None, None)
  {
    SortAscends(v.buckets);
    var sorted, target := SortBars(v.buckets), Target(v.count);
    forall b | b in sorted
      ensures b in v.buckets
    {
      assert b in multiset(sorted);
    }
    FirstIsLeast(sorted, target);
    SameBars(sorted, v.buckets, target, FirstHolding(sorted, target));
    assert 100 * (target - 1) < 95 * v.count <= 100 * target;
  }

  lemma SameBars(xs: seq<Bar<int>>, ys: seq<Bar<int>>, target: int, r: Option<Number>)
    requires multiset(xs) == multiset(ys) && LeastHolding(xs, target, r)
    ensures LeastHolding(ys, target, r)
  {
    forall b: Bar<int>
      ensures b in xs <==> b in ys
    {
      assert b in xs <==> b in multiset(xs);
      assert b in ys <==> b in multiset(ys);
    }
  }
}
