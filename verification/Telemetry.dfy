/** From observed latencies to the p95 of the snapshot: metrics printed, read back,
    tallied and summarised. */
module Telemetry {
  import opened Prelude
  import opened Exposition
  import opened Labels
  import opened Metrics
  import opened Numbers
  import opened Snapshot
  import Documents

  // ------------------------------------------------ the samples of a histogram

  /** Text of bucket bounds: it reads back as the bound. */
  ghost predicate BoundText(bounds: seq<real>, le: real -> string)
  {
    forall b <- bounds :: NumberOf(le(b)) == Some(Fin(b)) && Documents.CleanValue(le(b))
  }

  function BucketLine(le: string, model: string, n: int): Documents.Line
  {
    Documents.Metric(BUCKET, [("le", le), ("model_id", model)], n as real)
  }

  function BarLines(bounds: seq<real>, le: real -> string, h: Histogram<string>, model: string): seq<Documents.Line>
  {
    if bounds == [] then []
    else BarLines(bounds[..|bounds| - 1], le, h, model) + [BucketLine(le(bounds[|bounds| - 1]), model, Count(h.buckets, (model, bounds[|bounds| - 1])))]
  }

  function LastLines(h: Histogram<string>, model: string): seq<Documents.Line>
  {
    [BucketLine("+Inf", model, Count(h.count, model)),
     Documents.Metric(COUNT, [("model_id", model)], Count(h.count, model) as real),
     Documents.Metric(SUM, [("model_id", model)], SumAt(h.sum, model))]
  }

  function LatencyLines(bounds: seq<real>, le: real -> string, h: Histogram<string>, models: seq<string>): seq<Documents.Line>
  {
    if models == [] then []
    else
      var m := models[|models| - 1];
      LatencyLines(bounds, le, h, models[..|models| - 1]) + (BarLines(bounds, le, h, m) + LastLines(h, m))
  }

  /** The sample builder of gateway/metrics.py, its models in the order they are listed. */
  method LatencySamples(metrics: GatewayMetrics, le: real -> string, models: seq<string>) returns (samples: seq<Documents.Line>)
    requires metrics.LatencyValid()
    ensures samples == LatencyLines(metrics.latencyBuckets, le, HistogramOf(metrics.latencyBuckets, metrics.latencies), models)
  {
    hide HistogramOf;
    var bounds, h := metrics.latencyBuckets, metrics.latency;
    samples := [];
    for i := 0 to |models|
      invariant samples == LatencyLines(bounds, le, h, models[..i])
    {
      var m := models[i];
      ghost var before := samples;
      for j := 0 to |bounds|
        invariant samples == before + BarLines(bounds[..j], le, h, m)
      {
        assert bounds[..j + 1][..j] == bounds[..j];
        samples := samples + [BucketLine(le(bounds[j]), m, Count(h.buckets, (m, bounds[j])))];
      }
      assert bounds[..|bounds|] == bounds;
      samples := samples + [BucketLine("+Inf", m, Count(h.count, m))];
      samples := samples + [Documents.Metric(COUNT, [("model_id", m)], Count(h.count, m) as real)];
      samples := samples + [Documents.Metric(SUM, [("model_id", m)], SumAt(h.sum, m))];
      assert samples == before + (BarLines(bounds, le, h, m) + LastLines(h, m));
      assert models[..i + 1][..i] == models[..i];
    }
    assert models[..|models|] == models;
  }

  // ------------------------------------------------------- reading them back

  /** Taking samples in two lots. */
  lemma {:induction false} TakeBoth(t: Tally, xs: seq<Sample>, ys: seq<Sample>)
    requires TakeAll(t, xs).Ok?
    ensures TakeAll(t, xs + ys) == TakeAll(TakeAll(t, xs).value, ys)
    decreases xs
  {
    hide Take;
    if xs == [] {
      assert xs + ys == ys;
    } else {
      assert (xs + ys)[1..] == xs[1..] + ys;
      TakeBoth(Take(t, xs[0]).value, xs[1..], ys);
    }
  }

  lemma {:induction false} ExpectedBoth(xs: seq<Documents.Line>, ys: seq<Documents.Line>)
    ensures Documents.Expected(xs + ys) == Documents.Expected(xs) + Documents.Expected(ys)
    decreases xs
  {
    hide Documents.SampleOf;
    if xs == [] {
      assert xs + ys == ys;
    } else {
      assert (xs + ys)[1..] == xs[1..] + ys && (xs + ys)[0] == xs[0];
      ExpectedBoth(xs[1..], ys);
      var head := if Documents.SampleOf(xs[0]).Some? then [Documents.SampleOf(xs[0]).value] else [];
      var a, b := Documents.Expected(xs[1..]), Documents.Expected(ys);
      assert Documents.Expected(xs) == head + a;
      assert head + (a + b) == head + a + b;
    }
  }

  /** What the lines of a document do to a tally. */
  function Tallied(t: Tally, lines: seq<Documents.Line>): Result<Tally, SnapshotFailure>
  {
    TakeAll(t, Documents.Expected(lines))
  }

  lemma TalliedBoth(t: Tally, xs: seq<Documents.Line>, ys: seq<Documents.Line>)
    requires Tallied(t, xs).Ok?
    ensures Tallied(t, xs + ys) == Tallied(Tallied(t, xs).value, ys)
  {
    ExpectedBoth(xs, ys);
    TakeBoth(t, Documents.Expected(xs), Documents.Expected(ys));
  }

  lemma TalliedOne(t: Tally, l: Documents.Line)
    ensures Tallied(t, [l]) == if Documents.SampleOf(l).Some? then Take(t, Documents.SampleOf(l).value) else Ok(t)
  {
    hide Documents.SampleOf;
    hide Take;
    assert Documents.Expected([l][1..]) == [];
    var s := Documents.SampleOf(l);
    if s.Some? {
      assert Documents.Expected([l]) == [s.value];
      assert TakeAll(t, [s.value]) == match Take(t, s.value) case Err(why) => Err(why) case Ok(t') => TakeAll(t', [s.value][1..]);
    }
  }

  lemma WholeIsExact(n: int)
    ensures Rounded(n as real) == n as real && (n >= 0 ==> AsInt(Fin(n as real)) == Some(n))
  {
  }

  /** A line with up to two labels. */
  lemma TwoLabels(k: string, v: string, k': string, v': string)
    ensures AddAll(map[], [(k, v)]) == map[k := v]
    ensures AddAll(map[], [(k, v), (k', v')]) == map[k := v][k' := v']
  {
    assert [(k, v), (k', v')][1..] == [(k', v')] && [(k', v')][1..] == [] && [(k, v)][1..] == [];
    assert AddAll(map[], [(k, v), (k', v')]) == AddAll(map[k := v], [(k', v')]);
    assert AddAll(map[k := v], [(k', v')]) == AddAll(map[k := v][k' := v'], []);
  }

  function WithLatency(t: Tally, model: string, l: ModelLatency): Tally
  {
    t.(latency := t.latency[model := l])
  }

  lemma LastWins(t: Tally, model: string, l: ModelLatency, l': ModelLatency)
    ensures LatencyOf(WithLatency(t, model, l), model) == l
    ensures WithLatency(WithLatency(t, model, l), model, l') == WithLatency(t, model, l')
  {
    assert t.latency[model := l][model := l'] == t.latency[model := l'];
  }

  lemma BucketTaken(t: Tally, le: string, bound: Number, model: string, n: int)
    requires model != "" && NumberOf(le) == Some(bound) && n >= 0
    ensures var l := LatencyOf(t, model);
            Tallied(t, [BucketLine(le, model, n)]) == Ok(WithLatency(t, model, l.(buckets := l.buckets + [Bar(bound, n)])))
  {
    TalliedOne(t, BucketLine(le, model, n));
    WholeIsExact(n);
    TwoLabels("le", le, "model_id", model);
  }

  function BarsOf(bounds: seq<real>, h: Histogram<string>, model: string): seq<Bar<int>>
  {
    if bounds == [] then []
    else BarsOf(bounds[..|bounds| - 1], h, model) + [Bar(Fin(bounds[|bounds| - 1]), Count(h.buckets, (model, bounds[|bounds| - 1])))]
  }

  predicate CountsNatural(bounds: seq<real>, h: Histogram<string>, model: string)
  {
    (forall b <- bounds :: Count(h.buckets, (model, b)) >= 0) && Count(h.count, model) >= 0
  }

  lemma CountTaken(t: Tally, model: string, n: int)
    requires model != "" && n >= 0
    ensures Tallied(t, [Documents.Metric(COUNT, [("model_id", model)], n as real)])
            == Ok(WithLatency(t, model, LatencyOf(t, model).(count := n)))
  {
    TalliedOne(t, Documents.Metric(COUNT, [("model_id", model)], n as real));
    WholeIsExact(n);
    TwoLabels("model_id", model, "", "");
  }

  lemma SumTaken(t: Tally, model: string, sum: real)
    requires model != ""
    ensures Tallied(t, [Documents.Metric(SUM, [("model_id", model)], sum)])
            == Ok(WithLatency(t, model, LatencyOf(t, model).(sum := Fin(Rounded(sum)))))
  {
    hide Rounded;
    TalliedOne(t, Documents.Metric(SUM, [("model_id", model)], sum));
    TwoLabels("model_id", model, "", "");
  }

  /** A tally with bars added to one model; none added leaves it alone. */
  function WithBars(t: Tally, model: string, bars: seq<Bar<int>>): Tally
  {
    if bars == [] then t
    else WithLatency(t, model, LatencyOf(t, model).(buckets := LatencyOf(t, model).buckets + bars))
  }

  lemma OneMoreBar(t: Tally, model: string, bars: seq<Bar<int>>, bar: Bar<int>)
    ensures var l := LatencyOf(WithBars(t, model, bars), model);
            WithLatency(WithBars(t, model, bars), model, l.(buckets := l.buckets + [bar])) == WithBars(t, model, bars + [bar])
  {
    var before := LatencyOf(t, model).buckets;
    assert before + bars + [bar] == before + (bars + [bar]);
    if bars == [] {
      assert bars + [bar] == [bar];
    } else {
      LastWins(t, model, LatencyOf(t, model).(buckets := before + bars), LatencyOf(t, model).(buckets := before + (bars + [bar])));
    }
  }

  lemma {:induction false} BarsTaken(t: Tally, bounds: seq<real>, le: real -> string, h: Histogram<string>, model: string)
    requires model != "" && BoundText(bounds, le) && CountsNatural(bounds, h, model)
    ensures Tallied(t, BarLines(bounds, le, h, model)) == Ok(WithBars(t, model, BarsOf(bounds, h, model)))
  {
    if bounds != [] {
      var front, b := bounds[..|bounds| - 1], bounds[|bounds| - 1];
      var bars, n := BarsOf(front, h, model), Count(h.buckets, (model, b));
      assert b in bounds && forall c <- front :: c in bounds;
      BarsTaken(t, front, le, h, model);
      TalliedBoth(t, BarLines(front, le, h, model), [BucketLine(le(b), model, n)]);
      BucketTaken(WithBars(t, model, bars), le(b), Fin(b), model, n);
      OneMoreBar(t, model, bars, Bar(Fin(b), n));
    }
  }

  /** All that a model's lines say, read back. */
  function LatencyRead(bounds: seq<real>, h: Histogram<string>, model: string): ModelLatency
  {
    ModelLatency(BarsOf(bounds, h, model) + [Bar(PosInf, Count(h.count, model))], Count(h.count, model), Fin(Rounded(SumAt(h.sum, model))))
  }

  lemma LastLinesTaken(t: Tally, h: Histogram<string>, model: string)
    requires model != "" && Count(h.count, model) >= 0
    ensures var l, n := LatencyOf(t, model), Count(h.count, model);
            Tallied(t, LastLines(h, model)) == Ok(WithLatency(t, model, ModelLatency(l.buckets + [Bar(PosInf, n)], n, Fin(Rounded(SumAt(h.sum, model))))))
  {
    hide Rounded;
    hide Tallied;
    hide WithLatency;
    hide LatencyOf;
    var l, n := LatencyOf(t, model), Count(h.count, model);
    var inf, count, sum := BucketLine("+Inf", model, n), Documents.Metric(COUNT, [("model_id", model)], n as real), Documents.Metric(SUM, [("model_id", model)], SumAt(h.sum, model));
    assert NumberOf("+Inf") == Some(PosInf);
    var l1 := l.(buckets := l.buckets + [Bar(PosInf, n)]);
    BucketTaken(t, "+Inf", PosInf, model, n);
    TalliedBoth(t, [inf], [count, sum]);
    assert [inf] + [count, sum] == LastLines(h, model);
    LastWins(t, model, l1, l1.(count := n));
    CountTaken(WithLatency(t, model, l1), model, n);
    TalliedBoth(WithLatency(t, model, l1), [count], [sum]);
    assert [count] + [sum] == [count, sum];
    LastWins(t, model, l1.(count := n), l1.(count := n, sum := Fin(Rounded(SumAt(h.sum, model)))));
    SumTaken(WithLatency(t, model, l1.(count := n)), model, SumAt(h.sum, model));
  }

  lemma ModelTaken(t: Tally, bounds: seq<real>, le: real -> string, h: Histogram<string>, model: string)
    requires model != "" && model !in t.latency && BoundText(bounds, le) && CountsNatural(bounds, h, model)
    ensures Tallied(t, BarLines(bounds, le, h, model) + LastLines(h, model)) == Ok(WithLatency(t, model, LatencyRead(bounds, h, model)))
  {
    hide Tallied;
    hide BoundText;
    hide LastLines;
    hide Rounded;
    var bars := BarsOf(bounds, h, model);
    BarsTaken(t, bounds, le, h, model);
    TalliedBoth(t, BarLines(bounds, le, h, model), LastLines(h, model));
    LastLinesTaken(WithBars(t, model, bars), h, model);
    assert [] + bars == bars;
    if bars != [] {
      LastWins(t, model, NO_LATENCY.(buckets := bars), LatencyRead(bounds, h, model));
    }
  }

  function LatenciesRead(bounds: seq<real>, h: Histogram<string>, models: seq<string>): map<string, ModelLatency>
  {
    map m | m in models :: LatencyRead(bounds, h, m)
  }

  lemma ReadSnoc(bounds: seq<real>, h: Histogram<string>, models: seq<string>, m: string)
    ensures LatenciesRead(bounds, h, models + [m]) == LatenciesRead(bounds, h, models)[m := LatencyRead(bounds, h, m)]
  {
  }

  /** The latency lines of distinct models give each model its own histogram. */
  lemma {:induction false} LatencyLinesTaken(t: Tally, bounds: seq<real>, le: real -> string, h: Histogram<string>, models: seq<string>)
    requires BoundText(bounds, le) && t.latency == map[]
    requires forall m <- models :: m != "" && CountsNatural(bounds, h, m)
    requires forall i, j :: 0 <= i < j < |models| ==> models[i] != models[j]
    ensures Tallied(t, LatencyLines(bounds, le, h, models)) == Ok(t.(latency := LatenciesRead(bounds, h, models)))
  {
    hide BoundText;
    hide CountsNatural;
    hide LatencyRead;
    if models == [] {
      assert Documents.Expected([]) == [];
      assert LatenciesRead(bounds, h, []) == map[];
    } else {
      hide Tallied;
      hide BarLines;
      hide LastLines;
      var front, m := models[..|models| - 1], models[|models| - 1];
      assert m in models && forall k <- front :: k in models;
      assert models == front + [m];
      LatencyLinesTaken(t, bounds, le, h, front);
      var read := LatenciesRead(bounds, h, front);
      assert m !in read;
      ReadSnoc(bounds, h, front, m);
      hide LatenciesRead;
      TalliedBoth(t, LatencyLines(bounds, le, h, front), BarLines(bounds, le, h, m) + LastLines(h, m));
      ModelTaken(t.(latency := read), bounds, le, h, m);
    }
  }
}
