/** Counters and cumulative histograms of gateway/metrics.py. */
module Metrics {
  import opened Prelude
  import Sorting

  /** A family of cumulative histograms: per key the bucket counters, the count and the sum. */
  datatype Histogram<!K> = Histogram(buckets: map<(K, real), int>, count: map<K, int>, sum: map<K, real>)

  function SumAt<K>(sums: map<K, real>, key: K): real
  {
    if key in sums then sums[key] else 0.0
  }

  /** One observation counts in every bucket whose bound is not below it. */
  function BumpBuckets<K(==)>(bounds: seq<real>, buckets: map<(K, real), int>, key: K, x: real): map<(K, real), int>
  {
    if bounds == [] then buckets
    else
      var b := bounds[|bounds| - 1];
      var before := BumpBuckets(bounds[..|bounds| - 1], buckets, key, x);
      if x <= b then Bump(before, (key, b), 1) else before
  }

  function Observe<K(==)>(bounds: seq<real>, h: Histogram<K>, key: K, x: real): Histogram<K>
  {
    Histogram(BumpBuckets(bounds, h.buckets, key, x), Bump(h.count, key, 1), h.sum[key := SumAt(h.sum, key) + x])
  }

  /** The histograms of a list of observations. */
  function HistogramOf<K(==)>(bounds: seq<real>, obs: seq<(K, real)>): Histogram<K>
  {
    if obs == [] then Histogram(map[], map[], map[])
    else
      var (key, x) := obs[|obs| - 1];
      Observe(bounds, HistogramOf(bounds, obs[..|obs| - 1]), key, x)
  }

  function BumpReasons(denials: map<(string, string), int>, model: string, reasons: seq<string>): map<(string, string), int>
  {
    if reasons == [] then denials
    else Bump(BumpReasons(denials, model, reasons[..|reasons| - 1]), (model, reasons[|reasons| - 1]), 1)
  }

  /** A request that was not allowed counts once under each of its reasons. */
  function BumpDenials(denials: map<(string, string), int>, model: string, outcome: string, reasons: seq<string>): map<(string, string), int>
  {
    if outcome == "allowed" then denials
    else BumpReasons(denials, model, if reasons == [] then ["unspecified"] else reasons)
  }

  class GatewayMetrics {
    const latencyBuckets: seq<real>
    const limiterLatencyBuckets: seq<real>
    var requests: map<(string, string), int>
    var denials: map<(string, string), int>
    var auditSuppressed: int
    var authEvents: map<(string, string), int>
    var inputTokens: map<(string, string), int>
    var latency: Histogram<string>
    var limiterLatency: Histogram<(string, string)>
    ghost var latencies: seq<(string, real)>
    ghost var limiterLatencies: seq<((string, string), real)>

    /** The latency histograms are exactly those of the observations so far. */
    ghost predicate LatencyValid()
      reads this`latency, this`latencies
    {
      latency == HistogramOf(latencyBuckets, latencies)
    }

    ghost predicate LimiterValid()
      reads this`limiterLatency, this`limiterLatencies
    {
      limiterLatency == HistogramOf(limiterLatencyBuckets, limiterLatencies)
    }

    constructor (latencyBuckets: seq<real>, limiterLatencyBuckets: seq<real>)
      ensures LatencyValid() && LimiterValid() && latencies == [] && limiterLatencies == []
      ensures requests == denials == authEvents == inputTokens == map[] && auditSuppressed == 0
      ensures this.latencyBuckets == Sorting.Sorted(latencyBuckets)
      ensures this.limiterLatencyBuckets == Sorting.Sorted(limiterLatencyBuckets)
    {
      this.latencyBuckets := Sorting.Sorted(latencyBuckets);
      this.limiterLatencyBuckets := Sorting.Sorted(limiterLatencyBuckets);
      requests, denials, auditSuppressed, authEvents, inputTokens := map[], map[], 0, map[], map[];
      latency, limiterLatency := Histogram(map[], map[], map[]), Histogram(map[], map[], map[]);
      latencies, limiterLatencies := [], [];
    }

    method RecordRequest(model: string, outcome: string, denialReasons: seq<string> := [])
      modifies this`requests, this`denials
      ensures requests == Bump(old(requests), (model, outcome), 1)
      ensures denials == BumpDenials(old(denials), model, outcome, denialReasons)
    {
      requests := Bump(requests, (model, outcome), 1);
      if outcome != "allowed" {
        var reasons := if denialReasons == [] then ["unspecified"] else denialReasons;
        for i := 0 to |reasons|
          invariant requests == Bump(old(requests), (model, outcome), 1)
          invariant denials == BumpReasons(old(denials), model, reasons[..i])
        {
          assert reasons[..i + 1][..i] == reasons[..i];
          denials := Bump(denials, (model, reasons[i]), 1);
        }
        assert reasons[..|reasons|] == reasons;
      }
    }

    method RecordAuditSuppressed()
      modifies this`auditSuppressed
      ensures auditSuppressed == old(auditSuppressed) + 1
    {
      auditSuppressed := auditSuppressed + 1;
    }

    method RecordAuthEvent(authMethod: string, outcome: string)
      modifies this`authEvents
      ensures authEvents == Bump(old(authEvents), (authMethod, outcome), 1)
    {
      authEvents := Bump(authEvents, (authMethod, outcome), 1);
    }

    method RecordInputTokens(model: string, outcome: string, tokenCount: int)
      modifies this`inputTokens
      ensures inputTokens == Bump(old(inputTokens), (model, outcome), tokenCount)
    {
      inputTokens := Bump(inputTokens, (model, outcome), tokenCount);
    }

    method ObserveLatency(model: string, seconds: real)
      requires LatencyValid()
      modifies this`latency, this`latencies
      ensures LatencyValid() && latencies == old(latencies) + [(model, seconds)]
    {
      var h := latency;
      var buckets := h.buckets;
      for i := 0 to |latencyBuckets|
        invariant buckets == BumpBuckets(latencyBuckets[..i], h.buckets, model, seconds)
      {
        assert latencyBuckets[..i + 1][..i] == latencyBuckets[..i];
        if seconds <= latencyBuckets[i] {
          buckets := Bump(buckets, (model, latencyBuckets[i]), 1);
        }
      }
      assert latencyBuckets[..|latencyBuckets|] == latencyBuckets;
      latency := Histogram(buckets, Bump(h.count, model, 1), h.sum[model := SumAt(h.sum, model) + seconds]);
      latencies := latencies + [(model, seconds)];
      assert latencies[..|latencies| - 1] == old(latencies);
    }

    method ObserveLimiterLatency(limiter: string, backend: string, seconds: real)
      requires LimiterValid()
      modifies this`limiterLatency, this`limiterLatencies
      ensures LimiterValid() && limiterLatencies == old(limiterLatencies) + [((limiter, backend), seconds)]
    {
      var key := (limiter, backend);
      var h := limiterLatency;
      var buckets := h.buckets;
      for i := 0 to |limiterLatencyBuckets|
        invariant buckets == BumpBuckets(limiterLatencyBuckets[..i], h.buckets, key, seconds)
      {
        assert limiterLatencyBuckets[..i + 1][..i] == limiterLatencyBuckets[..i];
        if seconds <= limiterLatencyBuckets[i] {
          buckets := Bump(buckets, (key, limiterLatencyBuckets[i]), 1);
        }
      }
      assert limiterLatencyBuckets[..|limiterLatencyBuckets|] == limiterLatencyBuckets;
      limiterLatency := Histogram(buckets, Bump(h.count, key, 1), h.sum[key := SumAt(h.sum, key) + seconds]);
      limiterLatencies := limiterLatencies + [(key, seconds)];
      assert limiterLatencies[..|limiterLatencies| - 1] == old(limiterLatencies);
    }
  }

  // ----------------------------------------------- what a histogram says

  /** The values observed for one key, in order. */
  function ValuesOf<K(==)>(obs: seq<(K, real)>, key: K): seq<real>
  {
    if obs == [] then []
    else ValuesOf(obs[..|obs| - 1], key) + (if obs[|obs| - 1].0 == key then [obs[|obs| - 1].1] else [])
  }

  /** How many values are at most b. */
  function AtMost(values: seq<real>, b: real): nat
  {
    if values == [] then 0
    else AtMost(values[..|values| - 1], b) + (if values[|values| - 1] <= b then 1 else 0)
  }

  function SumOf(values: seq<real>): real
  {
    if values == [] then 0.0 else SumOf(values[..|values| - 1]) + values[|values| - 1]
  }

  function Occurrences(bounds: seq<real>, b: real): nat
  {
    if bounds == [] then 0
    else Occurrences(bounds[..|bounds| - 1], b) + (if bounds[|bounds| - 1] == b then 1 else 0)
  }

  lemma {:induction false} BumpBucketsAt<K>(bounds: seq<real>, buckets: map<(K, real), int>, key: K, x: real, k: K, b: real)
    ensures Count(BumpBuckets(bounds, buckets, key, x), (k, b))
            == Count(buckets, (k, b)) + (if k == key && x <= b then Occurrences(bounds, b) else 0)
  {
    if bounds != [] {
      BumpBucketsAt(bounds[..|bounds| - 1], buckets, key, x, k, b);
    }
  }

  lemma ValuesSnoc(values: seq<real>, x: real, b: real)
    ensures AtMost(values + [x], b) == AtMost(values, b) + (if x <= b then 1 else 0)
    ensures SumOf(values + [x]) == SumOf(values) + x
  {
    assert (values + [x])[..|values + [x]| - 1] == values;
  }

  lemma OnceMore(n: int, k: int)
    ensures n * (k + 1) == n * k + n
  {
  }

  /** A bucket counts the observations not above its bound, once for each time the bound was configured. */
  lemma {:induction false} BucketCounts<K>(bounds: seq<real>, obs: seq<(K, real)>, key: K, b: real)
    ensures Count(HistogramOf(bounds, obs).buckets, (key, b)) == Occurrences(bounds, b) * AtMost(ValuesOf(obs, key), b)
  {
    if obs != [] {
      var front := obs[..|obs| - 1];
      var (k, x) := obs[|obs| - 1];
      var values, n := ValuesOf(front, key), Occurrences(bounds, b);
      BucketCounts(bounds, front, key, b);
      BumpBucketsAt(bounds, HistogramOf(bounds, front).buckets, k, x, key, b);
      if k == key {
        ValuesSnoc(values, x, b);
        OnceMore(n, AtMost(values, b));
      } else {
        assert ValuesOf(obs, key) == values;
      }
    }
  }

  /** Count and sum are those of the key's values, and a key has a count exactly when it was observed. */
  lemma {:induction false} CountAndSum<K>(bounds: seq<real>, obs: seq<(K, real)>, key: K)
    ensures var h, values := HistogramOf(bounds, obs), ValuesOf(obs, key);
            && Count(h.count, key) == |values|
            && SumAt(h.sum, key) == SumOf(values)
            && (key in h.count <==> values != [])
  {
    if obs != [] {
      var front := obs[..|obs| - 1];
      CountAndSum(bounds, front, key);
      if obs[|obs| - 1].0 == key {
        ValuesSnoc(ValuesOf(front, key), obs[|obs| - 1].1, 0.0);
      } else {
        assert ValuesOf(obs, key) == ValuesOf(front, key);
      }
    }
  }

  lemma {:induction false} OneOccurrence(bounds: seq<real>, b: real)
    requires Sorting.Ascending(bounds)
    ensures Occurrences(bounds, b) == if b in bounds then 1 else 0
  {
    if bounds != [] {
      var front, last := bounds[..|bounds| - 1], bounds[|bounds| - 1];
      OneOccurrence(front, b);
      assert bounds == front + [last];
      if b == last {
        assert b !in front;
      }
    }
  }

  lemma {:induction false} AtMostMonotone(values: seq<real>, b: real, c: real)
    requires b <= c
    ensures AtMost(values, b) <= AtMost(values, c) <= |values|
  {
    if values != [] {
      AtMostMonotone(values[..|values| - 1], b, c);
    }
  }

  /** Counts and sums of two lists of values together. */
  lemma {:induction false} AtMostBoth(xs: seq<real>, ys: seq<real>, b: real)
    ensures AtMost(xs + ys, b) == AtMost(xs, b) + AtMost(ys, b)
    ensures SumOf(xs + ys) == SumOf(xs) + SumOf(ys)
  {
    if ys == [] {
      assert xs + ys == xs;
    } else {
      assert (xs + ys)[..|xs + ys| - 1] == xs + ys[..|ys| - 1];
      AtMostBoth(xs, ys[..|ys| - 1], b);
    }
  }
}
