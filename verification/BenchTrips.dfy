/** From observations through metrics texts to benchmark rows and to rows pooled over
    conditions. */
module BenchTrips {
  import opened Prelude
  import opened BenchText
  import opened LimiterDelta
  import opened LimiterScrapes
  import opened Metrics
  import opened Pooling
  import Documents
  import Escaping
  import Exposition
  import Numbers
  import Ordering
  import SnapshotTrips
  import Sorting
  import Telemetry

  // ------------------------------------------------------ one fetched text

  /** A gateway's metrics text when it was fetched: what its limiters had been observed to
      take, the keys in the order printed, and the lines of the other metrics around. */
  datatype Fetch = Fetch(head: seq<Documents.Line>, obs: seq<Observation>, keys: seq<Key>, tail: seq<Documents.Line>)
  {
    function Text(bounds: seq<real>, le: real -> string): string
    {
      Documents.PrintDoc(DocumentOf(head, bounds, le, obs, keys, tail))
    }
  }

  /** A value that the benchmark reads as it was before it was printed. */
  predicate PlainValue(v: string)
  {
    Documents.CleanValue(v) && !Escaping.HasBackslashN(v)
  }

  predicate ReadableLines(lines: seq<Documents.Line>)
  {
    forall l <- lines :: Documents.WellFormed(l) && Documents.Clean(l) && NoBackslashN(l)
  }

  /** The keys are those observed, in any order, each with two plain names; around them
      stand readable lines of other metrics. */
  ghost predicate Sound(f: Fetch)
  {
    && (forall k :: k in f.keys <==> ValuesOf(f.obs, k) != [])
    && (forall k <- f.keys :: k.0 != "" && k.1 != "" && PlainValue(k.0) && PlainValue(k.1))
    && AllForeign(f.head) && AllForeign(f.tail) && ReadableLines(f.head) && ReadableLines(f.tail)
  }

  /** The bounds are in order, and their texts plain numbers that read back as the bound. */
  ghost predicate BoundsPrinted(bounds: seq<real>, le: real -> string)
  {
    Sorting.Ascending(bounds) && Telemetry.BoundText(bounds, le) && forall b <- bounds :: PlainValue(le(b))
  }

  lemma NameGrows(name: string, more: string)
    requires Documents.MetricName(name) && forall i :: 0 <= i < |more| ==> Exposition.NameChar(more[i])
    ensures Documents.MetricName(name + more)
  {
  }

  lemma PrefixIsName()
    ensures Documents.MetricName(PREFIX)
  {
  }

  lemma PrintedNames()
    ensures Documents.MetricName(PREFIX + "bucket") && Documents.MetricName(PREFIX + "count") && Documents.MetricName(PREFIX + "sum")
    ensures Documents.Identifier("backend") && Documents.Identifier("limiter") && Documents.Identifier("le")
    ensures PlainValue("+Inf")
  {
    hide PREFIX;
    PrefixIsName();
    NameGrows(PREFIX, "bucket");
    NameGrows(PREFIX, "count");
    NameGrows(PREFIX, "sum");
  }

  lemma BucketReadable(k: Key, le: string, n: int)
    requires PlainValue(k.0) && PlainValue(k.1) && PlainValue(le)
    ensures ReadableLines([BucketMetric(k, le, n)])
  {
    hide Documents.MetricName, Documents.Identifier, Documents.CleanValue, Escaping.HasBackslashN, PREFIX;
    PrintedNames();
  }

  lemma {:induction false} BucketsReadable(bounds: seq<real>, le: real -> string, h: Histogram<Key>, k: Key)
    requires PlainValue(k.0) && PlainValue(k.1) && forall b <- bounds :: PlainValue(le(b))
    ensures ReadableLines(BucketMetrics(bounds, le, h, k))
  {
    hide PlainValue, BucketMetric, Documents.WellFormed, Documents.Clean, NoBackslashN;
    if bounds != [] {
      var front, b := bounds[..|bounds| - 1], bounds[|bounds| - 1];
      assert b in bounds && forall c <- front :: c in bounds;
      BucketsReadable(front, le, h, k);
      BucketReadable(k, le(b), Count(h.buckets, (k, b)));
    }
  }

  lemma LastReadable(h: Histogram<Key>, k: Key)
    requires PlainValue(k.0) && PlainValue(k.1)
    ensures ReadableLines(LastMetrics(h, k))
  {
    hide Documents.MetricName, Documents.Identifier, Documents.CleanValue, Escaping.HasBackslashN, PREFIX;
    PrintedNames();
  }

  /** Whatever was observed, the limiter lines of plain names are read as they are meant. */
  lemma {:induction false} LimiterLinesReadable(bounds: seq<real>, le: real -> string, h: Histogram<Key>, keys: seq<Key>)
    requires (forall k <- keys :: PlainValue(k.0) && PlainValue(k.1)) && forall b <- bounds :: PlainValue(le(b))
    ensures ReadableLines(LimiterMetrics(bounds, le, h, keys))
  {
    hide PlainValue, BucketMetrics, LastMetrics, Documents.WellFormed, Documents.Clean, NoBackslashN;
    if keys != [] {
      var front, k := keys[..|keys| - 1], keys[|keys| - 1];
      assert k in keys && forall j <- front :: j in keys;
      LimiterLinesReadable(bounds, le, h, front);
      BucketsReadable(bounds, le, h, k);
      LastReadable(h, k);
    }
  }

  /** A fetched text is scraped to every key's histogram of what was observed. */
  lemma FetchScraped(f: Fetch, bounds: seq<real>, le: real -> string)
    requires Sound(f) && BoundsPrinted(bounds, le)
    ensures ScrapeAfter(ScrapeLines(Exposition.SplitLines(f.Text(bounds, le))), bounds, le, f.obs, f.keys)
  {
    hide PlainValue, LimiterMetrics, HistogramOf, Documents.WellFormed, Documents.Clean, NoBackslashN, IsScrape, ScrapeLines, Foreign, Telemetry.BoundText;
    var doc := DocumentOf(f.head, bounds, le, f.obs, f.keys, f.tail);
    LimiterLinesReadable(bounds, le, HistogramOf(bounds, f.obs), f.keys);
    CleanTextScraped(doc);
    MetricsScraped(f.head, bounds, le, f.obs, f.keys, f.tail);
  }

  // --------------------------------------------------- from texts to benchmark rows

  /** dict.items(): the series of a scrape, each once. */
  method Items(scrape: Scrape) returns (items: seq<Series>)
    ensures ListsSeries(items, scrape)
  {
    items := [];
    var todo := scrape.Keys;
    while todo != {}
      invariant todo <= scrape.Keys && NoneTwice(items)
      invariant forall s :: s in items <==> s in scrape && s !in todo
      decreases |todo|
    {
      var s :| s in todo;
      items := items + [s];
      todo := todo - {s};
    }
  }

  /** The buckets of a difference carry printed bounds alone. */
  lemma BucketsRead(buckets: map<string, real>, bounds: seq<real>, le: real -> string, values: seq<real>)
    requires Telemetry.BoundText(bounds, le) && BucketsAre(buckets, bounds, le, values)
    ensures Plain(buckets) && Readable(buckets)
  {
    hide Numbers.NumberOf, AtMost;
  }

  lemma GroupsRead(before: Scrape, after: Scrape, bounds: seq<real>, le: real -> string, obs: seq<Observation>, more: seq<Observation>,
                   keys0: seq<Key>, keys: seq<Key>, items: seq<Series>)
    requires Sorting.Ascending(bounds) && Telemetry.BoundText(bounds, le)
    requires ScrapeAfter(before, bounds, le, obs, keys0) && ScrapeAfter(after, bounds, le, obs + more, keys)
    requires ListsSeries(items, after)
    ensures var groups := GroupsOf(before, after, items);
            forall k :: (k in groups <==> k in keys) && (k in groups ==> Plain(groups[k].buckets) && Readable(groups[k].buckets))
  {
    hide ScrapeAfter, Telemetry.BoundText, ListsSeries, GroupsOf, Plain, Readable, BucketsAre, SumOf;
    var groups := GroupsOf(before, after, items);
    forall k
      ensures (k in groups <==> k in keys) && (k in groups ==> Plain(groups[k].buckets) && Readable(groups[k].buckets))
    {
      DeltaIsBetween(before, after, bounds, le, obs, more, keys0, keys, items, k);
      if k in groups {
        BucketsRead(groups[k].buckets, bounds, le, ValuesOf(more, k));
      }
    }
  }

  /** There is a row for every limiter observed, and it is right for one of its backends, the
      last in order. */
  ghost predicate RowsRight(bounds: seq<real>, more: seq<Observation>, keys: seq<Key>, rows: map<string, Row>)
  {
    && (forall k <- keys :: k.0 in rows)
    && forall limiter <- rows ::
         var k := (limiter, rows[limiter].backend);
         && k in keys && (forall j <- keys :: j.0 == limiter ==> j.1 == k.1 || Ordering.Less(j.1, k.1))
         && RowRight(bounds, ValuesOf(more, k), rows[limiter])
  }

  lemma RowsFollow(before: Scrape, after: Scrape, bounds: seq<real>, le: real -> string, obs: seq<Observation>, more: seq<Observation>,
                   keys0: seq<Key>, keys: seq<Key>, items: seq<Series>, rows: map<string, Row>)
    requires Sorting.Ascending(bounds) && Telemetry.BoundText(bounds, le)
    requires ScrapeAfter(before, bounds, le, obs, keys0) && ScrapeAfter(after, bounds, le, obs + more, keys)
    requires ListsSeries(items, after) && AreRows(GroupsOf(before, after, items), rows)
    ensures RowsRight(bounds, more, keys, rows)
  {
    GroupsRead(before, after, bounds, le, obs, more, keys0, keys, items);
    hide ScrapeAfter, Telemetry.BoundText, ListsSeries, GroupsOf, IsRow, RowRight, Plain, Readable;
    var groups := GroupsOf(before, after, items);
    forall limiter | limiter in rows
      ensures (limiter, rows[limiter].backend) in keys
      ensures RowRight(bounds, ValuesOf(more, (limiter, rows[limiter].backend)), rows[limiter])
    {
      var k := (limiter, rows[limiter].backend);
      assert k in groups;
      RowCountsWhatHappened(bounds, le, obs, more, keys0, keys, before, after, items, k, rows[limiter]);
    }
  }

  /** Two scrapes of a gateway are subtracted; on such scrapes that never fails. */
  method ScrapesToRows(before: Scrape, after: Scrape, ghost bounds: seq<real>, ghost le: real -> string,
                       ghost obs: seq<Observation>, ghost more: seq<Observation>, ghost keys0: seq<Key>, ghost keys: seq<Key>)
    returns (rows: map<string, Row>)
    requires Sorting.Ascending(bounds) && Telemetry.BoundText(bounds, le)
    requires ScrapeAfter(before, bounds, le, obs, keys0) && ScrapeAfter(after, bounds, le, obs + more, keys)
    ensures RowsRight(bounds, more, keys, rows)
  {
    hide ScrapeAfter, ListsSeries, Telemetry.BoundText, GroupsOf, AreRows, RowsRight, Plain, Readable;
    var items := Items(after);
    GroupsRead(before, after, bounds, le, obs, more, keys0, keys, items);
    var delta := LimiterLatencyDelta(Some(before), Some(after), items);
    rows := delta.value.value;
    RowsFollow(before, after, bounds, le, obs, more, keys0, keys, items, rows);
  }

  /** All the way from observations: the metrics text of a gateway is fetched before and
      after some more observations, both texts are read and subtracted, and there is a row
      for every limiter, which counts, averages and bounds exactly the observations made in
      between. */
  method TextsToRows(text0: string, text: string, ghost before: Fetch, ghost after: Fetch, ghost bounds: seq<real>, ghost le: real -> string)
    returns (rows: map<string, Row>)
    requires BoundsPrinted(bounds, le) && Sound(before) && Sound(after) && before.obs <= after.obs
    requires text0 == before.Text(bounds, le) && text == after.Text(bounds, le)
    ensures RowsRight(bounds, after.obs[|before.obs|..], after.keys, rows)
  {
    hide Sound, ScrapeAfter, Telemetry.BoundText, ScrapeLines, Exposition.SplitLines, RowsRight, DocumentOf, Documents.PrintDoc;
    ghost var more := after.obs[|before.obs|..];
    assert after.obs == before.obs + more;
    FetchScraped(before, bounds, le);
    FetchScraped(after, bounds, le);
    var scrape0 := ParseScrape(text0);
    var scrape := ParseScrape(text);
    rows := ScrapesToRows(scrape0, scrape, bounds, le, before.obs, more, before.keys, after.keys);
  }

  // ------------------------------------------------------ from rows to the pool

  function Milliseconds(seconds: seq<real>): (ms: seq<real>)
    ensures |ms| == |seconds|
  {
    seq(|seconds|, i requires 0 <= i < |seconds| => seconds[i] * 1000.0)
  }

  lemma {:induction false} MillisecondsSum(seconds: seq<real>)
    ensures SumOf(Milliseconds(seconds)) == SumOf(seconds) * 1000.0
  {
    if seconds != [] {
      var n := |seconds| - 1;
      MillisecondsSum(seconds[..n]);
      assert Milliseconds(seconds)[..n] == Milliseconds(seconds[..n]);
    }
  }

  lemma {:induction false} MillisecondsAtMost(seconds: seq<real>, b: real)
    ensures AtMost(Milliseconds(seconds), b * 1000.0) == AtMost(seconds, b)
  {
    if seconds != [] {
      var n := |seconds| - 1;
      MillisecondsAtMost(seconds[..n], b);
      assert Milliseconds(seconds)[..n] == Milliseconds(seconds[..n]);
    }
  }

  function PercentOf(p: Percent): nat
  {
    match p case P50 => 50 case P95 => 95 case P99 => 99
  }

  lemma RightBoundCovers(bounds: seq<real>, seconds: seq<real>, percent: nat, bound: Option<real>)
    requires BoundRight(bounds, seconds, percent, bound) && bound.Some?
    ensures Covers(Milliseconds(seconds), bound.value, percent)
  {
    hide AtMost, Milliseconds;
    var b :| SnapshotTrips.LeastCovering(bounds, seconds, percent, b) && bound.value == b * 1000.0;
    MillisecondsAtMost(seconds, b);
  }

  /** What a row got right is what pooling asks of it, with a thousandth of a millisecond of
      slack in the mean times the count. */
  lemma RightRowBehind(bounds: seq<real>, seconds: seq<real>, row: Row, p: Percent)
    requires RowRight(bounds, seconds, row)
    ensures RowBehind(row, Milliseconds(seconds), p, PercentOf(p), 0.001)
  {
    hide BoundRight, Covers, SumOf, Milliseconds;
    MillisecondsSum(seconds);
    if Pick(row, p).Some? {
      RightBoundCovers(bounds, seconds, PercentOf(p), Pick(row, p));
    }
  }

  /** Each row is right for the values, in seconds, observed in its condition. */
  ghost predicate AllRight(bounds: seq<real>, rows: seq<Row>, seconds: seq<seq<real>>)
  {
    |rows| == |seconds| && forall i :: 0 <= i < |rows| ==> RowRight(bounds, seconds[i], rows[i])
  }

  function AllMilliseconds(seconds: seq<seq<real>>): (ms: seq<seq<real>>)
    ensures |ms| == |seconds|
  {
    seq(|seconds|, i requires 0 <= i < |seconds| => Milliseconds(seconds[i]))
  }

  lemma RightRowsBehind(bounds: seq<real>, rows: seq<Row>, seconds: seq<seq<real>>, p: Percent)
    requires AllRight(bounds, rows, seconds)
    ensures Behind(rows, AllMilliseconds(seconds), p, PercentOf(p), 0.001)
  {
    hide Milliseconds, RowRight, RowBehind;
    forall i | 0 <= i < |rows|
      ensures RowBehind(rows[i], AllMilliseconds(seconds)[i], p, PercentOf(p), 0.001)
    {
      RightRowBehind(bounds, seconds[i], rows[i], p);
    }
  }

  /** Rows as the texts of any number of conditions give them are pooled: the pool counts
      exactly the observations made during the conditions, its mean times their number is
      their sum in milliseconds to within a thousandth per condition, and each pooled bound
      covers its percentage of them all. */
  lemma RightRowsPool(bounds: seq<real>, rows: seq<Row>, seconds: seq<seq<real>>, c: Pooled)
    requires AllRight(bounds, rows, seconds)
    ensures IsPooled(rows, c) ==> PoolRight(|rows|, Flatten(AllMilliseconds(seconds)), c)
  {
    hide AllRight, IsPooled, Behind, PoolRight, Flatten, AllMilliseconds;
    RightRowsBehind(bounds, rows, seconds, P50);
    RightRowsBehind(bounds, rows, seconds, P95);
    RightRowsBehind(bounds, rows, seconds, P99);
    if IsPooled(rows, c) {
      BehindPools(rows, AllMilliseconds(seconds), c);
    }
  }

  ghost predicate PoolRight(conditions: nat, pool: seq<real>, c: Pooled)
  {
    && c.count == |pool| && (c.mean.None? <==> pool == [])
    && (c.mean.Some? ==> -Times(conditions, 0.001) <= c.mean.value * |pool| as real - SumOf(pool) <= Times(conditions, 0.001))
    && (c.p50.Some? ==> Covers(pool, c.p50.value, 50))
    && (c.p95.Some? ==> Covers(pool, c.p95.value, 95))
    && (c.p99.Some? ==> Covers(pool, c.p99.value, 99))
  }

  lemma BehindPools(rows: seq<Row>, samples: seq<seq<real>>, c: Pooled)
    requires Behind(rows, samples, P50, 50, 0.001) && Behind(rows, samples, P95, 95, 0.001) && Behind(rows, samples, P99, 99, 0.001)
    requires IsPooled(rows, c)
    ensures PoolRight(|rows|, Flatten(samples), c)
  {
    hide IsMaxBound, Behind, Times, SumOf, Covers, Flatten, WeightedSum, CountSum;
    PooledNeverUnderstates(rows, samples, P50, 50, 0.001, c.p50);
    PooledNeverUnderstates(rows, samples, P95, 95, 0.001, c.p95);
    PooledNeverUnderstates(rows, samples, P99, 99, 0.001, c.p99);
    PooledMeanIsMean(rows, samples, P50, 50, 0.001, c);
  }
}
