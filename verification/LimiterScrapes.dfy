/** Two scrapes of one gateway: their difference is the histogram of what was observed in
    between. */
module LimiterScrapes {
  import opened Prelude
  import opened LimiterDelta
  import opened Labels
  import opened Metrics
  import opened Numbers
  import Documents
  import Escaping
  import Ordering
  import Snapshot
  import SnapshotTrips
  import Sorting
  import Telemetry

  type Observation = (Key, real)

  // ---------------------------------------------------- what the gateway prints

  function Labelled(k: Key): seq<(string, string)>
  {
    [("backend", k.1), ("limiter", k.0)]
  }

  function LabelledBucket(k: Key, le: string): seq<(string, string)>
  {
    [("backend", k.1), ("le", le), ("limiter", k.0)]
  }

  function BucketMetric(k: Key, le: string, n: int): Documents.Line
  {
    Documents.Metric(PREFIX + "bucket", LabelledBucket(k, le), n as real)
  }

  function BucketMetrics(bounds: seq<real>, le: real -> string, h: Histogram<Key>, k: Key): seq<Documents.Line>
  {
    if bounds == [] then []
    else BucketMetrics(bounds[..|bounds| - 1], le, h, k) + [BucketMetric(k, le(bounds[|bounds| - 1]), Count(h.buckets, (k, bounds[|bounds| - 1])))]
  }

  function LastMetrics(h: Histogram<Key>, k: Key): seq<Documents.Line>
  {
    [BucketMetric(k, "+Inf", Count(h.count, k)),
     Documents.Metric(PREFIX + "count", Labelled(k), Count(h.count, k) as real),
     Documents.Metric(PREFIX + "sum", Labelled(k), SumAt(h.sum, k))]
  }

  function LimiterMetrics(bounds: seq<real>, le: real -> string, h: Histogram<Key>, keys: seq<Key>): seq<Documents.Line>
  {
    if keys == [] then []
    else
      var k := keys[|keys| - 1];
      LimiterMetrics(bounds, le, h, keys[..|keys| - 1]) + (BucketMetrics(bounds, le, h, k) + LastMetrics(h, k))
  }

  /** The limiter sample builder of gateway/metrics.py, its keys in the order listed. */
  method LimiterLatencySamples(metrics: GatewayMetrics, le: real -> string, keys: seq<Key>) returns (samples: seq<Documents.Line>)
    requires metrics.LimiterValid()
    ensures samples == LimiterMetrics(metrics.limiterLatencyBuckets, le, HistogramOf(metrics.limiterLatencyBuckets, metrics.limiterLatencies), keys)
  {
    hide HistogramOf;
    var bounds, h := metrics.limiterLatencyBuckets, metrics.limiterLatency;
    samples := [];
    for i := 0 to |keys|
      invariant samples == LimiterMetrics(bounds, le, h, keys[..i])
    {
      var k := keys[i];
      ghost var before := samples;
      for j := 0 to |bounds|
        invariant samples == before + BucketMetrics(bounds[..j], le, h, k)
      {
        assert bounds[..j + 1][..j] == bounds[..j];
        samples := samples + [BucketMetric(k, le(bounds[j]), Count(h.buckets, (k, bounds[j])))];
      }
      assert bounds[..|bounds|] == bounds;
      samples := samples + [BucketMetric(k, "+Inf", Count(h.count, k))];
      samples := samples + [Documents.Metric(PREFIX + "count", Labelled(k), Count(h.count, k) as real)];
      samples := samples + [Documents.Metric(PREFIX + "sum", Labelled(k), SumAt(h.sum, k))];
      assert samples == before + (BucketMetrics(bounds, le, h, k) + LastMetrics(h, k));
      assert keys[..i + 1][..i] == keys[..i];
    }
    assert keys[..|keys|] == keys;
  }

  /** A scrape: every sample line under its name and labels, the value as printed. */
  function ScrapeOf(lines: seq<Documents.Line>): Scrape
  {
    if lines == [] then map[]
    else
      var rest, l := ScrapeOf(lines[..|lines| - 1]), lines[|lines| - 1];
      if l.Metric? then rest[SeriesOf(l) := Rounded(l.value)] else rest
  }

  function SeriesOf(l: Documents.Line): Series
    requires l.Metric?
  {
    Series(l.name, Ordering.SortPairs(l.items))
  }

  // ------------------------------------------------- series and their fields

  function SeriesFor(k: Key, f: Field): Series
    requires !f.NoField?
  {
    match f
    case CountField => Series(PREFIX + "count", Labelled(k))
    case SumField => Series(PREFIX + "sum", Labelled(k))
    case BucketField(le) => Series(PREFIX + "bucket", LabelledBucket(k, le))
  }

  lemma Suffixes()
    ensures EndsWith(PREFIX + "count", "_count")
    ensures EndsWith(PREFIX + "sum", "_sum") && !EndsWith(PREFIX + "sum", "_count")
    ensures EndsWith(PREFIX + "bucket", "_bucket") && !EndsWith(PREFIX + "bucket", "_count") && !EndsWith(PREFIX + "bucket", "_sum")
  {
    UnderscoreBefore("count");
    UnderscoreBefore("sum");
    UnderscoreBefore("bucket");
    assert "_" + "count" == "_count" && "_" + "sum" == "_sum" && "_" + "bucket" == "_bucket";
    assert (PREFIX + "sum")[|PREFIX| + 2] == 'm' && (PREFIX + "bucket")[|PREFIX| + 5] == 't' && (PREFIX + "bucket")[|PREFIX| + 4] == 'e';
    LastOf(PREFIX + "sum", "_count");
    LastOf(PREFIX + "bucket", "_sum");
    LastOf(PREFIX + "bucket", "_count");
  }

  lemma UnderscoreBefore(s: string)
    ensures EndsWith(PREFIX + s, "_" + s)
  {
    var n := |PREFIX|;
    assert PREFIX[n - 1] == '_';
    assert (PREFIX + s)[n - 1..] == [PREFIX[n - 1]] + s;
  }

  /** A suffix agrees with the text on the last two characters. */
  lemma LastOf(s: string, suffix: string)
    requires |suffix| >= 2
    ensures EndsWith(s, suffix) ==> s[|s| - 1] == suffix[|suffix| - 1] && s[|s| - 2] == suffix[|suffix| - 2]
  {
  }

  lemma StartsLong(s: string)
    ensures Escaping.StartsWith(PREFIX + s, PREFIX)
  {
    assert (PREFIX + s)[..|PREFIX|] == PREFIX;
  }

  /** A gateway series is found again: its group and what it says about it. */
  lemma FieldFound(k: Key, f: Field)
    requires k.0 != "" && k.1 != "" && !f.NoField?
    ensures GroupKey(SeriesFor(k, f)) == Some(k) && FieldOf(SeriesFor(k, f)) == f
  {
    hide EndsWith;
    hide Escaping.StartsWith;
    Suffixes();
    LabelsOf(k, if f.BucketField? then f.le else "");
    StartsLong("count");
    StartsLong("sum");
    StartsLong("bucket");
  }

  /** The fields a gateway prints for each key. */
  predicate Printed(bounds: seq<real>, le: real -> string, f: Field)
  {
    match f
    case CountField => true
    case SumField => true
    case BucketField(t) => t == "+Inf" || exists b <- bounds :: t == le(b)
    case NoField => false
  }

  /** What a scrape says about a key after some observations. */
  function FieldValue(obs: seq<Observation>, k: Key, f: Field): real
  {
    var values := ValuesOf(obs, k);
    match f
    case CountField => |values| as real
    case SumField => Rounded(SumOf(values))
    case BucketField(t) => if t == "+Inf" then |values| as real else AtMost(values, BoundOf(t)) as real
    case NoField => 0.0
  }

  ghost predicate Says(l: Documents.Line, bounds: seq<real>, le: real -> string, obs: seq<Observation>, k: Key, f: Field)
  {
    l.Metric? && Printed(bounds, le, f) && SeriesOf(l) == SeriesFor(k, f) && Rounded(l.value) == FieldValue(obs, k, f)
  }

  lemma LabelNamesOrdered()
    ensures Ordering.Less("backend", "le") && Ordering.Less("le", "limiter") && Ordering.Less("backend", "limiter")
  {
    assert "le"[1..] == "e" && "limiter"[1..] == "imiter";
    assert Ordering.Less("e", "imiter");
  }

  /** The labels of the printed lines are in order already. */
  lemma LabelsInOrder(k: Key, le: string)
    ensures Ordering.SortPairs(Labelled(k)) == Labelled(k) && Ordering.SortPairs(LabelledBucket(k, le)) == LabelledBucket(k, le)
  {
    LabelNamesOrdered();
    hide Ordering.Less;
    var one := [("limiter", k.0)];
    assert one[1..] == [] && Ordering.SortPairs(one) == one;
    assert Labelled(k)[1..] == one;
    var two := [("le", le), ("limiter", k.0)];
    assert two[1..] == one && Ordering.SortPairs(two) == two;
    assert LabelledBucket(k, le)[1..] == two;
  }

  lemma LabelsOf(k: Key, le: string)
    ensures AddAll(map[], Labelled(k)) == map["backend" := k.1, "limiter" := k.0]
    ensures AddAll(map[], LabelledBucket(k, le)) == map["backend" := k.1, "le" := le, "limiter" := k.0]
  {
    var two, three := Labelled(k), LabelledBucket(k, le);
    assert two[1..] == [("limiter", k.0)] && two[1..][1..] == [];
    assert three[1..] == [("le", le), ("limiter", k.0)] && three[1..][1..] == [("limiter", k.0)] && three[1..][1..][1..] == [];
    var m: LabelMap := map["backend" := k.1];
    assert map[]["backend" := k.1] == m;
    assert AddAll(map[], two) == AddAll(m, two[1..]) == AddAll(m["limiter" := k.0], []);
    assert AddAll(map[], three) == AddAll(m, three[1..]) == AddAll(m["le" := le], three[1..][1..]) == AddAll(m["le" := le]["limiter" := k.0], []);
  }

  lemma BucketSays(bounds: seq<real>, le: real -> string, obs: seq<Observation>, k: Key, b: real)
    requires Sorting.Ascending(bounds) && Telemetry.BoundText(bounds, le) && b in bounds
    ensures Says(BucketMetric(k, le(b), Count(HistogramOf(bounds, obs).buckets, (k, b))), bounds, le, obs, k, BucketField(le(b)))
  {
    assert le(b) != "+Inf" && BoundOf(le(b)) == b;
    hide HistogramOf;
    hide NumberOf;
    hide Rounded;
    BucketCounts(bounds, obs, k, b);
    OneOccurrence(bounds, b);
    LabelsInOrder(k, le(b));
    Telemetry.WholeIsExact(AtMost(ValuesOf(obs, k), b));
  }

  lemma LastSay(bounds: seq<real>, le: real -> string, obs: seq<Observation>, k: Key)
    ensures var last := LastMetrics(HistogramOf(bounds, obs), k);
            && Says(last[0], bounds, le, obs, k, BucketField("+Inf"))
            && Says(last[1], bounds, le, obs, k, CountField)
            && Says(last[2], bounds, le, obs, k, SumField)
  {
    hide HistogramOf;
    hide Rounded;
    CountAndSum(bounds, obs, k);
    LabelsInOrder(k, "+Inf");
    Telemetry.WholeIsExact(|ValuesOf(obs, k)|);
  }

  // ------------------------------------------------------ what a scrape says

  /** A line that is no part of the limiter histograms. */
  predicate Foreign(l: Documents.Line)
  {
    l.Comment? || GroupKey(SeriesOf(l)).None?
  }

  ghost predicate AllSay(lines: seq<Documents.Line>, bounds: seq<real>, le: real -> string, obs: seq<Observation>, keys: seq<Key>)
  {
    forall l <- lines :: Foreign(l) || exists k, f :: k in keys && Says(l, bounds, le, obs, k, f)
  }

  ghost predicate Told(lines: seq<Documents.Line>, bounds: seq<real>, le: real -> string, obs: seq<Observation>, k: Key, f: Field)
  {
    exists l <- lines :: Says(l, bounds, le, obs, k, f)
  }

  lemma {:induction false} BucketsSay(bounds: seq<real>, le: real -> string, obs: seq<Observation>, all: seq<real>, k: Key, keys: seq<Key>)
    requires Sorting.Ascending(all) && Telemetry.BoundText(all, le) && (forall b <- bounds :: b in all) && k in keys
    ensures var lines := BucketMetrics(bounds, le, HistogramOf(all, obs), k);
            && AllSay(lines, all, le, obs, keys)
            && forall b <- bounds :: Told(lines, all, le, obs, k, BucketField(le(b)))
  {
    hide HistogramOf;
    hide Says;
    hide Telemetry.BoundText;
    if bounds != [] {
      var front, b := bounds[..|bounds| - 1], bounds[|bounds| - 1];
      assert forall c <- front :: c in bounds;
      BucketsSay(front, le, obs, all, k, keys);
      BucketSays(all, le, obs, k, b);
      var before := BucketMetrics(front, le, HistogramOf(all, obs), k);
      var l := BucketMetric(k, le(b), Count(HistogramOf(all, obs).buckets, (k, b)));
      assert forall x <- before :: x in before + [l];
      assert l in before + [l];
      forall c | c in bounds
        ensures Told(before + [l], all, le, obs, k, BucketField(le(c)))
      {
        if c != b {
          assert c in front;
        }
      }
    }
  }

  lemma KeySays(bounds: seq<real>, le: real -> string, obs: seq<Observation>, k: Key, keys: seq<Key>, f: Field)
    requires Sorting.Ascending(bounds) && Telemetry.BoundText(bounds, le) && k in keys
    ensures var lines := BucketMetrics(bounds, le, HistogramOf(bounds, obs), k) + LastMetrics(HistogramOf(bounds, obs), k);
            AllSay(lines, bounds, le, obs, keys) && (Printed(bounds, le, f) ==> Told(lines, bounds, le, obs, k, f))
  {
    hide HistogramOf;
    hide Says;
    hide Telemetry.BoundText;
    var h := HistogramOf(bounds, obs);
    var buckets, last := BucketMetrics(bounds, le, h, k), LastMetrics(h, k);
    BucketsSay(bounds, le, obs, bounds, k, keys);
    LastSay(bounds, le, obs, k);
    assert forall l <- buckets + last :: l in buckets || l in last;
    assert forall l <- last :: l == last[0] || l == last[1] || l == last[2];
    assert last[0] in buckets + last && last[1] in buckets + last && last[2] in buckets + last;
    assert forall l <- buckets :: l in buckets + last;
  }

  lemma {:induction false} MetricsSay(bounds: seq<real>, le: real -> string, obs: seq<Observation>, some: seq<Key>, keys: seq<Key>, k: Key, f: Field)
    requires Sorting.Ascending(bounds) && Telemetry.BoundText(bounds, le) && forall j <- some :: j in keys
    ensures var lines := LimiterMetrics(bounds, le, HistogramOf(bounds, obs), some);
            AllSay(lines, bounds, le, obs, keys) && (k in some && Printed(bounds, le, f) ==> Told(lines, bounds, le, obs, k, f))
  {
    hide HistogramOf;
    hide Says;
    hide Printed;
    hide Telemetry.BoundText;
    if some != [] {
      var front, last := some[..|some| - 1], some[|some| - 1];
      assert forall j <- front :: j in some;
      MetricsSay(bounds, le, obs, front, keys, k, f);
      KeySays(bounds, le, obs, last, keys, f);
      var before := LimiterMetrics(bounds, le, HistogramOf(bounds, obs), front);
      var lines := BucketMetrics(bounds, le, HistogramOf(bounds, obs), last) + LastMetrics(HistogramOf(bounds, obs), last);
      assert forall l <- before + lines :: l in before || l in lines;
      assert (forall l <- before :: l in before + lines) && (forall l <- lines :: l in before + lines);
      if k in some && k != last {
        assert k in front;
      }
    }
  }

  /** Of the limiter histograms the scrape holds the printed fields of the keys, with their
      values, and nothing else. */
  ghost predicate IsScrape(scrape: Scrape, bounds: seq<real>, le: real -> string, obs: seq<Observation>, keys: seq<Key>)
  {
    && (forall s <- scrape :: GroupKey(s).Some? ==> exists k, f :: k in keys && Tells(scrape, bounds, le, obs, s, k, f))
    && (forall k, f :: k in keys && Printed(bounds, le, f) ==> Held(scrape, k, f))
  }

  ghost predicate Tells(scrape: Scrape, bounds: seq<real>, le: real -> string, obs: seq<Observation>, s: Series, k: Key, f: Field)
  {
    Printed(bounds, le, f) && s == SeriesFor(k, f) && ValueIn(scrape, s) == FieldValue(obs, k, f)
  }

  predicate Held(scrape: Scrape, k: Key, f: Field)
  {
    !f.NoField? && SeriesFor(k, f) in scrape
  }

  lemma {:induction false} ScrapeSays(lines: seq<Documents.Line>, bounds: seq<real>, le: real -> string, obs: seq<Observation>, keys: seq<Key>)
    requires AllSay(lines, bounds, le, obs, keys)
    ensures forall s <- ScrapeOf(lines) :: GroupKey(s).Some? ==> exists k, f :: k in keys && Tells(ScrapeOf(lines), bounds, le, obs, s, k, f)
    ensures forall l <- lines :: l.Metric? ==> SeriesOf(l) in ScrapeOf(lines)
  {
    hide Rounded;
    hide Printed;
    hide FieldValue;
    hide SeriesFor;
    hide SeriesOf;
    hide GroupKey;
    if lines != [] {
      var front, l := lines[..|lines| - 1], lines[|lines| - 1];
      assert l in lines && forall m <- front :: m in lines;
      ScrapeSays(front, bounds, le, obs, keys);
      var before, scrape := ScrapeOf(front), ScrapeOf(lines);
      forall s | s in scrape && GroupKey(s).Some?
        ensures exists k, f :: k in keys && Tells(scrape, bounds, le, obs, s, k, f)
      {
        if l.Metric? && s == SeriesOf(l) {
          var k, f :| k in keys && Says(l, bounds, le, obs, k, f);
          assert Tells(scrape, bounds, le, obs, s, k, f);
        } else {
          var k, f :| k in keys && Tells(before, bounds, le, obs, s, k, f);
          assert Tells(scrape, bounds, le, obs, s, k, f);
        }
      }
      assert lines == front + [l];
    }
  }

  predicate AllForeign(lines: seq<Documents.Line>)
  {
    forall l <- lines :: Foreign(l)
  }

  /** A whole metrics document around the limiter lines. */
  function DocumentOf(head: seq<Documents.Line>, bounds: seq<real>, le: real -> string, obs: seq<Observation>, keys: seq<Key>, tail: seq<Documents.Line>): seq<Documents.Line>
  {
    head + LimiterMetrics(bounds, le, HistogramOf(bounds, obs), keys) + tail
  }

  /** The printed lines of some keys, scraped with all that stands around them. */
  lemma MetricsScraped(head: seq<Documents.Line>, bounds: seq<real>, le: real -> string, obs: seq<Observation>, keys: seq<Key>, tail: seq<Documents.Line>)
    requires Sorting.Ascending(bounds) && Telemetry.BoundText(bounds, le) && AllForeign(head) && AllForeign(tail)
    ensures IsScrape(ScrapeOf(DocumentOf(head, bounds, le, obs, keys, tail)), bounds, le, obs, keys)
  {
    hide HistogramOf;
    hide Printed;
    hide Telemetry.BoundText;
    hide FieldValue;
    hide SeriesFor;
    hide Foreign;
    hide GroupKey;
    var lines := LimiterMetrics(bounds, le, HistogramOf(bounds, obs), keys);
    var doc := DocumentOf(head, bounds, le, obs, keys, tail);
    MetricsSay(bounds, le, obs, keys, keys, ("", ""), NoField);
    assert forall l <- doc :: l in head || l in lines || l in tail;
    ScrapeSays(doc, bounds, le, obs, keys);
    forall k, f | k in keys && Printed(bounds, le, f)
      ensures Held(ScrapeOf(doc), k, f)
    {
      MetricsSay(bounds, le, obs, keys, keys, k, f);
      var l :| l in lines && Says(l, bounds, le, obs, k, f);
      assert l in doc;
      PrintedIsField(bounds, le, f);
    }
  }

  lemma PrintedIsField(bounds: seq<real>, le: real -> string, f: Field)
    ensures Printed(bounds, le, f) ==> !f.NoField?
  {
  }

  // ------------------------------------------------------ what a group holds

  /** A series as the gateway prints them. */
  predicate Known(s: Series)
  {
    GroupKey(s).Some? && !FieldOf(s).NoField? && s == SeriesFor(GroupKey(s).value, FieldOf(s))
  }

  predicate NoneTwice(items: seq<Series>)
  {
    forall i, j :: 0 <= i < j < |items| ==> items[i] != items[j]
  }

  predicate HoldsField(g: Group, f: Field, delta: real)
  {
    match f
    case CountField => g.count == RoundEven(delta)
    case SumField => g.sum == delta
    case BucketField(t) => t in g.buckets && g.buckets[t] == delta
    case NoField => true
  }

  predicate LacksField(g: Group, f: Field)
  {
    match f
    case CountField => g.count == 0
    case SumField => g.sum == 0.0
    case BucketField(t) => t !in g.buckets
    case NoField => true
  }

  lemma SetOne(g: Group, f: Field, delta: real, other: Field, was: real)
    requires !f.NoField? && !other.NoField?
    ensures HoldsField(Set(g, f, delta), f, delta)
    ensures other != f && HoldsField(g, other, was) ==> HoldsField(Set(g, f, delta), other, was)
    ensures other != f && LacksField(g, other) ==> LacksField(Set(g, f, delta), other)
  {
  }

  lemma SameSeries(s: Series, k: Key, f: Field)
    requires Known(s) && k.0 != "" && k.1 != "" && !f.NoField?
    ensures GroupKey(s).Some? && !FieldOf(s).NoField?
    ensures s == SeriesFor(k, f) <==> GroupKey(s).value == k && FieldOf(s) == f
  {
    hide SeriesFor;
    hide GroupKey;
    hide FieldOf;
    FieldFound(k, f);
  }

  lemma AddOne(groups: map<Key, Group>, s: Series, delta: real, k: Key, f: Field, was: real)
    requires (GroupKey(s).Some? ==> Known(s)) && k.0 != "" && k.1 != "" && !f.NoField?
    ensures var groups' := AddSeries(groups, s, delta);
            if s == SeriesFor(k, f) then k in groups' && HoldsField(groups'[k], f, delta)
            else
              && (k in groups && HoldsField(groups[k], f, was) ==> k in groups' && HoldsField(groups'[k], f, was))
              && (LacksField(GroupAt(groups, k), f) ==> LacksField(GroupAt(groups', k), f))
  {
    hide SeriesFor;
    hide GroupKey;
    hide FieldOf;
    FieldFound(k, f);
    if GroupKey(s).None? {
      return;
    }
    SameSeries(s, k, f);
    SetOne(GroupAt(groups, GroupKey(s).value), FieldOf(s), delta, f, was);
    hide Known;
    hide Set;
    hide HoldsField;
    hide LacksField;
  }

  /** A field of a group is the difference of its series, if the series is there. */
  lemma {:induction false} GroupsHold(before: Scrape, after: Scrape, items: seq<Series>, k: Key, f: Field)
    requires (forall s <- items :: GroupKey(s).Some? ==> Known(s)) && NoneTwice(items)
    requires k.0 != "" && k.1 != "" && !f.NoField?
    ensures var groups, s := GroupsOf(before, after, items), SeriesFor(k, f);
            if s in items then k in groups && HoldsField(groups[k], f, ValueIn(after, s) - ValueIn(before, s))
            else LacksField(GroupAt(groups, k), f)
  {
    hide SeriesFor;
    hide Known;
    hide GroupKey;
    hide ValueIn;
    hide AddSeries;
    hide HoldsField;
    if items == [] {
      assert LacksField(NO_GROUP, f);
    } else {
      hide LacksField;
      var front, s := items[..|items| - 1], items[|items| - 1];
      var own, groups := SeriesFor(k, f), GroupsOf(before, after, front);
      LastIsNew(items);
      GroupsHold(before, after, front, k, f);
      AddOne(groups, s, ValueIn(after, s) - ValueIn(before, s), k, f, ValueIn(after, own) - ValueIn(before, own));
      assert GroupsOf(before, after, items) == AddSeries(groups, s, ValueIn(after, s) - ValueIn(before, s));
      hide NoneTwice;
    }
  }

  lemma LastIsNew(items: seq<Series>)
    requires items != [] && NoneTwice(items)
    ensures var front, s := items[..|items| - 1], items[|items| - 1];
            s in items && s !in front && NoneTwice(front) && forall r :: r in items <==> r in front || r == s
  {
    assert items == items[..|items| - 1] + [items[|items| - 1]];
  }

  lemma {:induction false} GroupsAreKeys(before: Scrape, after: Scrape, items: seq<Series>)
    ensures forall k <- GroupsOf(before, after, items) :: exists s <- items :: GroupKey(s) == Some(k)
  {
    hide GroupKey;
    if items != [] {
      var front, s := items[..|items| - 1], items[|items| - 1];
      assert s in items && forall r <- front :: r in items;
      GroupsAreKeys(before, after, front);
    }
  }

  // --------------------------------------------------- the difference of two scrapes

  /** The scrape is that of all keys observed so far. */
  ghost predicate ScrapeAfter(scrape: Scrape, bounds: seq<real>, le: real -> string, obs: seq<Observation>, keys: seq<Key>)
  {
    && IsScrape(scrape, bounds, le, obs, keys)
    && (forall k :: k in keys <==> ValuesOf(obs, k) != [])
    && (forall k <- keys :: k.0 != "" && k.1 != "")
  }

  lemma ValueScraped(scrape: Scrape, bounds: seq<real>, le: real -> string, obs: seq<Observation>, keys: seq<Key>, k: Key, f: Field)
    requires ScrapeAfter(scrape, bounds, le, obs, keys) && Printed(bounds, le, f) && k.0 != "" && k.1 != ""
    ensures !f.NoField? && ValueIn(scrape, SeriesFor(k, f)) == FieldValue(obs, k, f)
    ensures SeriesFor(k, f) in scrape <==> k in keys
  {
    hide SeriesFor;
    hide Rounded;
    hide ValuesOf;
    assert !f.NoField?;
    assert k in keys ==> Held(scrape, k, f);
    if SeriesFor(k, f) in scrape {
      SeriesTold(scrape, bounds, le, obs, keys, k, f);
    } else {
      NothingSummed();
    }
  }

  lemma SeriesTold(scrape: Scrape, bounds: seq<real>, le: real -> string, obs: seq<Observation>, keys: seq<Key>, k: Key, f: Field)
    requires ScrapeAfter(scrape, bounds, le, obs, keys) && k.0 != "" && k.1 != "" && !f.NoField? && SeriesFor(k, f) in scrape
    ensures k in keys && ValueIn(scrape, SeriesFor(k, f)) == FieldValue(obs, k, f)
  {
    hide SeriesFor;
    hide FieldValue;
    hide Printed;
    hide ValuesOf;
    FieldFound(k, f);
    var k1, f1 :| k1 in keys && Tells(scrape, bounds, le, obs, SeriesFor(k, f), k1, f1);
    PrintedIsField(bounds, le, f1);
    FieldFound(k1, f1);
  }

  lemma NothingSummed()
    ensures Rounded(SumOf([])) == 0.0 && forall b: real :: AtMost([], b) == 0
  {
  }

  lemma {:induction false} ValuesBoth(obs: seq<Observation>, more: seq<Observation>, k: Key)
    ensures ValuesOf(obs + more, k) == ValuesOf(obs, k) + ValuesOf(more, k)
  {
    if more == [] {
      assert obs + more == obs;
    } else {
      var front, last := more[..|more| - 1], more[|more| - 1];
      assert (obs + more)[..|obs + more| - 1] == obs + front;
      ValuesBoth(obs, front, k);
    }
  }

  /** The buckets of some values under the printed bounds. */
  ghost predicate BucketsAre(buckets: map<string, real>, bounds: seq<real>, le: real -> string, values: seq<real>)
  {
    && (forall t <- buckets :: t == "+Inf" || exists b <- bounds :: t == le(b))
    && "+Inf" in buckets && buckets["+Inf"] == |values| as real
    && forall b <- bounds :: le(b) in buckets && buckets[le(b)] == AtMost(values, b) as real
  }

  ghost predicate ListsSeries(items: seq<Series>, scrape: Scrape)
  {
    NoneTwice(items) && forall s :: s in items <==> s in scrape
  }

  lemma SeriesKnown(scrape: Scrape, bounds: seq<real>, le: real -> string, obs: seq<Observation>, keys: seq<Key>, s: Series)
    requires ScrapeAfter(scrape, bounds, le, obs, keys) && s in scrape && GroupKey(s).Some?
    ensures Known(s) && GroupKey(s).value in keys && Printed(bounds, le, FieldOf(s))
  {
    hide SeriesFor;
    hide Printed;
    hide GroupKey;
    hide FieldOf;
    var k, f :| k in keys && Tells(scrape, bounds, le, obs, s, k, f);
    PrintedIsField(bounds, le, f);
    FieldFound(k, f);
  }

  lemma AllKnown(scrape: Scrape, bounds: seq<real>, le: real -> string, obs: seq<Observation>, keys: seq<Key>, items: seq<Series>)
    requires ScrapeAfter(scrape, bounds, le, obs, keys) && ListsSeries(items, scrape)
    ensures forall s <- items :: GroupKey(s).Some? ==> Known(s)
  {
    forall s | s in items && GroupKey(s).Some?
      ensures Known(s)
    {
      SeriesKnown(scrape, bounds, le, obs, keys, s);
    }
  }

  /** What the difference says about one printed field of a key. */
  lemma FieldDelta(before: Scrape, after: Scrape, bounds: seq<real>, le: real -> string, obs: seq<Observation>, more: seq<Observation>,
                   keys0: seq<Key>, keys: seq<Key>, items: seq<Series>, k: Key, f: Field)
    requires ScrapeAfter(before, bounds, le, obs, keys0) && ScrapeAfter(after, bounds, le, obs + more, keys)
    requires ListsSeries(items, after) && k in keys && Printed(bounds, le, f)
    ensures var groups := GroupsOf(before, after, items);
            k in groups && HoldsField(groups[k], f, FieldValue(obs + more, k, f) - FieldValue(obs, k, f))
  {
    hide Known;
    hide SeriesFor;
    hide FieldValue;
    hide HoldsField;
    hide IsScrape;
    hide ValuesOf;
    assert !f.NoField? && k.0 != "" && k.1 != "";
    hide Printed;
    AllKnown(after, bounds, le, obs + more, keys, items);
    ValueScraped(before, bounds, le, obs, keys0, k, f);
    ValueScraped(after, bounds, le, obs + more, keys, k, f);
    hide ScrapeAfter;
    assert SeriesFor(k, f) in items && NoneTwice(items);
    hide ListsSeries;
    hide NoneTwice;
    GroupsHold(before, after, items, k, f);
  }

  /** A label that is not printed is not among the buckets of the difference. */
  lemma NoOtherBucket(before: Scrape, after: Scrape, bounds: seq<real>, le: real -> string, obs: seq<Observation>, keys: seq<Key>, items: seq<Series>, k: Key, t: string)
    requires ScrapeAfter(after, bounds, le, obs, keys) && ListsSeries(items, after) && k in keys && !Printed(bounds, le, BucketField(t))
    ensures t !in GroupAt(GroupsOf(before, after, items), k).buckets
  {
    AllKnown(after, bounds, le, obs, keys, items);
    var f := BucketField(t);
    FieldFound(k, f);
    if SeriesFor(k, f) in after {
      SeriesKnown(after, bounds, le, obs, keys, SeriesFor(k, f));
      assert false;
    }
    hide Known;
    hide SeriesFor;
    GroupsHold(before, after, items, k, f);
  }

  lemma GroupsAreThoseObserved(before: Scrape, after: Scrape, bounds: seq<real>, le: real -> string, obs: seq<Observation>, keys: seq<Key>, items: seq<Series>, k: Key)
    requires ScrapeAfter(after, bounds, le, obs, keys) && ListsSeries(items, after) && k in GroupsOf(before, after, items)
    ensures k in keys
  {
    GroupsAreKeys(before, after, items);
    var s :| s in items && GroupKey(s) == Some(k);
    SeriesKnown(after, bounds, le, obs, keys, s);
  }

  lemma WholeEven(n: int)
    ensures RoundEven(n as real) == n
  {
  }

  lemma BucketDelta(bounds: seq<real>, le: real -> string, obs: seq<Observation>, more: seq<Observation>, k: Key, b: real)
    requires Telemetry.BoundText(bounds, le) && b in bounds
    ensures FieldValue(obs + more, k, BucketField(le(b))) - FieldValue(obs, k, BucketField(le(b))) == AtMost(ValuesOf(more, k), b) as real
  {
    ValuesBoth(obs, more, k);
    AtMostBoth(ValuesOf(obs, k), ValuesOf(more, k), b);
  }

  /** Subtracting two scrapes of a gateway gives, for each key observed by the second, the
      histogram of exactly the observations between them, a key new to the second counting
      from zero; and the sum of these up to the rounding of the two printed sums. */
  lemma DeltaIsBetween(before: Scrape, after: Scrape, bounds: seq<real>, le: real -> string, obs: seq<Observation>, more: seq<Observation>,
                       keys0: seq<Key>, keys: seq<Key>, items: seq<Series>, k: Key)
    requires Sorting.Ascending(bounds) && Telemetry.BoundText(bounds, le)
    requires ScrapeAfter(before, bounds, le, obs, keys0) && ScrapeAfter(after, bounds, le, obs + more, keys)
    requires ListsSeries(items, after)
    ensures var groups, values := GroupsOf(before, after, items), ValuesOf(more, k);
            && (k in groups <==> k in keys)
            && (k in groups ==>
                  && groups[k].count == |values|
                  && BucketsAre(groups[k].buckets, bounds, le, values)
                  && -0.000001 <= groups[k].sum - SumOf(values) <= 0.000001)
  {
    var groups, values, was := GroupsOf(before, after, items), ValuesOf(more, k), ValuesOf(obs, k);
    hide ScrapeAfter;
    hide Telemetry.BoundText;
    hide ListsSeries;
    hide GroupsOf;
    hide ValuesOf;
    hide AtMost;
    hide SumOf;
    hide RoundEven;
    hide Rounded;
    if k in groups {
      GroupsAreThoseObserved(before, after, bounds, le, obs + more, keys, items, k);
    }
    if k in keys {
      ValuesBoth(obs, more, k);
      FieldDelta(before, after, bounds, le, obs, more, keys0, keys, items, k, CountField);
      WholeEven(|values|);
      FieldDelta(before, after, bounds, le, obs, more, keys0, keys, items, k, SumField);
      AtMostBoth(was, values, 0.0);
      RoundedClose(SumOf(was + values));
      RoundedClose(SumOf(was));
      DeltaBuckets(before, after, bounds, le, obs, more, keys0, keys, items, k);
    }
  }

  lemma DeltaBuckets(before: Scrape, after: Scrape, bounds: seq<real>, le: real -> string, obs: seq<Observation>, more: seq<Observation>,
                     keys0: seq<Key>, keys: seq<Key>, items: seq<Series>, k: Key)
    requires Telemetry.BoundText(bounds, le) && k in keys
    requires ScrapeAfter(before, bounds, le, obs, keys0) && ScrapeAfter(after, bounds, le, obs + more, keys)
    requires ListsSeries(items, after)
    ensures BucketsAre(GroupAt(GroupsOf(before, after, items), k).buckets, bounds, le, ValuesOf(more, k))
  {
    hide ScrapeAfter;
    hide Telemetry.BoundText;
    hide ListsSeries;
    hide GroupsOf;
    hide ValuesOf;
    hide AtMost;
    var buckets := GroupAt(GroupsOf(before, after, items), k).buckets;
    forall t | t in buckets
      ensures t == "+Inf" || exists b <- bounds :: t == le(b)
    {
      if !Printed(bounds, le, BucketField(t)) {
        NoOtherBucket(before, after, bounds, le, obs + more, keys, items, k, t);
      }
    }
    FieldDelta(before, after, bounds, le, obs, more, keys0, keys, items, k, BucketField("+Inf"));
    ValuesBoth(obs, more, k);
    forall b | b in bounds
      ensures le(b) in buckets && buckets[le(b)] == AtMost(ValuesOf(more, k), b) as real
    {
      FieldDelta(before, after, bounds, le, obs, more, keys0, keys, items, k, BucketField(le(b)));
      BucketDelta(bounds, le, obs, more, k, b);
    }
  }

  // ----------------------------------------------------------- bounds of the delta

  /** The bound of a percentage is the least finite bucket that covers it, and there is
      none exactly when nothing was observed or no finite bucket covers it. */
  lemma BoundOfDelta(buckets: map<string, real>, bounds: seq<real>, le: real -> string, values: seq<real>, percent: nat, r: Option<real>)
    requires Telemetry.BoundText(bounds, le) && BucketsAre(buckets, bounds, le, values)
    requires IsBound(buckets, |values|, percent, r)
    ensures r.None? <==> values == [] || SnapshotTrips.NoneCovers(bounds, values, percent)
    ensures r.Some? ==> exists b :: SnapshotTrips.LeastCovering(bounds, values, percent, b) && r.value == b * 1000.0
  {
    hide AtMost;
    forall b | b in bounds
      ensures le(b) != "+Inf" && BoundOf(le(b)) == b
      ensures buckets[le(b)] >= Snapshot.Rank(|values|, percent) as real <==> 100 * AtMost(values, b) >= percent * |values|
    {
      SnapshotTrips.RankMeans(AtMost(values, b), |values|, percent);
    }
    hide NumberOf;
    if r.Some? {
      var t :| t in buckets && t != "+Inf" && BoundOf(t) * 1000.0 == r.value && buckets[t] >= Snapshot.Rank(|values|, percent) as real;
      var b :| b in bounds && t == le(b);
      assert SnapshotTrips.LeastCovering(bounds, values, percent, b);
    }
  }

  /** From observations to a benchmark row: the gateway prints its metrics before and after
      some more observations, the two scrapes are subtracted, and the row of a key's group
      counts exactly the observations in between, its percentages bounded by the least
      buckets that cover them. */
  lemma RowCountsWhatHappened(bounds: seq<real>, le: real -> string, obs: seq<Observation>, more: seq<Observation>,
                              keys0: seq<Key>, keys: seq<Key>, before: Scrape, after: Scrape, items: seq<Series>, k: Key, row: Row)
    requires Sorting.Ascending(bounds) && Telemetry.BoundText(bounds, le)
    requires ScrapeAfter(before, bounds, le, obs, keys0) && ScrapeAfter(after, bounds, le, obs + more, keys)
    requires ListsSeries(items, after) && k in keys && IsRow(GroupAt(GroupsOf(before, after, items), k), k.1, row)
    ensures RowRight(bounds, ValuesOf(more, k), row)
  {
    hide ScrapeAfter;
    hide Telemetry.BoundText;
    hide ListsSeries;
    hide IsBound;
    hide BucketsAre;
    hide SnapshotTrips.NoneCovers;
    hide SnapshotTrips.LeastCovering;
    DeltaIsBetween(before, after, bounds, le, obs, more, keys0, keys, items, k);
    hide GroupsOf;
    hide ValuesOf;
    var group := GroupsOf(before, after, items)[k];
    var buckets := group.buckets;
    if |ValuesOf(more, k)| > 0 {
      MeanOfSum(group.sum, |ValuesOf(more, k)|, SumOf(ValuesOf(more, k)));
    }
    hide SumOf;
    BoundOfDelta(buckets, bounds, le, ValuesOf(more, k), 50, row.p50);
    BoundOfDelta(buckets, bounds, le, ValuesOf(more, k), 95, row.p95);
    BoundOfDelta(buckets, bounds, le, ValuesOf(more, k), 99, row.p99);
  }

  lemma MeanOfSum(sum: real, n: int, exact: real)
    requires n > 0 && -0.000001 <= sum - exact <= 0.000001
    ensures -0.001 <= sum * 1000.0 / n as real * n as real - exact * 1000.0 <= 0.001
  {
    var x, d := sum * 1000.0, n as real;
    assert x / d * d == x;
  }

  /** The row has the number of the values; a mean if there are any, and times their number
      it is their sum in milliseconds but for the rounding of the two printed sums; each of
      its bounds is the least finite bucket that covers the percentage, and missing exactly
      when there is none or no value. */
  ghost predicate RowRight(bounds: seq<real>, values: seq<real>, row: Row)
  {
    && row.count == |values|
    && (row.mean.None? <==> values == [])
    && (row.mean.Some? ==> -0.001 <= row.mean.value * |values| as real - SumOf(values) * 1000.0 <= 0.001)
    && BoundRight(bounds, values, 50, row.p50) && BoundRight(bounds, values, 95, row.p95) && BoundRight(bounds, values, 99, row.p99)
  }

  ghost predicate BoundRight(bounds: seq<real>, values: seq<real>, percent: int, r: Option<real>)
  {
    && (r.None? <==> values == [] || SnapshotTrips.NoneCovers(bounds, values, percent))
    && (r.Some? ==> exists b :: SnapshotTrips.LeastCovering(bounds, values, percent, b) && r.value == b * 1000.0)
  }

  lemma LastOfTwo(groups: map<Key, Group>, limiter: string, first: string, last: string, rows: map<string, Row>)
    requires groups.Keys == {(limiter, first), (limiter, last)} && Ordering.Less(first, last) && AreRows(groups, rows)
    ensures limiter in rows && rows[limiter].backend == last != first && IsRow(groups[(limiter, last)], last, rows[limiter])
  {
    hide IsRow, Ordering.Less;
    Ordering.LessIsStrict(first, last);
    assert (limiter, first) in groups && (limiter, last) in groups;
  }

  lemma TwoCounts(before: Scrape, limiter: string, first: string, last: string, m: real, n: real)
    requires limiter != "" && first != "" && last != "" && first != last
    ensures var s, t := SeriesFor((limiter, first), CountField), SeriesFor((limiter, last), CountField);
            var groups := GroupsOf(before, map[s := m, t := n], [s, t]);
            groups.Keys == {(limiter, first), (limiter, last)} && groups[(limiter, last)].count == RoundEven(n - ValueIn(before, t))
  {
    var s, t := SeriesFor((limiter, first), CountField), SeriesFor((limiter, last), CountField);
    FieldFound((limiter, first), CountField);
    FieldFound((limiter, last), CountField);
    hide SeriesFor, GroupKey, FieldOf, RoundEven;
    var after := map[s := m, t := n];
    assert ValueIn(after, t) == n;
    var one, two := GroupsOf(before, after, [s]), GroupsOf(before, after, [s, t]);
    assert [s, t][..1] == [s] && [s][..0] == [];
    assert one == AddSeries(map[], s, ValueIn(after, s) - ValueIn(before, s)) by {
      assert GroupsOf(before, after, [s][..0]) == map[];
    }
    assert two == AddSeries(one, t, n - ValueIn(before, t));
  }

  /** Two scrapes of a limiter with two backends: whatever was counted between them, the
      row is that of the backend that sorts last, and the other has none. */
  lemma FirstBackendLosesItsRow(before: Scrape, limiter: string, first: string, last: string, m: real, n: real, rows: map<string, Row>)
    requires limiter != "" && first != "" && Ordering.Less(first, last)
    requires var s, t := SeriesFor((limiter, first), CountField), SeriesFor((limiter, last), CountField);
             AreRows(GroupsOf(before, map[s := m, t := n], [s, t]), rows)
    ensures var s, t := SeriesFor((limiter, first), CountField), SeriesFor((limiter, last), CountField);
            && (limiter, first) in GroupsOf(before, map[s := m, t := n], [s, t])
            && limiter in rows && rows[limiter].backend == last != first
            && rows[limiter].count == RoundEven(n - ValueIn(before, t))
  {
    Ordering.LessIsStrict(first, last);
    TwoCounts(before, limiter, first, last, m, n);
    var s, t := SeriesFor((limiter, first), CountField), SeriesFor((limiter, last), CountField);
    var groups := GroupsOf(before, map[s := m, t := n], [s, t]);
    hide SeriesFor, GroupsOf, AreRows, IsBound;
    LastOfTwo(groups, limiter, first, last, rows);
  }
}
