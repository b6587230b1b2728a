/** The whole way from the gateway's ledger and observations, over the metrics text, to
    the numbers of the snapshot. */
module SnapshotTrips {
  import opened Prelude
  import opened Exposition
  import opened Metrics
  import opened Numbers
  import opened Snapshot
  import opened Telemetry
  import Documents
  import Sorting

  // ---------------------------------------------------- the counter sections

  /** One entry of a counter by model and outcome. */
  datatype Cell = Cell(model: string, outcome: string, count: int)

  function CellLine(name: string, c: Cell): Documents.Line
  {
    Documents.Metric(name, [("model_id", c.model), ("outcome", c.outcome)], c.count as real)
  }

  function CounterLines(name: string, cells: seq<Cell>): seq<Documents.Line>
  {
    if cells == [] then [] else CounterLines(name, cells[..|cells| - 1]) + [CellLine(name, cells[|cells| - 1])]
  }

  /** Counts summed over the models. */
  function OutcomeSums(sums: map<string, int>, cells: seq<Cell>): map<string, int>
  {
    if cells == [] then sums
    else Bump(OutcomeSums(sums, cells[..|cells| - 1]), cells[|cells| - 1].outcome, cells[|cells| - 1].count)
  }

  predicate Countable(cells: seq<Cell>)
  {
    forall c <- cells :: c.outcome != "" && c.count >= 0
  }

  lemma CellTaken(t: Tally, name: string, c: Cell)
    requires (name == REQUESTS || name == TOKENS) && c.outcome != "" && c.count >= 0
    ensures Tallied(t, [CellLine(name, c)])
            == Ok(if name == REQUESTS then t.(requests := Bump(t.requests, c.outcome, c.count)) else t.(tokens := Bump(t.tokens, c.outcome, c.count)))
  {
    hide Rounded;
    hide AsInt;
    TalliedOne(t, CellLine(name, c));
    WholeIsExact(c.count);
    TwoLabels("model_id", c.model, "outcome", c.outcome);
  }

  lemma {:induction false} CounterTaken(t: Tally, name: string, cells: seq<Cell>)
    requires (name == REQUESTS || name == TOKENS) && Countable(cells)
    ensures Tallied(t, CounterLines(name, cells))
            == Ok(if name == REQUESTS then t.(requests := OutcomeSums(t.requests, cells)) else t.(tokens := OutcomeSums(t.tokens, cells)))
  {
    if cells == [] {
      assert Documents.Expected([]) == [];
    } else {
      hide Tallied;
      hide REQUESTS;
      hide TOKENS;
      hide CellLine;
      var front, c := cells[..|cells| - 1], cells[|cells| - 1];
      assert c in cells && forall d <- front :: d in cells;
      CounterTaken(t, name, front);
      TalliedBoth(t, CounterLines(name, front), [CellLine(name, c)]);
      CellTaken(Tallied(t, CounterLines(name, front)).value, name, c);
    }
  }

  // -------------------------------------------------------- the whole document

  /** The metrics text in its sections; the lines the snapshot ignores stand around those
      it counts. */
  datatype Sections = Sections(
    before: seq<Documents.Line>, requests: seq<Cell>, between: seq<Documents.Line>, tokens: seq<Cell>,
    heading: seq<Documents.Line>, models: seq<string>, after: seq<Documents.Line>)

  function Counters(s: Sections): seq<Documents.Line>
  {
    s.before + CounterLines(REQUESTS, s.requests) + s.between + CounterLines(TOKENS, s.tokens) + s.heading
  }

  function DocOf(s: Sections, bounds: seq<real>, le: real -> string, h: Histogram<string>): seq<Documents.Line>
  {
    Counters(s) + LatencyLines(bounds, le, h, s.models) + s.after
  }

  predicate Ignored(lines: seq<Documents.Line>)
  {
    forall l <- lines :: Documents.WellFormed(l) && Documents.Clean(l) && Documents.SampleOf(l).None?
  }

  predicate CleanCells(cells: seq<Cell>)
  {
    forall c <- cells :: Documents.CleanValue(c.model) && Documents.CleanValue(c.outcome)
  }

  /** Counts are natural, models are distinct and named, and nothing printed as a label
      value holds a line break other than the newline. */
  ghost predicate Printable(s: Sections, bounds: seq<real>, le: real -> string, h: Histogram<string>)
  {
    && Ignored(s.before) && Ignored(s.between) && Ignored(s.heading) && Ignored(s.after)
    && Countable(s.requests) && Countable(s.tokens) && CleanCells(s.requests) && CleanCells(s.tokens)
    && BoundText(bounds, le)
    && (forall m <- s.models :: m != "" && Documents.CleanValue(m) && CountsNatural(bounds, h, m))
    && forall i, j :: 0 <= i < j < |s.models| ==> s.models[i] != s.models[j]
  }

  predicate Fine(lines: seq<Documents.Line>)
  {
    forall l <- lines :: Documents.WellFormed(l) && Documents.Clean(l)
  }

  lemma FineBoth(xs: seq<Documents.Line>, ys: seq<Documents.Line>)
    requires Fine(xs) && Fine(ys)
    ensures Fine(xs + ys)
  {
  }

  lemma {:induction false} IgnoredGivesNothing(lines: seq<Documents.Line>)
    requires Ignored(lines)
    ensures Fine(lines) && Documents.Expected(lines) == []
    decreases lines
  {
    hide Documents.SampleOf;
    hide Documents.WellFormed;
    if lines != [] {
      assert lines[0] in lines && forall l <- lines[1..] :: l in lines;
      IgnoredGivesNothing(lines[1..]);
    }
  }

  lemma IgnoredTaken(t: Tally, lines: seq<Documents.Line>)
    requires Ignored(lines)
    ensures Fine(lines) && Tallied(t, lines) == Ok(t)
  {
    IgnoredGivesNothing(lines);
  }

  lemma LongerName(s: string, t: string)
    requires Documents.MetricName(s) && Documents.MetricName(t)
    ensures Documents.MetricName(s + t)
  {
    assert forall i :: 0 <= i < |s + t| ==> (s + t)[i] == if i < |s| then s[i] else t[i - |s|];
  }

  lemma LatencyName()
    ensures Documents.MetricName(LATENCY)
  {
  }

  lemma SuffixNames()
    ensures Documents.MetricName("_seconds_bucket") && Documents.MetricName("_seconds_count") && Documents.MetricName("_seconds_sum")
  {
  }

  lemma HistogramNames()
    ensures Documents.MetricName(BUCKET) && Documents.MetricName(COUNT) && Documents.MetricName(SUM)
  {
    hide Documents.MetricName;
    LatencyName();
    SuffixNames();
    LongerName(LATENCY, "_seconds_bucket");
    LongerName(LATENCY, "_seconds_count");
    LongerName(LATENCY, "_seconds_sum");
  }

  lemma RequestsName()
    ensures Documents.MetricName(REQUESTS)
  {
  }

  lemma TokensName()
    ensures Documents.MetricName(TOKENS)
  {
  }

  lemma CounterNames()
    ensures Documents.MetricName(REQUESTS) && Documents.MetricName(TOKENS)
  {
    hide Documents.MetricName;
    hide REQUESTS;
    hide TOKENS;
    RequestsName();
    TokensName();
  }

  lemma LabelNames()
    ensures Documents.Identifier("le") && Documents.Identifier("model_id") && Documents.Identifier("outcome")
  {
  }

  lemma {:induction false} CountersFine(name: string, cells: seq<Cell>)
    requires (name == REQUESTS || name == TOKENS) && CleanCells(cells)
    ensures Fine(CounterLines(name, cells))
  {
    if cells != [] {
      hide Documents.Identifier;
      hide Documents.MetricName;
      hide Documents.CleanValue;
      hide REQUESTS;
      hide TOKENS;
      LabelNames();
      CounterNames();
      assert cells[|cells| - 1] in cells;
      CountersFine(name, cells[..|cells| - 1]);
    }
  }

  lemma BucketLineFine(le: string, model: string, n: int)
    requires Documents.CleanValue(le) && Documents.CleanValue(model)
    ensures Documents.WellFormed(BucketLine(le, model, n)) && Documents.Clean(BucketLine(le, model, n))
  {
    hide Documents.Identifier;
    hide Documents.MetricName;
    hide Documents.CleanValue;
    hide BUCKET;
    LabelNames();
    HistogramNames();
  }

  lemma {:induction false} BarsFine(bounds: seq<real>, le: real -> string, h: Histogram<string>, model: string)
    requires BoundText(bounds, le) && Documents.CleanValue(model)
    ensures Fine(BarLines(bounds, le, h, model))
  {
    if bounds != [] {
      var front, b := bounds[..|bounds| - 1], bounds[|bounds| - 1];
      assert b in bounds && forall c <- front :: c in bounds;
      hide Documents.CleanValue;
      hide Documents.WellFormed;
      hide Documents.Clean;
      hide BucketLine;
      hide NumberOf;
      BarsFine(front, le, h, model);
      BucketLineFine(le(b), model, Count(h.buckets, (model, b)));
      FineBoth(BarLines(front, le, h, model), [BucketLine(le(b), model, Count(h.buckets, (model, b)))]);
    }
  }

  lemma LastFine(h: Histogram<string>, model: string)
    requires Documents.CleanValue(model)
    ensures Fine(LastLines(h, model))
  {
    assert Documents.CleanValue("+Inf");
    BucketLineFine("+Inf", model, Count(h.count, model));
    hide Documents.Identifier;
    hide Documents.MetricName;
    hide Documents.CleanValue;
    hide BUCKET;
    hide COUNT;
    hide SUM;
    LabelNames();
    HistogramNames();
  }

  lemma {:induction false} LatenciesFine(bounds: seq<real>, le: real -> string, h: Histogram<string>, models: seq<string>)
    requires BoundText(bounds, le) && forall m <- models :: Documents.CleanValue(m)
    ensures Fine(LatencyLines(bounds, le, h, models))
  {
    if models != [] {
      var front, m := models[..|models| - 1], models[|models| - 1];
      assert m in models && forall k <- front :: k in models;
      hide Fine;
      hide BoundText;
      hide Documents.CleanValue;
      LatenciesFine(bounds, le, h, front);
      BarsFine(bounds, le, h, m);
      LastFine(h, m);
      FineBoth(BarLines(bounds, le, h, m), LastLines(h, m));
      FineBoth(LatencyLines(bounds, le, h, front), BarLines(bounds, le, h, m) + LastLines(h, m));
    } else {
      assert Fine([]);
    }
  }

  lemma CountersTaken(s: Sections)
    requires Ignored(s.before) && Ignored(s.between) && Ignored(s.heading) && Countable(s.requests) && Countable(s.tokens)
    ensures Tallied(NO_TALLY, Counters(s)) == Ok(Tally(OutcomeSums(map[], s.requests), OutcomeSums(map[], s.tokens), map[]))
  {
    hide Tallied;
    hide Ignored;
    hide REQUESTS;
    hide TOKENS;
    DifferentNames();
    var a := s.before + CounterLines(REQUESTS, s.requests);
    IgnoredTaken(NO_TALLY, s.before);
    TalliedBoth(NO_TALLY, s.before, CounterLines(REQUESTS, s.requests));
    CounterTaken(NO_TALLY, REQUESTS, s.requests);
    var t := NO_TALLY.(requests := OutcomeSums(map[], s.requests));
    TalliedBoth(NO_TALLY, a, s.between);
    IgnoredTaken(t, s.between);
    TalliedBoth(NO_TALLY, a + s.between, CounterLines(TOKENS, s.tokens));
    CounterTaken(t, TOKENS, s.tokens);
    var t' := t.(tokens := OutcomeSums(map[], s.tokens));
    TalliedBoth(NO_TALLY, a + s.between + CounterLines(TOKENS, s.tokens), s.heading);
    IgnoredTaken(t', s.heading);
  }

  lemma DifferentNames()
    ensures REQUESTS != TOKENS
  {
    assert |REQUESTS| != |TOKENS|;
  }

  lemma DocumentFine(s: Sections, bounds: seq<real>, le: real -> string, h: Histogram<string>)
    requires Printable(s, bounds, le, h)
    ensures Fine(DocOf(s, bounds, le, h))
  {
    IgnoredTaken(NO_TALLY, s.before);
    IgnoredTaken(NO_TALLY, s.between);
    IgnoredTaken(NO_TALLY, s.heading);
    IgnoredTaken(NO_TALLY, s.after);
    CountersFine(REQUESTS, s.requests);
    CountersFine(TOKENS, s.tokens);
    LatenciesFine(bounds, le, h, s.models);
    hide Fine;
    var a := s.before + CounterLines(REQUESTS, s.requests);
    FineBoth(s.before, CounterLines(REQUESTS, s.requests));
    FineBoth(a, s.between);
    FineBoth(a + s.between, CounterLines(TOKENS, s.tokens));
    FineBoth(a + s.between + CounterLines(TOKENS, s.tokens), s.heading);
    FineBoth(Counters(s), LatencyLines(bounds, le, h, s.models));
    FineBoth(Counters(s) + LatencyLines(bounds, le, h, s.models), s.after);
  }

  /** The metrics text of any counters and histograms is tallied to exactly these: request
      and token counts by outcome, and each model's buckets, count and (rounded) sum. */
  lemma TextTallied(s: Sections, bounds: seq<real>, le: real -> string, h: Histogram<string>)
    requires Printable(s, bounds, le, h)
    ensures TallyOf(Documents.PrintDoc(DocOf(s, bounds, le, h)))
            == Ok(Tally(OutcomeSums(map[], s.requests), OutcomeSums(map[], s.tokens), LatenciesRead(bounds, h, s.models)))
  {
    DocumentFine(s, bounds, le, h);
    var doc := DocOf(s, bounds, le, h);
    Documents.DocumentReads(doc, 1);
    assert TallyOf(Documents.PrintDoc(doc)) == Tallied(NO_TALLY, doc);
    CountersTaken(s);
    hide Tallied;
    hide LatenciesRead;
    hide OutcomeSums;
    var t := Tally(OutcomeSums(map[], s.requests), OutcomeSums(map[], s.tokens), map[]);
    TalliedBoth(NO_TALLY, Counters(s), LatencyLines(bounds, le, h, s.models));
    LatencyLinesTaken(t, bounds, le, h, s.models);
    TalliedBoth(NO_TALLY, Counters(s) + LatencyLines(bounds, le, h, s.models), s.after);
    IgnoredTaken(t.(latency := LatenciesRead(bounds, h, s.models)), s.after);
  }

  // ------------------------------------------------ what the p95 bound means

  predicate InOrder<V>(bars: seq<Bar<V>>)
  {
    forall i, j :: 0 <= i < j < |bars| ==> !Below(bars[j].bound, bars[i].bound)
  }

  lemma {:induction false} SortedAlready<V>(bars: seq<Bar<V>>)
    requires InOrder(bars)
    ensures SortBars(bars) == bars
    decreases bars
  {
    if bars != [] {
      SortedAlready(bars[1..]);
      assert bars == [bars[0]] + bars[1..];
    }
  }

  lemma {:induction false} BarsAt(bounds: seq<real>, h: Histogram<string>, model: string)
    ensures |BarsOf(bounds, h, model)| == |bounds|
    ensures forall i :: 0 <= i < |bounds| ==> BarsOf(bounds, h, model)[i] == Bar(Fin(bounds[i]), Count(h.buckets, (model, bounds[i])))
  {
    if bounds != [] {
      BarsAt(bounds[..|bounds| - 1], h, model);
    }
  }

  /** Where the search through the bars stops. */
  lemma {:induction false} FirstHoldingAt(bars: seq<Bar<int>>, target: int, i: nat)
    requires i < |bars| && (bars[i].held >= target || bars[i].bound.PosInf?)
    requires forall j :: 0 <= j < i ==> bars[j].bound.Fin? && bars[j].held < target
    requires bars[i].bound.Fin? || bars[i].bound.PosInf?
    ensures FirstHolding(bars, target) == if bars[i].bound.Fin? then Some(Thousand(bars[i].bound)) else None
    decreases bars
  {
    if i > 0 {
      FirstHoldingAt(bars[1..], target, i - 1);
    }
  }

  /** b is the least of the bounds that at least p percent of the values do not exceed. */
  predicate LeastCovering(bounds: seq<real>, values: seq<real>, percent: int, b: real)
  {
    && b in bounds && 100 * AtMost(values, b) >= percent * |values|
    && forall c <- bounds :: c < b ==> 100 * AtMost(values, c) < percent * |values|
  }

  predicate NoneCovers(bounds: seq<real>, values: seq<real>, percent: int)
  {
    forall c <- bounds :: 100 * AtMost(values, c) < percent * |values|
  }

  lemma RankMeans(held: int, n: nat, percent: nat)
    ensures held >= Rank(n, percent) <==> 100 * held >= percent * n
  {
    assert n * percent == percent * n;
  }

  function LatencyBars(bounds: seq<real>, obs: seq<(string, real)>, model: string): seq<Bar<int>>
  {
    LatencyRead(bounds, HistogramOf(bounds, obs), model).buckets
  }

  /** The bars of sorted buckets are sorted already. */
  lemma BarsInOrder(bounds: seq<real>, obs: seq<(string, real)>, model: string)
    requires Sorting.Ordered(bounds)
    ensures var bars := LatencyBars(bounds, obs, model);
            && |bars| == |bounds| + 1 && bars[|bounds|].bound == PosInf
            && (forall i :: 0 <= i < |bounds| ==> bars[i] == Bar(Fin(bounds[i]), Count(HistogramOf(bounds, obs).buckets, (model, bounds[i]))))
            && SortBars(bars) == bars
  {
    hide HistogramOf;
    BarsAt(bounds, HistogramOf(bounds, obs), model);
    SortedAlready(LatencyBars(bounds, obs, model));
  }

  lemma BarsOfObservations(bounds: seq<real>, obs: seq<(string, real)>, model: string)
    requires Sorting.Ascending(bounds)
    ensures var bars := LatencyBars(bounds, obs, model);
            && |bars| == |bounds| + 1 && bars[|bounds|].bound == PosInf
            && (forall i :: 0 <= i < |bounds| ==> bars[i] == Bar(Fin(bounds[i]), AtMost(ValuesOf(obs, model), bounds[i])))
            && SortBars(bars) == bars
  {
    hide HistogramOf;
    hide LatencyBars;
    var values, bars := ValuesOf(obs, model), LatencyBars(bounds, obs, model);
    BarsInOrder(bounds, obs, model);
    forall i | 0 <= i < |bounds|
      ensures bars[i] == Bar(Fin(bounds[i]), AtMost(values, bounds[i]))
    {
      BucketCounts(bounds, obs, model, bounds[i]);
      OneOccurrence(bounds, bounds[i]);
    }
  }

  /** The search through the bars of some values finds the least bound that covers. */
  lemma SearchFindsLeast(bounds: seq<real>, values: seq<real>, bars: seq<Bar<int>>)
    requires Sorting.Ascending(bounds) && values != []
    requires |bars| == |bounds| + 1 && bars[|bounds|].bound == PosInf
    requires forall i :: 0 <= i < |bounds| ==> bars[i] == Bar(Fin(bounds[i]), AtMost(values, bounds[i]))
    ensures var p95 := FirstHolding(bars, Target(|values|));
            && (p95 == None <==> NoneCovers(bounds, values, 95))
            && (p95.Some? ==> exists b :: LeastCovering(bounds, values, 95, b) && p95 == Some(Fin(b * 1000.0)))
  {
    hide AtMost;
    var target := Target(|values|);
    forall i | 0 <= i < |bounds|
      ensures bars[i].held >= target <==> 100 * AtMost(values, bounds[i]) >= 95 * |values|
    {
      RankMeans(bars[i].held, |values|, 95);
    }
    if NoneCovers(bounds, values, 95) {
      assert forall i :: 0 <= i < |bounds| ==> bounds[i] in bounds;
      FirstHoldingAt(bars, target, |bounds|);
    } else {
      var b := LeastOne(bounds, values, 95);
      var i :| 0 <= i < |bounds| && bounds[i] == b;
      assert forall j :: 0 <= j < i ==> bounds[j] in bounds;
      FirstHoldingAt(bars, target, i);
    }
  }

  /** The summary has the number of the values, their mean up to the rounding of the
      printed sum, and as p95 the least bound that holds at least ceil(0.95 n) of them;
      there is no p95 exactly when even the largest bound holds fewer. */
  ghost predicate Faithful(bounds: seq<real>, values: seq<real>, s: Summary)
  {
    && s.count == |values| > 0
    && s.mean == Some(Fin(Rounded(SumOf(values)) * 1000.0 / |values| as real))
    && (s.p95 == None <==> NoneCovers(bounds, values, 95))
    && (s.p95.Some? ==> exists b :: LeastCovering(bounds, values, 95, b) && s.p95 == Some(Fin(b * 1000.0)))
  }

  lemma SummaryIsFaithful(bounds: seq<real>, obs: seq<(string, real)>, model: string)
    requires Sorting.Ascending(bounds) && ValuesOf(obs, model) != []
    ensures Faithful(bounds, ValuesOf(obs, model), SummaryOf(LatencyRead(bounds, HistogramOf(bounds, obs), model)))
  {
    hide HistogramOf;
    hide NoneCovers;
    hide LeastCovering;
    hide FirstHolding;
    hide Rounded;
    BarsOfObservations(bounds, obs, model);
    CountAndSum(bounds, obs, model);
    SearchFindsLeast(bounds, ValuesOf(obs, model), LatencyBars(bounds, obs, model));
  }

  lemma {:induction false} LeastOne(bounds: seq<real>, values: seq<real>, percent: int) returns (b: real)
    requires Sorting.Ascending(bounds) && !NoneCovers(bounds, values, percent)
    ensures LeastCovering(bounds, values, percent, b)
  {
    var front := bounds[..|bounds| - 1];
    assert bounds == front + [bounds[|bounds| - 1]];
    if NoneCovers(front, values, percent) {
      b := bounds[|bounds| - 1];
    } else {
      b := LeastOne(front, values, percent);
    }
  }

  ghost predicate SummaryRight(bounds: seq<real>, obs: seq<(string, real)>, model: string)
  {
    Faithful(bounds, ValuesOf(obs, model), SummaryOf(LatencyRead(bounds, HistogramOf(bounds, obs), model)))
  }

  // ----------------------------------------- buckets configured more than once

  lemma {:induction false} TwiceThere(bounds: seq<real>, i: nat, j: nat)
    requires i < j < |bounds| && bounds[i] == bounds[j]
    ensures Occurrences(bounds, bounds[i]) >= 2
  {
    if j == |bounds| - 1 {
      OnceThere(bounds[..j], i);
    } else {
      TwiceThere(bounds[..|bounds| - 1], i, j);
    }
  }

  lemma {:induction false} OnceThere(bounds: seq<real>, i: nat)
    requires i < |bounds|
    ensures Occurrences(bounds, bounds[i]) >= 1
  {
    if i < |bounds| - 1 {
      OnceThere(bounds[..|bounds| - 1], i);
    }
  }

  /** One value at the bound and one above it. */
  lemma TwoValues(model: string, b: real, c: real)
    ensures var values := ValuesOf([(model, b), (model, b + 1.0)], model);
            |values| == 2 && AtMost(values, c) == if c < b then 0 else if c < b + 1.0 then 1 else 2
  {
    var obs := [(model, b), (model, b + 1.0)];
    assert obs[..1] == [(model, b)] && [(model, b)][..0] == [];
    assert ValuesOf([(model, b)], model) == [b];
    assert ValuesOf(obs, model) == [b] + [b + 1.0];
    ValuesSnoc([], b, c);
    ValuesSnoc([b], b + 1.0, c);
    assert [] + [b] == [b];
  }

  lemma BarBeforeTie(bounds: seq<real>, model: string, i: nat, j: nat)
    requires i + 1 < |bounds| && bounds[i] == bounds[i + 1] && j <= i && (j < i ==> bounds[j] < bounds[i])
    ensures var held := Count(HistogramOf(bounds, [(model, bounds[i]), (model, bounds[i] + 1.0)]).buckets, (model, bounds[j]));
            if j < i then held == 0 else held >= 2
  {
    hide HistogramOf;
    hide AtMost;
    hide ValuesOf;
    hide Occurrences;
    var obs := [(model, bounds[i]), (model, bounds[i] + 1.0)];
    TwoValues(model, bounds[i], bounds[j]);
    BucketCounts(bounds, obs, model, bounds[j]);
    TwiceThere(bounds, i, i + 1);
    var n := Occurrences(bounds, bounds[j]);
    assert n * 0 == 0 && n * 1 == n;
  }

  lemma StopsAtTheTie(bounds: seq<real>, model: string, i: nat)
    requires Sorting.Ordered(bounds) && i + 1 < |bounds| && bounds[i] == bounds[i + 1]
    requires forall j :: 0 <= j < i ==> bounds[j] < bounds[i]
    ensures SummaryOf(LatencyRead(bounds, HistogramOf(bounds, [(model, bounds[i]), (model, bounds[i] + 1.0)]), model)).p95
            == Some(Fin(bounds[i] * 1000.0))
  {
    hide HistogramOf;
    hide ValuesOf;
    hide SortBars;
    var obs := [(model, bounds[i]), (model, bounds[i] + 1.0)];
    CountAndSum(bounds, obs, model);
    TwoValues(model, bounds[i], bounds[i]);
    var bars := LatencyBars(bounds, obs, model);
    assert SummaryOf(LatencyRead(bounds, HistogramOf(bounds, obs), model)).p95 == FirstHolding(SortBars(bars), 2);
    BarsInOrder(bounds, obs, model);
    hide LatencyBars;
    hide SummaryOf;
    forall j | 0 <= j <= i
      ensures bars[j].bound == Fin(bounds[j]) && if j < i then bars[j].held == 0 else bars[j].held >= 2
    {
      BarBeforeTie(bounds, model, i, j);
    }
    FirstHoldingAt(bars, 2, i);
  }

  lemma DuplicateMisleads(bounds: seq<real>, model: string, i: nat)
    requires Sorting.Ordered(bounds) && i + 1 < |bounds| && bounds[i] == bounds[i + 1]
    requires forall j :: 0 <= j < i ==> bounds[j] < bounds[i]
    ensures !SummaryRight(bounds, [(model, bounds[i]), (model, bounds[i] + 1.0)], model)
  {
    hide HistogramOf;
    hide AtMost;
    hide ValuesOf;
    hide SummaryOf;
    hide LatencyRead;
    var b := bounds[i];
    var obs := [(model, b), (model, b + 1.0)];
    StopsAtTheTie(bounds, model, i);
    TwoValues(model, b, b);
    assert !LeastCovering(bounds, ValuesOf(obs, model), 95, b);
  }

  lemma {:induction false} FirstTie(bounds: seq<real>) returns (i: nat)
    requires Sorting.Ordered(bounds) && !Sorting.Ascending(bounds)
    ensures i + 1 < |bounds| && bounds[i] == bounds[i + 1] && forall j :: 0 <= j < i ==> bounds[j] < bounds[i]
  {
    var front := bounds[..|bounds| - 1];
    if Sorting.Ascending(front) {
      i := |bounds| - 2;
      assert forall j :: 0 <= j < |front| ==> front[j] == bounds[j];
    } else {
      i := FirstTie(front);
    }
  }

  /** For sorted buckets, every summary of every run is right exactly when no bucket is
      configured twice: a repeated bucket counts each observation that often. */
  lemma SummariesRightIffDistinct(bounds: seq<real>)
    requires Sorting.Ordered(bounds)
    ensures (forall obs, model :: ValuesOf(obs, model) != [] ==> SummaryRight(bounds, obs, model)) <==> Sorting.Ascending(bounds)
  {
    if Sorting.Ascending(bounds) {
      forall obs, model | ValuesOf(obs, model) != []
        ensures SummaryRight(bounds, obs, model)
      {
        SummaryIsFaithful(bounds, obs, model);
      }
    } else {
      var i := FirstTie(bounds);
      TwoValues("m", bounds[i], bounds[i]);
      DuplicateMisleads(bounds, "m", i);
    }
  }

  // ---------------------------------------------------------- end to end

  /** The models listed are those observed, and everything printed is clean. */
  ghost predicate Listed(s: Sections, bounds: seq<real>, le: real -> string, obs: seq<(string, real)>)
  {
    && Ignored(s.before) && Ignored(s.between) && Ignored(s.heading) && Ignored(s.after)
    && Countable(s.requests) && Countable(s.tokens) && CleanCells(s.requests) && CleanCells(s.tokens)
    && BoundText(bounds, le)
    && (forall m :: m in s.models <==> ValuesOf(obs, m) != [])
    && (forall m <- s.models :: m != "" && Documents.CleanValue(m))
    && forall i, j :: 0 <= i < j < |s.models| ==> s.models[i] != s.models[j]
  }

  lemma ObservationsPrintable(s: Sections, bounds: seq<real>, le: real -> string, obs: seq<(string, real)>)
    requires Listed(s, bounds, le, obs)
    ensures Printable(s, bounds, le, HistogramOf(bounds, obs))
  {
    hide HistogramOf;
    hide Ignored;
    hide Countable;
    hide CleanCells;
    hide BoundText;
    var h := HistogramOf(bounds, obs);
    forall m | m in s.models
      ensures CountsNatural(bounds, h, m)
    {
      CountAndSum(bounds, obs, m);
      forall b | b in bounds
        ensures Count(h.buckets, (m, b)) >= 0
      {
        BucketCounts(bounds, obs, m, b);
      }
    }
  }

  /** For every sequence of observations: print the histograms, read the text back, tally
      and summarise, and each observed model has its count, its mean up to the rounding of
      its printed sum, and as p95 the least bucket that covers; no other model appears. */
  lemma ObservationsToSnapshot(s: Sections, bounds: seq<real>, le: real -> string, obs: seq<(string, real)>, model: string)
    requires Sorting.Ascending(bounds) && Listed(s, bounds, le, obs)
    ensures var r := TallyOf(Documents.PrintDoc(DocOf(s, bounds, le, HistogramOf(bounds, obs))));
            && r.Ok?
            && (model in r.value.latency <==> ValuesOf(obs, model) != [])
            && (model in r.value.latency ==> Faithful(bounds, ValuesOf(obs, model), SummaryOf(r.value.latency[model])))
  {
    hide HistogramOf;
    hide TallyOf;
    hide Faithful;
    hide SummaryOf;
    hide LatencyRead;
    hide DocOf;
    ObservationsPrintable(s, bounds, le, obs);
    TextTallied(s, bounds, le, HistogramOf(bounds, obs));
    hide Printable;
    if ValuesOf(obs, model) != [] {
      SummaryIsFaithful(bounds, obs, model);
    }
  }

  // --------------------------------------------------- the configured buckets

  const DEFAULT_LATENCY_BUCKETS := [0.025, 0.05, 0.1, 0.25, 0.5, 1.0, 2.5, 5.0]

  lemma BoundAsNumber(b: real)
    requires IsInteger(b * 1000000.0)
    ensures NumberOf(FormatNumber(b)) == Some(Fin(b)) && Documents.CleanValue(FormatNumber(b))
  {
    hide FormatNumber;
    hide NumberOf;
    hide Rounded;
    hide NumberText;
    NumberReadsBack(b);
    RoundedClose(b);
    Documents.NumberHasNoBreak(b);
  }

  /** Bounds of at most six decimals may be printed as numbers are. */
  lemma BoundsAsNumbers(bounds: seq<real>)
    requires forall b <- bounds :: IsInteger(b * 1000000.0)
    ensures BoundText(bounds, (b: real) => FormatNumber(b))
  {
    hide FormatNumber;
    hide NumberOf;
    hide IsInteger;
    hide Documents.CleanValue;
    forall b | b in bounds
      ensures NumberOf(FormatNumber(b)) == Some(Fin(b)) && Documents.CleanValue(FormatNumber(b))
    {
      BoundAsNumber(b);
    }
  }

  lemma DefaultBucketsFit()
    ensures Sorting.Ascending(DEFAULT_LATENCY_BUCKETS) && BoundText(DEFAULT_LATENCY_BUCKETS, (b: real) => FormatNumber(b))
  {
    BoundsAsNumbers(DEFAULT_LATENCY_BUCKETS);
  }
}
