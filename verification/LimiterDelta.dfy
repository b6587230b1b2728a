/** Limiter latency over a benchmark condition: the difference of two scrapes, and bounds
    read off its buckets (bench/run.py). */
module LimiterDelta {
  import opened Prelude
  import opened Labels
  import opened Numbers
  import opened Ordering
  import Escaping
  import Snapshot

  const PREFIX := "security_gateway_limiter_latency_seconds_"

  /** What a sample is kept under: its name and the tuple of its label pairs, sorted. */
  datatype Series = Series(name: string, labels: seq<(string, string)>)
  {
    /** dict() of the pairs: of a repeated key the last value stays. */
    function Dict(): LabelMap
    {
      AddAll(map[], labels)
    }
  }

  type Scrape = map<Series, real>

  /** Limiter and backend. */
  type Key = (string, string)

  datatype Group = Group(count: int, sum: real, buckets: map<string, real>)

  const NO_GROUP := Group(0, 0.0, map[])

  predicate EndsWith(s: string, suffix: string)
  {
    |suffix| <= |s| && s[|s| - |suffix|..] == suffix
  }

  /** round() of a number to a whole one: a tie goes to the even side. */
  function RoundEven(x: real): int
  {
    var f := x.Floor;
    if x - f as real < 0.5 then f else if x - f as real > 0.5 then f + 1 else if f % 2 == 0 then f else f + 1
  }

  /** The nearest whole number, and of two the even one. */
  lemma RoundsToNearest(x: real)
    ensures var d := RoundEven(x) as real - x;
            -0.5 <= d <= 0.5 && (d == 0.5 || d == -0.5 ==> RoundEven(x) % 2 == 0)
  {
  }

  /** What a series says about a group. */
  datatype Field = CountField | SumField | BucketField(le: string) | NoField

  function FieldOf(s: Series): Field
  {
    if EndsWith(s.name, "_count") then CountField
    else if EndsWith(s.name, "_sum") then SumField
    else if EndsWith(s.name, "_bucket") then BucketField(if "le" in s.Dict() then s.Dict()["le"] else "+Inf")
    else NoField
  }

  /** The group a series belongs to; one without limiter or backend belongs to none. */
  function GroupKey(s: Series): Option<Key>
  {
    var limiter, backend := Snapshot.Get(s.Dict(), "limiter"), Snapshot.Get(s.Dict(), "backend");
    if !Escaping.StartsWith(s.name, PREFIX) || limiter == "" || backend == "" then None else Some((limiter, backend))
  }

  /** A name made of a stem and an ending. */
  ghost predicate MadeOf(name: string, ending: string)
  {
    exists stem :: name == stem + ending
  }

  lemma EndsWithIff(name: string, ending: string)
    ensures EndsWith(name, ending) <==> MadeOf(name, ending)
  {
    if EndsWith(name, ending) {
      assert name == name[..|name| - |ending|] + ending;
    }
    if stem :| name == stem + ending {
      assert name[|name| - |ending|..] == ending;
    }
  }

  lemma OneEnding(name: string)
    ensures !(MadeOf(name, "_count") && MadeOf(name, "_sum")) && !(MadeOf(name, "_count") && MadeOf(name, "_bucket"))
    ensures !(MadeOf(name, "_sum") && MadeOf(name, "_bucket"))
  {
    LastTwo(name, "_count");
    LastTwo(name, "_sum");
    LastTwo(name, "_bucket");
  }

  lemma LastTwo(name: string, ending: string)
    requires |ending| >= 2
    ensures MadeOf(name, ending) ==> |name| >= 2 && name[|name| - 2..] == ending[|ending| - 2..]
  {
    if stem :| name == stem + ending {
      assert name[|name| - 2..] == ending[|ending| - 2..];
    }
  }

  /** A series is about a limiter and a backend exactly if it is one of the limiter metrics
      and labelled with both, neither empty; and its ending says what about them. */
  lemma SeriesTells(s: Series, k: Key, le: string)
    ensures GroupKey(s) == Some(k) <==>
              && (exists rest :: s.name == PREFIX + rest) && k.0 != "" && k.1 != ""
              && "limiter" in s.Dict() && s.Dict()["limiter"] == k.0 && "backend" in s.Dict() && s.Dict()["backend"] == k.1
    ensures FieldOf(s) == CountField <==> MadeOf(s.name, "_count")
    ensures FieldOf(s) == SumField <==> MadeOf(s.name, "_sum")
    ensures FieldOf(s) == BucketField(le) <==> MadeOf(s.name, "_bucket") && (if "le" in s.Dict() then s.Dict()["le"] == le else le == "+Inf")
  {
    EndsWithIff(s.name, "_count");
    EndsWithIff(s.name, "_sum");
    EndsWithIff(s.name, "_bucket");
    OneEnding(s.name);
    StartsWithIff(s.name);
    hide EndsWith, MadeOf, Escaping.StartsWith;
  }

  lemma StartsWithIff(name: string)
    ensures Escaping.StartsWith(name, PREFIX) <==> exists rest :: name == PREFIX + rest
  {
    if Escaping.StartsWith(name, PREFIX) {
      assert name == PREFIX + name[|PREFIX|..];
    }
    if rest :| name == PREFIX + rest {
      assert name[..|PREFIX|] == PREFIX;
    }
  }

  function Set(g: Group, f: Field, delta: real): Group
  {
    match f
    case CountField => g.(count := RoundEven(delta))
    case SumField => g.(sum := delta)
    case BucketField(le) => g.(buckets := g.buckets[le := delta])
    case NoField => g
  }

  function GroupAt(groups: map<Key, Group>, k: Key): Group
  {
    if k in groups then groups[k] else NO_GROUP
  }

  function AddSeries(groups: map<Key, Group>, s: Series, delta: real): map<Key, Group>
  {
    if GroupKey(s).None? then groups
    else groups[GroupKey(s).value := Set(GroupAt(groups, GroupKey(s).value), FieldOf(s), delta)]
  }

  function ValueIn(scrape: Scrape, s: Series): real
  {
    if s in scrape then scrape[s] else 0.0
  }

  /** The groups of differences, over the series of the later scrape in some order. */
  function GroupsOf(before: Scrape, after: Scrape, items: seq<Series>): map<Key, Group>
  {
    if items == [] then map[]
    else
      var s := items[|items| - 1];
      AddSeries(GroupsOf(before, after, items[..|items| - 1]), s, ValueIn(after, s) - ValueIn(before, s))
  }

  // ------------------------------------------------------ bounds of a histogram

  /** The finite bounds among the bucket labels are numbers. */
  predicate Readable(buckets: map<string, real>)
  {
    forall t <- buckets :: t == "+Inf" || (NumberOf(t).Some? && NumberOf(t).value.Fin?)
  }

  /** No label spells an infinity or a missing number in another way. */
  predicate Plain(buckets: map<string, real>)
  {
    forall t <- buckets :: t == "+Inf" || NumberOf(t).None? || NumberOf(t).value.Fin?
  }

  function BoundOf(t: string): real
  {
    if NumberOf(t).Some? && NumberOf(t).value.Fin? then NumberOf(t).value.r else 0.0
  }

  /** r is the least finite bound whose bucket reaches the rank, times a thousand. */
  ghost predicate IsBound(buckets: map<string, real>, count: int, percent: int, r: Option<real>)
  {
    var rank := Snapshot.Rank(count, percent) as real;
    if r.None? then count < 1 || forall t <- buckets :: t != "+Inf" ==> buckets[t] < rank
    else
      && count >= 1
      && (exists t <- buckets :: t != "+Inf" && BoundOf(t) * 1000.0 == r.value && buckets[t] >= rank)
      && (forall t <- buckets :: t != "+Inf" && buckets[t] >= rank ==> r.value <= BoundOf(t) * 1000.0)
  }

  datatype Bin = Bin(bound: real, value: real)

  predicate BinsInOrder(bins: seq<Bin>)
  {
    forall i, j :: 0 <= i < j < |bins| ==> bins[i].bound <= bins[j].bound
  }

  predicate LessBin(a: Bin, b: Bin)
  {
    a.bound < b.bound || (a.bound == b.bound && a.value < b.value)
  }

  function InsertBin(x: Bin, bins: seq<Bin>): (r: seq<Bin>)
    ensures |r| == |bins| + 1 && forall b :: b in r <==> b == x || b in bins
  {
    if bins == [] || LessBin(x, bins[0]) then [x] + bins else [bins[0]] + InsertBin(x, bins[1..])
  }

  lemma {:induction false} InsertBinOrder(x: Bin, bins: seq<Bin>)
    requires BinsInOrder(bins)
    ensures BinsInOrder(InsertBin(x, bins))
    decreases bins
  {
    if bins != [] && !LessBin(x, bins[0]) {
      var rest := InsertBin(x, bins[1..]);
      InsertBinOrder(x, bins[1..]);
      forall j | 0 <= j < |rest|
        ensures bins[0].bound <= rest[j].bound
      {
        assert rest[j] in rest;
        if rest[j] != x {
          var i :| 0 <= i < |bins[1..]| && bins[1..][i] == rest[j];
          assert bins[i + 1] == rest[j];
        }
      }
    }
  }

  datatype BadBound = BadBound

  /** sorted() over the finite buckets. */
  method FiniteBins(buckets: map<string, real>) returns (r: Result<seq<Bin>, BadBound>)
    requires Plain(buckets)
    ensures r.Ok? <==> Readable(buckets)
    ensures r.Ok? ==> BinsInOrder(r.value)
    ensures r.Ok? ==> forall t <- buckets :: t != "+Inf" ==> Bin(BoundOf(t), buckets[t]) in r.value
    ensures r.Ok? ==> forall b <- r.value :: exists t <- buckets :: t != "+Inf" && b == Bin(BoundOf(t), buckets[t])
  {
    hide NumberOf;
    var bins: seq<Bin> := [];
    var todo := buckets.Keys;
    while todo != {}
      invariant todo <= buckets.Keys && BinsInOrder(bins)
      invariant forall t <- buckets.Keys - todo :: t == "+Inf" || (NumberOf(t).Some? && Bin(BoundOf(t), buckets[t]) in bins)
      invariant forall b <- bins :: exists t <- buckets :: t != "+Inf" && b == Bin(BoundOf(t), buckets[t])
      decreases |todo|
    {
      var t :| t in todo;
      todo := todo - {t};
      if t != "+Inf" {
        if NumberOf(t).None? {
          return Err(BadBound);
        }
        InsertBinOrder(Bin(BoundOf(t), buckets[t]), bins);
        bins := InsertBin(Bin(BoundOf(t), buckets[t]), bins);
      }
    }
    return Ok(bins);
  }

  /** histogram_bound */
  method HistogramBound(buckets: map<string, real>, count: int, percent: int) returns (r: Result<Option<real>, BadBound>)
    requires Plain(buckets)
    ensures r.Ok? <==> count < 1 || Readable(buckets)
    ensures r.Ok? ==> IsBound(buckets, count, percent, r.value)
  {
    hide NumberOf;
    hide BoundOf;
    if count < 1 {
      return Ok(None);
    }
    var threshold := Snapshot.Rank(count, percent) as real;
    var finite := FiniteBins(buckets);
    if finite.Err? {
      return Err(BadBound);
    }
    var bins := finite.value;
    var i := 0;
    while i < |bins|
      invariant 0 <= i <= |bins| && forall j :: 0 <= j < i ==> bins[j].value < threshold
    {
      if bins[i].value >= threshold {
        assert bins[i] in bins;
        forall t | t in buckets && t != "+Inf" && buckets[t] >= threshold
          ensures bins[i].bound * 1000.0 <= BoundOf(t) * 1000.0
        {
          var j :| 0 <= j < |bins| && bins[j] == Bin(BoundOf(t), buckets[t]);
        }
        return Ok(Some(bins[i].bound * 1000.0));
      }
      i := i + 1;
    }
    return Ok(None);
  }

  // ------------------------------------------------------------- the delta

  datatype Row = Row(backend: string, count: int, mean: Option<real>, p50: Option<real>, p95: Option<real>, p99: Option<real>)

  ghost predicate IsRow(g: Group, backend: string, row: Row)
  {
    && row.backend == backend && row.count == g.count
    && row.mean == (if g.count == 0 then None else Some(g.sum * 1000.0 / g.count as real))
    && IsBound(g.buckets, g.count, 50, row.p50)
    && IsBound(g.buckets, g.count, 95, row.p95)
    && IsBound(g.buckets, g.count, 99, row.p99)
  }

  method MakeRow(g: Group, backend: string) returns (r: Result<Row, BadBound>)
    requires Plain(g.buckets)
    ensures r.Ok? <==> g.count < 1 || Readable(g.buckets)
    ensures r.Ok? ==> IsRow(g, backend, r.value)
  {
    hide Plain;
    hide Readable;
    hide IsBound;
    var p50 := HistogramBound(g.buckets, g.count, 50);
    var p95 := HistogramBound(g.buckets, g.count, 95);
    var p99 := HistogramBound(g.buckets, g.count, 99);
    if p50.Err? || p95.Err? || p99.Err? {
      return Err(BadBound);
    }
    var mean := if g.count == 0 then None else Some(g.sum * 1000.0 / g.count as real);
    return Ok(Row(backend, g.count, mean, p50.value, p95.value, p99.value));
  }

  /** The greatest backend of a limiter among the keys. */
  ghost predicate LastBackend(keys: set<Key>, limiter: string, backend: string)
  {
    (limiter, backend) in keys && forall k <- keys :: k.0 == limiter ==> k.1 == backend || Less(k.1, backend)
  }

  /** The rows are those of the last backend of each limiter. */
  ghost predicate AreRows(groups: map<Key, Group>, rows: map<string, Row>)
  {
    && (forall k <- groups :: k.0 in rows)
    && forall limiter <- rows ::
         && LastBackend(groups.Keys, limiter, rows[limiter].backend)
         && IsRow(groups[(limiter, rows[limiter].backend)], rows[limiter].backend, rows[limiter])
  }

  /** The first loop of limiter_latency_delta. */
  method Grouped(before: Scrape, after: Scrape, items: seq<Series>) returns (groups: map<Key, Group>)
    ensures groups == GroupsOf(before, after, items)
  {
    hide FieldOf;
    groups := map[];
    var i := 0;
    while i < |items|
      invariant 0 <= i <= |items| && groups == GroupsOf(before, after, items[..i])
    {
      assert items[..i + 1][..i] == items[..i];
      var s := items[i];
      var key := GroupKey(s);
      if key.Some? {
        var delta := ValueIn(after, s) - ValueIn(before, s);
        var group := if key.value in groups then groups[key.value] else NO_GROUP;
        groups := groups[key.value := Set(group, FieldOf(s), delta)];
      }
      i := i + 1;
    }
    assert items[..|items|] == items;
  }

  method SortedKeys(keys: set<Key>) returns (order: seq<Key>)
    ensures InOrder(order) && forall k :: k in order <==> k in keys
  {
    order := [];
    var todo := keys;
    while todo != {}
      invariant todo <= keys && InOrder(order) && forall k :: k in order <==> k in keys - todo
      decreases |todo|
    {
      var k :| k in todo;
      todo := todo - {k};
      InsertKeepsOrder(k, order);
      order := InsertPair(k, order);
    }
  }

  /** The rows made from the first keys in order: for each limiter, its last key so far. */
  ghost predicate RowsUpTo(groups: map<Key, Group>, order: seq<Key>, i: nat, rows: map<string, Row>)
    requires i <= |order| && forall k <- order :: k in groups
  {
    && (forall j :: 0 <= j < i ==> order[j].0 in rows)
    && forall limiter <- rows :: exists j :: 0 <= j < i && RowFrom(groups, order, i, j, limiter, rows[limiter])
  }

  ghost predicate RowFrom(groups: map<Key, Group>, order: seq<Key>, i: nat, j: nat, limiter: string, row: Row)
    requires j < i <= |order| && forall k <- order :: k in groups
  {
    && order[j] == (limiter, row.backend) && IsRow(groups[order[j]], row.backend, row)
    && forall k :: j < k < i ==> order[k].0 != limiter
  }

  lemma OneMoreRow(groups: map<Key, Group>, order: seq<Key>, i: nat, rows: map<string, Row>, row: Row)
    requires i < |order| && forall k <- order :: k in groups
    requires RowsUpTo(groups, order, i, rows) && IsRow(groups[order[i]], order[i].1, row)
    ensures RowsUpTo(groups, order, i + 1, rows[order[i].0 := row])
  {
    assert row.backend == order[i].1;
    hide IsRow;
    var rows', n := rows[order[i].0 := row], i + 1;
    forall limiter | limiter in rows'
      ensures exists j :: 0 <= j < n && RowFrom(groups, order, n, j, limiter, rows'[limiter])
    {
      if limiter == order[i].0 {
        assert RowFrom(groups, order, n, i, limiter, row);
      } else {
        var j :| 0 <= j < i && RowFrom(groups, order, i, j, limiter, rows[limiter]);
        assert RowFrom(groups, order, n, j, limiter, rows'[limiter]);
      }
    }
  }

  lemma LastIsGreatest(keys: set<Key>, order: seq<Key>, j: nat, limiter: string, backend: string)
    requires InOrder(order) && forall k :: k in order <==> k in keys
    requires j < |order| && order[j] == (limiter, backend) && forall k :: j < k < |order| ==> order[k].0 != limiter
    ensures LastBackend(keys, limiter, backend)
  {
    assert order[j] in order;
    forall k | k in keys && k.0 == limiter
      ensures k.1 == backend || Less(k.1, backend)
    {
      assert k in order;
      var n :| 0 <= n < |order| && order[n] == k;
      if n < j {
        assert LessPair(order[n], order[j]);
        LessIsStrict(limiter, limiter);
      }
    }
  }

  lemma AllRows(groups: map<Key, Group>, order: seq<Key>, rows: map<string, Row>)
    requires InOrder(order) && forall k :: k in order <==> k in groups.Keys
    requires RowsUpTo(groups, order, |order|, rows)
    ensures AreRows(groups, rows)
  {
    hide IsRow;
    hide InOrder;
    hide LastBackend;
    forall k | k in groups
      ensures k.0 in rows
    {
      assert k in order;
    }
    forall limiter | limiter in rows
      ensures LastBackend(groups.Keys, limiter, rows[limiter].backend)
      ensures (limiter, rows[limiter].backend) in groups && IsRow(groups[(limiter, rows[limiter].backend)], rows[limiter].backend, rows[limiter])
    {
      var j :| 0 <= j < |order| && RowFrom(groups, order, |order|, j, limiter, rows[limiter]);
      assert order[j] in order;
      LastIsGreatest(groups.Keys, order, j, limiter, rows[limiter].backend);
    }
  }

  /** The second loop: one row per limiter, in the sorted order of the groups. */
  method MakeRows(groups: map<Key, Group>) returns (r: Result<map<string, Row>, BadBound>)
    requires forall k <- groups :: Plain(groups[k].buckets)
    ensures r.Ok? <==> forall k <- groups :: groups[k].count < 1 || Readable(groups[k].buckets)
    ensures r.Ok? ==> AreRows(groups, r.value)
  {
    hide Plain;
    hide Readable;
    hide IsRow;
    hide RowFrom;
    hide AreRows;
    var order := SortedKeys(groups.Keys);
    var rows: map<string, Row> := map[];
    var i := 0;
    while i < |order|
      invariant 0 <= i <= |order| && RowsUpTo(groups, order, i, rows)
      invariant forall j :: 0 <= j < i ==> groups[order[j]].count < 1 || Readable(groups[order[j]].buckets)
    {
      var key := order[i];
      assert key in order;
      var row := MakeRow(groups[key], key.1);
      if row.Err? {
        return Err(BadBound);
      }
      OneMoreRow(groups, order, i, rows, row.value);
      rows := rows[key.0 := row.value];
      i := i + 1;
    }
    AllRows(groups, order, rows);
    forall k | k in groups
      ensures groups[k].count < 1 || Readable(groups[k].buckets)
    {
      assert k in order;
    }
    return Ok(rows);
  }

  /** limiter_latency_delta, the series of the later scrape coming in the given order. */
  method LimiterLatencyDelta(before: Option<Scrape>, after: Option<Scrape>, items: seq<Series>)
    returns (r: Result<Option<map<string, Row>>, BadBound>)
    requires before.Some? && after.Some? ==> forall k <- GroupsOf(before.value, after.value, items) :: Plain(GroupsOf(before.value, after.value, items)[k].buckets)
    ensures before.None? || after.None? ==> r == Ok(None)
    ensures before.Some? && after.Some? ==>
              var groups := GroupsOf(before.value, after.value, items);
              && (r.Ok? <==> forall k <- groups :: groups[k].count < 1 || Readable(groups[k].buckets))
              && (r.Ok? ==> r.value.Some? && AreRows(groups, r.value.value))
  {
    if before.None? || after.None? {
      return Ok(None);
    }
    hide GroupsOf;
    hide Plain;
    hide Readable;
    hide AreRows;
    var groups := Grouped(before.value, after.value, items);
    var rows := MakeRows(groups);
    if rows.Err? {
      return Err(BadBound);
    }
    return Ok(Some(rows.value));
  }

  /** Every group has its row exactly when no limiter has groups of two backends. */
  lemma RowsCompleteIff(groups: map<Key, Group>, rows: map<string, Row>)
    requires AreRows(groups, rows)
    ensures (forall k <- groups :: rows[k.0].backend == k.1)
            <==> forall j, k :: j in groups && k in groups && j.0 == k.0 ==> j == k
  {
    hide IsRow;
    if forall j, k :: j in groups && k in groups && j.0 == k.0 ==> j == k {
      forall k | k in groups
        ensures rows[k.0].backend == k.1
      {
        assert (k.0, rows[k.0].backend) in groups;
      }
    }
  }

  /** A higher percentage has no lower bound, and none at all if a lower one has none. */
  lemma BoundsAscend(buckets: map<string, real>, count: int, low: int, high: int, rLow: Option<real>, rHigh: Option<real>)
    requires low <= high && IsBound(buckets, count, low, rLow) && IsBound(buckets, count, high, rHigh)
    ensures rHigh.Some? ==> rLow.Some? && rLow.value <= rHigh.value
  {
    hide BoundOf;
    if rHigh.Some? {
      assert count * low <= count * high;
      var t :| t in buckets && t != "+Inf" && BoundOf(t) * 1000.0 == rHigh.value && buckets[t] >= Snapshot.Rank(count, high) as real;
      assert buckets[t] >= Snapshot.Rank(count, low) as real;
    }
  }

  lemma RowAscends(g: Group, backend: string, row: Row)
    requires IsRow(g, backend, row)
    ensures row.p95.Some? ==> row.p50.Some? && row.p50.value <= row.p95.value
    ensures row.p99.Some? ==> row.p95.Some? && row.p95.value <= row.p99.value
  {
    hide IsBound;
    BoundsAscend(g.buckets, g.count, 50, 95, row.p50, row.p95);
    BoundsAscend(g.buckets, g.count, 95, 99, row.p95, row.p99);
  }
}
