/** The paired benchmark schedule of bench/run.py. */
module Schedule {
  import opened Prelude

  datatype Path = Direct | Gateway

  datatype Workload = Workload(name: string, minRequests: Option<int>)

  datatype Config = Config(
    repetitions: int, workloads: seq<Workload>, concurrency: seq<int>, seed: int, minRequests: int := 32, requestsPerConcurrency: int := 2)

  datatype Entry = Entry(path: Path, repetition: int, workload: Workload, concurrency: int, seed: int, requestCount: int)

  function Other(p: Path): Path
  {
    if p.Direct? then Gateway else Direct
  }

  function FirstPath(r: int, w: int, c: int): Path
  {
    if (r + w + c) % 2 == 0 then Direct else Gateway
  }

  function SeedOf(cfg: Config, r: int, w: int): int
  {
    cfg.seed + r * 1000 + w
  }

  function Max(x: int, y: int): int
  {
    if x >= y then x else y
  }

  function EntryAt(cfg: Config, path: Path, r: nat, w: nat, c: nat): Entry
    requires w < |cfg.workloads| && c < |cfg.concurrency|
  {
    var workload := cfg.workloads[w];
    var least := if workload.minRequests.Some? then workload.minRequests.value else cfg.minRequests;
    Entry(path, r, workload, cfg.concurrency[c], SeedOf(cfg, r, w), Max(least, cfg.concurrency[c] * cfg.requestsPerConcurrency))
  }

  function PairAt(cfg: Config, r: nat, w: nat, c: nat): seq<Entry>
    requires w < |cfg.workloads| && c < |cfg.concurrency|
  {
    [EntryAt(cfg, FirstPath(r, w, c), r, w, c), EntryAt(cfg, Other(FirstPath(r, w, c)), r, w, c)]
  }

  // The schedule up to some number of concurrencies, workloads, repetitions.

  function OfWorkload(cfg: Config, r: nat, w: nat, n: nat): (s: seq<Entry>)
    requires w < |cfg.workloads| && n <= |cfg.concurrency|
    ensures |s| == 2 * n
  {
    if n == 0 then [] else OfWorkload(cfg, r, w, n - 1) + PairAt(cfg, r, w, n - 1)
  }

  function OfRepetition(cfg: Config, r: nat, n: nat): seq<Entry>
    requires n <= |cfg.workloads|
  {
    if n == 0 then [] else OfRepetition(cfg, r, n - 1) + OfWorkload(cfg, r, n - 1, |cfg.concurrency|)
  }

  function OfAll(cfg: Config, n: nat): seq<Entry>
  {
    if n == 0 then [] else OfAll(cfg, n - 1) + OfRepetition(cfg, n - 1, |cfg.workloads|)
  }

  function Repetitions(cfg: Config): nat
  {
    if cfg.repetitions < 0 then 0 else cfg.repetitions
  }

  /** The body of the loops: the two paths of one condition, in the order of its parity. */
  method AddPair(cfg: Config, r: nat, w: nat, c: nat, schedule: seq<Entry>) returns (longer: seq<Entry>)
    requires w < |cfg.workloads| && c < |cfg.concurrency|
    ensures longer == schedule + PairAt(cfg, r, w, c)
  {
    var order := [Direct, Gateway];
    if (r + w + c) % 2 != 0 {
      order := [Gateway, Direct];
    }
    var workload, concurrency := cfg.workloads[w], cfg.concurrency[c];
    var seed := cfg.seed + r * 1000 + w;
    var minimum := if workload.minRequests.Some? then workload.minRequests.value else cfg.minRequests;
    var count := Max(minimum, concurrency * cfg.requestsPerConcurrency);
    longer := schedule;
    for i := 0 to 2
      invariant longer == schedule + PairAt(cfg, r, w, c)[..i]
    {
      longer := longer + [Entry(order[i], r, workload, concurrency, seed, count)];
    }
  }

  /** build_schedule: repetitions, workloads and concurrencies in nested loops. */
  method BuildSchedule(cfg: Config) returns (schedule: seq<Entry>)
    ensures schedule == OfAll(cfg, Repetitions(cfg))
  {
    hide PairAt;
    schedule := [];
    for r := 0 to Repetitions(cfg)
      invariant schedule == OfAll(cfg, r)
    {
      ghost var before := schedule;
      for w := 0 to |cfg.workloads|
        invariant schedule == before + OfRepetition(cfg, r, w)
      {
        ghost var sofar := schedule;
        for c := 0 to |cfg.concurrency|
          invariant schedule == sofar + OfWorkload(cfg, r, w, c)
        {
          schedule := AddPair(cfg, r, w, c, schedule);
        }
      }
    }
  }

  // ------------------------------------------------------- where things stand

  /** Two entries of a list that continues another stand in one or the other. */
  lemma TwoOf(front: seq<Entry>, back: seq<Entry>, i: nat)
    ensures i + 2 <= |front| ==> (front + back)[i..i + 2] == front[i..i + 2]
    ensures i + 2 <= |back| ==> (front + back)[|front| + i..|front| + i + 2] == back[i..i + 2]
  {
  }

  lemma {:induction false} InWorkload(cfg: Config, r: nat, w: nat, n: nat, c: nat)
    requires w < |cfg.workloads| && c < n <= |cfg.concurrency|
    ensures OfWorkload(cfg, r, w, n)[2 * c..2 * c + 2] == PairAt(cfg, r, w, c)
  {
    var s, front := OfWorkload(cfg, r, w, n), OfWorkload(cfg, r, w, n - 1);
    if c < n - 1 {
      InWorkload(cfg, r, w, n - 1, c);
      assert s[2 * c..2 * c + 2] == front[2 * c..2 * c + 2];
    }
  }

  /** n blocks of one size. */
  function Blocks(n: nat, size: nat): nat
  {
    if n == 0 then 0 else Blocks(n - 1, size) + size
  }

  lemma {:induction false} BlocksMultiply(n: nat, size: nat)
    ensures Blocks(n, size) == n * size
  {
    if n > 0 {
      BlocksMultiply(n - 1, size);
      assert n * size == (n - 1) * size + size;
    }
  }

  lemma {:induction false} RepetitionLength(cfg: Config, r: nat, n: nat)
    requires n <= |cfg.workloads|
    ensures |OfRepetition(cfg, r, n)| == 2 * Blocks(n, |cfg.concurrency|)
  {
    if n > 0 {
      RepetitionLength(cfg, r, n - 1);
    }
  }

  lemma {:induction false} InRepetition(cfg: Config, r: nat, n: nat, w: nat, c: nat)
    requires w < n <= |cfg.workloads| && c < |cfg.concurrency|
    ensures var i := 2 * (Blocks(w, |cfg.concurrency|) + c);
            i + 2 <= |OfRepetition(cfg, r, n)| && OfRepetition(cfg, r, n)[i..i + 2] == PairAt(cfg, r, w, c)
  {
    hide PairAt;
    var front := OfRepetition(cfg, r, n - 1);
    var i := 2 * (Blocks(w, |cfg.concurrency|) + c);
    RepetitionLength(cfg, r, n - 1);
    if w < n - 1 {
      InRepetition(cfg, r, n - 1, w, c);
      TwoOf(front, OfWorkload(cfg, r, n - 1, |cfg.concurrency|), i);
    } else {
      InWorkload(cfg, r, w, |cfg.concurrency|, c);
      TwoOf(front, OfWorkload(cfg, r, w, |cfg.concurrency|), 2 * c);
    }
  }

  function PerRepetition(cfg: Config): nat
  {
    2 * Blocks(|cfg.workloads|, |cfg.concurrency|)
  }

  lemma {:induction false} ScheduleLength(cfg: Config, n: nat)
    ensures |OfAll(cfg, n)| == Blocks(n, PerRepetition(cfg))
  {
    if n > 0 {
      ScheduleLength(cfg, n - 1);
      RepetitionLength(cfg, n - 1, |cfg.workloads|);
    }
  }

  /** The pair of a repetition, workload and concurrency stands at its place. */
  lemma {:induction false} PairsInPlace(cfg: Config, n: nat, r: nat, w: nat, c: nat)
    requires r < n && w < |cfg.workloads| && c < |cfg.concurrency|
    ensures var s, i := OfAll(cfg, n), Blocks(r, PerRepetition(cfg)) + 2 * (Blocks(w, |cfg.concurrency|) + c);
            i + 2 <= |s| && s[i..i + 2] == PairAt(cfg, r, w, c)
  {
    hide PairAt;
    var front := OfAll(cfg, n - 1);
    var j := 2 * (Blocks(w, |cfg.concurrency|) + c);
    var i := Blocks(r, PerRepetition(cfg)) + j;
    ScheduleLength(cfg, n - 1);
    if r < n - 1 {
      PairsInPlace(cfg, n - 1, r, w, c);
      TwoOf(front, OfRepetition(cfg, n - 1, |cfg.workloads|), i);
    } else {
      InRepetition(cfg, r, |cfg.workloads|, w, c);
      TwoOf(front, OfRepetition(cfg, r, |cfg.workloads|), j);
    }
  }

  /** Behind all pairs of earlier repetitions, and of earlier workloads in its own. */
  function PlaceOf(cfg: Config, r: nat, w: nat, c: nat): int
  {
    r * (2 * (|cfg.workloads| * |cfg.concurrency|)) + 2 * (w * |cfg.concurrency| + c)
  }

  /** The schedule has 2*R*W*C entries, and for every repetition, workload and concurrency
      its pair stands at position 2*((r*W + w)*C + c). */
  lemma WholeSchedule(cfg: Config, r: nat, w: nat, c: nat)
    requires r < Repetitions(cfg) && w < |cfg.workloads| && c < |cfg.concurrency|
    ensures var s, i := OfAll(cfg, Repetitions(cfg)), PlaceOf(cfg, r, w, c);
            && |s| == Repetitions(cfg) * (2 * (|cfg.workloads| * |cfg.concurrency|))
            && 0 <= i && i + 2 <= |s| && s[i..i + 2] == PairAt(cfg, r, w, c)
  {
    hide PairAt;
    hide Blocks;
    hide OfAll;
    BlocksMultiply(|cfg.workloads|, |cfg.concurrency|);
    BlocksMultiply(w, |cfg.concurrency|);
    BlocksMultiply(r, PerRepetition(cfg));
    BlocksMultiply(Repetitions(cfg), PerRepetition(cfg));
    ScheduleLength(cfg, Repetitions(cfg));
    PairsInPlace(cfg, Repetitions(cfg), r, w, c);
  }

  // ------------------------------------------------------------ adjacent pairs

  /** Direct next to gateway, alike in everything else. */
  predicate Twins(a: Entry, b: Entry)
  {
    b == a.(path := Other(a.path))
  }

  predicate AllPaired(s: seq<Entry>)
  {
    |s| % 2 == 0 && forall i :: 0 <= i < |s| / 2 ==> Twins(s[2 * i], s[2 * i + 1])
  }

  lemma PairedBoth(s: seq<Entry>, t: seq<Entry>)
    requires AllPaired(s) && AllPaired(t)
    ensures AllPaired(s + t)
  {
    forall i | 0 <= i < |s + t| / 2
      ensures Twins((s + t)[2 * i], (s + t)[2 * i + 1])
    {
      if i >= |s| / 2 {
        var j := i - |s| / 2;
        assert Twins(t[2 * j], t[2 * j + 1]);
      }
    }
  }

  /** The whole schedule consists of adjacent direct/gateway pairs with equal repetition,
      workload, concurrency, seed and request count. */
  lemma {:induction false} ScheduleIsPaired(cfg: Config, n: nat)
    ensures AllPaired(OfAll(cfg, n))
  {
    if n > 0 {
      ScheduleIsPaired(cfg, n - 1);
      RepetitionPaired(cfg, n - 1, |cfg.workloads|);
      PairedBoth(OfAll(cfg, n - 1), OfRepetition(cfg, n - 1, |cfg.workloads|));
    }
  }

  lemma {:induction false} RepetitionPaired(cfg: Config, r: nat, n: nat)
    requires n <= |cfg.workloads|
    ensures AllPaired(OfRepetition(cfg, r, n))
  {
    if n > 0 {
      RepetitionPaired(cfg, r, n - 1);
      WorkloadPaired(cfg, r, n - 1, |cfg.concurrency|);
      PairedBoth(OfRepetition(cfg, r, n - 1), OfWorkload(cfg, r, n - 1, |cfg.concurrency|));
    }
  }

  lemma {:induction false} WorkloadPaired(cfg: Config, r: nat, w: nat, n: nat)
    requires w < |cfg.workloads| && n <= |cfg.concurrency|
    ensures AllPaired(OfWorkload(cfg, r, w, n))
  {
    if n > 0 {
      WorkloadPaired(cfg, r, w, n - 1);
      PairedBoth(OfWorkload(cfg, r, w, n - 1), PairAt(cfg, r, w, n - 1));
    }
  }

  // ------------------------------------------------------------------- balance

  /** In how many of the first n repetitions the path goes first, for a workload and concurrency. */
  function TimesFirst(path: Path, w: nat, c: nat, n: nat): nat
  {
    if n == 0 then 0 else TimesFirst(path, w, c, n - 1) + (if FirstPath(n - 1, w, c) == path then 1 else 0)
  }

  lemma Alternates(r: nat, w: nat, c: nat)
    ensures FirstPath(r, w, c) == if r % 2 == 0 then FirstPath(0, w, c) else Other(FirstPath(0, w, c))
  {
    assert (r + w + c) % 2 == (r % 2 + (w + c) % 2) % 2;
  }

  /** Direct and gateway go first equally often over the repetitions; with an odd number
      of them, the one that went first to begin with does so once more. */
  lemma {:induction false} Balanced(w: nat, c: nat, n: nat)
    ensures TimesFirst(Direct, w, c, n) + TimesFirst(Gateway, w, c, n) == n
    ensures TimesFirst(FirstPath(0, w, c), w, c, n) - TimesFirst(Other(FirstPath(0, w, c)), w, c, n) == n % 2
  {
    hide FirstPath;
    if n > 0 {
      var m := n - 1;
      Balanced(w, c, m);
      Alternates(m, w, c);
      ParityFlips(m);
    }
  }

  lemma ParityFlips(m: nat)
    ensures if m % 2 == 0 then (m + 1) % 2 == 1 else m % 2 == 1 && (m + 1) % 2 == 0
  {
  }

  // --------------------------------------------------------------------- seeds

  predicate SeedsDistinct(cfg: Config)
  {
    var n, m := Repetitions(cfg), |cfg.workloads|;
    forall r, w, q, v :: 0 <= r < n && 0 <= q < n && 0 <= w < m && 0 <= v < m && SeedOf(cfg, r, w) == SeedOf(cfg, q, v) ==> r == q && w == v
  }

  /** Seeds tell repetition and workload apart exactly when there are at most a thousand
      workloads or at most one repetition. */
  lemma SeedsDistinctIff(cfg: Config)
    ensures SeedsDistinct(cfg) <==> |cfg.workloads| <= 1000 || Repetitions(cfg) <= 1
  {
    if |cfg.workloads| > 1000 && Repetitions(cfg) > 1 {
      assert SeedOf(cfg, 0, 1000) == SeedOf(cfg, 1, 0);
    }
  }

  /** At the place of a condition stand its two entries, direct first where the sum of its
      three indices is even: with its repetition, workload and concurrency, the seed of
      repetition and workload, and the least number of requests that meets both minimums. */
  lemma ConditionTells(cfg: Config, r: nat, w: nat, c: nat)
    requires r < cfg.repetitions && w < |cfg.workloads| && c < |cfg.concurrency|
    ensures var schedule, i := OfAll(cfg, Repetitions(cfg)), PlaceOf(cfg, r, w, c);
            && |schedule| == cfg.repetitions * (2 * (|cfg.workloads| * |cfg.concurrency|)) && 0 <= i && i + 1 < |schedule|
            && Tells(cfg, r, w, c, schedule[i]) && Tells(cfg, r, w, c, schedule[i + 1])
            && (schedule[i].path.Direct? <==> exists half :: 2 * half == r + w + c)
            && (schedule[i + 1].path.Direct? <==> schedule[i].path.Gateway?)
  {
    WholeSchedule(cfg, r, w, c);
    hide OfAll, PlaceOf, PairAt, Tells;
    var schedule, i := OfAll(cfg, Repetitions(cfg)), PlaceOf(cfg, r, w, c);
    assert schedule[i] == schedule[i..i + 2][0] && schedule[i + 1] == schedule[i..i + 2][1];
    PairTells(cfg, r, w, c);
  }

  /** Without repetitions there is no schedule. */
  lemma NoRepetitions(cfg: Config)
    requires cfg.repetitions <= 0
    ensures OfAll(cfg, Repetitions(cfg)) == []
  {
  }

  predicate Tells(cfg: Config, r: nat, w: nat, c: nat, e: Entry)
    requires w < |cfg.workloads| && c < |cfg.concurrency|
  {
    var least := match cfg.workloads[w].minRequests case Some(n) => n case None => cfg.minRequests;
    var scaled := cfg.requestsPerConcurrency * cfg.concurrency[c];
    && e.repetition == r && e.workload == cfg.workloads[w] && e.concurrency == cfg.concurrency[c]
    && e.seed == cfg.seed + 1000 * r + w
    && e.requestCount >= least && e.requestCount >= scaled && (e.requestCount == least || e.requestCount == scaled)
  }

  lemma PairTells(cfg: Config, r: nat, w: nat, c: nat)
    requires w < |cfg.workloads| && c < |cfg.concurrency|
    ensures var pair := PairAt(cfg, r, w, c);
            && Tells(cfg, r, w, c, pair[0]) && Tells(cfg, r, w, c, pair[1])
            && (pair[0].path.Direct? <==> exists half :: 2 * half == r + w + c)
            && (pair[1].path.Direct? <==> pair[0].path.Gateway?)
  {
    var sum := r + w + c;
    if sum % 2 == 0 {
      assert 2 * (sum / 2) == sum;
    }
    assert cfg.requestsPerConcurrency * cfg.concurrency[c] == cfg.concurrency[c] * cfg.requestsPerConcurrency;
  }
}
