/** Exactly when an epoch's limit is kept: every order of script times is the order of some
    run, so the condition on the times cannot be weakened. */
module RedisExact {
  import opened Grants
  import opened RedisBounds
  import opened RedisLimiter
  import opened RedisScripts
  import FirstFit

  /** Processes 0 to n - 1 read the clock for the costs of some scripts. */
  function Reads(id: Id, runs: seq<Ran>, n: nat): seq<Step>
    requires n <= |runs|
  {
    if n == 0 then [] else Reads(id, runs, n - 1) + [Read(n - 1, Request(id.caller, id.model, id.budget, runs[n - 1].cost))]
  }

  /** The clock moves to the time of each of the first k scripts, and it runs. */
  function Evals(runs: seq<Ran>, k: nat): seq<Step>
    requires k <= |runs|
  {
    if k == 0 then [] else Evals(runs, k - 1) + [Tick(runs[k - 1].time), Eval(k - 1)]
  }

  function Waiting(id: Id, runs: seq<Ran>, from: nat, n: nat): map<nat, Pending>
    requires n <= |runs|
  {
    map p: nat | from <= p < n :: Pending(id, runs[p].cost)
  }

  lemma EpochBegins(c: Config, n: int)
    requires c.windowSeconds >= 1
    ensures Epoch(c, EpochStart(c, n)) == n
  {
    var m := Epoch(c, EpochStart(c, n));
    WindowsBracket(EpochStart(c, n), c.W());
    BoundaryOrder(m, n, c.W());
    BoundaryOrder(n, m, c.W());
    BoundaryStep(m, c.W());
    if m < n {
      BoundaryOrder(m + 1, n, c.W());
    }
  }

  lemma {:induction false} AfterReads(c: Config, id: Id, runs: seq<Ran>, n: nat)
    requires c.Sound() && ValidId(c, id) && n <= |runs| && FirstFit.Positive(CostsIn(runs))
    ensures Run(c, EpochStart(c, id.epoch), Reads(id, runs, n)) == Sys(EpochStart(c, id.epoch), map[], Waiting(id, runs, 0, n), [])
  {
    if n == 0 {
      assert Waiting(id, runs, 0, 0) == map[];
    } else {
      var front, all := Reads(id, runs, n - 1), Reads(id, runs, n);
      assert all[..|all| - 1] == front;
      AfterReads(c, id, runs, n - 1);
      EpochBegins(c, id.epoch);
      assert CostsIn(runs)[n - 1] >= 1;
      assert Waiting(id, runs, 0, n - 1)[n - 1 := Pending(id, runs[n - 1].cost)] == Waiting(id, runs, 0, n);
    }
  }

  lemma RunTwo(c: Config, t0: real, steps: seq<Step>, a: Step, b: Step)
    requires c.windowSeconds >= 1
    ensures Run(c, t0, steps + [a, b]) == Next(c, Next(c, Run(c, t0, steps), a), b)
  {
    assert (steps + [a, b])[..|steps + [a, b]| - 1] == steps + [a];
    assert (steps + [a])[..|steps + [a]| - 1] == steps;
  }

  /** The first k scripts have run, each at its time, and the others wait. */
  ghost predicate Reached(t0: real, s: Sys, id: Id, runs: seq<Ran>, k: nat)
    requires k <= |runs|
  {
    && ScriptsOf(s.events, id) == runs[..k] && s.pending == Waiting(id, runs, k, |runs|)
    && s.clock == if k == 0 then t0 else runs[k - 1].time
  }

  /** Running the scripts one after the other. */
  lemma {:induction false} AfterEvals(c: Config, t0: real, before: seq<Step>, id: Id, runs: seq<Ran>, k: nat)
    requires c.windowSeconds >= 1 && k <= |runs| && InOrder(TimesOf(runs)) && (runs != [] ==> t0 <= runs[0].time)
    requires Reached(t0, Run(c, t0, before), id, runs, 0)
    ensures Reached(t0, Run(c, t0, before + Evals(runs, k)), id, runs, k)
  {
    hide Run;
    hide Next;
    hide Reached;
    if k == 0 {
      assert before + Evals(runs, 0) == before;
    } else {
      var j := k - 1;
      AfterEvals(c, t0, before, id, runs, j);
      var steps := before + Evals(runs, j);
      assert before + Evals(runs, k) == steps + [Tick(runs[j].time), Eval(j)];
      RunTwo(c, t0, steps, Tick(runs[j].time), Eval(j));
      OneScript(c, t0, Run(c, t0, steps), id, runs, j);
    }
  }

  /** A script leaves its one event, at the clock and with its cost. */
  lemma ScriptLeaves(c: Config, s: Sys, p: nat)
    requires p in s.pending
    ensures var s' := RunScript(c, s, p);
            && s'.clock == s.clock && s'.pending == s.pending - {p}
            && |s'.events| == |s.events| + 1
            && var e := s'.events[|s.events|];
               s'.events == s.events + [e] && e.id == s.pending[p].id && e.time == s.clock && e.cost == s.pending[p].cost
  {
  }

  lemma TickThenEval(c: Config, s: Sys, time: real, p: nat)
    requires c.windowSeconds >= 1 && s.clock <= time && p in s.pending
    ensures Next(c, Next(c, s, Tick(time)), Eval(p)) == RunScript(c, s.(clock := time), p)
  {
    hide RunScript;
    hide Epoch;
  }

  lemma OneScript(c: Config, t0: real, s: Sys, id: Id, runs: seq<Ran>, j: nat)
    requires c.windowSeconds >= 1 && j < |runs| && InOrder(TimesOf(runs)) && t0 <= runs[0].time
    requires Reached(t0, s, id, runs, j)
    ensures Reached(t0, Next(c, Next(c, s, Tick(runs[j].time)), Eval(j)), id, runs, j + 1)
  {
    hide RunScript;
    hide Next;
    hide ScriptsOf;
    assert j > 0 ==> TimesOf(runs)[j - 1] <= TimesOf(runs)[j];
    hide InOrder;
    var t := s.(clock := runs[j].time);
    TickThenEval(c, s, runs[j].time, j);
    ScriptLeaves(c, t, j);
    ScriptSnoc(s.events, RunScript(c, t, j).events[|s.events|], id);
    assert runs[..j + 1] == runs[..j] + [runs[j]];
    assert Waiting(id, runs, j, |runs|) - {j} == Waiting(id, runs, j + 1, |runs|);
  }

  /** Whatever run has scripts of the id at these times keeps the id's limit. */
  ghost predicate Kept(c: Config, t0: real, steps: seq<Step>, id: Id, ts: seq<real>)
    requires c.windowSeconds >= 1
  {
    var events := Run(c, t0, steps).events;
    TimesOf(ScriptsOf(events, id)) == ts ==> FirstFit.Admitted(CostsOf(events, id), OksOf(events, id)) <= c.LimitFor(id)
  }

  /** Script times of an epoch, none before it starts, keep its limit in every run if and
      only if the key cannot die between the first and the last: they span less than a
      window, or exactly one where a key outlives the instant of its deadline. */
  lemma NeverOverspentIff(c: Config, id: Id, ts: seq<real>)
    requires c.Sound() && ValidId(c, id) && InOrder(ts) && (ts != [] ==> EpochStart(c, id.epoch) <= ts[0])
    ensures (forall t0: real, steps: seq<Step> :: Kept(c, t0, steps, id, ts)) <==> OneLife(c.goneAtDeadline, c.W(), ts)
  {
    if OneLife(c.goneAtDeadline, c.W(), ts) {
      forall t0: real, steps: seq<Step>
        ensures Kept(c, t0, steps, id, ts)
      {
        if TimesOf(ScriptsOf(Run(c, t0, steps).events, id)) == ts {
          NeverOverspentInOneLife(c, t0, steps, id);
        }
      }
    } else {
      var t0, steps := Overspending(c, id, ts);
      assert !Kept(c, t0, steps, id, ts);
    }
  }

  /** A run that asks for the whole limit at each of the times. */
  lemma Overspending(c: Config, id: Id, ts: seq<real>) returns (t0: real, steps: seq<Step>)
    requires c.Sound() && ValidId(c, id) && InOrder(ts) && (ts != [] ==> EpochStart(c, id.epoch) <= ts[0])
    requires !OneLife(c.goneAtDeadline, c.W(), ts)
    ensures !Kept(c, t0, steps, id, ts)
  {
    var limit := c.LimitFor(id);
    var runs := AllFull(limit, ts);
    assert TimesOf(runs) == ts && FirstFit.Positive(CostsIn(runs));
    t0, steps := EpochStart(c, id.epoch), Reads(id, runs, |runs|) + Evals(runs, |runs|);
    AfterReads(c, id, runs, |runs|);
    assert runs[..0] == [] && runs[..|runs|] == runs;
    AfterEvals(c, t0, Reads(id, runs, |runs|), id, runs, |runs|);
    hide Run;
    OwnScriptsDecide(c, t0, steps, id);
    CostsOfScripts(Run(c, t0, steps).events, id);
    TwoLivesOverspend(c.goneAtDeadline, c.W(), limit, ts);
  }

  // ------------------------------------------------- a run projected to one id

  /** No script runs before the epoch its key names has begun. */
  lemma {:induction false} NotBeforeItsEpoch(c: Config, t0: real, steps: seq<Step>)
    requires c.Sound()
    ensures forall e <- Run(c, t0, steps).events :: EpochStart(c, e.id.epoch) <= e.time
  {
    if steps != [] {
      var front, step := steps[..|steps| - 1], steps[|steps| - 1];
      var s := Run(c, t0, front);
      NotBeforeItsEpoch(c, t0, front);
      RunShape(c, t0, front);
      hide Run;
      hide RunScript;
      hide EpochStart;
      hide Windows;
      if step.Eval? && step.process in s.pending {
        var id := s.pending[step.process].id;
        ScriptLeaves(c, s, step.process);
        BegunBy(c, id.epoch, s.clock);
      }
    }
  }

  lemma BegunBy(c: Config, n: int, now: real)
    requires c.windowSeconds >= 1 && n <= Epoch(c, now)
    ensures EpochStart(c, n) <= now
  {
    WindowsBracket(now, c.W());
    if n < Epoch(c, now) {
      BoundaryOrder(n, Epoch(c, now), c.W());
    }
  }

  /** The run of an id's own scripts alone: the same costs, each script at its time. */
  function Projected(id: Id, runs: seq<Ran>): seq<Step>
  {
    Reads(id, runs, |runs|) + Evals(runs, |runs|)
  }

  /** In every run, punctual or not, an id is answered as in the run projected to it. */
  lemma ProjectionAnswersAlike(c: Config, t0: real, steps: seq<Step>, id: Id)
    requires c.Sound() && ValidId(c, id)
    ensures var events := Run(c, t0, steps).events;
            var alone := Run(c, EpochStart(c, id.epoch), Projected(id, ScriptsOf(events, id))).events;
            ScriptsOf(alone, id) == ScriptsOf(events, id) && OksOf(alone, id) == OksOf(events, id)
  {
    hide Run;
    var runs := ScriptsOf(Run(c, t0, steps).events, id);
    CostsPositive(c, t0, steps, id);
    CostsOfScripts(Run(c, t0, steps).events, id);
    ScriptTimes(c, t0, steps, id);
    NotBeforeItsEpoch(c, t0, steps);
    ScriptsAreEvents(Run(c, t0, steps).events, id);
    assert runs != [] ==> runs[0] in runs;
    AfterReads(c, id, runs, |runs|);
    assert runs[..0] == [] && runs[..|runs|] == runs;
    AfterEvals(c, EpochStart(c, id.epoch), Reads(id, runs, |runs|), id, runs, |runs|);
    OwnScriptsDecide(c, t0, steps, id);
    OwnScriptsDecide(c, EpochStart(c, id.epoch), Projected(id, runs), id);
  }
}
