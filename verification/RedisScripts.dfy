/** The scripts of one counter on their own: what they answer is settled by their times
    and costs, and when these times keep the limit. */
module RedisScripts {
  import opened Prelude
  import opened RedisLimiter
  import FirstFit

  /** One script run: when it ran and what it cost. */
  datatype Ran = Ran(time: real, cost: int)

  /** What the script makes of the one entry it looks at. */
  function CounterStep(gone: bool, w: real, limit: int, entry: Option<Entry>, r: Ran): (Option<Entry>, bool)
  {
    var current := if entry.Some? && !Gone(gone, entry.value, r.time) then entry.value.count else 0;
    if current + r.cost > limit then (entry, false)
    else if current == 0 then (Some(Entry(r.cost, Some(r.time + w))), true)
    else (Some(Entry(current + r.cost, entry.value.expiry)), true)
  }

  function CounterAfter(gone: bool, w: real, limit: int, runs: seq<Ran>): Option<Entry>
  {
    if runs == [] then None
    else CounterStep(gone, w, limit, CounterAfter(gone, w, limit, runs[..|runs| - 1]), runs[|runs| - 1]).0
  }

  /** The answers of a counter of its own to some script runs. */
  function AnswersAlone(gone: bool, w: real, limit: int, runs: seq<Ran>): (oks: seq<bool>)
    ensures |oks| == |runs|
  {
    if runs == [] then []
    else
      var front, r := runs[..|runs| - 1], runs[|runs| - 1];
      AnswersAlone(gone, w, limit, front) + [CounterStep(gone, w, limit, CounterAfter(gone, w, limit, front), r).1]
  }

  lemma Snoc(gone: bool, w: real, limit: int, runs: seq<Ran>, r: Ran)
    ensures CounterAfter(gone, w, limit, runs + [r]) == CounterStep(gone, w, limit, CounterAfter(gone, w, limit, runs), r).0
    ensures AnswersAlone(gone, w, limit, runs + [r])
            == AnswersAlone(gone, w, limit, runs) + [CounterStep(gone, w, limit, CounterAfter(gone, w, limit, runs), r).1]
  {
    assert (runs + [r])[..|runs + [r]| - 1] == runs;
  }

  // ---------------------------------------------- a run seen from one counter

  /** The script runs of one id, in order. */
  function ScriptsOf(events: seq<Event>, id: Id): seq<Ran>
  {
    if events == [] then []
    else
      var e := events[|events| - 1];
      ScriptsOf(events[..|events| - 1], id) + (if e.id == id then [Ran(e.time, e.cost)] else [])
  }

  function EntryOf(store: Store, key: string): Option<Entry>
  {
    if key in store then Some(store[key]) else None
  }

  /** The answers and the entry of an id are those its own scripts give alone. */
  ghost predicate Mirrored(c: Config, s: Sys, id: Id)
  {
    var runs := ScriptsOf(s.events, id);
    && OksOf(s.events, id) == AnswersAlone(c.goneAtDeadline, c.W(), c.LimitFor(id), runs)
    && EntryOf(s.store, KeyText(c, id)) == CounterAfter(c.goneAtDeadline, c.W(), c.LimitFor(id), runs)
  }

  lemma ScriptIsCounterStep(gone: bool, w: real, limit: int, store: Store, key: string, now: real, cost: int)
    ensures var (store', reply) := Script(gone, store, key, now, cost, w, limit);
            (EntryOf(store', key), reply.granted) == CounterStep(gone, w, limit, EntryOf(store, key), Ran(now, cost))
    ensures forall k :: k != key ==> EntryOf(Script(gone, store, key, now, cost, w, limit).0, k) == EntryOf(store, k)
  {
  }

  lemma ScriptSnoc(events: seq<Event>, e: Event, id: Id)
    ensures ScriptsOf(events + [e], id) == ScriptsOf(events, id) + (if e.id == id then [Ran(e.time, e.cost)] else [])
  {
    assert (events + [e])[..|events + [e]| - 1] == events;
  }

  lemma ScriptMirrored(c: Config, s: Sys, p: nat, id: Id)
    requires c.Sound() && p in s.pending && ValidId(c, id) && ValidId(c, s.pending[p].id) && Mirrored(c, s, id)
    ensures Mirrored(c, RunScript(c, s, p), id)
  {
    var Pending(other, cost) := s.pending[p];
    var s' := RunScript(c, s, p);
    var e := s'.events[|s.events|];
    assert s'.events == s.events + [e] && e.id == other && e.time == s.clock && e.cost == cost;
    ScriptSnoc(s.events, e, id);
    EventsSnoc(s.events, e, id);
    ScriptIsCounterStep(c.goneAtDeadline, c.W(), c.LimitFor(other), s.store, KeyText(c, other), s.clock, cost);
    if other == id {
      Snoc(c.goneAtDeadline, c.W(), c.LimitFor(id), ScriptsOf(s.events, id), Ran(s.clock, cost));
    } else {
      if KeyText(c, id) == KeyText(c, other) {
        KeyTextInjective(c, id, other);
      }
      hide KeyText;
      assert ScriptsOf(s.events, id) + [] == ScriptsOf(s.events, id) && OksOf(s.events, id) + [] == OksOf(s.events, id);
    }
  }

  /** In every run, however late scripts are and whatever other ids do, an id's answers are
      those its own scripts give alone; this rests on distinct ids having distinct keys. */
  lemma {:induction false} OwnScriptsDecide(c: Config, t0: real, steps: seq<Step>, id: Id)
    requires c.Sound() && ValidId(c, id)
    ensures Mirrored(c, Run(c, t0, steps), id)
  {
    if steps != [] {
      hide Mirrored;
      var front, step := steps[..|steps| - 1], steps[|steps| - 1];
      var s := Run(c, t0, front);
      RunShape(c, t0, front);
      OwnScriptsDecide(c, t0, front, id);
      MirroredStep(c, s, step, id);
    }
  }

  lemma MirroredStep(c: Config, s: Sys, step: Step, id: Id)
    requires c.Sound() && Shape(c, s) && ValidId(c, id) && Mirrored(c, s, id)
    ensures Mirrored(c, Next(c, s, step), id)
  {
    hide RunScript;
    if step.Eval? && step.process in s.pending {
      hide Mirrored;
      ScriptMirrored(c, s, step.process, id);
    }
  }

  /** Two runs that give an id the same scripts, times and costs, answer it the same. */
  lemma AnswersDependOnOwnScripts(c: Config, t0: real, steps: seq<Step>, t1: real, others: seq<Step>, id: Id)
    requires c.Sound() && ValidId(c, id)
    requires ScriptsOf(Run(c, t0, steps).events, id) == ScriptsOf(Run(c, t1, others).events, id)
    ensures OksOf(Run(c, t0, steps).events, id) == OksOf(Run(c, t1, others).events, id)
  {
    OwnScriptsDecide(c, t0, steps, id);
    OwnScriptsDecide(c, t1, others, id);
  }

  // ------------------------------------------------------ times that keep the limit

  predicate InOrder(ts: seq<real>)
  {
    forall i, j :: 0 <= i < j < |ts| ==> ts[i] <= ts[j]
  }

  /** The key cannot die between the first and the last of these times. */
  predicate OneLife(gone: bool, w: real, ts: seq<real>)
  {
    ts == [] || ts[|ts| - 1] - ts[0] < w || (ts[|ts| - 1] - ts[0] == w && !gone)
  }

  function TimesOf(runs: seq<Ran>): (ts: seq<real>)
    ensures |ts| == |runs| && forall i :: 0 <= i < |ts| ==> ts[i] == runs[i].time
  {
    seq(|runs|, i requires 0 <= i < |runs| => runs[i].time)
  }

  function CostsIn(runs: seq<Ran>): (costs: seq<int>)
    ensures |costs| == |runs| && forall i :: 0 <= i < |costs| ==> costs[i] == runs[i].cost
  {
    seq(|runs|, i requires 0 <= i < |runs| => runs[i].cost)
  }

  /** The entry holds what was spent and dies no earlier than a window after the first run. */
  predicate Alive(w: real, first: real, spent: int, entry: Option<Entry>)
  {
    if spent == 0 then entry.None?
    else entry.Some? && entry.value.count == spent && entry.value.expiry.Some? && first + w <= entry.value.expiry.value
  }

  lemma AliveStep(gone: bool, w: real, limit: int, first: real, spent: int, entry: Option<Entry>, r: Ran)
    requires Alive(w, first, spent, entry) && spent >= 0 && r.cost >= 1 && first <= r.time
    requires r.time - first < w || (r.time - first == w && !gone)
    ensures var (entry', ok) := CounterStep(gone, w, limit, entry, r);
            ok == (spent + r.cost <= limit) && Alive(w, first, if ok then spent + r.cost else spent, entry')
  {
  }

  lemma FrontOf(gone: bool, w: real, runs: seq<Ran>)
    requires runs != [] && InOrder(TimesOf(runs)) && FirstFit.Positive(CostsIn(runs)) && OneLife(gone, w, TimesOf(runs))
    ensures var front, r := runs[..|runs| - 1], runs[|runs| - 1];
            && runs == front + [r] && CostsIn(runs) == CostsIn(front) + [r.cost] && r.cost >= 1
            && InOrder(TimesOf(front)) && FirstFit.Positive(CostsIn(front)) && OneLife(gone, w, TimesOf(front))
            && runs[0].time <= r.time && (r.time - runs[0].time < w || (r.time - runs[0].time == w && !gone))
  {
    var n := |runs| - 1;
    assert TimesOf(runs[..n]) == TimesOf(runs)[..n] && CostsIn(runs[..n]) == CostsIn(runs)[..n];
    assert TimesOf(runs)[0] == runs[0].time && TimesOf(runs)[n] == runs[n].time && CostsIn(runs)[n] == runs[n].cost;
    if n > 0 {
      assert TimesOf(runs)[n - 1] <= TimesOf(runs)[n];
    }
  }

  /** Within one life a counter serves first come, first served. */
  lemma {:induction false} OneLifeIsFirstFit(gone: bool, w: real, limit: int, runs: seq<Ran>)
    requires limit >= 0 && InOrder(TimesOf(runs)) && FirstFit.Positive(CostsIn(runs)) && OneLife(gone, w, TimesOf(runs))
    ensures AnswersAlone(gone, w, limit, runs) == FirstFit.Verdicts(limit, 0, CostsIn(runs))
    ensures runs != [] ==> Alive(w, runs[0].time, FirstFit.Spent(limit, 0, CostsIn(runs)), CounterAfter(gone, w, limit, runs))
  {
    if runs == [] {
      NothingRan(gone, w, limit);
    } else {
      hide CounterStep, CounterAfter, AnswersAlone, InOrder, OneLife, Alive, FirstFit.Verdicts, FirstFit.Spent, FirstFit.Positive, TimesOf, CostsIn;
      var front, r := runs[..|runs| - 1], runs[|runs| - 1];
      FrontOf(gone, w, runs);
      OneLifeIsFirstFit(gone, w, limit, front);
      if front == [] {
        NothingRan(gone, w, limit);
        NothingAlive(w, r.time, limit);
      }
      FirstFit.SpentGrows(limit, 0, CostsIn(front));
      FirstFit.Snoc(limit, 0, CostsIn(front), r.cost);
      Snoc(gone, w, limit, front, r);
      AliveStep(gone, w, limit, runs[0].time, FirstFit.Spent(limit, 0, CostsIn(front)), CounterAfter(gone, w, limit, front), r);
    }
  }

  lemma NothingRan(gone: bool, w: real, limit: int)
    ensures CounterAfter(gone, w, limit, []) == None && CostsIn([]) == []
    ensures AnswersAlone(gone, w, limit, []) == FirstFit.Verdicts(limit, 0, CostsIn([]))
  {
  }

  lemma NothingAlive(w: real, first: real, limit: int)
    ensures Alive(w, first, FirstFit.Spent(limit, 0, CostsIn([])), None)
  {
  }

  function AllFull(limit: int, ts: seq<real>): (runs: seq<Ran>)
    ensures |runs| == |ts|
  {
    seq(|ts|, i requires 0 <= i < |ts| => Ran(ts[i], limit))
  }

  /** Scripts that all ask for the whole limit: after the first grant the entry is full,
      and while it is the only one it dies a window after the first time. */
  lemma {:induction false} FullScripts(gone: bool, w: real, limit: int, ts: seq<real>)
    requires limit >= 1 && ts != []
    ensures var oks, entry := AnswersAlone(gone, w, limit, AllFull(limit, ts)), CounterAfter(gone, w, limit, AllFull(limit, ts));
            && entry.Some? && entry.value.count == limit && entry.value.expiry.Some?
            && FirstFit.Granted(oks) >= 1
            && (FirstFit.Granted(oks) == 1 ==> entry.value.expiry.value == ts[0] + w)
  {
    var n := |ts| - 1;
    var front := ts[..n];
    assert AllFull(limit, ts) == AllFull(limit, front) + [Ran(ts[n], limit)];
    Snoc(gone, w, limit, AllFull(limit, front), Ran(ts[n], limit));
    GrantedSnoc(AnswersAlone(gone, w, limit, AllFull(limit, front)),
                CounterStep(gone, w, limit, CounterAfter(gone, w, limit, AllFull(limit, front)), Ran(ts[n], limit)).1);
    if n == 0 {
      assert AllFull(limit, front) == [];
    } else {
      FullScripts(gone, w, limit, front);
    }
  }

  lemma {:induction false} GrantedSnoc(oks: seq<bool>, ok: bool)
    ensures FirstFit.Granted(oks + [ok]) == FirstFit.Granted(oks) + (if ok then 1 else 0)
  {
    if oks == [] {
      assert oks + [ok] == [ok];
    } else {
      assert (oks + [ok])[1..] == oks[1..] + [ok];
      GrantedSnoc(oks[1..], ok);
    }
  }

  lemma {:induction false} FullCosts(limit: int, oks: seq<bool>, costs: seq<int>)
    requires |costs| == |oks| && FirstFit.AllAre(costs, limit)
    ensures FirstFit.Admitted(costs, oks) == limit * FirstFit.Granted(oks)
  {
    if costs != [] {
      FullCosts(limit, oks[1..], costs[1..]);
      var g := FirstFit.Granted(oks[1..]);
      assert limit * (g + 1) == limit * g + limit;
    }
  }

  /** Once the key can die before the last time, asking for the limit each time is granted it twice. */
  lemma TwoLivesOverspend(gone: bool, w: real, limit: int, ts: seq<real>)
    requires w > 0.0 && limit >= 1 && InOrder(ts) && !OneLife(gone, w, ts)
    ensures var runs := AllFull(limit, ts);
            FirstFit.Admitted(CostsIn(runs), AnswersAlone(gone, w, limit, runs)) >= 2 * limit
  {
    var n := |ts| - 1;
    var front, runs := ts[..n], AllFull(limit, ts);
    assert n > 0 && front[0] == ts[0];
    FullScripts(gone, w, limit, front);
    assert runs == AllFull(limit, front) + [Ran(ts[n], limit)];
    Snoc(gone, w, limit, AllFull(limit, front), Ran(ts[n], limit));
    var entry := CounterAfter(gone, w, limit, AllFull(limit, front));
    var before := AnswersAlone(gone, w, limit, AllFull(limit, front));
    GrantedSnoc(before, CounterStep(gone, w, limit, entry, Ran(ts[n], limit)).1);
    if FirstFit.Granted(before) == 1 {
      assert Gone(gone, entry.value, ts[n]);
    }
    hide Gone;
    var oks := AnswersAlone(gone, w, limit, runs);
    assert FirstFit.Granted(oks) >= 2;
    FullCosts(limit, oks, CostsIn(runs));
    AtLeastTwice(limit, FirstFit.Granted(oks));
  }

  lemma AtLeastTwice(limit: int, n: int)
    requires limit >= 0 && n >= 2
    ensures limit * n >= 2 * limit
  {
    assert limit * n == limit * 2 + limit * (n - 2);
  }

  /** A counter keeps its limit for whatever costs its scripts ask if and only if its key
      cannot die between the first of their times and the last. */
  lemma LimitKeptIffOneLife(gone: bool, w: real, limit: int, ts: seq<real>)
    requires w > 0.0 && limit >= 1 && InOrder(ts)
    ensures (forall runs: seq<Ran> :: TimesOf(runs) == ts && FirstFit.Positive(CostsIn(runs)) ==> KeepsLimit(gone, w, limit, runs))
            <==> OneLife(gone, w, ts)
  {
    if OneLife(gone, w, ts) {
      forall runs: seq<Ran> | TimesOf(runs) == ts && FirstFit.Positive(CostsIn(runs))
        ensures KeepsLimit(gone, w, limit, runs)
      {
        OneLifeIsFirstFit(gone, w, limit, runs);
        FirstFit.SpentGrows(limit, 0, CostsIn(runs));
      }
    } else {
      var full := AllFull(limit, ts);
      TwoLivesOverspend(gone, w, limit, ts);
      assert TimesOf(full) == ts && FirstFit.Positive(CostsIn(full));
      assert !KeepsLimit(gone, w, limit, full);
    }
  }

  predicate KeepsLimit(gone: bool, w: real, limit: int, runs: seq<Ran>)
  {
    FirstFit.Admitted(CostsIn(runs), AnswersAlone(gone, w, limit, runs)) <= limit
  }

  // ------------------------------------------------------------ times in a run

  ghost predicate InTime(t0: real, s: Sys, id: Id)
  {
    var runs := ScriptsOf(s.events, id);
    t0 <= s.clock && InOrder(TimesOf(runs)) && forall r <- runs :: t0 <= r.time <= s.clock
  }

  /** Scripts run in the order of the clock. */
  lemma {:induction false} ScriptTimes(c: Config, t0: real, steps: seq<Step>, id: Id)
    requires c.windowSeconds >= 1
    ensures InTime(t0, Run(c, t0, steps), id)
  {
    if steps != [] {
      hide InTime;
      hide Next;
      ScriptTimes(c, t0, steps[..|steps| - 1], id);
      TimesStep(c, t0, Run(c, t0, steps[..|steps| - 1]), steps[|steps| - 1], id);
    }
  }

  lemma TimesStep(c: Config, t0: real, s: Sys, step: Step, id: Id)
    requires c.windowSeconds >= 1 && InTime(t0, s, id)
    ensures InTime(t0, Next(c, s, step), id)
  {
    hide KeyText;
    hide Script;
    hide InOrder;
    var s' := Next(c, s, step);
    if step.Eval? && step.process in s.pending {
      var e := s'.events[|s.events|];
      assert s'.events == s.events + [e];
      ScriptSnoc(s.events, e, id);
      InOrderSnoc(ScriptsOf(s.events, id), Ran(e.time, e.cost));
      assert ScriptsOf(s.events, id) + [] == ScriptsOf(s.events, id);
    }
  }

  lemma InOrderSnoc(runs: seq<Ran>, r: Ran)
    requires InOrder(TimesOf(runs)) && forall q <- runs :: q.time <= r.time
    ensures InOrder(TimesOf(runs + [r]))
  {
    forall i, j | 0 <= i < j < |runs| + 1
      ensures TimesOf(runs + [r])[i] <= TimesOf(runs + [r])[j]
    {
      if j == |runs| {
        assert runs[i] in runs;
      } else {
        assert TimesOf(runs)[i] <= TimesOf(runs)[j];
      }
    }
  }

  lemma {:induction false} CostsOfScripts(events: seq<Event>, id: Id)
    ensures CostsIn(ScriptsOf(events, id)) == CostsOf(events, id)
  {
    if events != [] {
      CostsOfScripts(events[..|events| - 1], id);
    }
  }
}
