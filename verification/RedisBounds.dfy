/** What every run of the Redis limiter guarantees, for any number of replicas and any
    interleaving of clock reads and script runs. */
module RedisBounds {
  import opened Prelude
  import opened Grants
  import opened RedisLimiter
  import opened RedisScripts
  import FirstFit
  import MemoryLimiter

  // ------------------------------------------------ an epoch never overspends

  /** The key of an id cannot have died between the first and the last of its scripts. */
  predicate InOneLife(c: Config, events: seq<Event>, id: Id)
  {
    OneLife(c.goneAtDeadline, c.W(), TimesOf(ScriptsOf(events, id)))
  }

  /** Within one life of its key an id is served first come, first served. */
  lemma FirstServed(c: Config, t0: real, steps: seq<Step>, id: Id)
    requires c.Sound() && ValidId(c, id) && InOneLife(c, Run(c, t0, steps).events, id)
    ensures var events := Run(c, t0, steps).events;
            && FirstFit.Positive(CostsOf(events, id))
            && OksOf(events, id) == FirstFit.Verdicts(c.LimitFor(id), 0, CostsOf(events, id))
  {
    hide Run;
    CostsPositive(c, t0, steps, id);
    OwnScriptsDecide(c, t0, steps, id);
    ScriptTimes(c, t0, steps, id);
    CostsOfScripts(Run(c, t0, steps).events, id);
    OneLifeIsFirstFit(c.goneAtDeadline, c.W(), c.LimitFor(id), ScriptsOf(Run(c, t0, steps).events, id));
  }

  /** Scripts that run in the epoch they named run within one life of their key. */
  lemma PunctualIsOneLife(c: Config, events: seq<Event>, id: Id)
    requires c.windowSeconds >= 1 && Punctual(c, events, id)
    ensures InOneLife(c, events, id)
  {
    var runs := ScriptsOf(events, id);
    ScriptsAreEvents(events, id);
    if runs != [] {
      assert runs[0] in runs && runs[|runs| - 1] in runs;
      WindowsBracket(runs[0].time, c.W());
      WindowsBracket(runs[|runs| - 1].time, c.W());
    }
  }

  lemma {:induction false} ScriptsAreEvents(events: seq<Event>, id: Id)
    ensures forall r <- ScriptsOf(events, id) :: exists e <- events :: e.id == id && e.time == r.time
  {
    if events != [] {
      var front, e := events[..|events| - 1], events[|events| - 1];
      ScriptsAreEvents(front, id);
      assert events == front + [e];
      forall r | r in ScriptsOf(events, id)
        ensures exists e <- events :: e.id == id && e.time == r.time
      {
        if r in ScriptsOf(front, id) {
          var d :| d in front && d.id == id && d.time == r.time;
          assert d in events;
        } else {
          assert e in events;
        }
      }
    }
  }

  /** The costs granted under one model, budget, caller and epoch never exceed the limit. */
  lemma NeverOverspentInOneLife(c: Config, t0: real, steps: seq<Step>, id: Id)
    requires c.Sound() && ValidId(c, id) && InOneLife(c, Run(c, t0, steps).events, id)
    ensures var events := Run(c, t0, steps).events;
            FirstFit.Admitted(CostsOf(events, id), OksOf(events, id)) <= c.LimitFor(id)
  {
    FirstServed(c, t0, steps, id);
    FirstFit.SpentGrows(c.LimitFor(id), 0, CostsOf(Run(c, t0, steps).events, id));
  }

  /** In particular when each of its own scripts runs before the epoch it named has ended. */
  lemma EpochNeverOverspent(c: Config, t0: real, steps: seq<Step>, id: Id)
    requires c.Sound() && ValidId(c, id) && Punctual(c, Run(c, t0, steps).events, id)
    ensures var events := Run(c, t0, steps).events;
            FirstFit.Admitted(CostsOf(events, id), OksOf(events, id)) <= c.LimitFor(id)
  {
    PunctualIsOneLife(c, Run(c, t0, steps).events, id);
    NeverOverspentInOneLife(c, t0, steps, id);
  }

  lemma CostsPositive(c: Config, t0: real, steps: seq<Step>, id: Id)
    requires c.Sound()
    ensures FirstFit.Positive(CostsOf(Run(c, t0, steps).events, id))
  {
    RunShape(c, t0, steps);
    CostsFromEvents(Run(c, t0, steps).events, id);
  }

  lemma {:induction false} CostsFromEvents(events: seq<Event>, id: Id)
    requires forall e <- events :: e.cost >= 1
    ensures FirstFit.Positive(CostsOf(events, id))
  {
    if events != [] {
      assert events[|events| - 1] in events;
      CostsFromEvents(events[..|events| - 1], id);
    }
  }

  /** Calls of equal cost: exactly as many are granted as the limit holds, and they are
      the earliest to run, whichever replicas made them. */
  lemma EqualCostsFillTheLimit(c: Config, t0: real, steps: seq<Step>, id: Id, cost: int)
    requires c.Sound() && ValidId(c, id) && cost >= 1 && InOneLife(c, Run(c, t0, steps).events, id)
    requires FirstFit.AllAre(CostsOf(Run(c, t0, steps).events, id), cost)
    ensures FirstFit.Earliest(OksOf(Run(c, t0, steps).events, id), c.LimitFor(id) / cost)
  {
    hide Run;
    FirstServed(c, t0, steps, id);
    FirstFit.EqualCosts(c.LimitFor(id), 0, CostsOf(Run(c, t0, steps).events, id), cost);
  }

  /** A refused cost would not fit even what was finally granted. */
  lemma RefusedWouldNotFit(c: Config, t0: real, steps: seq<Step>, id: Id, i: nat)
    requires c.Sound() && ValidId(c, id) && InOneLife(c, Run(c, t0, steps).events, id)
    requires i < |OksOf(Run(c, t0, steps).events, id)| && !OksOf(Run(c, t0, steps).events, id)[i]
    ensures var events := Run(c, t0, steps).events;
            FirstFit.Admitted(CostsOf(events, id), OksOf(events, id)) + CostsOf(events, id)[i] > c.LimitFor(id)
  {
    FirstServed(c, t0, steps, id);
    FirstFit.RefusedNeverFits(c.LimitFor(id), 0, CostsOf(Run(c, t0, steps).events, id), i);
  }

  /** While its epoch lasts, a key exists exactly when something was granted; its time
      to live was then set once and does not end before the epoch does. */
  lemma KeyOutlivesItsEpoch(c: Config, t0: real, steps: seq<Step>, id: Id)
    requires c.Sound() && Punctual(c, Run(c, t0, steps).events, id) && ValidId(c, id)
    ensures var s := Run(c, t0, steps);
            && ArmedOf(s.events, id) == (if true in OksOf(s.events, id) then 1 else 0)
            && (Epoch(c, s.clock) <= id.epoch ==>
                  && (KeyText(c, id) in s.store <==> true in OksOf(s.events, id))
                  && (KeyText(c, id) in s.store ==>
                        && s.store[KeyText(c, id)].expiry.Some?
                        && EpochEnd(c, id) <= s.store[KeyText(c, id)].expiry.value))
  {
    PunctualTracked(c, t0, steps, id);
    CostsPositive(c, t0, steps, id);
    FirstFit.SpentGrows(c.LimitFor(id), 0, CostsOf(Run(c, t0, steps).events, id));
  }

  /** Within one life of the key even the times do not matter: the answers to one id depend
      on nothing but its own costs. */
  lemma AnswersDependOnOwnCosts(c: Config, t0: real, steps: seq<Step>, t1: real, others: seq<Step>, id: Id)
    requires c.Sound() && ValidId(c, id) && InOneLife(c, Run(c, t0, steps).events, id) && InOneLife(c, Run(c, t1, others).events, id)
    requires CostsOf(Run(c, t0, steps).events, id) == CostsOf(Run(c, t1, others).events, id)
    ensures OksOf(Run(c, t0, steps).events, id) == OksOf(Run(c, t1, others).events, id)
  {
    FirstServed(c, t0, steps, id);
    FirstServed(c, t1, others, id);
  }

  /** Fresh for a key and inside one epoch, the Redis limiter and the in-memory token
      limiter answer the same costs alike. */
  lemma SameAsMemory(c: Config, t0: real, steps: seq<Step>, id: Id, calls: seq<MemoryLimiter.Call>, key: MemoryLimiter.Key)
    requires c.Sound() && ValidId(c, id) && InOneLife(c, Run(c, t0, steps).events, id)
    requires MemoryLimiter.SameLimit(calls, key, c.LimitFor(id))
    requires forall k <- calls :: k.key == key ==> Epoch(c, k.now) == id.epoch
    requires MemoryLimiter.CostsTo(calls, key) == CostsOf(Run(c, t0, steps).events, id)
    ensures MemoryLimiter.AnswersTo(c.W(), calls, key) == MemoryLimiter.Answers(OksOf(Run(c, t0, steps).events, id))
  {
    FirstServed(c, t0, steps, id);
    CallCosts(calls, key);
    forall k <- calls | k.key == key
      ensures k.cost >= 1 && EpochStart(c, id.epoch) <= k.now < EpochStart(c, id.epoch) + c.W()
    {
      assert k.cost in MemoryLimiter.CostsTo(calls, key);
      WindowsBracket(k.now, c.W());
    }
    MemoryLimiter.OneWindowIsFirstFit(c.W(), calls, key, c.LimitFor(id), EpochStart(c, id.epoch));
  }

  lemma {:induction false} CallCosts(calls: seq<MemoryLimiter.Call>, key: MemoryLimiter.Key)
    ensures forall k <- calls :: k.key == key ==> k.cost in MemoryLimiter.CostsTo(calls, key)
  {
    if calls != [] {
      var front := calls[..|calls| - 1];
      CallCosts(front, key);
      assert calls == front + [calls[|calls| - 1]];
    }
  }

  // ----------------------------------------------- intervals across epochs

  function EpochStart(c: Config, n: int): real
  {
    Boundary(n, c.W())
  }

  /** The grants of a caller over all epochs, each charged to the start of its epoch. */
  function GrantsAcross(c: Config, events: seq<Event>, who: Id): seq<Grant>
  {
    if events == [] then []
    else
      var e := events[|events| - 1];
      GrantsAcross(c, events[..|events| - 1], who)
      + (if e.granted && e.id == who.(epoch := e.id.epoch) && e.cost >= 0 then [Grant(e.time, EpochStart(c, e.id.epoch), e.cost)] else [])
  }

  /** Every script of the caller for this model and budget has run in the epoch it named. */
  predicate AlwaysPunctual(c: Config, events: seq<Event>, who: Id)
    requires c.windowSeconds >= 1
  {
    forall e <- events :: e.id == who.(epoch := e.id.epoch) ==> Epoch(c, e.time) == e.id.epoch
  }

  lemma {:induction false} AcrossFromEvents(c: Config, events: seq<Event>, who: Id)
    requires c.windowSeconds >= 1 && AlwaysPunctual(c, events, who)
    ensures forall g <- GrantsAcross(c, events, who) ::
              g.start == Boundary(Windows(g.time, c.W()), c.W())
  {
    if events != [] {
      assert events[|events| - 1] in events;
      AcrossFromEvents(c, events[..|events| - 1], who);
    }
  }

  /** What is charged to an epoch's start is what was granted under that epoch. */
  lemma {:induction false} ChargedIsAdmitted(c: Config, events: seq<Event>, who: Id)
    requires c.windowSeconds >= 1 && forall e <- events :: e.cost >= 1
    ensures CostWhere(GrantsAcross(c, events, who), ChargedTo(EpochStart(c, who.epoch)))
            == FirstFit.Admitted(CostsOf(events, who), OksOf(events, who))
  {
    if events != [] {
      var front, e := events[..|events| - 1], events[|events| - 1];
      assert e in events;
      ChargedIsAdmitted(c, front, who);
      BoundaryOrder(e.id.epoch, who.epoch, c.W());
      var more := GrantsAcross(c, events, who)[|GrantsAcross(c, front, who)|..];
      assert GrantsAcross(c, events, who) == GrantsAcross(c, front, who) + more;
      CostAppend(GrantsAcross(c, front, who), more, ChargedTo(EpochStart(c, who.epoch)));
      AdmittedSnoc(CostsOf(front, who), OksOf(front, who), e.cost, e.granted);
      assert CostsOf(front, who) + [] == CostsOf(front, who) && OksOf(front, who) + [] == OksOf(front, who);
    }
  }

  lemma {:induction false} AdmittedSnoc(costs: seq<int>, oks: seq<bool>, cost: int, ok: bool)
    requires |costs| == |oks|
    ensures FirstFit.Admitted(costs + [cost], oks + [ok]) == FirstFit.Admitted(costs, oks) + (if ok then cost else 0)
    decreases costs
  {
    if costs == [] {
      assert costs + [cost] == [cost] && oks + [ok] == [ok];
    } else {
      assert (costs + [cost])[1..] == costs[1..] + [cost] && (oks + [ok])[1..] == oks[1..] + [ok];
      AdmittedSnoc(costs[1..], oks[1..], cost, ok);
    }
  }

  lemma AcrossCharges(c: Config, events: seq<Event>, who: Id, s: real)
    requires c.windowSeconds >= 1 && AlwaysPunctual(c, events, who)
    requires forall n: int :: s != EpochStart(c, n)
    ensures CostWhere(GrantsAcross(c, events, who), ChargedTo(s)) == 0
  {
    AcrossFromEvents(c, events, who);
    forall g <- GrantsAcross(c, events, who)
      ensures g.start != s
    {
      assert g.start == EpochStart(c, Windows(g.time, c.W()));
    }
    CostNone(GrantsAcross(c, events, who), ChargedTo(s));
  }

  lemma EpochCharged(c: Config, events: seq<Event>, who: Id, n: int)
    requires c.windowSeconds >= 1 && forall e <- events :: e.cost >= 1
    ensures var id := who.(epoch := n);
            CostWhere(GrantsAcross(c, events, who), ChargedTo(EpochStart(c, n))) == FirstFit.Admitted(CostsOf(events, id), OksOf(events, id))
  {
    ChargedIsAdmitted(c, events, who.(epoch := n));
    SameAcross(c, events, who, who.(epoch := n));
  }

  lemma RunCharged(c: Config, t0: real, steps: seq<Step>, who: Id, s: real)
    requires c.Sound() && AlwaysPunctual(c, Run(c, t0, steps).events, who) && ValidId(c, who)
    ensures CostWhere(GrantsAcross(c, Run(c, t0, steps).events, who), ChargedTo(s)) <= c.LimitFor(who)
  {
    RunShape(c, t0, steps);
    if n: int :| s == EpochStart(c, n) {
      EpochCharged(c, Run(c, t0, steps).events, who, n);
      EpochNeverOverspent(c, t0, steps, who.(epoch := n));
    } else {
      AcrossCharges(c, Run(c, t0, steps).events, who, s);
    }
  }

  /** With a caller's scripts inside their epochs, the caller is granted at most twice the
      limit of a model's budget in any half-open interval as long as the window. */
  lemma IntervalAcrossEpochs(c: Config, t0: real, steps: seq<Step>, who: Id, a: real)
    requires c.Sound() && AlwaysPunctual(c, Run(c, t0, steps).events, who) && ValidId(c, who)
    ensures CostWhere(GrantsAcross(c, Run(c, t0, steps).events, who), During(a, a + c.W())) <= 2 * c.LimitFor(who)
  {
    AcrossFromEvents(c, Run(c, t0, steps).events, who);
    forall s: real
      ensures CostWhere(GrantsAcross(c, Run(c, t0, steps).events, who), ChargedTo(s)) <= c.LimitFor(who)
    {
      RunCharged(c, t0, steps, who, s);
    }
    AlignedInterval(c.W(), c.LimitFor(who), GrantsAcross(c, Run(c, t0, steps).events, who), a);
  }

  lemma {:induction false} SameAcross(c: Config, events: seq<Event>, who: Id, id: Id)
    requires id == who.(epoch := id.epoch)
    ensures GrantsAcross(c, events, who) == GrantsAcross(c, events, id)
  {
    if events != [] {
      SameAcross(c, events[..|events| - 1], who, id);
    }
  }

  // ------------------------------------------------------ runs of any kind

  function GrantsUnder(events: seq<Event>, id: Id): seq<Grant>
  {
    if events == [] then []
    else
      var e := events[|events| - 1];
      GrantsUnder(events[..|events| - 1], id)
      + (if e.granted && e.id == id && e.cost >= 0 then [Grant(e.time, e.born, e.cost)] else [])
  }

  /** An entry carries a time to live and counts the grants made since it was created. */
  ghost predicate Backed(w: real, entry: Entry, grants: seq<Grant>, now: real)
  {
    && entry.expiry.Some?
    && var start := entry.expiry.value - w;
       && start <= now
       && entry.count == CostWhere(grants, ChargedTo(start)) >= 1
       && OpenedAt(grants, start)
       && forall g <- grants :: g.start == start || (g.start + w <= start && g.time <= start)
  }

  ghost predicate Settled(w: real, limit: int, grants: seq<Grant>, now: real)
  {
    && WellSpaced(w, limit, grants)
    && Anchored(grants)
    && forall g <- grants :: g.time <= now
  }

  ghost predicate Born(c: Config, s: Sys, id: Id)
  {
    var grants, key := GrantsUnder(s.events, id), KeyText(c, id);
    && Settled(c.W(), c.LimitFor(id), grants, s.clock)
    && if key in s.store then Backed(c.W(), s.store[key], grants, s.clock) else grants == []
  }

  /** A grant made now, charged to the window at start. */
  lemma SettledGrant(w: real, limit: int, grants: seq<Grant>, start: real, g: Grant)
    requires w > 0.0 && Settled(w, limit, grants, g.time) && g.start == start <= g.time && g.cost >= 1
    requires forall h <- grants :: h.start == start || (h.start + w <= start && h.time <= start)
    requires OpenedAt(grants, start) || g.time == start
    requires CostWhere(grants, ChargedTo(start)) + g.cost <= limit
    ensures Settled(w, limit, grants + [g], g.time)
  {
    Extend(w, limit, grants, g);
    MemoryLimiter.OpenersStay(grants, g);
  }

  lemma BackedGrant(w: real, grants: seq<Grant>, start: real, g: Grant, entry: Entry)
    requires Anchored(grants) && g.start == start <= g.time && g.cost >= 1
    requires forall h <- grants :: h.start == start || (h.start + w <= start && h.time <= start)
    requires OpenedAt(grants, start) || g.time == start
    requires entry == Entry(CostWhere(grants, ChargedTo(start)) + g.cost, Some(start + w))
    ensures Backed(w, entry, grants + [g], g.time)
  {
    hide Anchored, CostWhere, ChargedTo;
    ChargedOnce(g);
    CostAppend(grants, [g], ChargedTo(start));
    MemoryLimiter.OpenersStay(grants, g);
  }

  lemma ChargedOnce(g: Grant)
    ensures CostWhere([g], ChargedTo(g.start)) == g.cost
  {
    assert [g][..0] == [];
  }

  /** The window a script call is charged to, from the key's entry. */
  lemma WindowOf(gone: bool, w: real, store: Store, key: string, grants: seq<Grant>, now: real) returns (start: real)
    requires w > 0.0 && forall g <- grants :: g.time <= now
    requires if key in store then Backed(w, store[key], grants, now) else grants == []
    ensures start == if Current(gone, store, key, now) == 0 then now else store[key].expiry.value - w
    ensures start <= now && (OpenedAt(grants, start) || now == start)
    ensures CostWhere(grants, ChargedTo(start)) == Current(gone, store, key, now)
    ensures forall h <- grants :: h.start == start || (h.start + w <= start && h.time <= start)
    ensures Current(gone, store, key, now) != 0 ==> store[key].expiry == Some(start + w)
  {
    if Current(gone, store, key, now) == 0 {
      start := now;
      assert forall h <- grants :: h.start + w <= start && h.time <= start;
      NothingChargedNow(w, grants, now);
    } else {
      start := store[key].expiry.value - w;
    }
  }

  lemma NothingChargedNow(w: real, grants: seq<Grant>, now: real)
    requires w > 0.0 && forall g <- grants :: g.start + w <= now
    ensures CostWhere(grants, ChargedTo(now)) == 0
  {
    CostNone(grants, ChargedTo(now));
  }

  lemma BornOther(c: Config, s: Sys, p: nat, id: Id)
    requires c.Sound() && p in s.pending && ValidId(c, id) && ValidId(c, s.pending[p].id)
    requires Born(c, s, id) && s.pending[p].id != id
    ensures Born(c, RunScript(c, s, p), id)
  {
    var s' := RunScript(c, s, p);
    assert s'.events[..|s'.events| - 1] == s.events;
    if KeyText(c, id) == KeyText(c, s.pending[p].id) {
      KeyTextInjective(c, id, s.pending[p].id);
    }
    assert GrantsUnder(s'.events, id) == GrantsUnder(s.events, id);
  }

  lemma BornOwn(c: Config, s: Sys, p: nat)
    requires c.Sound() && Shape(c, s) && p in s.pending && Born(c, s, s.pending[p].id)
    ensures Born(c, RunScript(c, s, p), s.pending[p].id)
  {
    hide KeyText, CostWhere, ChargedTo, OpenedAt, Anchored;
    var Pending(id, cost) := s.pending[p];
    var key, grants, s' := KeyText(c, id), GrantsUnder(s.events, id), RunScript(c, s, p);
    var start := WindowOf(c.goneAtDeadline, c.W(), s.store, key, grants, s.clock);
    var e := s'.events[|s.events|];
    assert s'.events[..|s'.events| - 1] == s.events;
    if e.granted {
      var g := Grant(s.clock, start, cost);
      assert s'.store[key] == Entry(CostWhere(grants, ChargedTo(start)) + cost, Some(start + c.W())) && e.born == start;
      assert GrantsUnder(s'.events, id) == grants + [g];
      SettledGrant(c.W(), c.LimitFor(id), grants, start, g);
      BackedGrant(c.W(), grants, start, g, s'.store[key]);
    } else {
      assert GrantsUnder(s'.events, id) == grants;
    }
  }

  lemma BornStep(c: Config, s: Sys, step: Step, id: Id)
    requires c.Sound() && Shape(c, s) && ValidId(c, id) && Born(c, s, id)
    ensures Born(c, Next(c, s, step), id)
  {
    hide RunScript;
    if step.Eval? && step.process in s.pending {
      assert ValidId(c, s.pending[step.process].id);
      hide Born;
      hide Shape;
      if s.pending[step.process].id == id {
        BornOwn(c, s, step.process);
      } else {
        BornOther(c, s, step.process, id);
      }
    } else {
      ClockOnly(c, s, step, id);
    }
  }

  lemma ClockOnly(c: Config, s: Sys, step: Step, id: Id)
    requires c.windowSeconds >= 1 && Born(c, s, id) && (step.Eval? ==> step.process !in s.pending)
    ensures Born(c, Next(c, s, step), id)
  {
    hide RunScript;
    hide GrantsUnder;
    hide KeyText;
    hide WellSpaced;
    hide Anchored;
    hide OpenedAt;
    hide CostWhere;
    var s' := Next(c, s, step);
    assert s'.store == s.store && s'.events == s.events && s'.clock >= s.clock;
    hide Next;
  }

  lemma {:induction false} AlwaysBorn(c: Config, t0: real, steps: seq<Step>, id: Id)
    requires c.Sound() && ValidId(c, id)
    ensures Born(c, Run(c, t0, steps), id)
  {
    if steps == [] {
      assert forall s: real :: CostWhere([], ChargedTo(s)) == 0;
    } else {
      var front := steps[..|steps| - 1];
      RunShape(c, t0, front);
      AlwaysBorn(c, t0, front, id);
      BornStep(c, Run(c, t0, front), steps[|steps| - 1], id);
    }
  }

  /** However late scripts run: every key carries a time to live, and under one key no
      half-open interval as long as the window is granted more than twice the limit less one. */
  lemma IntervalUnderOneKey(c: Config, t0: real, steps: seq<Step>, id: Id, a: real)
    requires c.Sound() && ValidId(c, id)
    ensures var s := Run(c, t0, steps);
            && (KeyText(c, id) in s.store ==> s.store[KeyText(c, id)].expiry.Some?)
            && CostWhere(GrantsUnder(s.events, id), During(a, a + c.W())) <= 2 * c.LimitFor(id) - 1
  {
    AlwaysBorn(c, t0, steps, id);
    BornInterval(c, Run(c, t0, steps), id, a);
  }

  lemma BornInterval(c: Config, s: Sys, id: Id, a: real)
    requires c.LimitFor(id) >= 1 && Born(c, s, id)
    ensures KeyText(c, id) in s.store ==> s.store[KeyText(c, id)].expiry.Some?
    ensures CostWhere(GrantsUnder(s.events, id), During(a, a + c.W())) <= 2 * c.LimitFor(id) - 1
  {
    IntervalBound(c.W(), c.LimitFor(id), GrantsUnder(s.events, id), a);
  }

  /** Two replicas name the same epoch, and one of them runs its script late. */
  lemma LateRun(c: Config, caller: string, model: string, budget: Budget)
    requires c.Sound() && caller in c.callers && c.limits(model, budget) >= 1
    ensures var limit := c.limits(model, budget);
            var r, id := Request(caller, model, budget, limit), Id(model, budget, caller, Epoch(c, 0.0));
            Run(c, 0.0, [Read(0, r), Read(1, r), Eval(0), Tick(c.W() + 1.0), Eval(1)]).events
            == [Event(id, 0.0, limit, true, true, 0.0), Event(id, c.W() + 1.0, limit, true, true, c.W() + 1.0)]
  {
    var limit := c.limits(model, budget);
    var r := Request(caller, model, budget, limit);
    var id := Id(model, budget, caller, Epoch(c, 0.0));
    var key, p := KeyText(c, id), Pending(id, limit);
    hide KeyText;
    var all := [Read(0, r), Read(1, r), Eval(0), Tick(c.W() + 1.0), Eval(1)];
    assert all[..4][..3] == all[..3] && all[..3][..2] == all[..2] && all[..2][..1] == all[..1] && all[..1][..0] == [];
    var s2 := Run(c, 0.0, all[..2]);
    assert s2 == Sys(0.0, map[], map[0 := p, 1 := p], []) by {
      assert Run(c, 0.0, all[..1]) == Sys(0.0, map[], map[0 := p], []);
    }
    var e0 := Event(id, 0.0, limit, true, true, 0.0);
    var s3 := Run(c, 0.0, all[..3]);
    assert s3.events == [e0] && s3.pending == map[1 := p] && s3.store == map[key := Entry(limit, Some(c.W()))] by {
      assert s2.pending - {0} == map[1 := p];
    }
    var s4 := Run(c, 0.0, all[..4]);
    assert s4 == s3.(clock := c.W() + 1.0);
    var e1 := Event(id, c.W() + 1.0, limit, true, true, c.W() + 1.0);
    assert all[..5] == all && all[..|all| - 1] == all[..4];
    assert Run(c, 0.0, all).events == [e0] + [e1];
  }

  lemma TwoGranted(e0: Event, e1: Event, id: Id, limit: int)
    requires e0.id == id == e1.id && e0.cost == limit == e1.cost && e0.granted && e1.granted
    ensures FirstFit.Admitted(CostsOf([e0, e1], id), OksOf([e0, e1], id)) == 2 * limit
  {
    EventsSnoc([e0], e1, id);
    EventsSnoc([], e0, id);
    assert [] + [e0] == [e0] && [e0] + [e1] == [e0, e1];
    assert CostsOf([e0, e1], id) == [limit, limit] && OksOf([e0, e1], id) == [true, true];
    assert FirstFit.Admitted([limit], [true]) == limit;
    assert [limit, limit][1..] == [limit] && [true, true][1..] == [true];
  }

  /** The per-epoch limit does need punctual scripts: two replicas name the same epoch,
      and one of them runs its script after the key has expired. */
  lemma LateScriptOverspends(c: Config, caller: string, model: string, budget: Budget)
    requires c.Sound() && caller in c.callers && c.limits(model, budget) >= 1
    ensures var r := Request(caller, model, budget, c.limits(model, budget));
            var id := Id(model, budget, caller, Epoch(c, 0.0));
            var steps := [Read(0, r), Read(1, r), Eval(0), Tick(c.W() + 1.0), Eval(1)];
            var events := Run(c, 0.0, steps).events;
            FirstFit.Admitted(CostsOf(events, id), OksOf(events, id)) == 2 * c.LimitFor(id)
  {
    hide Run;
    LateRun(c, caller, model, budget);
    var limit, id := c.limits(model, budget), Id(model, budget, caller, Epoch(c, 0.0));
    TwoGranted(Event(id, 0.0, limit, true, true, 0.0), Event(id, c.W() + 1.0, limit, true, true, c.W() + 1.0), id, limit);
  }
}
