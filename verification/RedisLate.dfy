/** What a caller is granted across epochs when its scripts may run late. */
module RedisLate {
  import opened Grants
  import opened RedisLimiter
  import opened RedisBounds
  import FirstFit

  /** A script of the caller for this model and budget, in whatever epoch. */
  predicate Own(who: Id, e: Event)
  {
    e.id == who.(epoch := e.id.epoch)
  }

  /** No script of the caller ran more than so many epochs after the one it named. */
  predicate LateBy(c: Config, events: seq<Event>, who: Id, delay: nat)
    requires c.windowSeconds >= 1
  {
    forall e <- events :: Own(who, e) ==> Epoch(c, e.time) <= e.id.epoch + delay
  }

  /** What the caller was granted under each of some epochs in an interval, together. */
  function UnderEpochs(events: seq<Event>, who: Id, first: int, count: nat, lo: real, hi: real): nat
  {
    if count == 0 then 0
    else
      UnderEpochs(events, who, first, count - 1, lo, hi)
      + CostWhere(GrantsUnder(events, who.(epoch := first + count - 1)), During(lo, hi))
  }

  /** What an epoch can grant in one window length: the limit while its scripts lie in one
      life of its key, and else all but twice as much. */
  function Allowance(c: Config, events: seq<Event>, id: Id): int
  {
    if InOneLife(c, events, id) then c.LimitFor(id) else 2 * c.LimitFor(id) - 1
  }

  function Allowances(c: Config, events: seq<Event>, who: Id, first: int, count: nat): int
  {
    if count == 0 then 0
    else Allowances(c, events, who, first, count - 1) + Allowance(c, events, who.(epoch := first + count - 1))
  }

  // ------------------------------------------------- grants by their epochs

  lemma UnderSnoc(events: seq<Event>, e: Event, id: Id, lo: real, hi: real)
    ensures CostWhere(GrantsUnder(events + [e], id), During(lo, hi))
            == CostWhere(GrantsUnder(events, id), During(lo, hi))
               + (if e.granted && e.id == id && e.cost >= 0 && lo <= e.time < hi then e.cost else 0)
  {
    var all := events + [e];
    assert all[..|all| - 1] == events;
    if e.granted && e.id == id && e.cost >= 0 {
      CostAppend(GrantsUnder(events, id), [Grant(e.time, e.born, e.cost)], During(lo, hi));
      OneCost(Grant(e.time, e.born, e.cost), lo, hi);
    } else {
      assert GrantsUnder(events, id) + [] == GrantsUnder(events, id);
    }
  }

  lemma OneCost(g: Grant, lo: real, hi: real)
    ensures CostWhere([g], During(lo, hi)) == if lo <= g.time < hi then g.cost else 0
  {
    assert [g][1..] == [];
  }

  lemma AcrossSnoc(c: Config, events: seq<Event>, e: Event, who: Id, lo: real, hi: real)
    ensures CostWhere(GrantsAcross(c, events + [e], who), During(lo, hi))
            == CostWhere(GrantsAcross(c, events, who), During(lo, hi))
               + (if e.granted && Own(who, e) && e.cost >= 0 && lo <= e.time < hi then e.cost else 0)
  {
    var all := events + [e];
    assert all[..|all| - 1] == events;
    if e.granted && Own(who, e) && e.cost >= 0 {
      var g := Grant(e.time, EpochStart(c, e.id.epoch), e.cost);
      CostAppend(GrantsAcross(c, events, who), [g], During(lo, hi));
      OneCost(g, lo, hi);
    } else {
      assert GrantsAcross(c, events, who) + [] == GrantsAcross(c, events, who);
    }
  }

  lemma {:induction false} EpochsSnoc(events: seq<Event>, e: Event, who: Id, first: int, count: nat, lo: real, hi: real)
    ensures UnderEpochs(events + [e], who, first, count, lo, hi)
            == UnderEpochs(events, who, first, count, lo, hi)
               + (if e.granted && Own(who, e) && first <= e.id.epoch < first + count && e.cost >= 0 && lo <= e.time < hi then e.cost else 0)
    decreases count
  {
    hide GrantsUnder, CostWhere, During;
    if count > 0 {
      EpochsSnoc(events, e, who, first, count - 1, lo, hi);
      UnderSnoc(events, e, who.(epoch := first + count - 1), lo, hi);
    }
  }

  /** The caller's scripts that ran in the interval named one of these epochs. */
  predicate Named(events: seq<Event>, who: Id, first: int, count: nat, lo: real, hi: real)
  {
    forall e <- events :: Own(who, e) && lo <= e.time < hi ==> first <= e.id.epoch < first + count
  }

  /** Then what was granted in the interval is what was granted under these epochs. */
  lemma {:induction false} AcrossIsUnderEpochs(c: Config, events: seq<Event>, who: Id, first: int, count: nat, lo: real, hi: real)
    requires Named(events, who, first, count, lo, hi)
    ensures CostWhere(GrantsAcross(c, events, who), During(lo, hi)) == UnderEpochs(events, who, first, count, lo, hi)
  {
    hide UnderEpochs, GrantsAcross, CostWhere, During;
    if events == [] {
      NoEvents(c, who, first, count, lo, hi);
    } else {
      var front, e := events[..|events| - 1], events[|events| - 1];
      assert events == front + [e] && e in events;
      AcrossIsUnderEpochs(c, front, who, first, count, lo, hi);
      AcrossSnoc(c, front, e, who, lo, hi);
      EpochsSnoc(front, e, who, first, count, lo, hi);
    }
  }

  lemma {:induction false} NoEvents(c: Config, who: Id, first: int, count: nat, lo: real, hi: real)
    ensures CostWhere(GrantsAcross(c, [], who), During(lo, hi)) == 0 == UnderEpochs([], who, first, count, lo, hi)
    decreases count
  {
    if count > 0 {
      NoEvents(c, who, first, count - 1, lo, hi);
    }
  }

  // -------------------------------------------------- what one epoch can grant

  lemma {:induction false} UnderIsAdmitted(events: seq<Event>, id: Id)
    requires forall e <- events :: e.cost >= 1
    ensures CostWhere(GrantsUnder(events, id), Anything()) == FirstFit.Admitted(CostsOf(events, id), OksOf(events, id))
  {
    if events != [] {
      var front, e := events[..|events| - 1], events[|events| - 1];
      assert e in events;
      UnderIsAdmitted(front, id);
      if e.id == id {
        AdmittedSnoc(CostsOf(front, id), OksOf(front, id), e.cost, e.granted);
      } else {
        assert CostsOf(front, id) + [] == CostsOf(front, id) && OksOf(front, id) + [] == OksOf(front, id);
      }
      if e.granted && e.id == id {
        CostAppend(GrantsUnder(front, id), [Grant(e.time, e.born, e.cost)], Anything());
        assert [Grant(e.time, e.born, e.cost)][1..] == [];
      } else {
        assert GrantsUnder(front, id) + [] == GrantsUnder(front, id);
      }
    }
  }

  lemma EpochAllowance(c: Config, t0: real, steps: seq<Step>, id: Id, a: real)
    requires c.Sound() && ValidId(c, id)
    ensures var events := Run(c, t0, steps).events;
            CostWhere(GrantsUnder(events, id), During(a, a + c.W())) <= Allowance(c, events, id)
  {
    hide Run;
    var events := Run(c, t0, steps).events;
    if InOneLife(c, events, id) {
      RunShape(c, t0, steps);
      NeverOverspentInOneLife(c, t0, steps, id);
      UnderIsAdmitted(events, id);
      CostMono(GrantsUnder(events, id), During(a, a + c.W()), Anything());
    } else {
      IntervalUnderOneKey(c, t0, steps, id, a);
    }
  }

  lemma {:induction false} EpochAllowances(c: Config, t0: real, steps: seq<Step>, who: Id, first: int, count: nat, a: real)
    requires c.Sound() && ValidId(c, who)
    ensures var events := Run(c, t0, steps).events;
            UnderEpochs(events, who, first, count, a, a + c.W()) <= Allowances(c, events, who, first, count)
    decreases count
  {
    hide Run, CostWhere, GrantsUnder, Allowance;
    if count > 0 {
      EpochAllowances(c, t0, steps, who, first, count - 1, a);
      EpochAllowance(c, t0, steps, who.(epoch := first + count - 1), a);
    }
  }

  // ------------------------------------------------------- across epochs

  /** Scripts at most `delay` epochs late: in an interval as long as the window they named
      one of the delay + 2 epochs up to the one in which it ends. */
  lemma EpochsNamed(c: Config, t0: real, steps: seq<Step>, who: Id, delay: nat, a: real)
    requires c.Sound() && LateBy(c, Run(c, t0, steps).events, who, delay)
    ensures Named(Run(c, t0, steps).events, who, Epoch(c, a) - delay, delay + 2, a, a + c.W())
  {
    hide Run;
    var events := Run(c, t0, steps).events;
    NamedBefore(c, t0, steps);
    forall e | e in events && Own(who, e) && a <= e.time < a + c.W()
      ensures Epoch(c, a) - delay <= e.id.epoch < Epoch(c, a) + 2
    {
      EpochsClose(c, a, e.time);
    }
  }

  lemma EpochsClose(c: Config, a: real, b: real)
    requires c.windowSeconds >= 1 && a <= b < a + c.W()
    ensures Epoch(c, a) <= Epoch(c, b) <= Epoch(c, a) + 1
  {
    var w, m, n := c.W(), Epoch(c, a), Epoch(c, b);
    WindowsMonotone(a, b, w);
    WindowsBracket(a, w);
    WindowsBracket(b, w);
    hide Boundary;
    if n > m + 1 {
      BoundaryOrder(m + 2, n, w);
      BoundaryStep(m, w);
      BoundaryStep(m + 1, w);
      assert false;
    }
  }

  /** A script runs no earlier than in the epoch it names. */
  lemma {:induction false} NamedBefore(c: Config, t0: real, steps: seq<Step>)
    requires c.Sound()
    ensures forall e <- Run(c, t0, steps).events :: e.id.epoch <= Epoch(c, e.time)
  {
    if steps != [] {
      hide Epoch;
      var front := steps[..|steps| - 1];
      NamedBefore(c, t0, front);
      RunShape(c, t0, front);
    }
  }

  /** However late a caller's scripts run, in any interval as long as the window it is
      granted no more than the allowances of the epochs they can have named: twice the
      limit when every script keeps to its epoch, and for every epoch of delay at most
      one allowance more. */
  lemma IntervalWhenLate(c: Config, t0: real, steps: seq<Step>, who: Id, delay: nat, a: real)
    requires c.Sound() && ValidId(c, who) && LateBy(c, Run(c, t0, steps).events, who, delay)
    ensures var events := Run(c, t0, steps).events;
            CostWhere(GrantsAcross(c, events, who), During(a, a + c.W())) <= Allowances(c, events, who, Epoch(c, a) - delay, delay + 2)
    ensures Allowances(c, Run(c, t0, steps).events, who, Epoch(c, a) - delay, delay + 2) <= (delay + 2) * (2 * c.LimitFor(who) - 1)
    ensures delay == 0 ==> Allowances(c, Run(c, t0, steps).events, who, Epoch(c, a), 2) == 2 * c.LimitFor(who)
  {
    hide Run, Allowances, GrantsAcross, CostWhere, Named, LateBy;
    var events, first := Run(c, t0, steps).events, Epoch(c, a) - delay;
    EpochsNamed(c, t0, steps, who, delay, a);
    AcrossIsUnderEpochs(c, events, who, first, delay + 2, a, a + c.W());
    EpochAllowances(c, t0, steps, who, first, delay + 2, a);
    AtMostDouble(c, events, who, first, delay + 2);
    if delay == 0 {
      NamedBefore(c, t0, steps);
      NoneLate(c, events, who, first);
    }
  }

  lemma {:induction false} AtMostDouble(c: Config, events: seq<Event>, who: Id, first: int, count: nat)
    requires ValidId(c, who)
    ensures Allowances(c, events, who, first, count) <= count * (2 * c.LimitFor(who) - 1)
    decreases count
  {
    hide InOneLife;
    if count > 0 {
      AtMostDouble(c, events, who, first, count - 1);
      OneMoreTimes(count - 1, 2 * c.LimitFor(who) - 1);
    }
  }

  lemma OneMoreTimes(n: int, x: int)
    ensures (n + 1) * x == n * x + x
  {
  }

  lemma NoneLate(c: Config, events: seq<Event>, who: Id, first: int)
    requires c.windowSeconds >= 1 && LateBy(c, events, who, 0) && forall e <- events :: e.id.epoch <= Epoch(c, e.time)
    ensures Allowances(c, events, who, first, 2) == 2 * c.LimitFor(who)
  {
    PunctualIsOneLife(c, events, who.(epoch := first));
    PunctualIsOneLife(c, events, who.(epoch := first + 1));
    hide InOneLife;
    assert Allowances(c, events, who, first, 1) == Allowances(c, events, who, first, 0) + Allowance(c, events, who.(epoch := first));
  }
}
