/** The cap on unauthenticated denials that reach the audit log (gateway/audit.py). */
module DenialBudget {
  import opened Grants

  const MINUTE: real := 60.0

  /** One call to the budget, at a reading of its clock. */
  datatype Ask = Ask(now: real)

  datatype Gate = Gate(started: real, count: int)

  /** One call: the window restarts on time alone, even when the call is then refused. */
  function GateStep(limit: int, gate: Gate, now: real): (Gate, bool)
  {
    var open := if now - gate.started >= MINUTE then Gate(now, 0) else gate;
    if open.count >= limit then (open, false) else (Gate(open.started, open.count + 1), true)
  }

  /** The gate after calls at the given asks, from a budget created at `created`. */
  function GateAfter(limit: int, created: real, asks: seq<Ask>): Gate
  {
    if asks == [] then Gate(created, 0)
    else GateStep(limit, GateAfter(limit, created, asks[..|asks| - 1]), asks[|asks| - 1].now).0
  }

  function Allowed(limit: int, created: real, asks: seq<Ask>): seq<Grant>
  {
    if asks == [] then []
    else
      var front, now := asks[..|asks| - 1], asks[|asks| - 1].now;
      var (gate, ok) := GateStep(limit, GateAfter(limit, created, front), now);
      Allowed(limit, created, front) + (if ok then [Grant(now, gate.started, 1)] else [])
  }

  class DenialAuditBudget {
    const limitPerMinute: int
    ghost const created: real
    var windowStarted: real
    var count: int
    ghost var calls: seq<Ask>

    ghost predicate Valid()
      reads this
    {
      Gate(windowStarted, count) == GateAfter(limitPerMinute, created, calls)
    }

    constructor (limitPerMinute: int, now: real)
      ensures Valid() && calls == [] && created == now && this.limitPerMinute == limitPerMinute
    {
      this.limitPerMinute := limitPerMinute;
      this.created := now;
      this.windowStarted := now;
      this.count := 0;
      this.calls := [];
    }

    method Allow(now: real) returns (ok: bool)
      requires Valid()
      modifies this
      ensures Valid() && calls == old(calls) + [Ask(now)]
      ensures (Gate(windowStarted, count), ok) == GateStep(limitPerMinute, old(Gate(windowStarted, count)), now)
    {
      calls := calls + [Ask(now)];
      assert calls[..|calls| - 1] == old(calls);
      assert GateAfter(limitPerMinute, created, calls) == GateStep(limitPerMinute, Gate(windowStarted, count), now).0;
      if now - windowStarted >= MINUTE {
        windowStarted := now;
        count := 0;
      }
      if count >= limitPerMinute {
        return false;
      }
      count := count + 1;
      return true;
    }
  }

  predicate ClockNeverBack(created: real, asks: seq<Ask>)
  {
    && (forall i :: 0 <= i < |asks| ==> created <= asks[i].now)
    && forall i, j :: 0 <= i < j < |asks| ==> asks[i].now <= asks[j].now
  }

  ghost predicate Accounted(limit: int, gate: Gate, grants: seq<Grant>, now: real)
  {
    && WellSpaced(MINUTE, limit, grants)
    && gate.started <= now
    && gate.count == CostWhere(grants, ChargedTo(gate.started))
    && forall g <- grants :: g.time <= now && (g.start == gate.started || (g.start + MINUTE <= gate.started && g.time <= gate.started))
  }

  lemma {:induction false} RunAccounted(limit: int, created: real, asks: seq<Ask>, now: real)
    requires limit >= 0 && ClockNeverBack(created, asks) && created <= now
    requires asks != [] ==> asks[|asks| - 1].now <= now
    ensures Accounted(limit, GateAfter(limit, created, asks), Allowed(limit, created, asks), now)
  {
    if asks == [] {
      assert forall s: real :: CostWhere([], ChargedTo(s)) == 0;
    } else {
      var front, t := asks[..|asks| - 1], asks[|asks| - 1].now;
      RunAccounted(limit, created, front, t);
      GateKeeps(limit, GateAfter(limit, created, front), Allowed(limit, created, front), t, now);
    }
  }

  lemma GateKeeps(limit: int, gate: Gate, grants: seq<Grant>, now: real, later: real)
    requires limit >= 0 && now <= later && Accounted(limit, gate, grants, now)
    ensures var (gate', ok) := GateStep(limit, gate, now);
            Accounted(limit, gate', grants + (if ok then [Grant(now, gate'.started, 1)] else []), later)
  {
    var (gate', ok) := GateStep(limit, gate, now);
    if now - gate.started >= MINUTE {
      CostNone(grants, ChargedTo(now));
    }
    if ok {
      Extend(MINUTE, limit, grants, Grant(now, gate'.started, 1));
    } else {
      assert grants + [] == grants;
    }
  }

  /** No minute, wherever it starts, lets more than twice the limit through. */
  lemma MinuteLimit(limit: int, created: real, asks: seq<Ask>, a: real)
    requires limit >= 1 && ClockNeverBack(created, asks)
    ensures CostWhere(Allowed(limit, created, asks), During(a, a + MINUTE)) <= 2 * limit
  {
    RunAccounted(limit, created, asks, if asks == [] then created else asks[|asks| - 1].now);
    IntervalBound(MINUTE, limit, Allowed(limit, created, asks), a);
  }

  /** A limit of zero or less lets nothing through. */
  lemma {:induction false} NoBudgetNoGrant(limit: int, created: real, asks: seq<Ask>)
    requires limit <= 0
    ensures Allowed(limit, created, asks) == [] && GateAfter(limit, created, asks).count == 0
  {
    if asks != [] {
      NoBudgetNoGrant(limit, created, asks[..|asks| - 1]);
    }
  }

  /** n calls at one instant. */
  function Burst(now: real, n: nat): seq<Ask>
  {
    if n == 0 then [] else Burst(now, n - 1) + [Ask(now)]
  }

  lemma AskSnoc(limit: int, created: real, asks: seq<Ask>, now: real)
    ensures var (gate, ok) := GateStep(limit, GateAfter(limit, created, asks), now);
            && GateAfter(limit, created, asks + [Ask(now)]) == gate
            && Allowed(limit, created, asks + [Ask(now)]) == Allowed(limit, created, asks) + (if ok then [Grant(now, gate.started, 1)] else [])
  {
    assert (asks + [Ask(now)])[..|asks + [Ask(now)]| - 1] == asks;
  }

  /** n calls at one instant that fit the window then open are all granted. */
  lemma {:induction false} BurstGranted(limit: int, created: real, asks: seq<Ask>, now: real, n: nat, open: Gate)
    requires 1 <= n && open.count + n <= limit && now - open.started < MINUTE
    requires var gate := GateAfter(limit, created, asks);
             open == if now - gate.started >= MINUTE then Gate(now, 0) else gate
    ensures GateAfter(limit, created, asks + Burst(now, n)) == Gate(open.started, open.count + n)
    ensures Allowed(limit, created, asks + Burst(now, n)) == Allowed(limit, created, asks) + Repeated(Grant(now, open.started, 1), n)
  {
    hide GateAfter;
    hide Allowed;
    var front, g := asks + Burst(now, n - 1), Grant(now, open.started, 1);
    assert asks + Burst(now, n) == front + [Ask(now)];
    AskSnoc(limit, created, front, now);
    if n == 1 {
      assert front == asks && Repeated(g, 1) == [g];
    } else {
      BurstGranted(limit, created, asks, now, n - 1, open);
      var before := Allowed(limit, created, asks);
      assert before + Repeated(g, n - 1) + [g] == before + Repeated(g, n);
    }
  }

  /** Unlike the in-memory limiters, this cap can let the full double through, for every
      limit: the first window opens with the budget, not with a granted call. */
  lemma MinuteLimitReached(limit: int)
    requires limit >= 1
    ensures CostWhere(Allowed(limit, 0.0, Burst(59.0, limit) + Burst(60.0, limit)), During(59.0, 59.0 + MINUTE)) == 2 * limit
  {
    var late, p := Burst(59.0, limit), During(59.0, 59.0 + MINUTE);
    var g, h := Grant(59.0, 0.0, 1), Grant(60.0, 60.0, 1);
    assert [] + late == late && Allowed(limit, 0.0, []) == [] && GateAfter(limit, 0.0, []) == Gate(0.0, 0);
    assert [] + Repeated(g, limit) == Repeated(g, limit);
    hide Burst;
    hide Repeated;
    hide CostWhere;
    BurstGranted(limit, 0.0, [], 59.0, limit, Gate(0.0, 0));
    BurstGranted(limit, 0.0, late, 60.0, limit, Gate(60.0, 0));
    CostAppend(Repeated(g, limit), Repeated(h, limit), p);
    RepeatedCost(g, limit, p);
    RepeatedCost(h, limit, p);
  }

  // ---------------------------------------------------- what whole runs answer

  /** How the asks of a run were answered. */
  function AnswersOf(limit: int, created: real, asks: seq<Ask>): seq<bool>
  {
    if asks == [] then []
    else
      var front, now := asks[..|asks| - 1], asks[|asks| - 1].now;
      AnswersOf(limit, created, front) + [GateStep(limit, GateAfter(limit, created, front), now).1]
  }

  /** The first ask at or after a time, or the number of asks. */
  function FirstFrom(asks: seq<Ask>, time: real): (i: nat)
    ensures i <= |asks| && (i < |asks| ==> asks[i].now >= time)
    ensures forall j :: 0 <= j < i ==> asks[j].now < time
  {
    if asks == [] || asks[0].now >= time then 0 else FirstFrom(asks[1..], time) + 1
  }

  /** A window that starts at a time lets the first `limit` of its asks through, and the
      first ask a minute or more after that time starts the next. */
  function InTurn(limit: int, start: real, asks: seq<Ask>): (oks: seq<bool>)
    decreases |asks|, if asks != [] && asks[0].now >= start + MINUTE then 1 else 0
  {
    var end := FirstFrom(asks, start + MINUTE);
    seq(end, i => i < limit) + (if end == |asks| then [] else InTurn(limit, asks[end].now, asks[end..]))
  }

  function AnswersFrom(limit: int, gate: Gate, asks: seq<Ask>): seq<bool>
    decreases asks
  {
    if asks == [] then []
    else
      var (next, ok) := GateStep(limit, gate, asks[0].now);
      [ok] + AnswersFrom(limit, next, asks[1..])
  }

  function GateFrom(limit: int, gate: Gate, asks: seq<Ask>): Gate
    decreases asks
  {
    if asks == [] then gate else GateFrom(limit, GateStep(limit, gate, asks[0].now).0, asks[1..])
  }

  lemma {:induction false} FromBoth(limit: int, gate: Gate, xs: seq<Ask>, ys: seq<Ask>)
    ensures AnswersFrom(limit, gate, xs + ys) == AnswersFrom(limit, gate, xs) + AnswersFrom(limit, GateFrom(limit, gate, xs), ys)
    ensures GateFrom(limit, gate, xs + ys) == GateFrom(limit, GateFrom(limit, gate, xs), ys)
    decreases xs
  {
    if xs == [] {
      assert xs + ys == ys;
    } else {
      assert (xs + ys)[1..] == xs[1..] + ys;
      FromBoth(limit, GateStep(limit, gate, xs[0].now).0, xs[1..], ys);
    }
  }

  lemma {:induction false} RunFromStart(limit: int, created: real, asks: seq<Ask>)
    ensures AnswersOf(limit, created, asks) == AnswersFrom(limit, Gate(created, 0), asks)
    ensures GateAfter(limit, created, asks) == GateFrom(limit, Gate(created, 0), asks)
  {
    if asks != [] {
      var front, last := asks[..|asks| - 1], asks[|asks| - 1];
      assert asks == front + [last] && [last][1..] == [];
      RunFromStart(limit, created, front);
      FromBoth(limit, Gate(created, 0), front, [last]);
    }
  }

  /** A window serves its asks by their number alone. */
  lemma {:induction false} OneWindow(limit: int, start: real, count: nat, asks: seq<Ask>)
    requires forall a <- asks :: a.now < start + MINUTE
    requires count == 0 || count <= limit
    ensures AnswersFrom(limit, Gate(start, count), asks) == seq(|asks|, i => count + i < limit)
    ensures GateFrom(limit, Gate(start, count), asks).started == start
    decreases asks
  {
    if asks != [] {
      var now, rest := asks[0].now, asks[1..];
      assert asks[0] in asks && forall a <- rest :: a in asks;
      var (next, ok) := GateStep(limit, Gate(start, count), now);
      if ok {
        OneWindow(limit, start, count + 1, rest);
      } else {
        OneWindow(limit, start, count, rest);
      }
    }
  }

  /** When the first ask is late already, its own window is the next. */
  lemma FirstIsLate(limit: int, start: real, asks: seq<Ask>)
    requires asks != [] && asks[0].now >= start + MINUTE
    ensures InTurn(limit, start, asks) == InTurn(limit, asks[0].now, asks)
  {
    assert asks[0..] == asks && FirstFrom(asks, start + MINUTE) == 0;
    assert seq(0, i => i < limit) == [];
  }

  lemma {:induction false} FromInTurn(limit: int, gate: Gate, asks: seq<Ask>)
    requires gate.count == 0 || (asks != [] && asks[0].now >= gate.started + MINUTE)
    ensures AnswersFrom(limit, gate, asks) == InTurn(limit, gate.started, asks)
    decreases |asks|, if asks != [] && asks[0].now >= gate.started + MINUTE then 1 else 0
  {
    hide AnswersFrom, GateFrom, GateStep;
    var end := FirstFrom(asks, gate.started + MINUTE);
    if end == 0 {
      if asks == [] {
        NothingAsked(limit, gate);
      } else {
        assert asks[0..] == asks;
        RestartsOnTime(limit, gate, asks);
        FromInTurn(limit, Gate(asks[0].now, 0), asks);
      }
    } else {
      var mine, rest := asks[..end], asks[end..];
      assert asks == mine + rest;
      OneWindow(limit, gate.started, gate.count, mine);
      FromBoth(limit, gate, mine, rest);
      if rest == [] {
        NothingAsked(limit, GateFrom(limit, gate, mine));
      } else {
        FromInTurn(limit, GateFrom(limit, gate, mine), rest);
        FirstIsLate(limit, gate.started, rest);
      }
    }
  }

  lemma NothingAsked(limit: int, gate: Gate)
    ensures AnswersFrom(limit, gate, []) == []
  {
  }

  /** At or after its minute a window is as good as a new one from then on. */
  lemma RestartsOnTime(limit: int, gate: Gate, asks: seq<Ask>)
    requires asks != [] && asks[0].now >= gate.started + MINUTE
    ensures AnswersFrom(limit, gate, asks) == AnswersFrom(limit, Gate(asks[0].now, 0), asks)
  {
  }

  /** Every run of the budget, whatever its clock reads, is answered by windows in turn. */
  lemma RunIsWindowsInTurn(limit: int, created: real, asks: seq<Ask>)
    ensures AnswersOf(limit, created, asks) == InTurn(limit, created, asks)
  {
    RunFromStart(limit, created, asks);
    FromInTurn(limit, Gate(created, 0), asks);
  }
}
