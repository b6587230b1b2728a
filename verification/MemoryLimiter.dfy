/** The in-memory fixed-window limiters of gateway/rate_limit.py. */
module MemoryLimiter {
  import opened Prelude
  import opened Grants
  import FirstFit

  /** Principal and model. */
  type Key = (string, string)

  datatype Slot = Slot(startedAt: real, count: int)

  type Table = map<Key, Slot>

  datatype LimiterError = CostNotPositive | LimitNotPositive

  type Verdict = Result<bool, LimiterError>

  datatype Call = Call(key: Key, now: real, cost: int, limit: int)

  function SlotOf(table: Table, key: Key): Option<Slot>
  {
    if key in table then Some(table[key]) else None
  }

  predicate Stale(w: real, slot: Option<Slot>, now: real)
  {
    slot.None? || now - slot.value.startedAt >= w
  }

  /** One token-budget call against the window of its key. */
  function ServeCost(w: real, slot: Option<Slot>, now: real, cost: int, limit: int): (Option<Slot>, bool)
  {
    if Stale(w, slot, now) then
      if cost > limit then (slot, false) else (Some(Slot(now, cost)), true)
    else if slot.value.count + cost > limit then (slot, false)
    else (Some(Slot(slot.value.startedAt, slot.value.count + cost)), true)
  }

  /** One request-limiter call: the first call of a window is never refused. */
  function ServeRequest(w: real, slot: Option<Slot>, now: real, limit: int): (Option<Slot>, bool)
  {
    if Stale(w, slot, now) then (Some(Slot(now, 1)), true)
    else if slot.value.count >= limit then (slot, false)
    else (Some(Slot(slot.value.startedAt, slot.value.count + 1)), true)
  }

  function Store(table: Table, key: Key, slot: Option<Slot>): (stored: Table)
    ensures slot == SlotOf(table, key) ==> stored == table
  {
    if slot.Some? then table[key := slot.value] else table
  }

  function TokenStep(w: real, table: Table, c: Call): (Table, Verdict)
  {
    if c.cost < 1 then (table, Err(CostNotPositive))
    else if c.limit < 1 then (table, Err(LimitNotPositive))
    else
      var (slot, ok) := ServeCost(w, SlotOf(table, c.key), c.now, c.cost, c.limit);
      (Store(table, c.key, slot), Ok(ok))
  }

  function RequestStep(w: real, table: Table, c: Call): (Table, Verdict)
  {
    var (slot, ok) := ServeRequest(w, SlotOf(table, c.key), c.now, c.limit);
    (Store(table, c.key, slot), Ok(ok))
  }

  /** The windows after a run of token-budget calls on a new limiter. */
  function After(w: real, calls: seq<Call>): Table
  {
    if calls == [] then map[]
    else TokenStep(w, After(w, calls[..|calls| - 1]), calls[|calls| - 1]).0
  }

  function AfterRequests(w: real, calls: seq<Call>): Table
  {
    if calls == [] then map[]
    else RequestStep(w, AfterRequests(w, calls[..|calls| - 1]), calls[|calls| - 1]).0
  }

  /** How call number i of a run was answered. */
  function Answer(w: real, calls: seq<Call>, i: nat): Verdict
    requires i < |calls|
  {
    TokenStep(w, After(w, calls[..i]), calls[i]).1
  }

  // ---------------------------------------------------------------- classes

  class Window {
    var startedAt: real
    var count: int

    constructor (startedAt: real, count: int)
      ensures this.startedAt == startedAt && this.count == count
    {
      this.startedAt := startedAt;
      this.count := count;
    }
  }

  /** The limiter's dictionary from key to window object. */
  class WindowDict {
    var slots: map<Key, Window>
    ghost var table: Table
    ghost var repr: set<object>

    /** The table says what the window objects hold, and no two keys share one. */
    ghost predicate Valid()
      reads this, repr
    {
      && this in repr && slots.Values <= repr
      && (forall j, k :: j in slots && k in slots && j != k ==> slots[j] != slots[k])
      && slots.Keys == table.Keys
      && forall k :: k in slots ==> table[k] == Slot(slots[k].startedAt, slots[k].count)
    }

    constructor ()
      ensures Valid() && fresh(repr) && table == map[]
    {
      slots, table, repr := map[], map[], {this};
    }

    /** The slot of a key, read from its window object. */
    method Get(key: Key) returns (slot: Option<Slot>)
      requires Valid()
      ensures slot == SlotOf(table, key)
    {
      if key in slots {
        return Some(Slot(slots[key].startedAt, slots[key].count));
      }
      return None;
    }

    method Open(key: Key, now: real, count: int)
      requires Valid()
      modifies this
      ensures Valid() && fresh(repr - old(repr))
      ensures table == old(table)[key := Slot(now, count)]
    {
      var window := new Window(now, count);
      slots := slots[key := window];
      table := table[key := Slot(now, count)];
      repr := repr + {window};
    }

    method Charge(key: Key, cost: int)
      requires Valid() && key in table
      modifies repr
      ensures Valid() && repr == old(repr)
      ensures table == old(table)[key := Slot(old(table)[key].startedAt, old(table)[key].count + cost)]
    {
      var window := slots[key];
      window.count := window.count + cost;
      table := table[key := Slot(window.startedAt, window.count)];
    }
  }

  class FixedWindowTokenBudgetLimiter {
    const windowSeconds: int
    const windows: WindowDict
    ghost var calls: seq<Call>

    ghost var repr: set<object>

    /** The windows are what the calls so far made them. */
    ghost predicate Valid()
      reads this, repr
    {
      && this in repr && windows in repr && windows.repr <= repr && this !in windows.repr
      && windows.Valid() && windows.table == After(windowSeconds as real, calls)
    }

    constructor (windowSeconds: int := 60)
      ensures Valid() && calls == [] && this.windowSeconds == windowSeconds
      ensures fresh(repr)
    {
      this.windowSeconds := windowSeconds;
      var dict := new WindowDict();
      this.windows := dict;
      this.calls := [];
      this.repr := {this} + dict.repr;
    }

    method Allow(principal: string, model: string, cost: int, limit: int, now: real) returns (r: Verdict)
      requires Valid()
      modifies repr
      ensures Valid() && fresh(repr - old(repr))
      ensures calls == old(calls) + [Call((principal, model), now, cost, limit)]
      ensures r == TokenStep(windowSeconds as real, After(windowSeconds as real, old(calls)), Call((principal, model), now, cost, limit)).1
    {
      ghost var call := Call((principal, model), now, cost, limit);
      ghost var was := calls;
      calls := calls + [call];
      assert calls[..|calls| - 1] == was;
      assert After(windowSeconds as real, calls) == TokenStep(windowSeconds as real, windows.table, call).0;
      if cost < 1 {
        return Err(CostNotPositive);
      }
      if limit < 1 {
        return Err(LimitNotPositive);
      }
      var ok := Serve((principal, model), cost, limit, now);
      return Ok(ok);
    }

    /** A valid call: open a window, charge the open one, or refuse. */
    method Serve(key: Key, cost: int, limit: int, now: real) returns (ok: bool)
      requires this in repr && windows in repr && windows.repr <= repr && this !in windows.repr && windows.Valid()
      modifies windows.repr, this`repr
      ensures this in repr && windows.repr <= repr && this !in windows.repr && windows.Valid() && fresh(repr - old(repr))
      ensures var (slot, verdict) := ServeCost(windowSeconds as real, SlotOf(old(windows.table), key), now, cost, limit);
              ok == verdict && windows.table == Store(old(windows.table), key, slot)
    {
      var window := windows.Get(key);
      if window.None? || now - window.value.startedAt >= windowSeconds as real {
        if cost > limit {
          return false;
        }
        windows.Open(key, now, cost);
        repr := repr + windows.repr;
        return true;
      }
      if window.value.count + cost > limit {
        return false;
      }
      windows.Charge(key, cost);
      return true;
    }
  }

  class FixedWindowRateLimiter {
    const windowSeconds: int
    const windows: WindowDict
    ghost var calls: seq<Call>

    ghost var repr: set<object>

    ghost predicate Valid()
      reads this, repr
    {
      && this in repr && windows in repr && windows.repr <= repr && this !in windows.repr
      && windows.Valid() && windows.table == AfterRequests(windowSeconds as real, calls)
    }

    constructor (windowSeconds: int := 60)
      ensures Valid() && calls == [] && this.windowSeconds == windowSeconds
      ensures fresh(repr)
    {
      this.windowSeconds := windowSeconds;
      var dict := new WindowDict();
      this.windows := dict;
      this.calls := [];
      this.repr := {this} + dict.repr;
    }

    method Allow(principal: string, model: string, limit: int, now: real) returns (ok: bool)
      requires Valid()
      modifies repr
      ensures Valid() && fresh(repr - old(repr))
      ensures calls == old(calls) + [Call((principal, model), now, 1, limit)]
      ensures Ok(ok) == RequestStep(windowSeconds as real, AfterRequests(windowSeconds as real, old(calls)), Call((principal, model), now, 1, limit)).1
    {
      calls := calls + [Call((principal, model), now, 1, limit)];
      assert calls[..|calls| - 1] == old(calls);
      var key := (principal, model);
      var window := windows.Get(key);
      if window.None? || now - window.value.startedAt >= windowSeconds as real {
        windows.Open(key, now, 1);
        repr := repr + windows.repr;
        return true;
      }
      if window.value.count >= limit {
        return false;
      }
      windows.Charge(key, 1);
      return true;
    }
  }

  // ------------------------------------------------- request = token at cost 1

  lemma RequestIsUnitCost(w: real, slot: Option<Slot>, now: real, limit: int)
    requires limit >= 1
    ensures ServeRequest(w, slot, now, limit) == ServeCost(w, slot, now, 1, limit)
  {
  }

  /** The request limiter answers as the token limiter does at cost one, and leaves the
      same windows, exactly when the limit is positive: for any other the token limiter
      rejects the call before it looks at a window. */
  lemma UnitStep(w: real, table: Table, c: Call)
    requires c.cost == 1
    ensures RequestStep(w, table, c) == TokenStep(w, table, c) <==> c.limit >= 1
  {
    if c.limit >= 1 {
      RequestIsUnitCost(w, SlotOf(table, c.key), c.now, c.limit);
    }
  }

  /** With positive limits, whole runs of the request limiter are token runs at cost one. */
  lemma {:induction false} RequestRunIsUnitCostRun(w: real, calls: seq<Call>)
    requires forall c <- calls :: c.cost == 1 && c.limit >= 1
    ensures AfterRequests(w, calls) == After(w, calls)
  {
    if calls != [] {
      var front := calls[..|calls| - 1];
      assert calls[|calls| - 1] in calls;
      RequestRunIsUnitCostRun(w, front);
      UnitStep(w, After(w, front), calls[|calls| - 1]);
    }
  }

  // ------------------------------------------------------------ bounds on runs

  predicate ClockNeverBack(calls: seq<Call>)
  {
    forall i, j :: 0 <= i < j < |calls| ==> calls[i].now <= calls[j].now
  }

  /** Every valid call on the key carries the same limit. */
  predicate SameLimit(calls: seq<Call>, key: Key, limit: int)
  {
    forall c <- calls :: c.key == key ==> c.limit == limit
  }

  /** The grants of one key over a run. */
  function GrantsOf(w: real, calls: seq<Call>, key: Key): seq<Grant>
  {
    if calls == [] then []
    else
      var front := calls[..|calls| - 1];
      var c := calls[|calls| - 1];
      var (table, verdict) := TokenStep(w, After(w, front), c);
      GrantsOf(w, front, key)
      + if c.key == key && verdict == Ok(true) then [Grant(c.now, table[key].startedAt, c.cost)] else []
  }

  /** How the open window of a key relates to the grants made so far. */
  ghost predicate Accounted(w: real, limit: int, slot: Option<Slot>, grants: seq<Grant>, now: real)
  {
    && WellSpaced(w, limit, grants)
    && Anchored(grants)
    && (forall g <- grants :: g.time <= now)
    && (slot.None? ==> grants == [])
    && (slot.Some? ==>
          && slot.value.startedAt <= now
          && OpenedAt(grants, slot.value.startedAt)
          && slot.value.count == CostWhere(grants, ChargedTo(slot.value.startedAt))
          && forall g <- grants :: g.start == slot.value.startedAt || (g.start + w <= slot.value.startedAt && g.time <= slot.value.startedAt))
  }

  /** A grant charged to the window at start keeps the account. */
  lemma AccountGrant(w: real, limit: int, grants: seq<Grant>, start: real, count: int, g: Grant, later: real)
    requires w > 0.0 && WellSpaced(w, limit, grants) && Anchored(grants)
    requires g.start == start <= g.time <= later
    requires forall h <- grants :: h.time <= g.time && (h.start == start || (h.start + w <= start && h.time <= start))
    requires OpenedAt(grants, start) || (g.time == start && g.cost >= 1)
    requires CostWhere(grants, ChargedTo(start)) + g.cost == count <= limit
    ensures Accounted(w, limit, Some(Slot(start, count)), grants + [g], later)
  {
    Extend(w, limit, grants, g);
    OpenersStay(grants, g);
  }

  /** One call keeps the account. */
  lemma AccountStep(w: real, limit: int, slot: Option<Slot>, grants: seq<Grant>, now: real, later: real, cost: int)
    requires w > 0.0 && limit >= 1 && cost >= 1 && now <= later
    requires Accounted(w, limit, slot, grants, now)
    ensures var (slot', ok) := ServeCost(w, slot, now, cost, limit);
            Accounted(w, limit, slot', grants + (if ok then [Grant(now, slot'.value.startedAt, cost)] else []), later)
  {
    var (slot', ok) := ServeCost(w, slot, now, cost, limit);
    if ok {
      var start := slot'.value.startedAt;
      if Stale(w, slot, now) {
        CostNone(grants, ChargedTo(now));
      }
      AccountGrant(w, limit, grants, start, slot'.value.count, Grant(now, start, cost), later);
    } else {
      assert grants + [] == grants;
    }
  }

  lemma OpenersStay(grants: seq<Grant>, g: Grant)
    requires Anchored(grants)
    requires OpenedAt(grants, g.start) || (g.time == g.start && g.cost >= 1)
    ensures Anchored(grants + [g]) && OpenedAt(grants + [g], g.start)
  {
    forall s: real | OpenedAt(grants, s)
      ensures OpenedAt(grants + [g], s)
    {
      var h :| h in grants && h.time == s && h.start == s && h.cost >= 1;
      assert h in grants + [g];
    }
    assert g in grants + [g];
  }

  /** A call on another key, or one that is rejected as invalid, leaves a key's window alone. */
  lemma OtherCallsKeep(w: real, table: Table, c: Call, key: Key)
    requires c.key != key || c.cost < 1 || c.limit < 1
    ensures SlotOf(TokenStep(w, table, c).0, key) == SlotOf(table, key)
  {
  }

  /** What the last call of a run does to one key. */
  lemma LastCall(w: real, calls: seq<Call>, key: Key)
    requires calls != []
    ensures var front, c := calls[..|calls| - 1], calls[|calls| - 1];
            var (slot, ok) := ServeCost(w, SlotOf(After(w, front), key), c.now, c.cost, c.limit);
            if c.key == key && c.cost >= 1 && c.limit >= 1 then
              && SlotOf(After(w, calls), key) == slot
              && GrantsOf(w, calls, key) == GrantsOf(w, front, key) + (if ok then [Grant(c.now, slot.value.startedAt, c.cost)] else [])
            else
              && SlotOf(After(w, calls), key) == SlotOf(After(w, front), key)
              && GrantsOf(w, calls, key) == GrantsOf(w, front, key)
  {
    var front := calls[..|calls| - 1];
    var c := calls[|calls| - 1];
    if !(c.key == key && c.cost >= 1 && c.limit >= 1) {
      OtherCallsKeep(w, After(w, front), c, key);
    }
    assert GrantsOf(w, front, key) + [] == GrantsOf(w, front, key);
  }

  lemma {:induction false} RunAccounted(w: real, calls: seq<Call>, key: Key, limit: int, now: real)
    requires w > 0.0 && limit >= 1
    requires ClockNeverBack(calls) && SameLimit(calls, key, limit)
    requires calls != [] ==> calls[|calls| - 1].now <= now
    ensures Accounted(w, limit, SlotOf(After(w, calls), key), GrantsOf(w, calls, key), now)
  {
    if calls == [] {
      assert forall s: real :: CostWhere([], ChargedTo(s)) == 0;
    } else {
      var front := calls[..|calls| - 1];
      var c := calls[|calls| - 1];
      assert c in calls;
      RunAccounted(w, front, key, limit, c.now);
      LastCall(w, calls, key);
      if c.key == key && c.cost >= 1 {
        AccountStep(w, limit, SlotOf(After(w, front), key), GrantsOf(w, front, key), c.now, now, c.cost);
      }
    }
  }

  /** On a clock that never goes back, no key is granted more than twice its limit less
      one in any half-open interval as long as the window. */
  lemma IntervalLimit(w: real, calls: seq<Call>, key: Key, limit: int, a: real)
    requires w > 0.0 && limit >= 1
    requires ClockNeverBack(calls) && SameLimit(calls, key, limit)
    ensures CostWhere(GrantsOf(w, calls, key), During(a, a + w)) <= 2 * limit - 1
  {
    if calls != [] {
      RunAccounted(w, calls, key, limit, calls[|calls| - 1].now);
      IntervalBound(w, limit, GrantsOf(w, calls, key), a);
    }
  }

  /** Over a run within [t0, t0 + span] no key is granted more than its limit for every
      whole window in the span and one more. */
  lemma SpanLimit(w: real, calls: seq<Call>, key: Key, limit: int, t0: real, span: real)
    requires w > 0.0 && limit >= 1 && span >= 0.0
    requires ClockNeverBack(calls) && SameLimit(calls, key, limit)
    requires forall c <- calls :: t0 <= c.now <= t0 + span
    ensures CostWhere(GrantsOf(w, calls, key), Anything()) <= (Windows(span, w) + 1) * limit
  {
    RunAccounted(w, calls, key, limit, t0 + span);
    GrantTimes(w, calls, key);
    var grants := GrantsOf(w, calls, key);
    forall g <- grants
      ensures t0 <= g.start <= t0 + span
    {
      assert OpenedAt(grants, g.start);
    }
    SpanBound(w, limit, grants, t0, span);
  }

  lemma {:induction false} GrantTimes(w: real, calls: seq<Call>, key: Key)
    ensures forall g <- GrantsOf(w, calls, key) :: exists c <- calls :: c.now == g.time
  {
    if calls != [] {
      var front := calls[..|calls| - 1];
      GrantTimes(w, front, key);
      forall g <- GrantsOf(w, calls, key)
        ensures exists c <- calls :: c.now == g.time
      {
        if g in GrantsOf(w, front, key) {
          var c :| c in front && c.now == g.time;
          assert c in calls;
        } else {
          assert calls[|calls| - 1] in calls;
        }
      }
    }
  }

  /** The interval bound is reached: one unit opens a window, the rest of the limit
      comes late in it, and a full limit follows when the next window opens. */
  lemma IntervalLimitReached(w: real, key: Key, limit: int)
    requires w > 0.0 && limit >= 2
    ensures var calls := [Call(key, 0.0, 1, limit), Call(key, w / 2.0, limit - 1, limit), Call(key, w, limit, limit)];
            CostWhere(GrantsOf(w, calls, key), During(w / 2.0, w / 2.0 + w)) == 2 * limit - 1
  {
    var c0, c1, c2 := Call(key, 0.0, 1, limit), Call(key, w / 2.0, limit - 1, limit), Call(key, w, limit, limit);
    assert [c0][..0] == [] && [c0, c1][..1] == [c0] && [c0, c1, c2][..2] == [c0, c1];
    assert After(w, [c0]) == map[key := Slot(0.0, 1)];
    assert After(w, [c0, c1]) == map[key := Slot(0.0, limit)];
    assert GrantsOf(w, [c0], key) == [Grant(0.0, 0.0, 1)];
    assert GrantsOf(w, [c0, c1], key) == [Grant(0.0, 0.0, 1), Grant(w / 2.0, 0.0, limit - 1)];
    var grants := [Grant(0.0, 0.0, 1), Grant(w / 2.0, 0.0, limit - 1), Grant(w, w, limit)];
    assert GrantsOf(w, [c0, c1, c2], key) == grants;
    var p := During(w / 2.0, w / 2.0 + w);
    assert CostWhere(grants[1..][1..], p) == limit;
    assert CostWhere(grants[1..], p) == 2 * limit - 1;
  }

  // -------------------------------------------------------- keys are independent

  /** The calls of a run that are on one key. */
  function Only(calls: seq<Call>, key: Key): seq<Call>
  {
    if calls == [] then []
    else Only(calls[..|calls| - 1], key) + (if calls[|calls| - 1].key == key then [calls[|calls| - 1]] else [])
  }

  /** The answers a run gives to the calls on one key. */
  function AnswersTo(w: real, calls: seq<Call>, key: Key): seq<Verdict>
  {
    if calls == [] then []
    else
      AnswersTo(w, calls[..|calls| - 1], key)
      + (if calls[|calls| - 1].key == key then [Answer(w, calls, |calls| - 1)] else [])
  }

  /** A call looks at its own key alone. */
  lemma OwnKeyDecides(w: real, table: Table, other: Table, c: Call)
    requires SlotOf(table, c.key) == SlotOf(other, c.key)
    ensures var (t, v), (o, u) := TokenStep(w, table, c), TokenStep(w, other, c);
            && v == u && SlotOf(t, c.key) == SlotOf(o, c.key)
            && (v == Ok(true) ==> c.key in t && c.key in o && t[c.key] == o[c.key])
  {
  }

  lemma AnswersSnocCall(w: real, calls: seq<Call>, c: Call, key: Key)
    ensures After(w, calls + [c]) == TokenStep(w, After(w, calls), c).0
    ensures AnswersTo(w, calls + [c], key)
            == AnswersTo(w, calls, key) + if c.key == key then [TokenStep(w, After(w, calls), c).1] else []
    ensures Only(calls + [c], key) == Only(calls, key) + if c.key == key then [c] else []
  {
    assert (calls + [c])[..|calls + [c]| - 1] == calls;
  }

  lemma GrantsSnocCall(w: real, calls: seq<Call>, c: Call, key: Key)
    ensures var (table, verdict) := TokenStep(w, After(w, calls), c);
            GrantsOf(w, calls + [c], key)
            == GrantsOf(w, calls, key) + if c.key == key && verdict == Ok(true) then [Grant(c.now, table[key].startedAt, c.cost)] else []
  {
    assert (calls + [c])[..|calls + [c]| - 1] == calls;
  }

  /** Calls on other keys change neither the answers to a key nor its window. */
  lemma {:induction false} KeysIndependent(w: real, calls: seq<Call>, key: Key)
    ensures AnswersTo(w, calls, key) == AnswersTo(w, Only(calls, key), key)
    ensures SlotOf(After(w, calls), key) == SlotOf(After(w, Only(calls, key)), key)
    ensures GrantsOf(w, calls, key) == GrantsOf(w, Only(calls, key), key)
  {
    if calls != [] {
      var front, c := calls[..|calls| - 1], calls[|calls| - 1];
      assert calls == front + [c];
      KeysIndependent(w, front, key);
      hide After;
      hide AnswersTo;
      hide GrantsOf;
      hide Only;
      hide TokenStep;
      AnswersSnocCall(w, front, c, key);
      GrantsSnocCall(w, front, c, key);
      if c.key == key {
        var only := Only(front, key);
        AnswersSnocCall(w, only, c, key);
        GrantsSnocCall(w, only, c, key);
        OwnKeyDecides(w, After(w, front), After(w, only), c);
      } else {
        OtherCallsKeep(w, After(w, front), c, key);
        assert Only(front, key) + [] == Only(front, key);
        assert AnswersTo(w, front, key) + [] == AnswersTo(w, front, key);
        assert GrantsOf(w, front, key) + [] == GrantsOf(w, front, key);
      }
    }
  }

  function CostsTo(calls: seq<Call>, key: Key): seq<int>
  {
    if calls == [] then []
    else CostsTo(calls[..|calls| - 1], key) + (if calls[|calls| - 1].key == key then [calls[|calls| - 1].cost] else [])
  }

  /** The answers a verdict list stands for. */
  function Answers(oks: seq<bool>): seq<Verdict>
  {
    seq(|oks|, i requires 0 <= i < |oks| => Ok(oks[i]))
  }

  lemma AnswersSnoc(oks: seq<bool>, ok: bool)
    ensures Answers(oks + [ok]) == Answers(oks) + [Ok(ok)]
  {
  }

  lemma {:induction false} OneWindowCount(w: real, calls: seq<Call>, key: Key, limit: int, a: real)
    requires limit >= 1 && SameLimit(calls, key, limit)
    requires forall c <- calls :: c.key == key ==> c.cost >= 1 && a <= c.now < a + w
    ensures var slot := SlotOf(After(w, calls), key);
            && (if slot.Some? then slot.value.count else 0) == FirstFit.Spent(limit, 0, CostsTo(calls, key))
            && (slot.Some? ==> a <= slot.value.startedAt < a + w)
  {
    if calls != [] {
      var front := calls[..|calls| - 1];
      var c := calls[|calls| - 1];
      assert c in calls;
      OneWindowCount(w, front, key, limit, a);
      LastCall(w, calls, key);
      if c.key == key {
        FirstFit.Snoc(limit, 0, CostsTo(front, key), c.cost);
      } else {
        assert CostsTo(calls, key) == CostsTo(front, key);
      }
    }
  }

  /** Valid calls on one key inside one window length are answered first come, first
      served: refused calls, oversized first ones included, leave no trace. */
  lemma {:induction false} OneWindowIsFirstFit(w: real, calls: seq<Call>, key: Key, limit: int, a: real)
    requires limit >= 1 && SameLimit(calls, key, limit)
    requires forall c <- calls :: c.key == key ==> c.cost >= 1 && a <= c.now < a + w
    ensures AnswersTo(w, calls, key) == Answers(FirstFit.Verdicts(limit, 0, CostsTo(calls, key)))
  {
    if calls != [] {
      var front := calls[..|calls| - 1];
      var c := calls[|calls| - 1];
      assert c in calls;
      OneWindowIsFirstFit(w, front, key, limit, a);
      var costs := CostsTo(front, key);
      if c.key == key {
        OneWindowCount(w, front, key, limit, a);
        var fits := FirstFit.Spent(limit, 0, costs) + c.cost <= limit;
        assert Answer(w, calls, |calls| - 1) == Ok(fits);
        FirstFit.Snoc(limit, 0, costs, c.cost);
        AnswersSnoc(FirstFit.Verdicts(limit, 0, costs), fits);
      } else {
        assert CostsTo(calls, key) == costs;
      }
    }
  }

  // ------------------------------------------------- the same of the request limiter

  /** The answers a run of the request limiter gives to the calls on one key. */
  function RequestAnswersTo(w: real, calls: seq<Call>, key: Key): seq<Verdict>
  {
    if calls == [] then []
    else
      var front, c := calls[..|calls| - 1], calls[|calls| - 1];
      RequestAnswersTo(w, front, key) + (if c.key == key then [RequestStep(w, AfterRequests(w, front), c).1] else [])
  }

  /** The grants of one key over a run of the request limiter. */
  function RequestGrantsOf(w: real, calls: seq<Call>, key: Key): seq<Grant>
  {
    if calls == [] then []
    else
      var front, c := calls[..|calls| - 1], calls[|calls| - 1];
      var (table, verdict) := RequestStep(w, AfterRequests(w, front), c);
      RequestGrantsOf(w, front, key)
      + if c.key == key && verdict == Ok(true) then [Grant(c.now, table[key].startedAt, 1)] else []
  }

  /** Calls to the request limiter: they carry no cost, and the registry's limits are positive. */
  predicate Requests(calls: seq<Call>)
  {
    forall c <- calls :: c.cost == 1 && c.limit >= 1
  }

  /** On requests the two limiters answer alike and grant alike. */
  lemma {:induction false} RequestsAsTokens(w: real, calls: seq<Call>, key: Key)
    requires Requests(calls)
    ensures AfterRequests(w, calls) == After(w, calls)
    ensures RequestAnswersTo(w, calls, key) == AnswersTo(w, calls, key)
    ensures RequestGrantsOf(w, calls, key) == GrantsOf(w, calls, key)
  {
    RequestRunIsUnitCostRun(w, calls);
    if calls != [] {
      hide RequestStep;
      hide TokenStep;
      var front, c := calls[..|calls| - 1], calls[|calls| - 1];
      assert c in calls && forall d <- front :: d in calls;
      RequestsAsTokens(w, front, key);
      UnitStep(w, After(w, front), c);
      hide After;
      hide AfterRequests;
    }
  }

  /** No half-open interval as long as the window lets more than 2 * limit - 1 requests
      of one key through, and a run of length T at most limit * (T div W + 1). */
  lemma RequestIntervalLimit(w: real, calls: seq<Call>, key: Key, limit: int, a: real)
    requires w > 0.0 && limit >= 1 && Requests(calls)
    requires ClockNeverBack(calls) && SameLimit(calls, key, limit)
    ensures CostWhere(RequestGrantsOf(w, calls, key), During(a, a + w)) <= 2 * limit - 1
  {
    RequestsAsTokens(w, calls, key);
    IntervalLimit(w, calls, key, limit, a);
  }

  lemma RequestSpanLimit(w: real, calls: seq<Call>, key: Key, limit: int, t0: real, span: real)
    requires w > 0.0 && limit >= 1 && span >= 0.0 && Requests(calls)
    requires ClockNeverBack(calls) && SameLimit(calls, key, limit)
    requires forall c <- calls :: t0 <= c.now <= t0 + span
    ensures CostWhere(RequestGrantsOf(w, calls, key), Anything()) <= (Windows(span, w) + 1) * limit
  {
    RequestsAsTokens(w, calls, key);
    SpanLimit(w, calls, key, limit, t0, span);
  }

  lemma OnlyRequests(calls: seq<Call>, key: Key)
    requires Requests(calls)
    ensures Requests(Only(calls, key))
  {
    if calls != [] {
      OnlyRequests(calls[..|calls| - 1], key);
      assert calls[|calls| - 1] in calls && forall d <- calls[..|calls| - 1] :: d in calls;
    }
  }

  /** Requests of other principals or models change neither answers nor grants of a key. */
  lemma RequestKeysIndependent(w: real, calls: seq<Call>, key: Key)
    requires Requests(calls)
    ensures RequestAnswersTo(w, calls, key) == RequestAnswersTo(w, Only(calls, key), key)
    ensures RequestGrantsOf(w, calls, key) == RequestGrantsOf(w, Only(calls, key), key)
  {
    OnlyRequests(calls, key);
    RequestsAsTokens(w, calls, key);
    RequestsAsTokens(w, Only(calls, key), key);
    KeysIndependent(w, calls, key);
  }

  /** n requests at one instant. */
  function Burst(key: Key, now: real, limit: int, n: nat): seq<Call>
  {
    if n == 0 then [] else Burst(key, now, limit, n - 1) + [Call(key, now, 1, limit)]
  }

  lemma RequestSnoc(w: real, calls: seq<Call>, c: Call, key: Key)
    requires c.key == key
    ensures var (slot, ok) := ServeRequest(w, SlotOf(AfterRequests(w, calls), key), c.now, c.limit);
            && SlotOf(AfterRequests(w, calls + [c]), key) == slot
            && RequestGrantsOf(w, calls + [c], key)
               == RequestGrantsOf(w, calls, key) + (if ok then [Grant(c.now, slot.value.startedAt, 1)] else [])
  {
    assert (calls + [c])[..|calls + [c]| - 1] == calls;
  }

  /** While they fit the window then open, n requests at one instant are n grants. */
  lemma {:induction false} BurstGranted(w: real, calls: seq<Call>, key: Key, now: real, limit: int, n: nat, start: real, used: int)
    requires limit >= 1 && 1 <= n && used + n <= limit && start <= now < start + w
    requires if used == 0 then Stale(w, SlotOf(AfterRequests(w, calls), key), now) && start == now
             else SlotOf(AfterRequests(w, calls), key) == Some(Slot(start, used))
    ensures var more := calls + Burst(key, now, limit, n);
            && SlotOf(AfterRequests(w, more), key) == Some(Slot(start, used + n))
            && RequestGrantsOf(w, more, key) == RequestGrantsOf(w, calls, key) + Repeated(Grant(now, start, 1), n)
  {
    hide AfterRequests;
    hide RequestGrantsOf;
    var c, g := Call(key, now, 1, limit), Grant(now, start, 1);
    var front := calls + Burst(key, now, limit, n - 1);
    assert calls + Burst(key, now, limit, n) == front + [c];
    RequestSnoc(w, front, c, key);
    if n == 1 {
      assert front == calls && Repeated(g, 1) == [g];
    } else {
      BurstGranted(w, calls, key, now, limit, n - 1, start, used);
      var before := RequestGrantsOf(w, calls, key);
      assert before + Repeated(g, n - 1) + [g] == before + Repeated(g, n);
    }
  }

  /** One request opens a window, the rest of the limit comes late in
      it, and a full limit when the next window opens. */
  lemma ThreeBursts(w: real, key: Key, limit: int)
    requires w > 0.0 && limit >= 2
    ensures var calls := Burst(key, 0.0, limit, 1) + Burst(key, w / 2.0, limit, limit - 1) + Burst(key, w, limit, limit);
            RequestGrantsOf(w, calls, key)
            == Repeated(Grant(0.0, 0.0, 1), 1) + Repeated(Grant(w / 2.0, 0.0, 1), limit - 1) + Repeated(Grant(w, w, 1), limit)
  {
    var one := Burst(key, 0.0, limit, 1);
    var late := one + Burst(key, w / 2.0, limit, limit - 1);
    assert [] + one == one && RequestGrantsOf(w, [], key) == [] && AfterRequests(w, []) == map[];
    assert [] + Repeated(Grant(0.0, 0.0, 1), 1) == Repeated(Grant(0.0, 0.0, 1), 1);
    hide AfterRequests;
    hide RequestGrantsOf;
    hide Burst;
    hide Repeated;
    BurstGranted(w, [], key, 0.0, limit, 1, 0.0, 0);
    BurstGranted(w, one, key, w / 2.0, limit, limit - 1, 0.0, 1);
    BurstGranted(w, late, key, w, limit, limit, w, 0);
  }

  /** The bound on requests is reached as well. */
  lemma RequestIntervalLimitReached(w: real, key: Key, limit: int)
    requires w > 0.0 && limit >= 2
    ensures var calls := Burst(key, 0.0, limit, 1) + Burst(key, w / 2.0, limit, limit - 1) + Burst(key, w, limit, limit);
            CostWhere(RequestGrantsOf(w, calls, key), During(w / 2.0, w / 2.0 + w)) == 2 * limit - 1
  {
    hide RequestGrantsOf;
    hide Burst;
    hide Repeated;
    hide CostWhere;
    ThreeBursts(w, key, limit);
    var p := During(w / 2.0, w / 2.0 + w);
    var g0, g1, g2 := Grant(0.0, 0.0, 1), Grant(w / 2.0, 0.0, 1), Grant(w, w, 1);
    CostAppend(Repeated(g0, 1), Repeated(g1, limit - 1), p);
    CostAppend(Repeated(g0, 1) + Repeated(g1, limit - 1), Repeated(g2, limit), p);
    RepeatedCost(g0, 1, p);
    RepeatedCost(g1, limit - 1, p);
    RepeatedCost(g2, limit, p);
  }
}
