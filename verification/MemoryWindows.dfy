/** What whole runs of the in-memory limiters answer: windows in turn, each opened by the
    first call that a new window grants, and each first come, first served. */
module MemoryWindows {
  import opened Prelude
  import opened MemoryLimiter
  import FirstFit

  // ---------------------------------------------------- windows, from the calls alone

  /** What a call gets from a window that has given out so much. */
  function Asked(used: int, c: Call): Verdict
  {
    if c.cost < 1 then Err(CostNotPositive)
    else if c.limit < 1 then Err(LimitNotPositive)
    else Ok(used + c.cost <= c.limit)
  }

  /** Calls served one after the other by one window. */
  function OneWindow(used: int, calls: seq<Call>): (answers: seq<Verdict>)
    ensures |answers| == |calls|
    decreases calls
  {
    if calls == [] then []
    else
      var answer := Asked(used, calls[0]);
      [answer] + OneWindow(if answer == Ok(true) then used + calls[0].cost else used, calls[1..])
  }

  /** The first call that a new window grants, or the number of calls. */
  function Opener(calls: seq<Call>): (i: nat)
    ensures i <= |calls| && (i < |calls| ==> Asked(0, calls[i]) == Ok(true))
    ensures forall j :: 0 <= j < i ==> Asked(0, calls[j]) != Ok(true)
  {
    if calls == [] || Asked(0, calls[0]) == Ok(true) then 0 else Opener(calls[1..]) + 1
  }

  /** The first call at or after a time, or the number of calls. */
  function FirstFrom(calls: seq<Call>, time: real): (i: nat)
    ensures i <= |calls| && (i < |calls| ==> calls[i].now >= time)
    ensures forall j :: 0 <= j < i ==> calls[j].now < time
  {
    if calls == [] || calls[0].now >= time then 0 else FirstFrom(calls[1..], time) + 1
  }

  /** The end of the window that call i opened. */
  function EndOf(w: real, calls: seq<Call>, i: nat): (end: nat)
    requires w > 0.0 && i < |calls|
    ensures i < end <= |calls| && (end < |calls| ==> calls[end].now >= calls[i].now + w)
    ensures forall j :: i <= j < end ==> calls[j].now < calls[i].now + w
  {
    var rest, time := calls[i..], calls[i].now + w;
    assert forall j :: i <= j < |calls| ==> calls[j] == rest[j - i];
    i + FirstFrom(rest, time)
  }

  /** The answers to calls on one key: up to a window length after the opener one window
      serves them, and what comes later is answered as on a new limiter. */
  function InTurn(w: real, calls: seq<Call>): seq<Verdict>
    requires w > 0.0
    decreases |calls|
  {
    var i := Opener(calls);
    if i == |calls| then OneWindow(0, calls)
    else
      var end := EndOf(w, calls, i);
      OneWindow(0, calls[..end]) + InTurn(w, calls[end..])
  }

  /** Where the calls are valid and share a limit, a window is first come, first served. */
  lemma {:induction false} OneWindowIsFirstFit(used: int, calls: seq<Call>, limit: int, costs: seq<int>)
    requires limit >= 1 && |costs| == |calls| && forall i :: 0 <= i < |calls| ==> calls[i].limit == limit && calls[i].cost == costs[i] >= 1
    ensures OneWindow(used, calls) == Answers(FirstFit.Verdicts(limit, used, costs))
    decreases calls
  {
    if calls != [] {
      OneWindowIsFirstFit(if used + costs[0] <= limit then used + costs[0] else used, calls[1..], limit, costs[1..]);
    }
  }

  // -------------------------------------------------------- one key, call by call

  /** One call on the slot of its key. */
  function Served(w: real, slot: Option<Slot>, c: Call): (Option<Slot>, Verdict)
  {
    if c.cost < 1 then (slot, Err(CostNotPositive))
    else if c.limit < 1 then (slot, Err(LimitNotPositive))
    else
      var (next, ok) := ServeCost(w, slot, c.now, c.cost, c.limit);
      (next, Ok(ok))
  }

  function AnswersFrom(w: real, slot: Option<Slot>, calls: seq<Call>): (answers: seq<Verdict>)
    ensures |answers| == |calls|
    decreases calls
  {
    if calls == [] then []
    else
      var (next, answer) := Served(w, slot, calls[0]);
      [answer] + AnswersFrom(w, next, calls[1..])
  }

  function SlotAfter(w: real, slot: Option<Slot>, calls: seq<Call>): Option<Slot>
    decreases calls
  {
    if calls == [] then slot else SlotAfter(w, Served(w, slot, calls[0]).0, calls[1..])
  }

  lemma {:induction false} FromBoth(w: real, slot: Option<Slot>, xs: seq<Call>, ys: seq<Call>)
    ensures AnswersFrom(w, slot, xs + ys) == AnswersFrom(w, slot, xs) + AnswersFrom(w, SlotAfter(w, slot, xs), ys)
    ensures SlotAfter(w, slot, xs + ys) == SlotAfter(w, SlotAfter(w, slot, xs), ys)
    decreases xs
  {
    if xs == [] {
      assert xs + ys == ys;
    } else {
      assert (xs + ys)[1..] == xs[1..] + ys;
      FromBoth(w, Served(w, slot, xs[0]).0, xs[1..], ys);
    }
  }

  lemma FromOne(w: real, slot: Option<Slot>, c: Call)
    ensures AnswersFrom(w, slot, [c]) == [Served(w, slot, c).1] && SlotAfter(w, slot, [c]) == Served(w, slot, c).0
  {
    assert [c][1..] == [];
  }

  /** A run answers a key as its own calls, one after the other, are served. */
  lemma {:induction false} RunFromNothing(w: real, calls: seq<Call>, key: Key)
    ensures AnswersTo(w, calls, key) == AnswersFrom(w, None, Only(calls, key))
    ensures SlotOf(After(w, calls), key) == SlotAfter(w, None, Only(calls, key))
  {
    if calls != [] {
      var front, c := calls[..|calls| - 1], calls[|calls| - 1];
      assert calls == front + [c];
      RunFromNothing(w, front, key);
      hide After, AnswersTo, Only, AnswersFrom, SlotAfter;
      AnswersSnocCall(w, front, c, key);
      if c.key == key {
        FromBoth(w, None, Only(front, key), [c]);
        FromOne(w, SlotAfter(w, None, Only(front, key)), c);
        OwnSlotServed(w, After(w, front), c);
      } else {
        OtherCallsKeep(w, After(w, front), c, key);
        assert Only(front, key) + [] == Only(front, key) && AnswersTo(w, front, key) + [] == AnswersTo(w, front, key);
      }
    }
  }

  lemma OwnSlotServed(w: real, table: Table, c: Call)
    ensures var (t, v) := TokenStep(w, table, c);
            (SlotOf(t, c.key), v) == Served(w, SlotOf(table, c.key), c)
  {
  }

  // ------------------------------------------------------------- renewal

  /** Every call comes when the window of the slot is over. */
  predicate AllAfter(w: real, slot: Option<Slot>, calls: seq<Call>)
  {
    slot.Some? ==> forall c <- calls :: slot.value.startedAt + w <= c.now
  }

  /** Calls that all come when a window is over are answered as if it had never been. */
  lemma {:induction false} OverIsGone(w: real, slot: Option<Slot>, calls: seq<Call>)
    requires AllAfter(w, slot, calls)
    ensures AnswersFrom(w, slot, calls) == AnswersFrom(w, None, calls)
    decreases calls
  {
    if calls != [] {
      var c, rest := calls[0], calls[1..];
      assert c in calls && forall d <- rest :: d in calls;
      var next := Served(w, slot, c).0;
      if next == slot {
        OverIsGone(w, slot, rest);
      }
    }
  }

  /** The window a run leaves was opened by one of its calls. */
  lemma {:induction false} OpenedByACall(w: real, slot: Option<Slot>, calls: seq<Call>)
    ensures var last := SlotAfter(w, slot, calls);
            last.Some? ==> (exists c <- calls :: c.now == last.value.startedAt) || (slot.Some? && slot.value.startedAt == last.value.startedAt)
    decreases calls
  {
    if calls != [] {
      var c, rest := calls[0], calls[1..];
      assert calls == [c] + rest;
      OpenedByACall(w, Served(w, slot, c).0, rest);
    }
  }

  lemma {:induction false} OnlyBoth(xs: seq<Call>, ys: seq<Call>, key: Key)
    ensures Only(xs + ys, key) == Only(xs, key) + Only(ys, key)
  {
    if ys == [] {
      assert xs + ys == xs;
    } else {
      var n := |ys| - 1;
      assert (xs + ys)[..|xs + ys| - 1] == xs + ys[..n];
      OnlyBoth(xs, ys[..n], key);
    }
  }

  lemma {:induction false} OnlyAreCalls(calls: seq<Call>, key: Key)
    ensures forall c <- Only(calls, key) :: c in calls && c.key == key
  {
    if calls != [] {
      OnlyAreCalls(calls[..|calls| - 1], key);
      assert calls[|calls| - 1] in calls && forall d <- calls[..|calls| - 1] :: d in calls;
    }
  }

  /** A key that is left alone for a window length is answered as on a new limiter. */
  lemma BegunAfresh(w: real, xs: seq<Call>, ys: seq<Call>, key: Key)
    requires forall x <- xs, y <- ys :: x.key == key && y.key == key ==> x.now + w <= y.now
    ensures AnswersTo(w, xs + ys, key) == AnswersTo(w, xs, key) + AnswersTo(w, ys, key)
  {
    var own, later := Only(xs, key), Only(ys, key);
    RunFromNothing(w, xs + ys, key);
    RunFromNothing(w, xs, key);
    RunFromNothing(w, ys, key);
    OnlyBoth(xs, ys, key);
    OnlyAreCalls(xs, key);
    OnlyAreCalls(ys, key);
    FromBoth(w, None, own, later);
    OpenedByACall(w, None, own);
    OverIsGone(w, SlotAfter(w, None, own), later);
  }

  // --------------------------------------------------------- windows in turn

  /** Until a call opens a window there is none, and each is answered as a new one would. */
  lemma {:induction false} NoneOpened(w: real, calls: seq<Call>)
    requires forall c <- calls :: Asked(0, c) != Ok(true)
    ensures AnswersFrom(w, None, calls) == OneWindow(0, calls) && SlotAfter(w, None, calls) == None
    decreases calls
  {
    if calls != [] {
      assert calls[0] in calls && forall d <- calls[1..] :: d in calls;
      NoneOpened(w, calls[1..]);
    }
  }

  lemma OpenServesOne(w: real, start: real, used: int, c: Call)
    requires c.now < start + w
    ensures var answer := Asked(used, c);
            Served(w, Some(Slot(start, used)), c) == (Some(Slot(start, if answer == Ok(true) then used + c.cost else used)), answer)
  {
  }

  /** An open window serves all calls within its length. */
  lemma {:induction false} OpenServes(w: real, start: real, used: int, calls: seq<Call>)
    requires forall c <- calls :: c.now < start + w
    ensures AnswersFrom(w, Some(Slot(start, used)), calls) == OneWindow(used, calls)
    ensures SlotAfter(w, Some(Slot(start, used)), calls).Some? && SlotAfter(w, Some(Slot(start, used)), calls).value.startedAt == start
    decreases calls
  {
    if calls != [] {
      hide Served, Asked;
      var c := calls[0];
      assert c in calls && forall d <- calls[1..] :: d in calls;
      var answer := Asked(used, c);
      OpenServesOne(w, start, used, c);
      OpenServes(w, start, if answer == Ok(true) then used + c.cost else used, calls[1..]);
    }
  }

  lemma {:induction false} OneWindowBoth(used: int, xs: seq<Call>, ys: seq<Call>)
    requires forall c <- xs :: Asked(used, c) != Ok(true)
    ensures OneWindow(used, xs + ys) == OneWindow(used, xs) + OneWindow(used, ys)
    decreases xs
  {
    if xs == [] {
      assert xs + ys == ys;
    } else {
      assert xs[0] in xs && forall c <- xs[1..] :: c in xs;
      assert (xs + ys)[1..] == xs[1..] + ys;
      OneWindowBoth(used, xs[1..], ys);
    }
  }

  predicate InOrder(calls: seq<Call>)
  {
    forall i, j :: 0 <= i < j < |calls| ==> calls[i].now <= calls[j].now
  }

  /** From the opener to the end of its window. */
  lemma WindowServed(w: real, calls: seq<Call>, i: nat, end: nat)
    requires w > 0.0 && i < end <= |calls| && Asked(0, calls[i]) == Ok(true)
    requires (forall j :: 0 <= j < i ==> Asked(0, calls[j]) != Ok(true)) && forall j :: i <= j < end ==> calls[j].now < calls[i].now + w
    ensures AnswersFrom(w, None, calls[..end]) == OneWindow(0, calls[..end])
    ensures SlotAfter(w, None, calls[..end]).Some? && SlotAfter(w, None, calls[..end]).value.startedAt == calls[i].now
  {
    var before, mine, rest, c := calls[..i], calls[i..end], calls[i + 1..end], calls[i];
    assert calls[..end] == before + mine && mine == [c] + rest && mine[1..] == rest;
    FromBoth(w, None, before, mine);
    OneWindowBoth(0, before, mine);
    NoneOpened(w, before);
    OpenServes(w, c.now, c.cost, rest);
    assert Served(w, None, c) == (Some(Slot(c.now, c.cost)), Ok(true));
  }

  lemma {:induction false} FromNothingInTurn(w: real, calls: seq<Call>)
    requires w > 0.0 && InOrder(calls)
    ensures AnswersFrom(w, None, calls) == InTurn(w, calls)
    decreases |calls|
  {
    hide AnswersFrom, SlotAfter, OneWindow, EndOf, Opener, Asked;
    var i := Opener(calls);
    if i == |calls| {
      NoneOpened(w, calls);
    } else {
      var end := EndOf(w, calls, i);
      WindowServed(w, calls, i, end);
      var rest, slot := calls[end..], SlotAfter(w, None, calls[..end]);
      assert calls == calls[..end] + rest;
      FromBoth(w, None, calls[..end], rest);
      assert AllAfter(w, slot, rest) by {
        assert forall j :: end <= j < |calls| ==> calls[end].now <= calls[j].now;
      }
      OverIsGone(w, slot, rest);
      assert InOrder(rest);
      hide InOrder, AllAfter;
      FromNothingInTurn(w, rest);
    }
  }

  lemma {:induction false} OnlyInOrder(calls: seq<Call>, key: Key)
    requires ClockNeverBack(calls)
    ensures InOrder(Only(calls, key))
  {
    if calls != [] {
      var front, c := calls[..|calls| - 1], calls[|calls| - 1];
      OnlyInOrder(front, key);
      OnlyAreCalls(front, key);
      forall d | d in Only(front, key)
        ensures d.now <= c.now
      {
        var j :| 0 <= j < |front| && front[j] == d;
        assert calls[j] == d;
      }
    }
  }

  /** Every run on a clock that never goes back answers a key by windows in turn. */
  lemma RunIsWindowsInTurn(w: real, calls: seq<Call>, key: Key)
    requires w > 0.0 && ClockNeverBack(calls)
    ensures AnswersTo(w, calls, key) == InTurn(w, Only(calls, key))
  {
    RunFromNothing(w, calls, key);
    OnlyInOrder(calls, key);
    FromNothingInTurn(w, Only(calls, key));
  }

  // ------------------------------------------------------ the request limiter

  /** A request as a call that costs one, its limit at least one. */
  function AsCall(c: Call): Call
  {
    c.(cost := 1, limit := if c.limit < 1 then 1 else c.limit)
  }

  function AsCalls(calls: seq<Call>): (r: seq<Call>)
    ensures |r| == |calls|
  {
    if calls == [] then [] else AsCalls(calls[..|calls| - 1]) + [AsCall(calls[|calls| - 1])]
  }

  ghost predicate EachHoldsOne(table: Table)
  {
    forall k <- table :: table[k].count >= 1
  }

  lemma RequestIsCall(w: real, table: Table, c: Call)
    requires EachHoldsOne(table)
    ensures RequestStep(w, table, c) == TokenStep(w, table, AsCall(c)) && EachHoldsOne(RequestStep(w, table, c).0)
  {
  }

  /** Whatever its limits, the request limiter runs as the token limiter on such calls: a
      limit below one lets one request through in a window, as one does. */
  lemma {:induction false} RequestsAreCalls(w: real, calls: seq<Call>, key: Key)
    ensures AfterRequests(w, calls) == After(w, AsCalls(calls)) && EachHoldsOne(AfterRequests(w, calls))
    ensures RequestAnswersTo(w, calls, key) == AnswersTo(w, AsCalls(calls), key)
  {
    if calls != [] {
      hide RequestStep, TokenStep;
      var front, c := calls[..|calls| - 1], calls[|calls| - 1];
      RequestsAreCalls(w, front, key);
      RequestIsCall(w, AfterRequests(w, front), c);
      assert AsCalls(calls)[..|calls| - 1] == AsCalls(front);
    }
  }

  lemma {:induction false} AsCallsAt(calls: seq<Call>)
    ensures forall i :: 0 <= i < |calls| ==> AsCalls(calls)[i] == AsCall(calls[i])
  {
    if calls != [] {
      AsCallsAt(calls[..|calls| - 1]);
    }
  }

  lemma {:induction false} AsCallsBoth(xs: seq<Call>, ys: seq<Call>)
    ensures AsCalls(xs + ys) == AsCalls(xs) + AsCalls(ys)
  {
    AsCallsAt(xs);
    AsCallsAt(ys);
    AsCallsAt(xs + ys);
  }

  /** The request limiter answers a key by windows in turn, whatever its limits. */
  lemma RequestsAreWindowsInTurn(w: real, calls: seq<Call>, key: Key)
    requires w > 0.0 && ClockNeverBack(calls)
    ensures RequestAnswersTo(w, calls, key) == InTurn(w, Only(AsCalls(calls), key))
  {
    RequestsAreCalls(w, calls, key);
    AsCallsAt(calls);
    RunIsWindowsInTurn(w, AsCalls(calls), key);
  }

  /** A key left alone for a window length is answered as on a new request limiter. */
  lemma RequestsBegunAfresh(w: real, xs: seq<Call>, ys: seq<Call>, key: Key)
    requires forall x <- xs, y <- ys :: x.key == key && y.key == key ==> x.now + w <= y.now
    ensures RequestAnswersTo(w, xs + ys, key) == RequestAnswersTo(w, xs, key) + RequestAnswersTo(w, ys, key)
  {
    RequestsAreCalls(w, xs, key);
    RequestsAreCalls(w, ys, key);
    RequestsAreCalls(w, xs + ys, key);
    AsCallsBoth(xs, ys);
    hide RequestAnswersTo, AnswersTo;
    FromCalls(xs);
    FromCalls(ys);
    BegunAfresh(w, AsCalls(xs), AsCalls(ys), key);
  }

  lemma FromCalls(calls: seq<Call>)
    ensures forall c <- AsCalls(calls) :: exists d <- calls :: c == AsCall(d)
  {
    AsCallsAt(calls);
    forall c | c in AsCalls(calls)
      ensures exists d <- calls :: c == AsCall(d)
    {
      var i :| 0 <= i < |calls| && AsCalls(calls)[i] == c;
      assert calls[i] in calls;
    }
  }
}
