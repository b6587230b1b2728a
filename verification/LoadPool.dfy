/** The closed-loop load generator of bench/overhead.py: workers that share one counter of
    requests still to send, as a state machine over the steps between their awaits. */
module LoadPool {

  /** Where a worker waits: for its connection, for response headers, for the end of a
      body; or how it ended: out of work, on a response other than 200, or on a connection
      that broke. */
  datatype Worker = Connecting | Awaiting(started: real) | Reading(started: real) | Finished | Failed | Broke

  datatype Headers = Accepted | Rejected | Lost

  /** What wakes a worker up, at a reading of the clock. */
  datatype Event = Opened(worker: nat, ok: bool, now: real) | Answered(worker: nat, headers: Headers) | Ended(worker: nat, ok: bool, now: real)

  /** The counter, the failures, the latencies and the workers; and how many requests went
      down with their connection, which the program itself does not count. */
  datatype Pool = Pool(remaining: int, failures: nat, latencies: seq<real>, workers: seq<Worker>, broken: nat)

  function NewPool(concurrency: nat, total: int): Pool
  {
    Pool(total, 0, [], seq(concurrency, _ => Connecting), 0)
  }

  /** The head of the loop: a worker takes a request off the counter, or is done. */
  function TakeTurn(p: Pool, i: nat, now: real): Pool
    requires i < |p.workers|
  {
    if p.remaining > 0 then p.(remaining := p.remaining - 1, workers := p.workers[i := Awaiting(now)])
    else p.(workers := p.workers[i := Finished])
  }

  predicate Enabled(p: Pool, e: Event)
  {
    && e.worker < |p.workers|
    && match e
       case Opened(i, _, _) => p.workers[i].Connecting?
       case Answered(i, _) => p.workers[i].Awaiting?
       case Ended(i, _, _) => p.workers[i].Reading?
  }

  function Step(p: Pool, e: Event): Pool
    requires Enabled(p, e)
  {
    match e
    case Opened(i, ok, now) =>
      if ok then TakeTurn(p, i, now) else p.(workers := p.workers[i := Broke])
    case Answered(i, Accepted) => p.(workers := p.workers[i := Reading(p.workers[i].started)])
    case Answered(i, Rejected) => p.(failures := p.failures + 1, workers := p.workers[i := Failed])
    case Answered(i, Lost) => p.(broken := p.broken + 1, workers := p.workers[i := Broke])
    case Ended(i, ok, now) =>
      if ok then TakeTurn(p.(latencies := p.latencies + [now - p.workers[i].started]), i, now)
      else p.(broken := p.broken + 1, workers := p.workers[i := Broke])
  }

  // ------------------------------------------------------ the program's variables

  class Drive {
    var remaining: int
    var failures: nat
    var latencies: seq<real>
    var workers: seq<Worker>
    ghost var broken: nat

    ghost function View(): Pool
      reads this
    {
      Pool(remaining, failures, latencies, workers, broken)
    }

    constructor (concurrency: nat, total: int)
      ensures View() == NewPool(concurrency, total)
    {
      remaining, failures, latencies := total, 0, [];
      workers := seq(concurrency, _ => Connecting);
      broken := 0;
    }

    /** One pass over the loop head, up to the next await. */
    method NextRequest(i: nat, now: real)
      requires i < |workers|
      modifies this
      ensures View() == TakeTurn(old(View()), i, now)
    {
      if remaining > 0 {
        remaining := remaining - 1;
        workers := workers[i := Awaiting(now)];
      } else {
        workers := workers[i := Finished];
      }
    }

    method ConnectionOpened(i: nat, ok: bool, now: real)
      requires Enabled(View(), Opened(i, ok, now))
      modifies this
      ensures View() == Step(old(View()), Opened(i, ok, now))
    {
      if !ok {
        workers := workers[i := Broke];
        return;
      }
      NextRequest(i, now);
    }

    method HeadersRead(i: nat, headers: Headers)
      requires Enabled(View(), Answered(i, headers))
      modifies this
      ensures View() == Step(old(View()), Answered(i, headers))
    {
      match headers {
        case Accepted =>
          workers := workers[i := Reading(workers[i].started)];
        case Rejected =>
          failures := failures + 1;
          workers := workers[i := Failed];
        case Lost =>
          broken := broken + 1;
          workers := workers[i := Broke];
      }
    }

    method BodyRead(i: nat, ok: bool, now: real)
      requires Enabled(View(), Ended(i, ok, now))
      modifies this
      ensures View() == Step(old(View()), Ended(i, ok, now))
    {
      if !ok {
        broken := broken + 1;
        workers := workers[i := Broke];
        return;
      }
      latencies := latencies + [now - workers[i].started];
      NextRequest(i, now);
    }
  }

  // ------------------------------------------------------------- whole runs

  predicate Possible(start: Pool, events: seq<Event>)
    decreases |events|, 0
  {
    events == [] || (Possible(start, events[..|events| - 1]) && Enabled(After(start, events[..|events| - 1]), events[|events| - 1]))
  }

  function After(start: Pool, events: seq<Event>): Pool
    requires Possible(start, events)
    decreases |events|, 1
  {
    if events == [] then start else Step(After(start, events[..|events| - 1]), events[|events| - 1])
  }

  function Sum(workers: seq<Worker>, f: Worker -> int): int
  {
    if workers == [] then 0 else Sum(workers[..|workers| - 1], f) + f(workers[|workers| - 1])
  }

  function InFlight(): Worker -> int
  {
    (w: Worker) => if w.Awaiting? || w.Reading? then 1 else 0
  }

  function Failures(): Worker -> int
  {
    (w: Worker) => if w.Failed? then 1 else 0
  }

  function Breaks(): Worker -> int
  {
    (w: Worker) => if w.Broke? then 1 else 0
  }

  function Work(): Worker -> int
  {
    (w: Worker) => match w case Connecting => 3 case Awaiting(_) => 2 case Reading(_) => 1 case _ => 0
  }

  lemma {:induction false} SumUpdate(workers: seq<Worker>, i: nat, w: Worker, f: Worker -> int)
    requires i < |workers|
    ensures Sum(workers[i := w], f) == Sum(workers, f) - f(workers[i]) + f(w)
  {
    var n := |workers| - 1;
    if i == n {
      assert workers[i := w][..n] == workers[..n];
    } else {
      assert workers[i := w][..n] == workers[..n][i := w];
      SumUpdate(workers[..n], i, w, f);
    }
  }

  lemma {:induction false} FlightBounds(workers: seq<Worker>)
    ensures 0 <= Sum(workers, InFlight()) <= |workers| && 0 <= Sum(workers, Work()) <= 3 * |workers|
    ensures 0 <= Sum(workers, Failures()) && 0 <= Sum(workers, Breaks())
  {
    if workers != [] {
      FlightBounds(workers[..|workers| - 1]);
    }
  }

  lemma {:induction false} Fresh(n: nat)
    ensures Sum(seq(n, _ => Connecting), InFlight()) == Sum(seq(n, _ => Connecting), Failures()) == Sum(seq(n, _ => Connecting), Breaks()) == 0
    ensures Sum(seq(n, _ => Connecting), Work()) == 3 * n
  {
    if n > 0 {
      var s: seq<Worker> := seq(n, _ => Connecting);
      assert s[..n - 1] == seq(n - 1, _ => Connecting);
      Fresh(n - 1);
    }
  }

  /** Every request of the total is in exactly one place. */
  ghost predicate Accounted(p: Pool, concurrency: nat, total: int)
  {
    && |p.workers| == concurrency
    && p.remaining + Sum(p.workers, InFlight()) + |p.latencies| + p.failures + p.broken == total
    && (total >= 0 ==> p.remaining >= 0)
    && p.failures == Sum(p.workers, Failures()) && p.broken <= Sum(p.workers, Breaks())
    && forall w <- p.workers :: w.Finished? ==> p.remaining <= 0
  }

  /** How many more steps there can be. */
  ghost function Measure(p: Pool): int
  {
    3 * (if p.remaining > 0 then p.remaining else 0) + Sum(p.workers, Work())
  }

  lemma StepSums(p: Pool, e: Event, f: Worker -> int)
    requires Enabled(p, e)
    ensures Sum(Step(p, e).workers, f) == Sum(p.workers, f) - f(p.workers[e.worker]) + f(Step(p, e).workers[e.worker])
  {
    SumUpdate(p.workers, e.worker, Step(p, e).workers[e.worker], f);
  }

  lemma StepKeeps(p: Pool, e: Event, concurrency: nat, total: int)
    requires Accounted(p, concurrency, total) && Enabled(p, e)
    ensures Accounted(Step(p, e), concurrency, total) && Measure(Step(p, e)) < Measure(p)
  {
    StepSums(p, e, InFlight());
    StepSums(p, e, Failures());
    StepSums(p, e, Breaks());
    StepSums(p, e, Work());
  }

  /** At every step of every interleaving the requests still to send, in flight, completed,
      failed and broken off add up to the total, no more are in flight than there are
      workers, and the counter is never negative; and no run has more than
      3 * (total + concurrency) steps. */
  lemma {:induction false} EveryRequestAccounted(concurrency: nat, total: int, events: seq<Event>)
    requires Possible(NewPool(concurrency, total), events)
    ensures var p := After(NewPool(concurrency, total), events);
            && Accounted(p, concurrency, total)
            && 0 <= Sum(p.workers, InFlight()) <= concurrency
            && |events| <= 3 * ((if total > 0 then total else 0) + concurrency) - Measure(p)
            && Measure(p) >= 0
  {
    var start := NewPool(concurrency, total);
    if events == [] {
      Fresh(concurrency);
    } else {
      var front := events[..|events| - 1];
      EveryRequestAccounted(concurrency, total, front);
      StepKeeps(After(start, front), events[|events| - 1], concurrency, total);
    }
    FlightBounds(After(start, events).workers);
  }

  predicate Over(p: Pool)
  {
    forall w <- p.workers :: w.Finished? || w.Failed? || w.Broke?
  }

  /** A pool none of whose workers can be woken has ended: no run gets stuck before. */
  lemma OverIffNothingEnabled(p: Pool)
    ensures Over(p) <==> forall e :: !Enabled(p, e)
  {
    if !Over(p) {
      var i :| 0 <= i < |p.workers| && !(p.workers[i].Finished? || p.workers[i].Failed? || p.workers[i].Broke?);
      var e := if p.workers[i].Connecting? then Opened(i, true, 0.0) else if p.workers[i].Awaiting? then Answered(i, Accepted) else Ended(i, true, 0.0);
      assert Enabled(p, e);
    } else {
      forall e: Event
        ensures !Enabled(p, e)
      {
        if e.worker < |p.workers| {
          assert p.workers[e.worker] in p.workers;
        }
      }
    }
  }

  // ------------------------------------------- what the events say of the end

  /** A reply that breaks off; a reply other than 200; a connection that opens. */
  predicate LosesReply(e: Event)
  {
    (e.Answered? && e.headers.Lost?) || (e.Ended? && !e.ok)
  }

  predicate Rejects(e: Event)
  {
    e.Answered? && e.headers.Rejected?
  }

  predicate Connects(e: Event)
  {
    e.Opened? && e.ok
  }

  function HowMany(events: seq<Event>, p: Event -> bool): nat
  {
    if events == [] then 0 else HowMany(events[..|events| - 1], p) + (if p(events[|events| - 1]) then 1 else 0)
  }

  lemma {:induction false} NoneSuch(events: seq<Event>, p: Event -> bool)
    ensures HowMany(events, p) == 0 <==> forall e <- events :: !p(e)
  {
    if events != [] {
      var n := |events| - 1;
      NoneSuch(events[..n], p);
      assert events == events[..n] + [events[n]];
    }
  }

  /** Failures number the rejections and the uncounted losses the broken replies; and a
      worker whose connection opened is still at it, has failed or has run out of work. */
  lemma {:induction false} EventsTell(concurrency: nat, total: int, events: seq<Event>)
    requires Possible(NewPool(concurrency, total), events)
    ensures var p := After(NewPool(concurrency, total), events);
            && p.failures == HowMany(events, Rejects) && p.broken == HowMany(events, LosesReply)
            && (HowMany(events, Connects) == 0 ==> p.remaining == total && forall w <- p.workers :: w.Connecting? || w.Broke?)
            && (HowMany(events, Connects) > 0 && p.failures + p.broken == 0 ==> exists w <- p.workers :: w.Awaiting? || w.Reading? || w.Finished?)
  {
    if events != [] {
      var n := |events| - 1;
      EventsTell(concurrency, total, events[..n]);
      OneEventTells(After(NewPool(concurrency, total), events[..n]), events[n], total, HowMany(events[..n], Connects));
    }
  }

  lemma OneEventTells(p: Pool, e: Event, total: int, connected: nat)
    requires Enabled(p, e)
    requires connected == 0 ==> p.remaining == total && forall w <- p.workers :: w.Connecting? || w.Broke?
    requires connected > 0 && p.failures + p.broken == 0 ==> exists w <- p.workers :: w.Awaiting? || w.Reading? || w.Finished?
    ensures var p', connected' := Step(p, e), connected + (if Connects(e) then 1 else 0);
            && (connected' == 0 ==> p'.remaining == total && forall w <- p'.workers :: w.Connecting? || w.Broke?)
            && (connected' > 0 && p'.failures + p'.broken == 0 ==> exists w <- p'.workers :: w.Awaiting? || w.Reading? || w.Finished?)
  {
    var i, p' := e.worker, Step(p, e);
    assert p.workers[i] in p.workers && p'.workers[i] in p'.workers;
    if connected > 0 && p.failures + p.broken == 0 {
      var k :| 0 <= k < |p.workers| && (p.workers[k].Awaiting? || p.workers[k].Reading? || p.workers[k].Finished?);
      assert p'.workers[k] in p'.workers;
    }
  }

  /** When all workers of a pool have ended, it has `total` latencies exactly when no reply
      was rejected or broke off and, if there was anything to send, some connection opened. */
  lemma LatenciesWhenOver(concurrency: nat, total: nat, events: seq<Event>)
    requires Possible(NewPool(concurrency, total), events)
    requires Over(After(NewPool(concurrency, total), events))
    ensures |After(NewPool(concurrency, total), events).latencies| == total
            <==> (forall e <- events :: !Rejects(e) && !LosesReply(e)) && (total == 0 || exists e <- events :: Connects(e))
  {
    var p := After(NewPool(concurrency, total), events);
    EveryRequestAccounted(concurrency, total, events);
    NoneInFlight(p.workers);
    EventsTell(concurrency, total, events);
    NoneSuch(events, Rejects);
    NoneSuch(events, LosesReply);
    NoneSuch(events, Connects);
  }

  /** What the program itself counts: still to send, in flight, completed and failed. */
  ghost function Counted(p: Pool): int
  {
    p.remaining + Sum(p.workers, InFlight()) + |p.latencies| + p.failures
  }

  /** The program's own counts fall short of the total by exactly the replies that broke
      off: they add up if and only if there was none. */
  lemma CountedIffNoneBroke(concurrency: nat, total: int, events: seq<Event>)
    requires Possible(NewPool(concurrency, total), events)
    ensures var p := After(NewPool(concurrency, total), events);
            && Counted(p) == total - HowMany(events, LosesReply)
            && (Counted(p) == total <==> forall e <- events :: !LosesReply(e))
  {
    EveryRequestAccounted(concurrency, total, events);
    EventsTell(concurrency, total, events);
    NoneSuch(events, LosesReply);
  }

  /** One broken reply, and a request is in none of the program's counts. */
  lemma BrokenReplyUncounted(concurrency: nat, total: int, now: real)
    requires concurrency >= 1 && total >= 1
    ensures var events := [Opened(0, true, now), Answered(0, Headers.Lost)];
            Possible(NewPool(concurrency, total), events) && Counted(After(NewPool(concurrency, total), events)) == total - 1
  {
    var start := NewPool(concurrency, total);
    var first: seq<Event> := [Opened(0, true, now)];
    var events := first + [Answered(0, Headers.Lost)];
    assert first[..0] == [] && events[..1] == first;
    assert events == [Opened(0, true, now), Answered(0, Headers.Lost)];
    assert Possible(start, []) && Possible(start, first);
    assert HowMany([], LosesReply) == 0 && HowMany(first, LosesReply) == 0;
    CountedIffNoneBroke(concurrency, total, events);
  }

  lemma {:induction false} NoneInFlight(workers: seq<Worker>)
    requires forall w <- workers :: w.Finished? || w.Failed? || w.Broke?
    ensures Sum(workers, InFlight()) == 0
  {
    if workers != [] {
      assert workers[|workers| - 1] in workers;
      NoneInFlight(workers[..|workers| - 1]);
    }
  }

  // -------------------------------------------------------- what a latency is

  /** A reply that was read to its end. */
  predicate Completes(e: Event)
  {
    e.Ended? && e.ok
  }

  /** A worker sends its next request when its connection opens and when a reply ends. */
  predicate Sends(e: Event, worker: nat)
  {
    (e.Opened? && e.ok && e.worker == worker) || (e.Ended? && e.ok && e.worker == worker)
  }

  /** The last event at which the worker sent a request. */
  predicate LastSent(events: seq<Event>, worker: nat, m: nat)
  {
    m < |events| && Sends(events[m], worker) && forall i :: m < i < |events| ==> !Sends(events[i], worker)
  }

  function TimeOf(e: Event): real
    requires e.Opened? || e.Ended?
  {
    e.now
  }

  /** A worker with a request under way has sent it at the last such event, and started
      its clock then. */
  lemma {:induction false} StartedWhenSent(start: Pool, events: seq<Event>, i: nat)
    requires Possible(start, events) && (forall w <- start.workers :: w.Connecting?) && i < |After(start, events).workers|
    ensures var w := After(start, events).workers[i];
            w.Awaiting? || w.Reading? ==> exists m: nat :: LastSent(events, i, m) && w.started == TimeOf(events[m])
  {
    if events == [] {
      assert start.workers[i] in start.workers;
    } else {
      var n := |events| - 1;
      var front, e := events[..n], events[n];
      var p := After(start, front);
      StartedWhenSent(start, front, i);
      var w := Step(p, e).workers[i];
      if w.Awaiting? || w.Reading? {
        if Sends(e, i) {
          assert LastSent(events, i, n);
        } else {
          var m: nat :| LastSent(front, i, m) && p.workers[i].started == TimeOf(front[m]);
          assert events[m] == front[m] && forall j :: m < j < n ==> events[j] == front[j];
          assert LastSent(events, i, m);
        }
      }
    }
  }

  /** Each finished reply adds one latency: the time since its worker last sent a request. */
  lemma {:induction false} LatencyIsElapsed(concurrency: nat, total: int, events: seq<Event>, k: nat, m: nat)
    requires Possible(NewPool(concurrency, total), events)
    requires k < |events| && Completes(events[k]) && LastSent(events[..k], events[k].worker, m)
    ensures var latencies, j := After(NewPool(concurrency, total), events).latencies, HowMany(events[..k], Completes);
            j < |latencies| && latencies[j] == events[k].now - TimeOf(events[m])
  {
    var start, n := NewPool(concurrency, total), |events| - 1;
    var front := events[..n];
    if k == n {
      LatenciesNumber(concurrency, total, front);
      StartedWhenSent(start, front, events[n].worker);
      var i: nat :| LastSent(front, events[n].worker, i) && After(start, front).workers[events[n].worker].started == TimeOf(front[i]);
      assert i == m;
    } else {
      assert front[..k] == events[..k] && front[k] == events[k];
      LatencyIsElapsed(concurrency, total, front, k, m);
      LatenciesStay(After(start, front), events[n]);
    }
  }

  lemma LatenciesStay(p: Pool, e: Event)
    requires Enabled(p, e)
    ensures p.latencies <= Step(p, e).latencies
  {
  }

  /** There are no other latencies. */
  lemma {:induction false} LatenciesNumber(concurrency: nat, total: int, events: seq<Event>)
    requires Possible(NewPool(concurrency, total), events)
    ensures |After(NewPool(concurrency, total), events).latencies| == HowMany(events, Completes)
  {
    if events != [] {
      LatenciesNumber(concurrency, total, events[..|events| - 1]);
    }
  }

  /** A reply can only end for a worker that has sent its request. */
  lemma SentBeforeEnded(concurrency: nat, total: int, events: seq<Event>, k: nat)
    requires Possible(NewPool(concurrency, total), events) && k < |events| && Completes(events[k])
    ensures exists m: nat :: LastSent(events[..k], events[k].worker, m)
  {
    var start, upto := NewPool(concurrency, total), events[..k + 1];
    PrefixPossible(start, events, k + 1);
    assert upto[..|upto| - 1] == events[..k] && upto[|upto| - 1] == events[k];
    assert Enabled(After(start, events[..k]), events[k]);
    hide Possible, After;
    StartedWhenSent(start, events[..k], events[k].worker);
  }

  lemma {:induction false} PrefixPossible(start: Pool, events: seq<Event>, k: nat)
    requires Possible(start, events) && k <= |events|
    ensures Possible(start, events[..k])
  {
    if k < |events| {
      PrefixPossible(start, events[..|events| - 1], k);
      assert events[..|events| - 1][..k] == events[..k];
    } else {
      assert events[..k] == events;
    }
  }

  predicate ClockNeverBack(events: seq<Event>)
  {
    forall i, j :: 0 <= i < j < |events| && !events[i].Answered? && !events[j].Answered? ==> TimeOf(events[i]) <= TimeOf(events[j])
  }

  /** On a clock that never goes back no latency is negative. */
  lemma {:induction false} LatenciesNotNegative(concurrency: nat, total: int, events: seq<Event>)
    requires Possible(NewPool(concurrency, total), events) && ClockNeverBack(events)
    ensures forall x <- After(NewPool(concurrency, total), events).latencies :: x >= 0.0
  {
    if events != [] {
      var n := |events| - 1;
      LatenciesNotNegative(concurrency, total, events[..n]);
      if Completes(events[n]) {
        SentBeforeEnded(concurrency, total, events, n);
        var m: nat :| LastSent(events[..n], events[n].worker, m);
        LatencyIsElapsed(concurrency, total, events, n, m);
        LatenciesNumber(concurrency, total, events[..n]);
        assert TimeOf(events[m]) <= TimeOf(events[n]);
      }
    }
  }
}
