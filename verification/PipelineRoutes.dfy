/** The two routes decide alike: replace the route of any request of a run, and any
    measured duration, and every decision, reason, counter and limiter stays the same. */
module PipelineRoutes {
  import opened Prelude
  import opened Access
  import opened Pipeline
  import opened PipelineRuns

  /** An entry without its route and without the number of its latency. */
  function Blank(e: Entry): Entry
  {
    e.(route := Route.Infer, latency := if e.outcome == "allowed" && e.latency.Some? then Some(0.0) else None)
  }

  function BlankTicket(t: Ticket): Ticket
  {
    t.(admission := t.admission.(route := Route.Infer))
  }

  /** The same request at the same clock readings on any routes, or the same ending. */
  predicate Alike(x: Step, y: Step)
  {
    match x
    case Request(_, r, now) => y.Request? && y.request == r && y.now == now
    case AskRate(i, now, _) => y.AskRate? && y.ticket == i && y.now == now
    case AskTokens(i, now, _) => y.AskTokens? && y.ticket == i && y.now == now
    case End(i, exit) =>
      y.End? && y.ticket == i && ((exit.Done? && y.exit.Done?) || (exit.Down? && y.exit.Down?) || (exit.Silent? && y.exit.Silent?))
  }

  /** The clock readings of an admission, with whatever durations measured. */
  predicate SameClocks(u: Timing, v: Timing)
  {
    u.rateNow == v.rateNow && u.tokenNow == v.tokenNow && u.auditNow == v.auditNow
  }

  predicate SameEntries(xs: seq<Entry>, ys: seq<Entry>)
  {
    |xs| == |ys| && forall i :: 0 <= i < |xs| ==> Blank(xs[i]) == Blank(ys[i])
  }

  predicate SameTickets(xs: seq<Ticket>, ys: seq<Ticket>)
  {
    |xs| == |ys| && forall i :: 0 <= i < |xs| ==> BlankTicket(xs[i]) == BlankTicket(ys[i])
  }

  predicate SameState(s: State, t: State)
  {
    && s.rate == t.rate && s.tokens == t.tokens && s.gate == t.gate && s.auth == t.auth
    && SameEntries(s.ledger, t.ledger)
    && |s.limiterTimes| == |t.limiterTimes|
    && forall i :: 0 <= i < |s.limiterTimes| ==> s.limiterTimes[i].0 == t.limiterTimes[i].0
  }

  predicate SameSys(s: Sys, t: Sys)
  {
    SameState(s.state, t.state) && SameTickets(s.tickets, t.tickets) && s.received == t.received
  }

  lemma AskAlike(cfg: Setup, s: State, t: State, x: Route, y: Route, r: Pipeline.Request, u: Timing, v: Timing)
    requires SameState(s, t) && SameClocks(u, v) && IntakeOf(cfg, r).decision.allowed
    ensures var a, b := Ask(cfg, s, x, r, u), Ask(cfg, t, y, r, v);
            && SameState(a.state, b.state)
            && a.admission.Some? == b.admission.Some?
            && (a.admission.Some? ==> b.admission.value == a.admission.value.(route := y))
  {
    hide IntakeOf;
    hide RateVerdict;
    hide TokenVerdict;
    hide RateCall;
    hide TokenCall;
  }

  lemma ArriveAlike(cfg: Setup, s: State, t: State, x: Route, y: Route, r: Pipeline.Request, u: Timing, v: Timing)
    requires SameState(s, t) && SameClocks(u, v)
    ensures var a, b := Arrive(cfg, s, x, r, u), Arrive(cfg, t, y, r, v);
            && SameState(a.state, b.state)
            && a.admission.Some? == b.admission.Some?
            && (a.admission.Some? ==> b.admission.value == a.admission.value.(route := y))
  {
    hide IntakeOf;
    hide Ask;
    hide Suppress;
    hide WithAuthFailure;
    var i := IntakeOf(cfg, r);
    if i.decision.allowed {
      var auth := [(i.who.authMethod, AuthOutcome(i.who))];
      AskAlike(cfg, s.(auth := s.auth + auth), t.(auth := t.auth + auth), x, y, r, u, v);
    }
  }

  lemma FinishAlike(s: State, t: State, a: Admission, b: Admission, exit: Exit, leave: Exit)
    requires SameState(s, t) && b == a.(route := b.route)
    requires (exit.Done? && leave.Done?) || (exit.Down? && leave.Down?) || (exit.Silent? && leave.Silent?)
    ensures SameState(Finish(s, a, exit), Finish(t, b, leave))
  {
  }

  lemma EnterAlike(cfg: Setup, s: State, t: State, x: Route, y: Route, r: Pipeline.Request, now: real)
    requires SameState(s, t)
    ensures SameState(Enter(cfg, s, x, r, now), Enter(cfg, t, y, r, now))
    ensures SameTickets(TicketsFor(cfg, x, r), TicketsFor(cfg, y, r))
  {
    hide IntakeOf, Suppress, WithAuthFailure;
  }

  lemma AskingAlike(cfg: Setup, s: State, t: State, a: Ticket, b: Ticket, now: real, u: real, v: real)
    requires SameState(s, t) && BlankTicket(a) == BlankTicket(b)
    ensures var p, q := Pipeline.AskRate(cfg, s, a.caller, a.admission.model, a.policy, now, u), Pipeline.AskRate(cfg, t, b.caller, b.admission.model, b.policy, now, v);
            p.1 == q.1 && SameState(p.0, q.0)
    ensures var p, q := Pipeline.AskTokens(cfg, s, a.caller, a.admission.model, a.policy, a.admission.tokens, now, u),
                        Pipeline.AskTokens(cfg, t, b.caller, b.admission.model, b.policy, b.admission.tokens, now, v);
            p.1 == q.1 && SameState(p.0, q.0)
  {
    hide RateVerdict, TokenVerdict, RateCall, TokenCall;
  }

  lemma LogAlike(s: State, t: State, a: Ticket, b: Ticket, outcome: string, reason: string)
    requires SameState(s, t) && BlankTicket(a) == BlankTicket(b)
    ensures SameState(Log(s, Refusal(a.admission, outcome, reason)), Log(t, Refusal(b.admission, outcome, reason)))
  {
  }

  lemma MoveAlike(xs: seq<Ticket>, ys: seq<Ticket>, i: nat, status: Status)
    requires SameTickets(xs, ys) && i < |xs|
    ensures BlankTicket(xs[i]) == BlankTicket(ys[i])
    ensures SameTickets(Moved(xs, i, status), Moved(ys, i, status))
  {
  }

  lemma NextAlike(cfg: Setup, s: Sys, t: Sys, x: Step, y: Step)
    requires SameSys(s, t) && Alike(x, y)
    ensures SameSys(Next(cfg, s, x), Next(cfg, t, y))
  {
    hide SameState, Enter, TicketsFor, Pipeline.AskRate, Pipeline.AskTokens, Log, Refusal, Finish, RateVerdict, TokenVerdict;
    if x.Request? {
      EnterAlike(cfg, s.state, t.state, x.route, y.route, x.request, x.now);
    } else if x.ticket < |s.tickets| {
      var i := x.ticket;
      var a, b := s.tickets[i], t.tickets[i];
      forall status: Status
        ensures SameTickets(Moved(s.tickets, i, status), Moved(t.tickets, i, status))
      {
        MoveAlike(s.tickets, t.tickets, i, status);
      }
      assert BlankTicket(a) == BlankTicket(b);
      hide SameTickets, Moved;
      if x.End? {
        FinishAlike(s.state, t.state, a.admission, b.admission, x.exit, y.exit);
      } else {
        AskingAlike(cfg, s.state, t.state, a, b, x.now, x.seconds, y.seconds);
        var rate := Pipeline.AskRate(cfg, s.state, a.caller, a.admission.model, a.policy, x.now, x.seconds).0;
        var rate' := Pipeline.AskRate(cfg, t.state, b.caller, b.admission.model, b.policy, x.now, y.seconds).0;
        LogAlike(rate, rate', a, b, "rate_limited", RATE_REASON);
        var tokens := Pipeline.AskTokens(cfg, s.state, a.caller, a.admission.model, a.policy, a.admission.tokens, x.now, x.seconds).0;
        var tokens' := Pipeline.AskTokens(cfg, t.state, b.caller, b.admission.model, b.policy, b.admission.tokens, x.now, y.seconds).0;
        LogAlike(tokens, tokens', a, b, "token_budget_limited", TOKEN_REASON);
      }
    }
  }

  /** Two runs that differ in routes and durations alone make the same limiter calls with
      the same answers, ask the denial budget alike, and keep the same ledger. */
  lemma {:induction false} RoutesAlike(cfg: Setup, xs: seq<Step>, ys: seq<Step>)
    requires |xs| == |ys| && forall i :: 0 <= i < |xs| ==> Alike(xs[i], ys[i])
    ensures SameSys(Run(cfg, xs), Run(cfg, ys))
  {
    if xs != [] {
      var n := |xs| - 1;
      RoutesAlike(cfg, xs[..n], ys[..n]);
      NextAlike(cfg, Run(cfg, xs[..n]), Run(cfg, ys[..n]), xs[n], ys[n]);
    }
  }

  /** Equal ledgers up to route and latency give equal counters, equal suppression, as
      many audit events, and as many latency samples under the same labels. */
  lemma {:induction false} SameCounters(cfg: Setup, xs: seq<Entry>, ys: seq<Entry>)
    requires SameEntries(xs, ys)
    ensures RequestsIn(cfg, xs) == RequestsIn(cfg, ys) && DenialsIn(cfg, xs) == DenialsIn(cfg, ys) && TokensIn(cfg, xs) == TokensIn(cfg, ys)
    ensures SuppressedIn(xs) == SuppressedIn(ys) && |AuditLog(xs)| == |AuditLog(ys)|
    ensures |LatenciesIn(cfg, xs)| == |LatenciesIn(cfg, ys)|
    ensures forall i :: 0 <= i < |LatenciesIn(cfg, xs)| ==> LatenciesIn(cfg, xs)[i].0 == LatenciesIn(cfg, ys)[i].0
  {
    if xs != [] {
      var n := |xs| - 1;
      SameCounters(cfg, xs[..n], ys[..n]);
      assert Blank(xs[n]) == Blank(ys[n]);
      SampleAlike(cfg, xs[n], ys[n]);
      assert RequestsIn(cfg, xs) == RequestsIn(cfg, ys);
      assert DenialsIn(cfg, xs) == DenialsIn(cfg, ys);
    }
  }

  lemma SampleAlike(cfg: Setup, x: Entry, y: Entry)
    requires Blank(x) == Blank(y)
    ensures |LatencySample(cfg, x)| == |LatencySample(cfg, y)|
    ensures forall i :: 0 <= i < |LatencySample(cfg, x)| ==> LatencySample(cfg, x)[i].0 == LatencySample(cfg, y)[i].0
    ensures x.model == y.model && x.outcome == y.outcome && x.reasons == y.reasons && x.tokens == y.tokens && x.suppressed == y.suppressed
  {
  }

  /** One request on either route, from the same state and with backends that both answer
      or both fail. */
  lemma SameDecisions(cfg: Setup, s: State, r: Pipeline.Request, u: Timing, v: Timing, exit: Exit, leave: Exit)
    requires SameClocks(u, v)
    requires (exit.Done? && leave.Done?) || (exit.Down? && leave.Down?)
    ensures SameState(Handle(cfg, s, Route.Infer, r, u, exit), Handle(cfg, s, Route.Completions, r, v, leave))
  {
    hide Arrive;
    hide Finish;
    ArriveAlike(cfg, s, s, Route.Infer, Route.Completions, r, u, v);
    var a, b := Arrive(cfg, s, Route.Infer, r, u), Arrive(cfg, s, Route.Completions, r, v);
    if a.admission.Some? {
      FinishAlike(a.state, b.state, a.admission.value, b.admission.value, exit, leave);
    }
  }
}
