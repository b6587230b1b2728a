/** Whole runs of the gateway: requests on both routes arrive in any order, each passes the
    limiters step by step with steps of other requests in between, and an admitted one
    ends at any later time. */
module PipelineRuns {
  import opened Prelude
  import opened Access
  import opened Metrics
  import opened Pipeline
  import DenialBudget

  /** Where a request the policy allowed is: before the request limiter, between the two
      limiters, with the backend; or how it ended. */
  datatype Status = Waiting | Between | Running | Recorded | Lost
  {
    predicate Open() { Waiting? || Between? || Running? }
  }

  datatype Ticket = Ticket(caller: Principal, policy: ModelPolicy, admission: Admission, status: Status)

  datatype Sys = Sys(state: State, tickets: seq<Ticket>, received: nat)

  datatype Step =
    | Request(route: Route, request: Pipeline.Request, now: real)
    | AskRate(ticket: nat, now: real, seconds: real)
    | AskTokens(ticket: nat, now: real, seconds: real)
    | End(ticket: nat, exit: Exit)

  /** The one-shot route knows no streams. */
  predicate ExitFits(route: Route, exit: Exit)
  {
    route.Infer? ==> exit.Done? || exit.Down? || exit.Silent?
  }

  /** Whether the request a step belongs to is where the step can be taken. */
  predicate Enabled(s: Sys, step: Step)
  {
    match step
    case Request(_, _, _) => true
    case AskRate(i, _, _) => i < |s.tickets| && s.tickets[i].status.Waiting?
    case AskTokens(i, _, _) => i < |s.tickets| && s.tickets[i].status.Between?
    case End(i, exit) => i < |s.tickets| && s.tickets[i].status.Running? && ExitFits(s.tickets[i].admission.route, exit)
  }

  function Next(cfg: Setup, s: Sys, step: Step): Sys
  {
    if !Enabled(s, step) then s
    else match step
      case Request(route, r, now) =>
        Sys(Enter(cfg, s.state, route, r, now), s.tickets + TicketsFor(cfg, route, r), s.received + 1)
      case AskRate(i, now, seconds) =>
        var t := s.tickets[i];
        var (state, ok) := Pipeline.AskRate(cfg, s.state, t.caller, t.admission.model, t.policy, now, seconds);
        if ok then Sys(state, Moved(s.tickets, i, Between), s.received)
        else Sys(Log(state, Refusal(t.admission, "rate_limited", RATE_REASON)), Moved(s.tickets, i, Recorded), s.received)
      case AskTokens(i, now, seconds) =>
        var t := s.tickets[i];
        var (state, ok) := Pipeline.AskTokens(cfg, s.state, t.caller, t.admission.model, t.policy, t.admission.tokens, now, seconds);
        if ok then Sys(state, Moved(s.tickets, i, Running), s.received)
        else Sys(Log(state, Refusal(t.admission, "token_budget_limited", TOKEN_REASON)), Moved(s.tickets, i, Recorded), s.received)
      case End(i, exit) =>
        Sys(Finish(s.state, s.tickets[i].admission, exit), Moved(s.tickets, i, if exit.Silent? then Lost else Recorded), s.received)
  }

  /** A request the policy allows goes on to the limiters. */
  function TicketsFor(cfg: Setup, route: Route, r: Pipeline.Request): seq<Ticket>
  {
    var i := IntakeOf(cfg, r);
    if i.decision.allowed then [Ticket(i.who.principal.value, i.policy.value, AdmissionOf(route, r, i), Waiting)] else []
  }

  function Moved(tickets: seq<Ticket>, i: nat, status: Status): seq<Ticket>
    requires i < |tickets|
  {
    tickets[i := tickets[i].(status := status)]
  }

  /** The entry of a request that a limiter refused. */
  function Refusal(a: Admission, outcome: string, reason: string): Entry
  {
    Entry(a.route, a.who, a.model, outcome, false, [reason], a.reason, a.tokens, Some(a.tokenLimit), None, false)
  }

  function Run(cfg: Setup, steps: seq<Step>): Sys
  {
    if steps == [] then Sys(Start, [], 0)
    else Next(cfg, Run(cfg, steps[..|steps| - 1]), steps[|steps| - 1])
  }

  /** The steps of one admission, taken with nothing in between, are the admission that the
      handlers make. */
  lemma AdmissionInSteps(cfg: Setup, s: Sys, route: Route, r: Pipeline.Request, t: Timing)
    ensures var i := |s.tickets|;
            var entered := Next(cfg, s, Step.Request(route, r, t.auditNow));
            var charged := Next(cfg, entered, Step.AskRate(i, t.rateNow, t.rateSeconds));
            var asked := Next(cfg, charged, Step.AskTokens(i, t.tokenNow, t.tokenSeconds));
            var a := Arrive(cfg, s.state, route, r, t);
            && asked.state == a.state && asked.received == s.received + 1
            && |asked.tickets| == |s.tickets| + |TicketsFor(cfg, route, r)| && asked.tickets[..i] == s.tickets
            && (a.admission.Some? <==> i < |asked.tickets| && asked.tickets[i].status.Running?)
            && (a.admission.Some? ==> asked.tickets[i].admission == a.admission.value)
            && (i < |asked.tickets| && a.admission.None? ==> asked.tickets[i].status.Recorded?)
  {
    hide RateVerdict, TokenVerdict, RateCall, TokenCall, IntakeOf, Suppress, WithAuthFailure;
    var i := |s.tickets|;
    var entered := Next(cfg, s, Step.Request(route, r, t.auditNow));
    if IntakeOf(cfg, r).decision.allowed {
      assert entered.tickets[i] == TicketsFor(cfg, route, r)[0];
    }
  }

  // ----------------------------------------------------- sums over a run

  function OverLedger(ledger: seq<Entry>, f: Entry -> int): int
  {
    if ledger == [] then 0 else OverLedger(ledger[..|ledger| - 1], f) + f(ledger[|ledger| - 1])
  }

  function OverTickets(tickets: seq<Ticket>, f: Ticket -> int): int
  {
    if tickets == [] then 0 else OverTickets(tickets[..|tickets| - 1], f) + f(tickets[|tickets| - 1])
  }

  lemma LedgerSum(ledger: seq<Entry>, e: Entry, f: Entry -> int)
    ensures OverLedger(ledger + [e], f) == OverLedger(ledger, f) + f(e)
  {
    assert (ledger + [e])[..|ledger + [e]| - 1] == ledger;
  }

  lemma TicketSum(tickets: seq<Ticket>, t: Ticket, f: Ticket -> int)
    ensures OverTickets(tickets + [t], f) == OverTickets(tickets, f) + f(t)
  {
    assert (tickets + [t])[..|tickets + [t]| - 1] == tickets;
  }

  lemma {:induction false} TicketUpdate(tickets: seq<Ticket>, i: nat, t: Ticket, f: Ticket -> int)
    requires i < |tickets|
    ensures OverTickets(tickets[i := t], f) == OverTickets(tickets, f) - f(tickets[i]) + f(t)
  {
    var n := |tickets| - 1;
    if i == n {
      assert tickets[i := t][..n] == tickets[..n];
    } else {
      assert tickets[i := t][..n] == tickets[..n][i := t];
      TicketUpdate(tickets[..n], i, t, f);
    }
  }

  function OpenTickets(): Ticket -> int
  {
    (t: Ticket) => if t.status.Open() then 1 else 0
  }

  // ------------------------------------------------------- conservation

  /** A step by which a request ends with nothing written: its handler died, or its stream
      was abandoned before it started. */
  predicate Dies(cfg: Setup, steps: seq<Step>, k: nat)
    requires k < |steps|
  {
    steps[k].End? && steps[k].exit.Silent? && Enabled(Run(cfg, steps[..k]), steps[k])
  }

  function Deaths(cfg: Setup, steps: seq<Step>): nat
  {
    if steps == [] then 0
    else
      var n := |steps| - 1;
      Deaths(cfg, steps[..n]) + (if Dies(cfg, steps, n) then 1 else 0)
  }

  /** Every request received is in the ledger once, still open, or was ended by a step that
      writes nothing. */
  lemma {:induction false} RequestsConserved(cfg: Setup, steps: seq<Step>)
    ensures var s := Run(cfg, steps);
            s.received == |s.state.ledger| + OverTickets(s.tickets, OpenTickets()) + Deaths(cfg, steps)
  {
    if steps != [] {
      var s, step := Run(cfg, steps[..|steps| - 1]), steps[|steps| - 1];
      RequestsConserved(cfg, steps[..|steps| - 1]);
      ConservedStep(cfg, s, step);
    }
  }

  lemma ConservedStep(cfg: Setup, s: Sys, step: Step)
    ensures var s' := Next(cfg, s, step);
            s'.received - |s'.state.ledger| - OverTickets(s'.tickets, OpenTickets())
            == s.received - |s.state.ledger| - OverTickets(s.tickets, OpenTickets())
               + (if step.End? && step.exit.Silent? && Enabled(s, step) then 1 else 0)
  {
    hide IntakeOf, Suppress, RateVerdict, TokenVerdict;
    var s' := Next(cfg, s, step);
    if Enabled(s, step) {
      if step.Request? {
        var added := TicketsFor(cfg, step.route, step.request);
        if added == [] {
          assert s'.tickets == s.tickets;
        } else {
          TicketSum(s.tickets, added[0], OpenTickets());
        }
      } else {
        TicketUpdate(s.tickets, step.ticket, s'.tickets[step.ticket], OpenTickets());
      }
    }
  }

  /** Once nothing is open, the ledger holds as many entries as requests came in exactly
      when no step of the run ended a request with nothing written. */
  lemma AllRecordedIffNoneLost(cfg: Setup, steps: seq<Step>)
    requires forall t <- Run(cfg, steps).tickets :: !t.status.Open()
    ensures |Run(cfg, steps).state.ledger| == Run(cfg, steps).received
            <==> forall k :: 0 <= k < |steps| ==> !Dies(cfg, steps, k)
  {
    RequestsConserved(cfg, steps);
    NoneOpen(Run(cfg, steps).tickets);
    NoDeaths(cfg, steps);
  }

  lemma {:induction false} NoneOpen(tickets: seq<Ticket>)
    requires forall t <- tickets :: !t.status.Open()
    ensures OverTickets(tickets, OpenTickets()) == 0
  {
    if tickets != [] {
      assert tickets[|tickets| - 1] in tickets;
      NoneOpen(tickets[..|tickets| - 1]);
    }
  }

  lemma {:induction false} NoDeaths(cfg: Setup, steps: seq<Step>)
    ensures Deaths(cfg, steps) == 0 <==> forall k :: 0 <= k < |steps| ==> !Dies(cfg, steps, k)
  {
    hide Run;
    if steps != [] {
      var n := |steps| - 1;
      NoDeaths(cfg, steps[..n]);
      forall k | 0 <= k < n
        ensures Dies(cfg, steps, k) == Dies(cfg, steps[..n], k)
      {
        assert steps[..n][..k] == steps[..k];
      }
    }
  }

  /** One stream, admitted and abandoned before its start. */
  function Abandoned(r: Pipeline.Request, now: real): seq<Step>
  {
    [Step.Request(Completions, r, now), Step.AskRate(0, now, 0.0), Step.AskTokens(0, now, 0.0), End(0, Silent)]
  }

  /** Whatever request the policy allows and the token limit can hold: a gateway that sees
      nothing else received it and has no entry for it, with nothing open. */
  lemma AbandonedStreamUnrecorded(cfg: Setup, r: Pipeline.Request, now: real)
    requires var i := IntakeOf(cfg, r);
             i.decision.allowed && PositiveLimits(cfg.policies) && i.tokens <= i.policy.value.inputTokensPerMinute
    ensures var s := Run(cfg, Abandoned(r, now));
            s.received == 1 && s.state.ledger == [] && |s.state.rate| == |s.state.tokens| == 1 && forall t <- s.tickets :: t.status.Lost?
  {
    hide IntakeOf, RateVerdict, TokenVerdict;
    var steps := Abandoned(r, now);
    assert steps[..3][..2] == steps[..2] && steps[..2][..1] == steps[..1] && steps[..1][..0] == [];
    var t := TicketsFor(cfg, Completions, r)[0];
    FirstCallsGranted(cfg, t.caller, t.admission.model, t.policy, t.admission.tokens, now);
    var s0, s1, s2, s3 := Run(cfg, []), Run(cfg, steps[..1]), Run(cfg, steps[..2]), Run(cfg, steps[..3]);
    assert s1 == Next(cfg, s0, steps[0]) && s1.tickets == [t];
    assert s2 == Next(cfg, s1, steps[1]) && s2.tickets == [t.(status := Between)];
    assert s3 == Next(cfg, s2, steps[2]) && s3.tickets == [t.(status := Running)];
    assert Run(cfg, steps) == Next(cfg, s3, steps[3]);
  }

  /** Fresh limiters grant what fits them. */
  lemma FirstCallsGranted(cfg: Setup, who: Principal, model: string, policy: ModelPolicy, tokens: int, now: real)
    requires 1 <= tokens <= policy.inputTokensPerMinute
    ensures RateVerdict(cfg, [], RateCall(who, model, policy, now)) && TokenVerdict(cfg, [], TokenCall(who, model, policy, tokens, now))
  {
  }

  // ---------------------------------------------- every sink tells the same

  /** Sum of a counter over all its keys. */
  ghost function SumOver<K(!new)>(counter: map<K, int>): int
  {
    if counter == map[] then 0
    else
      var k :| k in counter;
      counter[k] + SumOver(counter - {k})
  }

  /** The sum does not depend on which key is taken out first. */
  lemma {:induction false} SumRemove<K(!new)>(counter: map<K, int>, k: K)
    requires k in counter
    ensures SumOver(counter) == counter[k] + SumOver(counter - {k})
    decreases counter
  {
    var first :| first in counter && SumOver(counter) == counter[first] + SumOver(counter - {first});
    if first != k {
      SumRemove(counter - {first}, k);
      SumRemove(counter - {k}, first);
      assert counter - {first} - {k} == counter - {k} - {first};
    }
  }

  lemma SumBump<K(!new)>(counter: map<K, int>, k: K, amount: int)
    ensures SumOver(Bump(counter, k, amount)) == SumOver(counter) + amount
  {
    var bumped := Bump(counter, k, amount);
    SumRemove(bumped, k);
    if k in counter {
      SumRemove(counter, k);
      assert bumped - {k} == counter - {k};
    } else {
      assert bumped - {k} == counter;
    }
  }

  /** An audit event and a span agree in everything that both hold. */
  predicate TellTheSame(event: AuditEvent, span: Span)
  {
    && event.model == span.model && event.authMethod == span.authMethod && event.reasons == span.reasons
    && event.latency == span.latency && event.tokens == span.tokens && event.tokenLimit == span.tokenLimit
  }

  /** Summed request outcomes, and audit events with suppressed ones, both number the
      ledger; with an exporter there is one span per audit event. */
  lemma {:induction false} SinksAgree(cfg: Setup, ledger: seq<Entry>)
    ensures SumOver(RequestsIn(cfg, ledger)) == |ledger|
    ensures |AuditLog(ledger)| + SuppressedIn(ledger) == |ledger|
    ensures |SpanLog(cfg, ledger)| == (if cfg.exporting then |AuditLog(ledger)| else 0)
    ensures cfg.exporting ==> forall i :: 0 <= i < |AuditLog(ledger)| ==> TellTheSame(AuditLog(ledger)[i], SpanLog(cfg, ledger)[i])
  {
    if ledger != [] {
      var front, e := ledger[..|ledger| - 1], ledger[|ledger| - 1];
      SinksAgree(cfg, front);
      SumBump(RequestsIn(cfg, front), (LabelOf(cfg, e.model), e.outcome), 1);
    }
  }

  /** A name that does not grow with what callers send. */
  predicate Configured(cfg: Setup, name: string)
  {
    name in cfg.policies || name == "unknown"
  }

  lemma {:induction false} DenialKeys(denials: map<(string, string), int>, name: string, reasons: seq<string>)
    ensures forall k <- BumpReasons(denials, name, reasons) :: k in denials || k.0 == name
  {
    if reasons != [] {
      DenialKeys(denials, name, reasons[..|reasons| - 1]);
    }
  }

  /** Whatever model names callers send, the counters and the latency samples are labelled
      by configured models and the one label for all the others. */
  lemma {:induction false} LabelsConfigured(cfg: Setup, ledger: seq<Entry>)
    ensures forall k <- RequestsIn(cfg, ledger) :: Configured(cfg, k.0)
    ensures forall k <- DenialsIn(cfg, ledger) :: Configured(cfg, k.0)
    ensures forall k <- TokensIn(cfg, ledger) :: Configured(cfg, k.0)
    ensures forall sample <- LatenciesIn(cfg, ledger) :: Configured(cfg, sample.0)
  {
    if ledger != [] {
      var front, e := ledger[..|ledger| - 1], ledger[|ledger| - 1];
      LabelsConfigured(cfg, front);
      DenialKeys(DenialsIn(cfg, front), LabelOf(cfg, e.model), if e.reasons == [] then ["unspecified"] else e.reasons);
    }
  }

  function Matching(cfg: Setup, name: string, outcome: string): Entry -> int
  {
    (e: Entry) => if LabelOf(cfg, e.model) == name && e.outcome == outcome then 1 else 0
  }

  /** Each request counter is the number of ledger entries with its label and outcome. */
  lemma {:induction false} RequestCounter(cfg: Setup, ledger: seq<Entry>, name: string, outcome: string)
    ensures Count(RequestsIn(cfg, ledger), (name, outcome)) == OverLedger(ledger, Matching(cfg, name, outcome))
  {
    if ledger != [] {
      RequestCounter(cfg, ledger[..|ledger| - 1], name, outcome);
    }
  }

  function MatchingTokens(cfg: Setup, name: string, outcome: string): Entry -> int
  {
    (e: Entry) => if LabelOf(cfg, e.model) == name && e.outcome == outcome then e.tokens else 0
  }

  /** Each token counter is the sum of the estimates of these entries. */
  lemma {:induction false} TokenCounter(cfg: Setup, ledger: seq<Entry>, name: string, outcome: string)
    ensures Count(TokensIn(cfg, ledger), (name, outcome)) == OverLedger(ledger, MatchingTokens(cfg, name, outcome))
  {
    if ledger != [] {
      TokenCounter(cfg, ledger[..|ledger| - 1], name, outcome);
    }
  }

  /** How often a request that was not allowed gives a reason; one without any counts as
      unspecified. */
  function MatchingDenials(cfg: Setup, name: string, reason: string): Entry -> int
  {
    (e: Entry) =>
      if e.outcome == "allowed" || LabelOf(cfg, e.model) != name then 0
      else if e.reasons == [] then (if reason == "unspecified" then 1 else 0)
      else multiset(e.reasons)[reason]
  }

  lemma {:induction false} ReasonsCounted(denials: map<(string, string), int>, own: string, reasons: seq<string>, name: string, reason: string)
    ensures Count(BumpReasons(denials, own, reasons), (name, reason))
            == Count(denials, (name, reason)) + if own == name then multiset(reasons)[reason] else 0
  {
    if reasons != [] {
      var front, last := reasons[..|reasons| - 1], reasons[|reasons| - 1];
      ReasonsCounted(denials, own, front, name, reason);
      assert reasons == front + [last];
    }
  }

  /** Each denial counter is the number of times its label was denied for its reason. */
  lemma {:induction false} DenialCounter(cfg: Setup, ledger: seq<Entry>, name: string, reason: string)
    ensures Count(DenialsIn(cfg, ledger), (name, reason)) == OverLedger(ledger, MatchingDenials(cfg, name, reason))
  {
    if ledger != [] {
      var front, e := ledger[..|ledger| - 1], ledger[|ledger| - 1];
      DenialCounter(cfg, front, name, reason);
      ReasonsCounted(DenialsIn(cfg, front), LabelOf(cfg, e.model), if e.reasons == [] then ["unspecified"] else e.reasons, name, reason);
    }
  }

  /** The latencies observed for a label, as the entries have them, in seconds. */
  function LatenciesUnder(cfg: Setup, ledger: seq<Entry>, name: string): seq<real>
  {
    if ledger == [] then []
    else
      var e := ledger[|ledger| - 1];
      LatenciesUnder(cfg, ledger[..|ledger| - 1], name)
      + (if e.outcome == "allowed" && e.latency.Some? && (if e.model in cfg.policies then e.model == name else name == "unknown")
         then [e.latency.value / 1000.0] else [])
  }

  /** The latency histogram of a label observes exactly the allowed requests under it. */
  lemma {:induction false} LatenciesObserved(cfg: Setup, ledger: seq<Entry>, name: string)
    ensures ValuesOf(LatenciesIn(cfg, ledger), name) == LatenciesUnder(cfg, ledger, name)
  {
    if ledger != [] {
      var front, e := ledger[..|ledger| - 1], ledger[|ledger| - 1];
      LatenciesObserved(cfg, front, name);
      var taken, all := LatenciesIn(cfg, front), LatenciesIn(cfg, ledger);
      if LatencySample(cfg, e) == [] {
        assert all == taken;
      } else {
        assert all[..|all| - 1] == taken;
      }
    }
  }

  // -------------------------------------------------- what is suppressed

  function AnonymousKept(): Entry -> int
  {
    (e: Entry) => if e.who.principal.None? && !e.suppressed then 1 else 0
  }

  function AnonymousAll(): Entry -> int
  {
    (e: Entry) => if e.who.principal.None? then 1 else 0
  }

  predicate SuppressionSound(cfg: Setup, s: State)
  {
    && (forall e <- s.ledger :: e.suppressed ==> e.who.principal.None? && !e.allowed && e.outcome == "policy_denied")
    && OverLedger(s.ledger, AnonymousAll()) == |s.gate|
    && OverLedger(s.ledger, AnonymousKept()) == |DenialBudget.Allowed(cfg.denialsPerMinute, cfg.startedAt, s.gate)|
  }

  lemma GateSnoc(cfg: Setup, gate: seq<DenialBudget.Ask>, now: real)
    ensures var limit := cfg.denialsPerMinute;
            |DenialBudget.Allowed(limit, cfg.startedAt, gate + [DenialBudget.Ask(now)])|
            == |DenialBudget.Allowed(limit, cfg.startedAt, gate)|
               + (if DenialBudget.GateStep(limit, DenialBudget.GateAfter(limit, cfg.startedAt, gate), now).1 then 1 else 0)
  {
    var all := gate + [DenialBudget.Ask(now)];
    assert all[..|all| - 1] == gate;
  }

  /** A ticket holds a known caller, a configured model with its policy, and a positive estimate. */
  predicate TicketSound(cfg: Setup, t: Ticket)
  {
    && t.admission.who.principal == Some(t.caller)
    && t.admission.model in cfg.policies && t.policy == cfg.policies[t.admission.model]
    && t.admission.tokens >= 1
  }

  lemma NewTicketSound(cfg: Setup, route: Route, r: Pipeline.Request)
    ensures forall t <- TicketsFor(cfg, route, r) :: TicketSound(cfg, t) && t.status.Waiting?
  {
    hide EvaluatePolicy, Resolve, EstimateTokens;
  }

  /** A step of a request that is under way moves its ticket alone, and that in status only. */
  lemma OwnTicketMoved(cfg: Setup, s: Sys, step: Step)
    requires Enabled(s, step) && !step.Request?
    ensures var s' := Next(cfg, s, step);
            s'.tickets == Moved(s.tickets, step.ticket, s'.tickets[step.ticket].status)
  {
    hide Pipeline.AskRate, Pipeline.AskTokens, Finish, Enter;
  }

  lemma {:induction false} TicketsSound(cfg: Setup, steps: seq<Step>)
    ensures forall t <- Run(cfg, steps).tickets :: TicketSound(cfg, t)
  {
    hide TicketsFor, Pipeline.AskRate, Pipeline.AskTokens, Finish, Enter, Log, Refusal;
    if steps != [] {
      var s, step := Run(cfg, steps[..|steps| - 1]), steps[|steps| - 1];
      TicketsSound(cfg, steps[..|steps| - 1]);
      if step.Request? {
        NewTicketSound(cfg, step.route, step.request);
      } else if Enabled(s, step) {
        OwnTicketMoved(cfg, s, step);
        assert s.tickets[step.ticket] in s.tickets;
        hide Next, Enabled;
      }
    }
  }

  /** A step changes neither ledger nor denial budget, or adds the one entry that it asked
      the budget about as the rule for denials says. */
  predicate OneEntryMore(cfg: Setup, s: State, s': State, now: real)
  {
    && |s'.ledger| == |s.ledger| + 1
    && var e := s'.ledger[|s.ledger|];
       && s'.ledger == s.ledger + [e]
       && (e.suppressed, s'.gate) == Suppress(cfg, s.gate, e.who, now)
       && (e.who.principal.None? ==> !e.allowed && e.outcome == "policy_denied")
  }

  lemma StepEffect(cfg: Setup, s: Sys, step: Step)
    requires forall t <- s.tickets :: TicketSound(cfg, t)
    ensures var s' := Next(cfg, s, step).state;
            (s'.ledger == s.state.ledger && s'.gate == s.state.gate) || OneEntryMore(cfg, s.state, s', if step.Request? then step.now else 0.0)
  {
    hide Suppress, RateVerdict, TokenVerdict, IntakeOf;
    if Enabled(s, step) && !step.Request? {
      assert s.tickets[step.ticket] in s.tickets;
    } else if step.Request? && !IntakeOf(cfg, step.request).decision.allowed {
      EntryOfDenial(cfg, s.state, step.route, step.request, step.now);
    }
  }

  lemma EntryOfDenial(cfg: Setup, s: State, route: Route, r: Pipeline.Request, now: real)
    requires !IntakeOf(cfg, r).decision.allowed
    ensures OneEntryMore(cfg, s, Enter(cfg, s, route, r, now), now)
  {
    hide Suppress, IntakeOf, WithAuthFailure;
  }

  lemma EntrySound(cfg: Setup, s: State, s': State, now: real)
    requires SuppressionSound(cfg, s) && OneEntryMore(cfg, s, s', now)
    ensures SuppressionSound(cfg, s')
  {
    var e := s'.ledger[|s.ledger|];
    LedgerSum(s.ledger, e, AnonymousAll());
    LedgerSum(s.ledger, e, AnonymousKept());
    GateSnoc(cfg, s.gate, now);
  }

  /** Only principal-less policy denials are ever suppressed, each such denial asks the
      budget once, and as many are kept as the budget allows. */
  lemma {:induction false} OnlyAnonymousSuppressed(cfg: Setup, steps: seq<Step>)
    ensures SuppressionSound(cfg, Run(cfg, steps).state)
  {
    if steps != [] {
      var front, step := steps[..|steps| - 1], steps[|steps| - 1];
      var s := Run(cfg, front);
      OnlyAnonymousSuppressed(cfg, front);
      TicketsSound(cfg, front);
      StepEffect(cfg, s, step);
      var s' := Next(cfg, s, step).state;
      if s'.ledger != s.state.ledger || s'.gate != s.state.gate {
        EntrySound(cfg, s.state, s', if step.Request? then step.now else 0.0);
      }
    }
  }
}
