/** What the records of a run say about the requests it received. */
module PipelineEntries {
  import opened Prelude
  import opened Access
  import opened Metrics
  import opened Pipeline
  import opened PipelineRuns
  import MemoryLimiter

  // ------------------------------------------------------ what a record must say

  /** The policy allows a request of this principal. */
  predicate Admissible(cfg: Setup, r: Pipeline.Request, p: Principal)
  {
    && Identify(r.credentials, cfg.allowDemo, cfg.directory, p)
    && r.model in cfg.policies && SharesRole(p, cfg.policies[r.model]) && ReasonGiven(cfg.policies[r.model], r.reason)
  }

  /** A record repeats the request: its route, model, reason, estimate and limit, and who
      its credentials stand for. */
  predicate Repeats(cfg: Setup, route: Route, r: Pipeline.Request, e: Entry)
  {
    && e.route == route && e.model == r.model && e.reason == r.reason && e.tokens == EstimateTokens(r.text)
    && e.tokenLimit == (if r.model in cfg.policies then Some(cfg.policies[r.model].inputTokensPerMinute) else None)
    && e.who == Resolve(r.credentials, cfg.allowDemo, cfg.directory)
  }

  /** The reasons of a denial by the policy: what it found missing, and before it why the
      caller is not known. */
  predicate DeniedFor(cfg: Setup, r: Pipeline.Request, reasons: seq<string>)
  {
    var who := Resolve(r.credentials, cfg.allowDemo, cfg.directory);
    var found := EvaluatePolicy(who.principal, PolicyOf(cfg, r.model), r.reason).reasons;
    if who.principal.None? && who.failure != Some("") then
      reasons != [] && reasons[0] == "authentication failed: " + who.failure.value && reasons[1..] == found
    else reasons == found
  }

  /** Outcome, reasons and latency of a record fit together and to the request. */
  ghost predicate Fits(cfg: Setup, r: Pipeline.Request, e: Entry)
  {
    && (e.outcome == "policy_denied" <==> forall p :: !Admissible(cfg, r, p))
    && (e.outcome == "policy_denied" ==> DeniedFor(cfg, r, e.reasons))
    && (e.outcome == "rate_limited" ==> e.reasons == ["rate limit exceeded"])
    && (e.outcome == "token_budget_limited" ==> e.reasons == ["token budget exceeded"])
    && (e.outcome == "backend_error" ==> e.reasons == ["inference backend unavailable"] || e.reasons == ["client disconnected during inference"])
    && (e.outcome == "allowed" ==> e.reasons == ["policy allow"] && e.latency.Some?)
    && (e.allowed <==> e.outcome == "allowed" || e.outcome == "backend_error")
    && (e.latency.Some? ==> e.allowed)
    && e.outcome in {"policy_denied", "rate_limited", "token_budget_limited", "backend_error", "allowed"}
  }

  ghost predicate Tells(cfg: Setup, step: Step, e: Entry)
  {
    step.Request? && Repeats(cfg, step.route, step.request, e) && Fits(cfg, step.request, e)
  }

  /** An open request carries what its record will say. */
  ghost predicate Carries(cfg: Setup, step: Step, t: Ticket)
  {
    && step.Request? && Admissible(cfg, step.request, t.caller)
    && t.policy == cfg.policies[step.request.model]
    && t.admission == Admission(step.route, Resolve(step.request.credentials, cfg.allowDemo, cfg.directory), step.request.model, step.request.reason,
                                ["policy allow"], EstimateTokens(step.request.text), t.policy.inputTokensPerMinute)
  }

  // ------------------------------------------------------------ one step

  lemma AdmissibleIff(cfg: Setup, r: Pipeline.Request)
    ensures var i := IntakeOf(cfg, r);
            && (i.decision.allowed <==> exists p :: Admissible(cfg, r, p))
            && (i.decision.allowed ==> Admissible(cfg, r, i.who.principal.value) && i.decision.reasons == ["policy allow"])
  {
    var who, policy := Resolve(r.credentials, cfg.allowDemo, cfg.directory), PolicyOf(cfg, r.model);
    AllowedIff(who.principal, policy, r.reason);
    hide EvaluatePolicy, Resolve, Identify, SharesRole, ReasonGiven, EstimateTokens;
    if who.principal.Some? {
      LetInIff(r.credentials, cfg.allowDemo, cfg.directory, who.principal.value);
      assert IntakeOf(cfg, r).decision.allowed ==> Admissible(cfg, r, who.principal.value);
    }
    if p :| Admissible(cfg, r, p) {
      LetInIff(r.credentials, cfg.allowDemo, cfg.directory, p);
    }
  }

  lemma DenialTells(cfg: Setup, s: State, step: Step)
    requires step.Request? && !IntakeOf(cfg, step.request).decision.allowed
    ensures var s' := Enter(cfg, s, step.route, step.request, step.now);
            |s'.ledger| == |s.ledger| + 1 && s'.ledger[..|s.ledger|] == s.ledger && Tells(cfg, step, s'.ledger[|s.ledger|])
  {
    AdmissibleIff(cfg, step.request);
    hide Admissible, EvaluatePolicy, EstimateTokens, Suppress;
    var e := Enter(cfg, s, step.route, step.request, step.now).ledger[|s.ledger|];
    DenialReasons(cfg, step.request);
    hide WithAuthFailure, Resolve;
  }

  lemma DenialReasons(cfg: Setup, r: Pipeline.Request)
    ensures var i := IntakeOf(cfg, r);
            DeniedFor(cfg, r, WithAuthFailure(i.decision.reasons, i.who.failure))
  {
    hide EvaluatePolicy, Resolve, EstimateTokens;
  }

  lemma TicketCarries(cfg: Setup, step: Step)
    requires step.Request?
    ensures forall t <- TicketsFor(cfg, step.route, step.request) :: Carries(cfg, step, t)
  {
    AdmissibleIff(cfg, step.request);
    hide Admissible, EvaluatePolicy, Resolve, EstimateTokens;
  }

  lemma RefusalTells(cfg: Setup, step: Step, t: Ticket, outcome: string, reason: string)
    requires Carries(cfg, step, t)
    requires (outcome == "rate_limited" && reason == RATE_REASON) || (outcome == "token_budget_limited" && reason == TOKEN_REASON)
    ensures Tells(cfg, step, Refusal(t.admission, outcome, reason))
  {
    assert Admissible(cfg, step.request, t.caller);
    hide Admissible, Resolve, EstimateTokens;
  }

  lemma FinalTells(cfg: Setup, step: Step, t: Ticket, exit: Exit)
    requires Carries(cfg, step, t) && !exit.Silent?
    ensures Tells(cfg, step, FinalEntry(t.admission, exit))
  {
    assert Admissible(cfg, step.request, t.caller);
    hide Admissible, Resolve, EstimateTokens;
  }

  // ----------------------------------------------------------- whole runs

  ghost predicate AllTold(cfg: Setup, steps: seq<Step>, s: Sys)
  {
    && (forall e <- s.state.ledger :: exists step <- steps :: Tells(cfg, step, e))
    && (forall t <- s.tickets :: exists step <- steps :: Carries(cfg, step, t))
  }

  /** What a step adds to the ledger, and how it leaves its ticket. */
  lemma LedgerGrows(cfg: Setup, s: Sys, step: Step)
    requires !step.Request? && Enabled(s, step)
    ensures var s', t := Next(cfg, s, step), s.tickets[step.ticket];
            && s'.tickets == Moved(s.tickets, step.ticket, s'.tickets[step.ticket].status)
            && (|| s'.state.ledger == s.state.ledger
                || s'.state.ledger == s.state.ledger + [Refusal(t.admission, "rate_limited", RATE_REASON)]
                || s'.state.ledger == s.state.ledger + [Refusal(t.admission, "token_budget_limited", TOKEN_REASON)]
                || (step.End? && !step.exit.Silent? && s'.state.ledger == s.state.ledger + [FinalEntry(t.admission, step.exit)]))
  {
    hide RateVerdict, TokenVerdict, RateCall, TokenCall, Refusal, FinalEntry;
  }

  lemma {:induction false} EveryRecordTells(cfg: Setup, steps: seq<Step>)
    ensures AllTold(cfg, steps, Run(cfg, steps))
  {
    if steps != [] {
      var front, step := steps[..|steps| - 1], steps[|steps| - 1];
      EveryRecordTells(cfg, front);
      assert steps == front + [step];
      assert step in steps && forall x <- front :: x in steps;
      StepTells(cfg, steps, Run(cfg, front), step);
    }
  }

  lemma StepTells(cfg: Setup, steps: seq<Step>, s: Sys, step: Step)
    requires AllTold(cfg, steps, s) && step in steps
    ensures AllTold(cfg, steps, Next(cfg, s, step))
  {
    if Enabled(s, step) {
      if step.Request? {
        ArrivalTells(cfg, steps, s, step);
      } else {
        MoveTells(cfg, steps, s, step);
      }
    }
  }

  lemma ArrivalTells(cfg: Setup, steps: seq<Step>, s: Sys, step: Step)
    requires AllTold(cfg, steps, s) && step in steps && step.Request?
    ensures AllTold(cfg, steps, Next(cfg, s, step))
  {
    hide Tells, Carries, Enter, TicketsFor;
    TicketCarries(cfg, step);
    EnterLedger(cfg, s.state, step);
    var s' := Next(cfg, s, step);
    forall e | e in s'.state.ledger
      ensures exists x <- steps :: Tells(cfg, x, e)
    {
      if e !in s.state.ledger {
        assert Tells(cfg, step, e);
      }
    }
  }

  lemma MoveTells(cfg: Setup, steps: seq<Step>, s: Sys, step: Step)
    requires AllTold(cfg, steps, s) && !step.Request? && Enabled(s, step)
    ensures AllTold(cfg, steps, Next(cfg, s, step))
  {
    hide Tells, Carries, Refusal, FinalEntry;
    LedgerGrows(cfg, s, step);
    var t, s' := s.tickets[step.ticket], Next(cfg, s, step);
    assert t in s.tickets;
    var came :| came in steps && Carries(cfg, came, t);
    RefusalTells(cfg, came, t, "rate_limited", RATE_REASON);
    RefusalTells(cfg, came, t, "token_budget_limited", TOKEN_REASON);
    if step.End? && !step.exit.Silent? {
      FinalTells(cfg, came, t, step.exit);
    }
    MovedCarries(cfg, came, t, s'.tickets[step.ticket].status);
    hide Next, Enabled;
    forall u | u in s'.tickets
      ensures exists x <- steps :: Carries(cfg, x, u)
    {
      if u !in s.tickets {
        assert u == t.(status := u.status) && Carries(cfg, came, u);
      }
    }
    forall e | e in s'.state.ledger
      ensures exists x <- steps :: Tells(cfg, x, e)
    {
      if e !in s.state.ledger {
        assert Tells(cfg, came, e);
      }
    }
  }

  lemma MovedCarries(cfg: Setup, came: Step, t: Ticket, status: Status)
    requires Carries(cfg, came, t)
    ensures Carries(cfg, came, t.(status := status))
  {
  }

  lemma EnterLedger(cfg: Setup, s: State, step: Step)
    requires step.Request?
    ensures var s' := Enter(cfg, s, step.route, step.request, step.now);
            s'.ledger == s.ledger || (|s'.ledger| == |s.ledger| + 1 && s'.ledger[..|s.ledger|] == s.ledger && Tells(cfg, step, s'.ledger[|s.ledger|]))
  {
    hide Tells, IntakeOf;
    if !IntakeOf(cfg, step.request).decision.allowed {
      DenialTells(cfg, s, step);
    }
  }

  // ------------------------------------------------------- what limiters are asked

  /** A call to the request limiter comes from a request of this caller for this model. */
  ghost predicate AskedRate(cfg: Setup, step: Step, c: MemoryLimiter.Call)
  {
    && step.Request?
    && exists p :: (
         && Admissible(cfg, step.request, p)
         && c == MemoryLimiter.Call((p.id, step.request.model), c.now, 1, cfg.policies[step.request.model].requestsPerMinute))
  }

  /** A call to the token limiter, which asks for the estimate of the request's text. */
  ghost predicate AskedTokens(cfg: Setup, step: Step, c: MemoryLimiter.Call)
  {
    && step.Request?
    && exists p :: (
         && Admissible(cfg, step.request, p)
         && c == MemoryLimiter.Call((p.id, step.request.model), c.now, EstimateTokens(step.request.text), cfg.policies[step.request.model].inputTokensPerMinute))
  }

  ghost predicate AllAsked(cfg: Setup, steps: seq<Step>, s: State)
  {
    && (forall c <- s.rate :: exists step <- steps :: AskedRate(cfg, step, c))
    && (forall c <- s.tokens :: exists step <- steps :: AskedTokens(cfg, step, c))
  }

  lemma TicketAsks(cfg: Setup, came: Step, t: Ticket, now: real)
    requires Carries(cfg, came, t)
    ensures AskedRate(cfg, came, RateCall(t.caller, t.admission.model, t.policy, now))
    ensures AskedTokens(cfg, came, TokenCall(t.caller, t.admission.model, t.policy, t.admission.tokens, now))
  {
    assert Admissible(cfg, came.request, t.caller);
    hide Admissible, EstimateTokens, Resolve;
  }

  lemma CallsGrow(cfg: Setup, s: Sys, step: Step)
    ensures var before, now := s.state, Next(cfg, s, step).state;
            if step.AskRate? && Enabled(s, step) then
              var t := s.tickets[step.ticket];
              now.rate == before.rate + [RateCall(t.caller, t.admission.model, t.policy, step.now)] && now.tokens == before.tokens
            else if step.AskTokens? && Enabled(s, step) then
              var t := s.tickets[step.ticket];
              now.tokens == before.tokens + [TokenCall(t.caller, t.admission.model, t.policy, t.admission.tokens, step.now)] && now.rate == before.rate
            else now.rate == before.rate && now.tokens == before.tokens
  {
    hide RateVerdict, TokenVerdict, RateCall, TokenCall, IntakeOf, Suppress, WithAuthFailure;
  }

  lemma StepAsks(cfg: Setup, steps: seq<Step>, s: Sys, step: Step)
    requires AllTold(cfg, steps, s) && AllAsked(cfg, steps, s.state)
    ensures AllAsked(cfg, steps, Next(cfg, s, step).state)
  {
    CallsGrow(cfg, s, step);
    hide Next, Carries, AskedRate, AskedTokens, RateCall, TokenCall, Tells;
    if !step.Request? && Enabled(s, step) {
      var t := s.tickets[step.ticket];
      assert t in s.tickets;
      var came :| came in steps && Carries(cfg, came, t);
      TicketAsks(cfg, came, t, if step.End? then 0.0 else step.now);
    }
  }

  /** Every call to a limiter was made for a request whose caller its credentials stand
      for and whom the policy allows, with the limit of its model. */
  lemma {:induction false} EveryCallIsAskedFor(cfg: Setup, steps: seq<Step>)
    ensures AllAsked(cfg, steps, Run(cfg, steps).state)
  {
    if steps != [] {
      hide Next, Carries, AskedRate, AskedTokens, Tells;
      var front := steps[..|steps| - 1];
      EveryCallIsAskedFor(cfg, front);
      EveryRecordTells(cfg, front);
      StepAsks(cfg, front, Run(cfg, front), steps[|steps| - 1]);
      assert forall x <- front :: x in steps;
    }
  }

  /** A request with a token that verifies. */
  predicate Verified(step: Step)
  {
    step.Request? && step.request.credentials.Bearer? && step.request.credentials.verified.Ok?
  }

  /** With demo principals off, as they are by default: all that any limiter is asked, and
      all that is recorded but denials by the policy, is for requests with a token that
      verifies, and under the principal it stands for. */
  lemma OnlyVerifiedTokens(cfg: Setup, steps: seq<Step>)
    requires !cfg.allowDemo
    ensures forall c <- Run(cfg, steps).state.rate + Run(cfg, steps).state.tokens ::
              exists step <- steps :: Verified(step) && c.key == (step.request.credentials.verified.value.id, step.request.model)
    ensures forall e <- Run(cfg, steps).state.ledger :: e.outcome != "policy_denied" ==>
              exists step <- steps :: Verified(step) && e.who.principal == Some(step.request.credentials.verified.value) && e.model == step.request.model
  {
    EveryCallIsAskedFor(cfg, steps);
    EveryRecordTells(cfg, steps);
    hide Run, EstimateTokens, SharesRole, ReasonGiven;
    forall e | e in Run(cfg, steps).state.ledger && e.outcome != "policy_denied"
      ensures exists step <- steps :: Verified(step) && e.who.principal == Some(step.request.credentials.verified.value) && e.model == step.request.model
    {
      var step :| step in steps && Tells(cfg, step, e);
      var p :| Admissible(cfg, step.request, p);
      LetInIff(step.request.credentials, cfg.allowDemo, cfg.directory, p);
      assert Verified(step);
    }
    forall c | c in Run(cfg, steps).state.rate + Run(cfg, steps).state.tokens
      ensures exists step <- steps :: Verified(step) && c.key == (step.request.credentials.verified.value.id, step.request.model)
    {
      if c in Run(cfg, steps).state.rate {
        var step :| step in steps && AskedRate(cfg, step, c);
        assert Verified(step);
      } else {
        var step :| step in steps && AskedTokens(cfg, step, c);
        assert Verified(step);
      }
    }
  }

  // ------------------------------------------------- when they are asked, and timed

  /** The steps of a run that asked a limiter. */
  function Asks(cfg: Setup, steps: seq<Step>): (asks: seq<Step>)
    ensures forall i :: 0 <= i < |asks| ==> asks[i].AskRate? || asks[i].AskTokens?
  {
    if steps == [] then []
    else
      var front, step := steps[..|steps| - 1], steps[|steps| - 1];
      Asks(cfg, front) + AskOf(Run(cfg, front), step)
  }

  /** The readings of the clock at the calls to one limiter. */
  function Readings(asks: seq<Step>, rate: bool): seq<real>
    requires forall i :: 0 <= i < |asks| ==> asks[i].AskRate? || asks[i].AskTokens?
  {
    if asks == [] then []
    else Readings(asks[..|asks| - 1], rate) + (if asks[|asks| - 1].AskRate? == rate then [asks[|asks| - 1].now] else [])
  }

  function Times(calls: seq<MemoryLimiter.Call>): seq<real>
  {
    if calls == [] then [] else Times(calls[..|calls| - 1]) + [calls[|calls| - 1].now]
  }

  lemma TimesSnoc(calls: seq<MemoryLimiter.Call>, c: MemoryLimiter.Call)
    ensures Times(calls + [c]) == Times(calls) + [c.now]
  {
    assert (calls + [c])[..|calls + [c]| - 1] == calls;
  }

  lemma ReadingsSnoc(asks: seq<Step>, a: Step, rate: bool)
    requires forall x <- asks + [a] :: x.AskRate? || x.AskTokens?
    ensures Readings(asks + [a], rate) == Readings(asks, rate) + (if a.AskRate? == rate then [a.now] else [])
  {
    assert (asks + [a])[..|asks + [a]| - 1] == asks;
  }

  /** The limiter and what it took, as the histogram has it. */
  function Timed(ask: Step): ((string, string), real)
    requires ask.AskRate? || ask.AskTokens?
  {
    ((if ask.AskRate? then "requests" else "input_tokens", "memory"), ask.seconds)
  }

  predicate AllTimed(asks: seq<Step>, times: seq<((string, string), real)>)
  {
    |times| == |asks| && forall i :: 0 <= i < |asks| ==> (asks[i].AskRate? || asks[i].AskTokens?) && times[i] == Timed(asks[i])
  }

  lemma TimesGrow(cfg: Setup, s: Sys, step: Step)
    ensures Next(cfg, s, step).state.limiterTimes
            == s.state.limiterTimes + (if (step.AskRate? || step.AskTokens?) && Enabled(s, step) then [Timed(step)] else [])
  {
    hide RateVerdict, TokenVerdict, RateCall, TokenCall, IntakeOf, Suppress, WithAuthFailure;
  }

  lemma CallNow(who: Principal, model: string, policy: ModelPolicy, tokens: int, now: real)
    ensures RateCall(who, model, policy, now).now == now == TokenCall(who, model, policy, tokens, now).now
  {
  }

  /** What a step adds to the steps that ask a limiter. */
  function AskOf(s: Sys, step: Step): (ask: seq<Step>)
    ensures forall x <- ask :: x.AskRate? || x.AskTokens?
  {
    if (step.AskRate? || step.AskTokens?) && Enabled(s, step) then [step] else []
  }

  lemma OneReading(cfg: Setup, s: Sys, step: Step, asks: seq<Step>)
    requires forall x <- asks :: x.AskRate? || x.AskTokens?
    requires Times(s.state.rate) == Readings(asks, true) && Times(s.state.tokens) == Readings(asks, false)
    ensures var s', asks' := Next(cfg, s, step).state, asks + AskOf(s, step);
            Times(s'.rate) == Readings(asks', true) && Times(s'.tokens) == Readings(asks', false)
  {
    hide Next, Times, Readings, RateCall, TokenCall, Enabled;
    CallsGrow(cfg, s, step);
    if AskOf(s, step) == [] {
      assert asks + AskOf(s, step) == asks;
    } else {
      ReadingsSnoc(asks, step, true);
      ReadingsSnoc(asks, step, false);
      var t := TicketOf(s, step);
      CallNow(t.caller, t.admission.model, t.policy, t.admission.tokens, step.now);
      TimesSnoc(s.state.rate, RateCall(t.caller, t.admission.model, t.policy, step.now));
      TimesSnoc(s.state.tokens, TokenCall(t.caller, t.admission.model, t.policy, t.admission.tokens, step.now));
    }
  }

  lemma {:induction false} AllReadings(cfg: Setup, steps: seq<Step>)
    ensures Times(Run(cfg, steps).state.rate) == Readings(Asks(cfg, steps), true)
    ensures Times(Run(cfg, steps).state.tokens) == Readings(Asks(cfg, steps), false)
  {
    if steps != [] {
      hide Next, Times, Readings, Enabled;
      AllReadings(cfg, steps[..|steps| - 1]);
      OneReading(cfg, Run(cfg, steps[..|steps| - 1]), steps[|steps| - 1], Asks(cfg, steps[..|steps| - 1]));
    } else {
      NeverAsked();
    }
  }

  lemma {:induction false} EachTimed(cfg: Setup, steps: seq<Step>)
    ensures AllTimed(Asks(cfg, steps), Run(cfg, steps).state.limiterTimes)
  {
    if steps != [] {
      hide Next, Enabled;
      EachTimed(cfg, steps[..|steps| - 1]);
      TimesGrow(cfg, Run(cfg, steps[..|steps| - 1]), steps[|steps| - 1]);
    }
  }

  /** Each limiter was called at the clock readings of the steps that ask it, in order,
      and each of these calls was timed under its limiter. */
  lemma CalledWhenAsked(cfg: Setup, steps: seq<Step>)
    ensures var s, asks := Run(cfg, steps).state, Asks(cfg, steps);
            Times(s.rate) == Readings(asks, true) && Times(s.tokens) == Readings(asks, false) && AllTimed(asks, s.limiterTimes)
  {
    AllReadings(cfg, steps);
    EachTimed(cfg, steps);
  }

  function TicketOf(s: Sys, step: Step): Ticket
    requires !step.Request? && Enabled(s, step)
  {
    s.tickets[step.ticket]
  }

  lemma NeverAsked()
    ensures Times([]) == Readings([], true) == Readings([], false) == []
  {
  }

  // ------------------------------------------------- authentications and audit events

  function Requests(steps: seq<Step>): (requests: seq<Pipeline.Request>)
  {
    if steps == [] then []
    else
      var step := steps[|steps| - 1];
      Requests(steps[..|steps| - 1]) + (if step.Request? then [step.request] else [])
  }

  /** Under which method and with which outcome an authentication is counted. */
  ghost predicate Authenticates(cfg: Setup, r: Pipeline.Request, auth: (string, string))
  {
    && auth.0 == (if r.credentials.Bearer? then "jwt" else if r.credentials.DemoHeader? && r.credentials.id != "" then "demo-header" else "none")
    && (auth.1 == "accepted" <==> exists p :: Identify(r.credentials, cfg.allowDemo, cfg.directory, p))
    && (auth.1 == "accepted" || auth.1 == "failed")
  }

  /** Every request is counted once as an authentication, in order of arrival. */
  lemma {:induction false} AuthenticationsTell(cfg: Setup, steps: seq<Step>)
    ensures var auth, requests := Run(cfg, steps).state.auth, Requests(steps);
            |auth| == |requests| == Run(cfg, steps).received && forall i :: 0 <= i < |auth| ==> Authenticates(cfg, requests[i], auth[i])
  {
    if steps != [] {
      hide Authenticates;
      var front, step := steps[..|steps| - 1], steps[|steps| - 1];
      AuthenticationsTell(cfg, front);
      AuthGrows(cfg, Run(cfg, front), step);
    }
  }

  lemma AuthGrows(cfg: Setup, s: Sys, step: Step)
    ensures var s' := Next(cfg, s, step);
            if step.Request? then
              s'.received == s.received + 1 && |s'.state.auth| == |s.state.auth| + 1 && s'.state.auth[..|s.state.auth|] == s.state.auth
              && Authenticates(cfg, step.request, s'.state.auth[|s.state.auth|])
            else s'.received == s.received && s'.state.auth == s.state.auth
  {
    if step.Request? {
      IntakeAuthenticates(cfg, step.request);
    }
    hide Authenticates, IntakeOf, Suppress, WithAuthFailure, RateVerdict, TokenVerdict, AuthOutcome;
  }

  lemma IntakeAuthenticates(cfg: Setup, r: Pipeline.Request)
    ensures var who := IntakeOf(cfg, r).who;
            Authenticates(cfg, r, (who.authMethod, AuthOutcome(who)))
  {
    NamedAndTold(r.credentials, cfg.allowDemo, cfg.directory);
    hide EvaluatePolicy, EstimateTokens, Identify;
  }

  /** The name that stands for the caller of a request in the audit log. */
  ghost predicate Names(cfg: Setup, r: Pipeline.Request, name: string)
  {
    && (forall p :: Identify(r.credentials, cfg.allowDemo, cfg.directory, p) ==> name == p.id)
    && ((forall p :: !Identify(r.credentials, cfg.allowDemo, cfg.directory, p)) ==>
          name == if r.credentials.DemoHeader? && r.credentials.id != "" then r.credentials.id else "unknown")
  }

  lemma CallerNamed(cfg: Setup, r: Pipeline.Request, e: Entry)
    requires e.who == Resolve(r.credentials, cfg.allowDemo, cfg.directory)
    ensures Names(cfg, r, AuditOf(e).principalId)
  {
    NamedAndTold(r.credentials, cfg.allowDemo, cfg.directory);
    forall p | Identify(r.credentials, cfg.allowDemo, cfg.directory, p)
      ensures e.who.principal == Some(p)
    {
      LetInIff(r.credentials, cfg.allowDemo, cfg.directory, p);
    }
    if e.who.principal.Some? {
      LetInIff(r.credentials, cfg.allowDemo, cfg.directory, e.who.principal.value);
    }
    hide Resolve, Identify;
  }

  /** The audit event and the span of a request's record name the caller by whatever name
      there is, and repeat the rest of the record. */
  lemma EventTells(cfg: Setup, step: Step, e: Entry)
    requires Tells(cfg, step, e)
    ensures var r, event, span := step.request, AuditOf(e), SpanOf(e);
            && Names(cfg, r, event.principalId) && event.authMethod == e.who.authMethod && event.subject == e.who.subject
            && event.model == r.model && event.reason == r.reason && event.tokens == EstimateTokens(r.text) && event.tokenLimit == e.tokenLimit
            && event.reasons == e.reasons && event.latency == e.latency
            && (event.allowed <==> span.outcome == "allowed" || span.outcome == "backend_error")
            && span.outcome == e.outcome && span.route == step.route && TellTheSame(event, span)
  {
    CallerNamed(cfg, step.request, e);
    hide Names, Resolve, EstimateTokens, DeniedFor, Admissible;
  }
}
