/** What the limiters charged over a run is what the outcomes say. */
module PipelineSpend {
  import opened Access
  import opened Grants
  import opened Pipeline
  import opened PipelineRuns
  import MemoryLimiter

  // ------------------------------------------------ one call to a limiter

  /** Calls as the pipeline makes them: positive costs, and the limits of the registry. */
  predicate RateCallsSound(cfg: Setup, calls: seq<MemoryLimiter.Call>)
  {
    forall c <- calls :: c.cost == 1 && c.key.1 in cfg.policies && c.limit == cfg.policies[c.key.1].requestsPerMinute >= 1
  }

  predicate TokenCallsSound(cfg: Setup, calls: seq<MemoryLimiter.Call>)
  {
    forall c <- calls :: c.cost >= 1 && c.key.1 in cfg.policies && c.limit == cfg.policies[c.key.1].inputTokensPerMinute >= 1
  }

  /** Total cost a limiter granted to a key over the calls made to it. */
  function Charged(cfg: Setup, calls: seq<MemoryLimiter.Call>, key: MemoryLimiter.Key): int
  {
    CostWhere(MemoryLimiter.GrantsOf(cfg.W(), calls, key), Anything())
  }

  lemma TokenCharge(cfg: Setup, calls: seq<MemoryLimiter.Call>, c: MemoryLimiter.Call, key: MemoryLimiter.Key)
    requires c.cost >= 1 && c.limit >= 1
    ensures Charged(cfg, calls + [c], key) == Charged(cfg, calls, key) + (if c.key == key && TokenVerdict(cfg, calls, c) then c.cost else 0)
  {
    var all, w := calls + [c], cfg.W();
    assert all[..|all| - 1] == calls;
    MemoryLimiter.LastCall(w, all, key);
    var (slot, ok) := MemoryLimiter.ServeCost(w, MemoryLimiter.SlotOf(MemoryLimiter.After(w, calls), key), c.now, c.cost, c.limit);
    if c.key == key && ok {
      CostAppend(MemoryLimiter.GrantsOf(w, calls, key), [Grant(c.now, slot.value.startedAt, c.cost)], Anything());
    }
    assert MemoryLimiter.GrantsOf(w, calls, key) + [] == MemoryLimiter.GrantsOf(w, calls, key);
  }

  lemma RateCharge(cfg: Setup, calls: seq<MemoryLimiter.Call>, c: MemoryLimiter.Call, key: MemoryLimiter.Key)
    requires RateCallsSound(cfg, calls) && c.cost == 1 && c.limit >= 1
    ensures Charged(cfg, calls + [c], key) == Charged(cfg, calls, key) + (if c.key == key && RateVerdict(cfg, calls, c) then 1 else 0)
  {
    MemoryLimiter.RequestRunIsUnitCostRun(cfg.W(), calls);
    MemoryLimiter.UnitStep(cfg.W(), MemoryLimiter.After(cfg.W(), calls), c);
    TokenCharge(cfg, calls, c, key);
  }

  // --------------------------------------------------- outcomes as charges

  predicate Of(who: Resolved, model: string, key: MemoryLimiter.Key)
  {
    who.principal.Some? && (who.principal.value.id, model) == key
  }

  /** Outcomes that come after the request limiter said yes. */
  function PastRate(key: MemoryLimiter.Key): Entry -> int
  {
    (e: Entry) => if Of(e.who, e.model, key) && e.outcome in {"token_budget_limited", "backend_error", "allowed"} then 1 else 0
  }

  /** Tokens of the outcomes that come after the token limiter said yes. */
  function PastTokens(key: MemoryLimiter.Key): Entry -> int
  {
    (e: Entry) => if Of(e.who, e.model, key) && e.outcome in {"backend_error", "allowed"} then e.tokens else 0
  }

  /** A request past the request limiter whose outcome is not written. */
  function Held(key: MemoryLimiter.Key): Ticket -> int
  {
    (t: Ticket) => if (t.status.Between? || t.status.Running? || t.status.Lost?) && Of(t.admission.who, t.admission.model, key) then 1 else 0
  }

  /** The tokens of a request past both limiters whose outcome is not written. */
  function HeldTokens(key: MemoryLimiter.Key): Ticket -> int
  {
    (t: Ticket) => if (t.status.Running? || t.status.Lost?) && Of(t.admission.who, t.admission.model, key) then t.admission.tokens else 0
  }

  predicate Balanced(cfg: Setup, s: Sys, key: MemoryLimiter.Key)
  {
    && RateCallsSound(cfg, s.state.rate)
    && TokenCallsSound(cfg, s.state.tokens)
    && Charged(cfg, s.state.rate, key) == OverLedger(s.state.ledger, PastRate(key)) + OverTickets(s.tickets, Held(key))
    && Charged(cfg, s.state.tokens, key) == OverLedger(s.state.ledger, PastTokens(key)) + OverTickets(s.tickets, HeldTokens(key))
  }

  lemma BalancedRequest(cfg: Setup, s: Sys, step: Step, key: MemoryLimiter.Key)
    requires step.Request? && Balanced(cfg, s, key)
    ensures Balanced(cfg, Next(cfg, s, step), key)
  {
    hide Charged, RateCallsSound, TokenCallsSound, Suppress, IntakeOf;
    var added := TicketsFor(cfg, step.route, step.request);
    if added != [] {
      TicketSum(s.tickets, added[0], Held(key));
      TicketSum(s.tickets, added[0], HeldTokens(key));
    } else {
      assert s.tickets + [] == s.tickets;
      var s' := Next(cfg, s, step).state;
      LedgerSum(s.state.ledger, s'.ledger[|s.state.ledger|], PastRate(key));
      LedgerSum(s.state.ledger, s'.ledger[|s.state.ledger|], PastTokens(key));
    }
  }

  lemma RateCallsSnoc(cfg: Setup, calls: seq<MemoryLimiter.Call>, c: MemoryLimiter.Call)
    requires RateCallsSound(cfg, calls)
    requires c.cost == 1 && c.key.1 in cfg.policies && c.limit == cfg.policies[c.key.1].requestsPerMinute >= 1
    ensures RateCallsSound(cfg, calls + [c])
  {
  }

  lemma TokenCallsSnoc(cfg: Setup, calls: seq<MemoryLimiter.Call>, c: MemoryLimiter.Call)
    requires TokenCallsSound(cfg, calls)
    requires c.cost >= 1 && c.key.1 in cfg.policies && c.limit == cfg.policies[c.key.1].inputTokensPerMinute >= 1
    ensures TokenCallsSound(cfg, calls + [c])
  {
  }

  /** What is held with a status, and what a refusal shows. */
  lemma StatusHolds(t: Ticket, key: MemoryLimiter.Key)
    ensures var rate, a := if Of(t.admission.who, t.admission.model, key) then 1 else 0, t.admission;
            && Held(key)(t.(status := Waiting)) == 0 && HeldTokens(key)(t.(status := Waiting)) == 0
            && Held(key)(t.(status := Between)) == rate && HeldTokens(key)(t.(status := Between)) == 0
            && Held(key)(t.(status := Running)) == rate && HeldTokens(key)(t.(status := Running)) == rate * a.tokens
            && Held(key)(t.(status := Recorded)) == 0 && HeldTokens(key)(t.(status := Recorded)) == 0
            && PastRate(key)(Refusal(a, "rate_limited", RATE_REASON)) == 0
            && PastTokens(key)(Refusal(a, "rate_limited", RATE_REASON)) == 0
            && PastRate(key)(Refusal(a, "token_budget_limited", TOKEN_REASON)) == rate
            && PastTokens(key)(Refusal(a, "token_budget_limited", TOKEN_REASON)) == 0
  {
  }

  /** A charge of the request limiter is held until the next outcome is written. */
  lemma BalancedRate(cfg: Setup, s: Sys, step: Step, key: MemoryLimiter.Key)
    requires PositiveLimits(cfg.policies) && Balanced(cfg, s, key)
    requires step.AskRate? && Enabled(s, step) && TicketSound(cfg, s.tickets[step.ticket])
    ensures Balanced(cfg, Next(cfg, s, step), key)
  {
    hide RateVerdict, Charged, RateCallsSound, TokenCallsSound, Held, HeldTokens, PastRate, PastTokens, Refusal;
    var i, t := step.ticket, s.tickets[step.ticket];
    var call := RateCall(t.caller, t.admission.model, t.policy, step.now);
    StatusHolds(t, key);
    assert t == t.(status := Waiting);
    RateCallsSnoc(cfg, s.state.rate, call);
    RateCharge(cfg, s.state.rate, call, key);
    var s' := Next(cfg, s, step);
    TicketUpdate(s.tickets, i, s'.tickets[i], Held(key));
    TicketUpdate(s.tickets, i, s'.tickets[i], HeldTokens(key));
    LedgerSum(s.state.ledger, Refusal(t.admission, "rate_limited", RATE_REASON), PastRate(key));
    LedgerSum(s.state.ledger, Refusal(t.admission, "rate_limited", RATE_REASON), PastTokens(key));
  }

  lemma BalancedTokens(cfg: Setup, s: Sys, step: Step, key: MemoryLimiter.Key)
    requires PositiveLimits(cfg.policies) && Balanced(cfg, s, key)
    requires step.AskTokens? && Enabled(s, step) && TicketSound(cfg, s.tickets[step.ticket])
    ensures Balanced(cfg, Next(cfg, s, step), key)
  {
    hide TokenVerdict, Charged, RateCallsSound, TokenCallsSound, Held, HeldTokens, PastRate, PastTokens, Refusal;
    var i, t := step.ticket, s.tickets[step.ticket];
    var call := TokenCall(t.caller, t.admission.model, t.policy, t.admission.tokens, step.now);
    StatusHolds(t, key);
    assert t == t.(status := Between);
    TokenCallsSnoc(cfg, s.state.tokens, call);
    TokenCharge(cfg, s.state.tokens, call, key);
    var s' := Next(cfg, s, step);
    TicketUpdate(s.tickets, i, s'.tickets[i], Held(key));
    TicketUpdate(s.tickets, i, s'.tickets[i], HeldTokens(key));
    LedgerSum(s.state.ledger, Refusal(t.admission, "token_budget_limited", TOKEN_REASON), PastRate(key));
    LedgerSum(s.state.ledger, Refusal(t.admission, "token_budget_limited", TOKEN_REASON), PastTokens(key));
  }

  /** What an admitted request holds is what its entry shows, whichever way it ends; if it
      ends with nothing written it is held for good. */
  lemma EntryTakesOver(t: Ticket, exit: Exit, key: MemoryLimiter.Key)
    requires t.status.Running?
    ensures Held(key)(t.(status := Lost)) == Held(key)(t) && HeldTokens(key)(t.(status := Lost)) == HeldTokens(key)(t)
    ensures Held(key)(t.(status := Recorded)) == 0 && HeldTokens(key)(t.(status := Recorded)) == 0
    ensures !exit.Silent? ==>
              && PastRate(key)(FinalEntry(t.admission, exit)) == Held(key)(t)
              && PastTokens(key)(FinalEntry(t.admission, exit)) == HeldTokens(key)(t)
  {
  }

  lemma BalancedEnd(cfg: Setup, s: Sys, step: Step, key: MemoryLimiter.Key)
    requires step.End? && Enabled(s, step) && Balanced(cfg, s, key)
    ensures Balanced(cfg, Next(cfg, s, step), key)
  {
    hide Charged, RateCallsSound, TokenCallsSound, Held, HeldTokens, PastRate, PastTokens, FinalEntry;
    var i, exit, a := step.ticket, step.exit, s.tickets[step.ticket].admission;
    EntryTakesOver(s.tickets[i], exit, key);
    var s' := Next(cfg, s, step);
    TicketUpdate(s.tickets, i, s'.tickets[i], Held(key));
    TicketUpdate(s.tickets, i, s'.tickets[i], HeldTokens(key));
    if !exit.Silent? {
      LedgerSum(s.state.ledger, FinalEntry(a, exit), PastRate(key));
      LedgerSum(s.state.ledger, FinalEntry(a, exit), PastTokens(key));
    }
  }

  /** Over any run the request limiter charged a principal and model one for every
      outcome past it, and the token limiter the estimated tokens of every outcome past
      it, counting also what is still open or was lost; no call to either is invalid. */
  lemma {:induction false} SpendBalanced(cfg: Setup, steps: seq<Step>, key: MemoryLimiter.Key)
    requires PositiveLimits(cfg.policies)
    ensures Balanced(cfg, Run(cfg, steps), key)
  {
    if steps != [] {
      hide Balanced, TicketSound, Next, PositiveLimits;
      var s, step := Run(cfg, steps[..|steps| - 1]), steps[|steps| - 1];
      SpendBalanced(cfg, steps[..|steps| - 1], key);
      TicketsSound(cfg, steps[..|steps| - 1]);
      if !Enabled(s, step) {
        NothingDone(cfg, s, step);
      } else if step.Request? {
        BalancedRequest(cfg, s, step, key);
      } else {
        assert TicketSound(cfg, s.tickets[step.ticket]);
        match step
        case AskRate(_, _, _) => BalancedRate(cfg, s, step, key);
        case AskTokens(_, _, _) => BalancedTokens(cfg, s, step, key);
        case End(_, _) => BalancedEnd(cfg, s, step, key);
      }
    } else {
      NothingCharged(cfg, key);
    }
  }

  lemma NothingDone(cfg: Setup, s: Sys, step: Step)
    requires !Enabled(s, step)
    ensures Next(cfg, s, step) == s
  {
  }

  lemma NothingCharged(cfg: Setup, key: MemoryLimiter.Key)
    ensures Balanced(cfg, Run(cfg, []), key)
  {
  }

  /** With everything recorded, charges and outcomes are equal. */
  lemma SpendEqualsOutcomes(cfg: Setup, steps: seq<Step>, key: MemoryLimiter.Key)
    requires PositiveLimits(cfg.policies)
    requires forall t <- Run(cfg, steps).tickets :: t.status.Recorded?
    ensures var s := Run(cfg, steps).state;
            && Charged(cfg, s.rate, key) == OverLedger(s.ledger, PastRate(key))
            && Charged(cfg, s.tokens, key) == OverLedger(s.ledger, PastTokens(key))
  {
    SpendBalanced(cfg, steps, key);
    NothingHeld(Run(cfg, steps).tickets, key);
  }

  lemma {:induction false} NothingHeld(tickets: seq<Ticket>, key: MemoryLimiter.Key)
    requires forall t <- tickets :: t.status.Recorded?
    ensures OverTickets(tickets, Held(key)) == 0 && OverTickets(tickets, HeldTokens(key)) == 0
  {
    if tickets != [] {
      assert tickets[|tickets| - 1] in tickets;
      NothingHeld(tickets[..|tickets| - 1], key);
    }
  }

  lemma {:induction false} HeldNonNegative(cfg: Setup, tickets: seq<Ticket>, key: MemoryLimiter.Key)
    requires forall t <- tickets :: TicketSound(cfg, t)
    ensures OverTickets(tickets, Held(key)) >= 0 && OverTickets(tickets, HeldTokens(key)) >= 0
  {
    if tickets != [] {
      assert tickets[|tickets| - 1] in tickets;
      HeldNonNegative(cfg, tickets[..|tickets| - 1], key);
    }
  }

  /** A request the policy denies asks neither limiter. */
  lemma PolicyDenialAsksNoLimiter(cfg: Setup, s: State, route: Route, r: Pipeline.Request, t: Timing)
    ensures var a := Arrive(cfg, s, route, r, t).state;
            !IntakeOf(cfg, r).decision.allowed <==> a.rate == s.rate && a.tokens == s.tokens && a.limiterTimes == s.limiterTimes
  {
    var a := Arrive(cfg, s, route, r, t).state;
    if IntakeOf(cfg, r).decision.allowed {
      assert |a.rate| == |s.rate| + 1;
    }
  }

  // --------------------------------------------- end to end: what gets through

  /** Over a run whose limiter clocks never go back and stay within t0 and t0 + span, one
      principal gets at most the model's requests per minute past the request limiter,
      and at most its tokens per minute to the backend, for every whole window in the
      span and one more, whatever the routes and however requests overlap. */
  lemma ThroughputBound(cfg: Setup, steps: seq<Step>, key: MemoryLimiter.Key, t0: real, span: real)
    requires PositiveLimits(cfg.policies) && key.1 in cfg.policies && cfg.windowSeconds >= 1 && span >= 0.0
    requires ClockWithin(Run(cfg, steps).state.rate, t0, span) && ClockWithin(Run(cfg, steps).state.tokens, t0, span)
    ensures var ledger, windows := Run(cfg, steps).state.ledger, Windows(span, cfg.W()) + 1;
            && OverLedger(ledger, PastRate(key)) <= windows * cfg.policies[key.1].requestsPerMinute
            && OverLedger(ledger, PastTokens(key)) <= windows * cfg.policies[key.1].inputTokensPerMinute
  {
    SpendBalanced(cfg, steps, key);
    TicketsSound(cfg, steps);
    HeldNonNegative(cfg, Run(cfg, steps).tickets, key);
    ChargedWithin(cfg, Run(cfg, steps).state, key, t0, span);
  }

  predicate ClockWithin(calls: seq<MemoryLimiter.Call>, t0: real, span: real)
  {
    MemoryLimiter.ClockNeverBack(calls) && forall c <- calls :: t0 <= c.now <= t0 + span
  }

  lemma ChargedWithin(cfg: Setup, s: State, key: MemoryLimiter.Key, t0: real, span: real)
    requires key.1 in cfg.policies && cfg.windowSeconds >= 1 && span >= 0.0 && PositiveLimits(cfg.policies)
    requires RateCallsSound(cfg, s.rate) && TokenCallsSound(cfg, s.tokens)
    requires ClockWithin(s.rate, t0, span) && ClockWithin(s.tokens, t0, span)
    ensures Charged(cfg, s.rate, key) <= (Windows(span, cfg.W()) + 1) * cfg.policies[key.1].requestsPerMinute
    ensures Charged(cfg, s.tokens, key) <= (Windows(span, cfg.W()) + 1) * cfg.policies[key.1].inputTokensPerMinute
  {
    hide MemoryLimiter.GrantsOf;
    MemoryLimiter.SpanLimit(cfg.W(), s.rate, key, cfg.policies[key.1].requestsPerMinute, t0, span);
    MemoryLimiter.SpanLimit(cfg.W(), s.tokens, key, cfg.policies[key.1].inputTokensPerMinute, t0, span);
  }
}
