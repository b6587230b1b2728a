/** The handlers of gateway/app.py as they update limiters, metrics and sinks, each
    proved to do what the pipeline's account says. */
module Gateway {
  import opened Prelude
  import opened Access
  import opened Metrics
  import opened Pipeline
  import opened Streams
  import MemoryLimiter
  import DenialBudget

  /** The HTTP status of a request that found the ledger with `before` entries. */
  function ResponseStatus(before: nat, ledger: seq<Entry>): int
  {
    if |ledger| <= before then 500
    else match ledger[|ledger| - 1].outcome
      case "policy_denied" => 403
      case "rate_limited" => 429
      case "token_budget_limited" => 429
      case "backend_error" => 502
      case _ => 200
  }

  /** Whether an entry is suppressed shows in none of the things recorded of it. */
  lemma SameOnceSuppressed(cfg: Setup, e: Entry, suppressed: bool)
    ensures AuditOf(e.(suppressed := suppressed)) == AuditOf(e) && SpanOf(e.(suppressed := suppressed)) == SpanOf(e)
    ensures LatencySample(cfg, e.(suppressed := suppressed)) == LatencySample(cfg, e)
  {
  }

  class GatewayApp {
    const cfg: Setup
    const rateLimiter: MemoryLimiter.FixedWindowRateLimiter
    const tokenLimiter: MemoryLimiter.FixedWindowTokenBudgetLimiter
    const denialBudget: DenialBudget.DenialAuditBudget
    const metrics: GatewayMetrics
    var auditLog: seq<AuditEvent>
    var spans: seq<Span>
    ghost var ledger: seq<Entry>
    ghost var auth: seq<(string, string)>

    ghost function View(): State
      reads this, rateLimiter, tokenLimiter, denialBudget, metrics
    {
      Pipeline.State.State(rateLimiter.calls, tokenLimiter.calls, denialBudget.calls, ledger, auth, metrics.limiterLatencies)
    }

    /** Counters, audit log and spans are those of the ledger. */
    ghost predicate Booked()
      reads this`auditLog, this`spans, this`ledger, this`auth, metrics`requests, metrics`denials, metrics`inputTokens
      reads metrics`latency, metrics`latencies, metrics`auditSuppressed, metrics`authEvents
    {
      && metrics.LatencyValid()
      && metrics.requests == RequestsIn(cfg, ledger)
      && metrics.denials == DenialsIn(cfg, ledger)
      && metrics.inputTokens == TokensIn(cfg, ledger)
      && metrics.latencies == LatenciesIn(cfg, ledger)
      && metrics.auditSuppressed == SuppressedIn(ledger)
      && metrics.authEvents == AuthsIn(auth)
      && auditLog == AuditLog(ledger)
      && spans == SpanLog(cfg, ledger)
    }

    /** The limiters' objects are apart from each other and from the rest. */
    ghost predicate Apart()
      reads rateLimiter, tokenLimiter
    {
      && rateLimiter in rateLimiter.repr && tokenLimiter in tokenLimiter.repr
      && rateLimiter.repr !! tokenLimiter.repr
      && {this, denialBudget, metrics} !! rateLimiter.repr + tokenLimiter.repr
    }

    ghost predicate LimitersValid()
      reads rateLimiter, rateLimiter.repr, tokenLimiter, tokenLimiter.repr
    {
      && rateLimiter.Valid() && tokenLimiter.Valid()
      && rateLimiter.windowSeconds == tokenLimiter.windowSeconds == cfg.windowSeconds
    }

    ghost predicate Valid()
      reads this, denialBudget, metrics
      reads rateLimiter, rateLimiter.repr, tokenLimiter, tokenLimiter.repr
    {
      && PositiveLimits(cfg.policies)
      && Apart()
      && LimitersValid()
      && BudgetValid()
      && Booked()
      && metrics.LimiterValid()
    }

    ghost predicate BudgetValid()
      reads denialBudget
    {
      denialBudget.Valid() && denialBudget.limitPerMinute == cfg.denialsPerMinute && denialBudget.created == cfg.startedAt
    }

    constructor (cfg: Setup, latencyBuckets: seq<real>, limiterBuckets: seq<real>)
      requires PositiveLimits(cfg.policies)
      ensures Valid() && View() == Start && this.cfg == cfg
      ensures fresh(metrics) && fresh(denialBudget) && fresh(rateLimiter.repr) && fresh(tokenLimiter.repr)
    {
      hide MemoryLimiter.FixedWindowRateLimiter.Valid, MemoryLimiter.FixedWindowTokenBudgetLimiter.Valid, DenialBudget.DenialAuditBudget.Valid;
      this.cfg := cfg;
      var budget := new DenialBudget.DenialAuditBudget(cfg.denialsPerMinute, cfg.startedAt);
      var counters := new GatewayMetrics(latencyBuckets, limiterBuckets);
      var rates := new MemoryLimiter.FixedWindowRateLimiter(cfg.windowSeconds);
      var tokens := new MemoryLimiter.FixedWindowTokenBudgetLimiter(cfg.windowSeconds);
      rateLimiter, tokenLimiter, denialBudget, metrics := rates, tokens, budget, counters;
      auditLog, spans, ledger, auth := [], [], [], [];
      new;
      assert LimitersValid();
    }

    method MetricModelLabel(model: string) returns (name: string)
      ensures name == LabelOf(cfg, model)
    {
      return if model in cfg.policies then model else "unknown";
    }

    method ExportTraceSpan(span: Span)
      modifies this`spans
      ensures spans == old(spans) + (if cfg.exporting then [span] else [])
    {
      if cfg.exporting {
        spans := spans + [span];
      }
    }

    /** Denials of a known principal are always recorded; the others while the budget lasts. */
    method DenialIsRecorded(who: Resolved, now: real) returns (recorded: bool)
      requires BudgetValid()
      modifies denialBudget, metrics`auditSuppressed
      ensures BudgetValid()
      ensures (!recorded, denialBudget.calls) == Suppress(cfg, old(denialBudget.calls), who, now)
      ensures metrics.auditSuppressed == old(metrics.auditSuppressed) + if recorded then 0 else 1
    {
      if who.principal.Some? {
        return true;
      }
      var ok := denialBudget.Allow(now);
      if ok {
        return true;
      }
      metrics.RecordAuditSuppressed();
      return false;
    }

    /** The request counters and histograms are one entry ahead of the ledger. */
    ghost predicate Counted(e: Entry)
      reads this`ledger, this`auth, metrics`requests, metrics`denials, metrics`inputTokens
      reads metrics`latency, metrics`latencies, metrics`authEvents
    {
      && metrics.LatencyValid()
      && metrics.requests == Bump(RequestsIn(cfg, ledger), (LabelOf(cfg, e.model), e.outcome), 1)
      && metrics.denials == BumpDenials(DenialsIn(cfg, ledger), LabelOf(cfg, e.model), e.outcome, e.reasons)
      && metrics.inputTokens == Bump(TokensIn(cfg, ledger), (LabelOf(cfg, e.model), e.outcome), e.tokens)
      && metrics.latencies == LatenciesIn(cfg, ledger) + LatencySample(cfg, e)
      && metrics.authEvents == AuthsIn(auth)
    }

    /** The books balance again once the entry they were written for joins the ledger. */
    ghost method Book(e: Entry, suppressed: bool)
      requires Counted(e) && !e.suppressed
      requires metrics.auditSuppressed == SuppressedIn(ledger) + (if suppressed then 1 else 0)
      requires auditLog == AuditLog(ledger) + (if suppressed then [] else [AuditOf(e)])
      requires spans == SpanLog(cfg, ledger) + (if cfg.exporting && !suppressed then [SpanOf(e)] else [])
      modifies this`ledger
      ensures Booked() && ledger == old(ledger) + [e.(suppressed := suppressed)]
    {
      hide RequestsIn, DenialsIn, TokensIn, LatenciesIn, SuppressedIn, AuditLog, SpanLog, LatencySample, AuditOf, SpanOf;
      hide Bump;
      hide BumpDenials;
      hide HistogramOf;
      SameOnceSuppressed(cfg, e, suppressed);
      LedgerSnoc(cfg, ledger, e.(suppressed := suppressed));
      ledger := ledger + [e.(suppressed := suppressed)];
    }

    method CountOutcome(e: Entry)
      requires Booked()
      modifies metrics`requests, metrics`denials, metrics`inputTokens, metrics`latency, metrics`latencies
      ensures Counted(e)
    {
      hide RequestsIn, DenialsIn, TokensIn, LatenciesIn, SuppressedIn, AuditLog, SpanLog, AuthsIn, HistogramOf;
      hide Bump, BumpDenials;
      var name := MetricModelLabel(e.model);
      metrics.RecordRequest(name, e.outcome, e.reasons);
      metrics.RecordInputTokens(name, e.outcome, e.tokens);
      if e.outcome == "allowed" && e.latency.Some? {
        metrics.ObserveLatency(name, e.latency.value / 1000.0);
      }
    }

    method WriteSinks(e: Entry)
      requires Counted(e) && !e.suppressed && metrics.auditSuppressed == SuppressedIn(ledger)
      requires auditLog == AuditLog(ledger) && spans == SpanLog(cfg, ledger)
      modifies this`auditLog, this`spans, this`ledger
      ensures Booked() && ledger == old(ledger) + [e]
    {
      auditLog := auditLog + [AuditOf(e)];
      ExportTraceSpan(SpanOf(e));
      Book(e, false);
    }

    method RecordCompletionEventFields(e: Entry, now: real)
      requires Booked() && BudgetValid() && !e.suppressed
      modifies this`auditLog, this`spans, this`ledger, denialBudget
      modifies metrics`requests, metrics`denials, metrics`inputTokens, metrics`latency, metrics`latencies, metrics`auditSuppressed
      ensures Booked() && BudgetValid()
      ensures var (suppressed, gate) := if e.allowed then (false, old(denialBudget.calls)) else Suppress(cfg, old(denialBudget.calls), e.who, now);
              && ledger == old(ledger) + [e.(suppressed := suppressed)]
              && denialBudget.calls == gate
    {
      CountOutcome(e);
      if !e.allowed {
        var recorded := DenialIsRecorded(e.who, now);
        if !recorded {
          Book(e, true);
          return;
        }
      }
      WriteSinks(e);
    }

    method RateAllowed(who: Principal, model: string, policy: ModelPolicy, now: real) returns (ok: bool)
      requires Apart() && LimitersValid()
      modifies rateLimiter.repr
      ensures Apart() && LimitersValid() && fresh(rateLimiter.repr - old(rateLimiter.repr))
      ensures ok == RateVerdict(cfg, old(rateLimiter.calls), RateCall(who, model, policy, now))
      ensures rateLimiter.calls == old(rateLimiter.calls) + [RateCall(who, model, policy, now)]
    {
      ok := rateLimiter.Allow(who.id, model, policy.requestsPerMinute, now);
    }

    method TokensAllowed(who: Principal, model: string, policy: ModelPolicy, tokens: int, now: real) returns (ok: bool)
      requires Apart() && LimitersValid() && tokens >= 1 && policy.inputTokensPerMinute >= 1
      modifies tokenLimiter.repr
      ensures Apart() && LimitersValid() && fresh(tokenLimiter.repr - old(tokenLimiter.repr))
      ensures ok == TokenVerdict(cfg, old(tokenLimiter.calls), TokenCall(who, model, policy, tokens, now))
      ensures tokenLimiter.calls == old(tokenLimiter.calls) + [TokenCall(who, model, policy, tokens, now)]
    {
      var verdict := tokenLimiter.Allow(who.id, model, tokens, policy.inputTokensPerMinute, now);
      ok := verdict.value;
    }

    /** Both handlers start alike: resolve, look up, estimate, evaluate, and count the authentication. */
    method TakeIn(r: Request) returns (i: Intake)
      requires Booked()
      modifies this`auth, metrics`authEvents
      ensures Booked() && i == IntakeOf(cfg, r)
      ensures auth == old(auth) + [(i.who.authMethod, AuthOutcome(i.who))]
    {
      hide RequestsIn, DenialsIn, TokensIn, LatenciesIn, SuppressedIn, AuditLog, SpanLog, AuthsIn, HistogramOf;
      var who := Resolve(r.credentials, cfg.allowDemo, cfg.directory);
      var policy := if r.model in cfg.policies then Some(cfg.policies[r.model]) else None;
      var tokens := EstimateTokens(r.text);
      var tokenLimit := if policy.Some? then Some(policy.value.inputTokensPerMinute) else None;
      var decision := EvaluatePolicy(who.principal, policy, r.reason);
      i := Intake(who, policy, tokens, tokenLimit, decision);
      metrics.RecordAuthEvent(who.authMethod, if who.principal.Some? then "accepted" else "failed");
      AuthSnoc(auth, (who.authMethod, AuthOutcome(who)));
      auth := auth + [(who.authMethod, AuthOutcome(who))];
    }

    /** Both handlers then ask the limiters alike. */
    method AskBoth(i: Intake, model: string, t: Timing) returns (limits: Limits)
      requires Apart() && LimitersValid() && metrics.LimiterValid() && i.tokens >= 1
      requires i.who.principal.Some? && i.policy.Some? && i.policy.value.inputTokensPerMinute >= 1
      modifies rateLimiter.repr, tokenLimiter.repr, metrics`limiterLatency, metrics`limiterLatencies
      ensures Apart() && LimitersValid() && metrics.LimiterValid() && fresh(rateLimiter.repr - old(rateLimiter.repr)) && fresh(tokenLimiter.repr - old(tokenLimiter.repr))
      ensures (View(), limits) == AskLimiters(cfg, old(View()), i, model, t)
    {
      hide LimitersValid;
      hide RateVerdict;
      hide TokenVerdict;
      var rateOk := RateAllowed(i.who.principal.value, model, i.policy.value, t.rateNow);
      metrics.ObserveLimiterLatency("requests", "memory", t.rateSeconds);
      if !rateOk {
        return RateRefused;
      }
      var tokensOk := TokensAllowed(i.who.principal.value, model, i.policy.value, i.tokens, t.tokenNow);
      metrics.ObserveLimiterLatency("input_tokens", "memory", t.tokenSeconds);
      return if tokensOk then Fits else TokensRefused;
    }

    method AdmitCompletion(r: Request, t: Timing) returns (admission: Option<Admission>)
      requires Valid()
      modifies this, denialBudget, metrics, rateLimiter.repr, tokenLimiter.repr
      ensures Valid() && fresh(rateLimiter.repr - old(rateLimiter.repr)) && fresh(tokenLimiter.repr - old(tokenLimiter.repr))
      ensures Admitted(View(), admission) == Arrive(cfg, old(View()), Completions, r, t)
    {
      hide LimitersValid;
      hide Booked;
      hide BudgetValid;
      hide IntakeOf;
      hide Ask;
      hide Suppress;
      hide WithAuthFailure;
      var i := TakeIn(r);
      var reasons := WithAuthFailure(i.decision.reasons, i.who.failure);
      if !i.decision.allowed {
        RecordCompletionEventFields(DeniedEntry(Completions, r, i, "policy_denied", reasons), t.auditNow);
        return None;
      }
      admission := AdmitByLimiters(i, r, t);
    }

    method AdmitByLimiters(i: Intake, r: Request, t: Timing) returns (admission: Option<Admission>)
      requires Valid() && i == IntakeOf(cfg, r) && i.decision.allowed
      modifies this, denialBudget, metrics, rateLimiter.repr, tokenLimiter.repr
      ensures Valid() && fresh(rateLimiter.repr - old(rateLimiter.repr)) && fresh(tokenLimiter.repr - old(tokenLimiter.repr))
      ensures Admitted(View(), admission) == Ask(cfg, old(View()), Completions, r, t)
    {
      hide LimitersValid;
      hide Booked;
      hide BudgetValid;
      hide IntakeOf;
      hide AskLimiters;
      hide Suppress;
      hide WithAuthFailure;
      var limits := AskBoth(i, r.model, t);
      admission := None;
      if limits.RateRefused? {
        RecordCompletionEventFields(DeniedEntry(Completions, r, i, "rate_limited", [RATE_REASON]), t.auditNow);
      } else if limits.TokensRefused? {
        RecordCompletionEventFields(DeniedEntry(Completions, r, i, "token_budget_limited", [TOKEN_REASON]), t.auditNow);
      } else {
        var reasons := WithAuthFailure(i.decision.reasons, i.who.failure);
        admission := Some(Admission(Completions, i.who, r.model, r.reason, reasons, i.tokens, i.policy.value.inputTokensPerMinute));
      }
    }

    method RecordCompletionEvent(a: Admission, exit: Exit)
      requires Valid() && a.route.Completions? && !exit.Silent?
      modifies this, denialBudget, metrics
      ensures Valid()
      ensures View() == Finish(old(View()), a, exit)
    {
      hide LimitersValid;
      hide Booked;
      hide BudgetValid;
      hide Suppress;
      RecordCompletionEventFields(FinalEntry(a, exit), 0.0);
    }

    /** A running stream forwards the non-empty chunks and, however it ends, records once.
        The client may close it after it has received some number of chunks. */
    method IterCompletionResponse(a: Admission, raw: seq<Raw>, closeAfter: Option<nat>, latency: real) returns (sent: seq<string>)
      requires Valid() && a.route.Completions?
      modifies this, denialBudget, metrics
      ensures Valid()
      ensures (sent, View()) == (Stream(raw, closeAfter, latency).0, Finish(old(View()), a, Stream(raw, closeAfter, latency).1))
      ensures |ledger| == |old(ledger)| + 1 && StreamTold(a, raw, closeAfter, latency, sent, ledger[|old(ledger)|])
    {
      sent := [];
      var exit := Done(latency);
      var i := 0;
      while i < |raw|
        invariant 0 <= i <= |raw| && exit == Done(latency)
        invariant Stream(raw, closeAfter, latency) == StreamOn(raw[i..], closeAfter, latency, sent)
      {
        assert raw[i..][1..] == raw[i + 1..];
        match raw[i] {
          case Chunk(data) =>
            if data != "" {
              sent := sent + [data];
              if closeAfter == Some(|sent|) {
                exit := Gone(latency);
                break;
              }
            }
          case HttpFailure =>
            exit := Down(latency);
            break;
          case OtherFailure =>
            exit := Broken(latency);
            break;
        }
        i := i + 1;
      }
      assert Stream(raw, closeAfter, latency) == (sent, exit);
      StreamTells(a, raw, closeAfter, latency);
      RecordCompletionEvent(a, exit);
    }

    /** The completion route from end to end, its stream drained before anything else happens. */
    method Complete(r: Request, t: Timing, upstream: Upstream)
      requires Valid() && (upstream.Buffered? ==> upstream.exit.Done? || upstream.exit.Down? || upstream.exit.Silent?)
      modifies this, denialBudget, metrics, rateLimiter.repr, tokenLimiter.repr
      ensures Valid()
      ensures View() == Handle(cfg, old(View()), Completions, r, t, ExitOf(upstream))
    {
      hide LimitersValid;
      hide Booked;
      hide BudgetValid;
      hide IntakeOf;
      hide Ask;
      hide Suppress;
      var admission := AdmitCompletion(r, t);
      if admission.None? {
        return;
      }
      match upstream {
        case OpenFailed(latency) =>
          RecordCompletionEvent(admission.value, Down(latency));
        case Streamed(raw, closeAfter, latency) =>
          var sent := IterCompletionResponse(admission.value, raw, closeAfter, latency);
        case StreamAbandoned =>
        case Buffered(exit) =>
          if !exit.Silent? {
            RecordCompletionEvent(admission.value, exit);
          }
      }
    }

    /** The one-shot route, branch by branch. */
    method Infer(r: Request, t: Timing, backend: Exit) returns (status: int)
      requires Valid() && (backend.Done? || backend.Down? || backend.Silent?)
      modifies this, denialBudget, metrics, rateLimiter.repr, tokenLimiter.repr
      ensures Valid() && fresh(rateLimiter.repr - old(rateLimiter.repr)) && fresh(tokenLimiter.repr - old(tokenLimiter.repr))
      ensures View() == Handle(cfg, old(View()), Pipeline.Infer, r, t, backend)
      ensures status == ResponseStatus(|old(ledger)|, ledger)
    {
      hide LimitersValid;
      hide Booked;
      hide BudgetValid;
      hide IntakeOf;
      hide Ask;
      hide Suppress;
      hide WithAuthFailure;
      var i := TakeIn(r);
      if !i.decision.allowed {
        var e := DeniedEntry(Pipeline.Infer, r, i, "policy_denied", WithAuthFailure(i.decision.reasons, i.who.failure));
        DenyByPolicy(e, t.auditNow);
        return 403;
      }
      status := AskAndAnswer(i, r, t, backend);
    }

    method AskAndAnswer(i: Intake, r: Request, t: Timing, backend: Exit) returns (status: int)
      requires Valid() && (backend.Done? || backend.Down? || backend.Silent?)
      requires i == IntakeOf(cfg, r) && i.decision.allowed
      modifies this`auditLog, this`spans, this`ledger, metrics, rateLimiter.repr, tokenLimiter.repr
      ensures Valid() && fresh(rateLimiter.repr - old(rateLimiter.repr)) && fresh(tokenLimiter.repr - old(tokenLimiter.repr))
      ensures View() == var a := Ask(cfg, old(View()), Pipeline.Infer, r, t);
                        if a.admission.Some? then Finish(a.state, a.admission.value, backend) else a.state
      ensures status == ResponseStatus(|old(ledger)|, ledger)
    {
      hide LimitersValid;
      hide Booked;
      hide BudgetValid;
      hide IntakeOf;
      hide AskLimiters;
      var limits := AskBoth(i, r.model, t);
      status := 429;
      if limits.RateRefused? {
        RecordDirectly(DeniedEntry(Pipeline.Infer, r, i, "rate_limited", [RATE_REASON]));
      } else if limits.TokensRefused? {
        RecordDirectly(DeniedEntry(Pipeline.Infer, r, i, "token_budget_limited", [TOKEN_REASON]));
      } else {
        status := Answer(AdmissionOf(Pipeline.Infer, r, i), backend);
      }
    }

    /** The rest of the one-shot route, from the call to the backend on. */
    method Answer(a: Admission, backend: Exit) returns (status: int)
      requires Booked() && a.route.Infer? && (backend.Done? || backend.Down? || backend.Silent?)
      modifies this`auditLog, this`spans, this`ledger
      modifies metrics`requests, metrics`denials, metrics`inputTokens, metrics`latency, metrics`latencies
      ensures Booked() && View() == Finish(old(View()), a, backend)
      ensures status == ResponseStatus(|old(ledger)|, ledger)
    {
      hide Booked;
      match backend {
        case Down(_) =>
          RecordDirectly(Entry(Pipeline.Infer, a.who, a.model, "backend_error", true, [DOWN_REASON], a.reason, a.tokens, Some(a.tokenLimit), None, false));
          return 502;
        case Done(latency) =>
          RecordDirectly(Entry(Pipeline.Infer, a.who, a.model, "allowed", true, a.reasons, a.reason, a.tokens, Some(a.tokenLimit), Some(latency), false));
          return 200;
        case _ =>
          return 500;
      }
    }

    /** The counters, then the audit log and the span, with no question of suppression. */
    method RecordDirectly(e: Entry)
      requires Booked() && !e.suppressed
      modifies this`auditLog, this`spans, this`ledger
      modifies metrics`requests, metrics`denials, metrics`inputTokens, metrics`latency, metrics`latencies
      ensures Booked() && ledger == old(ledger) + [e]
    {
      CountOutcome(e);
      WriteSinks(e);
    }

    /** The counters, and the sinks only if the denial is to be recorded. */
    method DenyByPolicy(e: Entry, now: real)
      requires Booked() && BudgetValid() && !e.suppressed
      modifies this`auditLog, this`spans, this`ledger, denialBudget
      modifies metrics`requests, metrics`denials, metrics`inputTokens, metrics`latency, metrics`latencies, metrics`auditSuppressed
      ensures Booked() && BudgetValid()
      ensures var (suppressed, gate) := Suppress(cfg, old(denialBudget.calls), e.who, now);
              && ledger == old(ledger) + [e.(suppressed := suppressed)]
              && denialBudget.calls == gate
    {
      CountOutcome(e);
      var recorded := DenialIsRecorded(e.who, now);
      if recorded {
        WriteSinks(e);
      } else {
        Book(e, true);
      }
    }
  }
}
