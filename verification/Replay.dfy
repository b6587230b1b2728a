/** The workload replay of gateway/workload_replay.py: the same decisions as the gateway
    takes, on limiters of its own and with a backend that always answers. */
module Replay {
  import opened Prelude
  import opened Access
  import opened Pipeline
  import MemoryLimiter
  import Text

  datatype ReplayRequest = ReplayRequest(principalId: string, modelId: string, characters: int, reasonPresent: bool)

  datatype Report = Report(
    outcomes: map<string, int>, modelOutcomes: map<string, map<string, int>>, modelTokens: map<string, int>,
    modelLatencies: map<string, seq<real>>, latencies: seq<real>)

  const NO_REPORT := Report(map[], map[], map[], map[], [])

  function Xs(n: int): string
  {
    seq(if n > 0 then n else 0, _ => 'x')
  }

  function Reason(present: bool): Option<string>
  {
    if present then Some("synthetic workload-readiness replay") else None
  }

  function Min(x: real, y: real): real
  {
    if x <= y then x else y
  }

  function EstimateLatency(model: string, tokens: int, sequence: int): real
  {
    var base := match model case "benchmark-echo" => 18.0 case "mission-summarizer" => 42.0 case "threat-triage" => 55.0 case _ => 50.0;
    base + Min(tokens as real * 0.018, 34.0) + (sequence % 5) as real * 0.7
  }

  // ------------------------------------------------- the gateway on a replay

  function AsRequest(q: ReplayRequest): Pipeline.Request
  {
    Pipeline.Request(DemoHeader(q.principalId), q.modelId, Xs(q.characters), Reason(q.reasonPresent))
  }

  function Answered(q: ReplayRequest, sequence: int): Exit
  {
    Done(EstimateLatency(q.modelId, EstimateTokens(Xs(q.characters)), sequence))
  }

  /** The gateway after the requests of a replay, one after the other on one route. */
  function GatewayAfter(cfg: Setup, route: Route, requests: seq<ReplayRequest>, times: seq<Timing>): State
    requires |times| == |requests|
  {
    if requests == [] then Start
    else
      var n := |requests| - 1;
      Handle(cfg, GatewayAfter(cfg, route, requests[..n], times[..n]), route, AsRequest(requests[n]), times[n], Answered(requests[n], n + 1))
  }

  /** A report as it is read off the gateway's ledger. */
  function ReportOf(ledger: seq<Entry>): Report
  {
    if ledger == [] then NO_REPORT
    else
      var report, e := ReportOf(ledger[..|ledger| - 1]), ledger[|ledger| - 1];
      AddEntry(report, e.model, e.outcome, e.tokens, e.latency)
  }

  function AddEntry(r: Report, model: string, outcome: string, tokens: int, latency: Option<real>): Report
  {
    var perModel := if model in r.modelOutcomes then r.modelOutcomes[model] else map[];
    var allowed := outcome == "allowed" && latency.Some?;
    var samples := if model in r.modelLatencies then r.modelLatencies[model] else [];
    Report(
      Bump(r.outcomes, outcome, 1), r.modelOutcomes[model := Bump(perModel, outcome, 1)], Bump(r.modelTokens, model, tokens),
      if allowed then r.modelLatencies[model := samples + [latency.value]] else r.modelLatencies,
      if allowed then r.latencies + [latency.value] else r.latencies)
  }

  // ---------------------------------------------------------- the replay

  /** Handling one request of a replay, by what was decided about it. */
  lemma HandleCases(cfg: Setup, s: State, route: Route, q: ReplayRequest, t: Timing, n: int)
    ensures var r, i := AsRequest(q), IntakeOf(cfg, AsRequest(q));
            var s' := Handle(cfg, s, route, r, t, Answered(q, n));
            && |s'.ledger| == |s.ledger| + 1
            && var e := s'.ledger[|s.ledger|];
               && s'.ledger == s.ledger + [e] && e.model == q.modelId && e.tokens == EstimateTokens(Xs(q.characters))
               && if !i.decision.allowed then
                    e.outcome == "policy_denied" && s'.rate == s.rate && s'.tokens == s.tokens
                  else
                    var rateCall := RateCall(i.who.principal.value, q.modelId, i.policy.value, t.rateNow);
                    var tokenCall := TokenCall(i.who.principal.value, q.modelId, i.policy.value, i.tokens, t.tokenNow);
                    && s'.rate == s.rate + [rateCall]
                    && if !RateVerdict(cfg, s.rate, rateCall) then
                         e.outcome == "rate_limited" && s'.tokens == s.tokens
                       else
                         && s'.tokens == s.tokens + [tokenCall]
                         && e.outcome == (if TokenVerdict(cfg, s.tokens, tokenCall) then "allowed" else "token_budget_limited")
                         && (e.outcome == "allowed" ==> e.latency == Some(Answered(q, n).latency))
  {
    hide RateVerdict;
    hide TokenVerdict;
    hide RateCall;
    hide TokenCall;
    hide Suppress;
    hide EvaluatePolicy;
    hide Resolve;
    hide EstimateTokens;
    hide EstimateLatency;
    hide WithAuthFailure;
  }

  /** A request of the replay is decided as the gateway would, from the same limiter calls.
      The second policy_denied branch is dead: an allowed decision has policy and principal. */
  method Decide(cfg: Setup, ghost s: State, q: ReplayRequest, t: Timing, ghost n: int,
                requestLimiter: MemoryLimiter.FixedWindowRateLimiter, tokenLimiter: MemoryLimiter.FixedWindowTokenBudgetLimiter)
    returns (outcome: string, tokens: int)
    requires PositiveLimits(cfg.policies) && cfg.allowDemo && "" !in cfg.directory
    requires requestLimiter.Valid() && tokenLimiter.Valid() && requestLimiter.repr !! tokenLimiter.repr
    requires requestLimiter.windowSeconds == tokenLimiter.windowSeconds == cfg.windowSeconds
    requires requestLimiter.calls == s.rate && tokenLimiter.calls == s.tokens
    modifies requestLimiter.repr, tokenLimiter.repr
    ensures requestLimiter.Valid() && tokenLimiter.Valid() && requestLimiter.repr !! tokenLimiter.repr
    ensures fresh(requestLimiter.repr - old(requestLimiter.repr)) && fresh(tokenLimiter.repr - old(tokenLimiter.repr))
    ensures var s' := Handle(cfg, s, Route.Infer, AsRequest(q), t, Answered(q, n));
            && requestLimiter.calls == s'.rate && tokenLimiter.calls == s'.tokens
            && |s'.ledger| == |s.ledger| + 1
            && var e := s'.ledger[|s.ledger|];
               && s'.ledger == s.ledger + [e] && e.model == q.modelId && e.tokens == tokens && e.outcome == outcome
               && (outcome == "allowed" ==> e.latency == Some(EstimateLatency(q.modelId, tokens, n)))
  {
    hide Handle;
    hide EvaluatePolicy;
    hide EstimateTokens;
    hide EstimateLatency;
    hide MemoryLimiter.RequestStep;
    hide MemoryLimiter.ServeCost;
    hide MemoryLimiter.Store;
    hide MemoryLimiter.After;
    hide MemoryLimiter.AfterRequests;
    var policy := PolicyOf(cfg, q.modelId);
    var principal := if q.principalId in cfg.directory then Some(cfg.directory[q.principalId]) else None;
    tokens := EstimateTokens(Xs(q.characters));
    var decision := EvaluatePolicy(principal, policy, Reason(q.reasonPresent));
    outcome := "allowed";
    HandleCases(cfg, s, Route.Infer, q, t, n);
    if !decision.allowed {
      outcome := "policy_denied";
    } else if policy.None? || principal.None? {
      outcome := "policy_denied";
    } else {
      var rateOk := requestLimiter.Allow(principal.value.id, q.modelId, policy.value.requestsPerMinute, t.rateNow);
      if !rateOk {
        outcome := "rate_limited";
      } else {
        var tokensOk := tokenLimiter.Allow(principal.value.id, q.modelId, tokens, policy.value.inputTokensPerMinute, t.tokenNow);
        if !tokensOk.value {
          outcome := "token_budget_limited";
        }
      }
    }
  }

  // ------------------------------------------------- what a replayed request stands for

  lemma {:induction false} AllXs(n: nat)
    ensures Text.Strip(Xs(n)) == Xs(n) && |Xs(n)| == n
  {
    Text.StripFixed(Xs(n));
  }

  /** One token for every four characters begun, and at least one. */
  predicate TokensFor(characters: int, tokens: int)
  {
    if characters <= 4 then tokens == 1 else characters <= 4 * tokens < characters + 4
  }

  lemma TokensTell(q: ReplayRequest)
    ensures TokensFor(q.characters, EstimateTokens(Xs(q.characters)))
  {
    AllXs(if q.characters < 0 then 0 else q.characters);
  }

  /** A replayed request is one of a demo principal by that name, with one token for every
      four characters begun and at least one, and a reason if it says so. */
  lemma RequestStandsFor(cfg: Setup, q: ReplayRequest, p: Principal, policy: ModelPolicy)
    requires cfg.allowDemo && "" !in cfg.directory
    ensures var r := AsRequest(q);
            && r.model == q.modelId
            && (Identify(r.credentials, cfg.allowDemo, cfg.directory, p) <==> q.principalId in cfg.directory && p == cfg.directory[q.principalId])
            && (ReasonGiven(policy, r.reason) <==> (policy.requiresReason ==> q.reasonPresent))
            && TokensFor(q.characters, EstimateTokens(r.text))
  {
    TokensTell(q);
    var text := "synthetic workload-readiness replay";
    assert text[0] == 's' && text[0] in text && !Text.IsSpace('s');
  }

  /** The backend of a replay takes a time of its own for each model, 0.018 ms more for
      every token up to 34 ms, and in turn 0, 0.7, 1.4, 2.1 and 2.8 ms more. */
  lemma LatencyTells(model: string, tokens: nat, round: nat, turn: nat)
    requires turn < 5
    ensures var base := if model == "benchmark-echo" then 18.0 else if model == "mission-summarizer" then 42.0 else if model == "threat-triage" then 55.0 else 50.0;
            EstimateLatency(model, tokens, 5 * round + turn)
            == base + (if tokens <= 1888 then tokens as real * 18.0 / 1000.0 else 34.0) + turn as real * 7.0 / 10.0
  {
    assert (5 * round + turn) % 5 == turn;
  }

  /** What is recorded of one request of a replay, by its number from one on. */
  predicate ReplayTold(q: ReplayRequest, number: nat, e: Entry)
  {
    && e.model == q.modelId && TokensFor(q.characters, e.tokens)
    && (e.outcome == "allowed" ==> e.latency == Some(EstimateLatency(q.modelId, e.tokens, number)))
  }

  lemma OneMoreTold(cfg: Setup, s: State, route: Route, q: ReplayRequest, t: Timing, number: nat)
    ensures var s' := Handle(cfg, s, route, AsRequest(q), t, Answered(q, number));
            && |s'.ledger| == |s.ledger| + 1 && s'.ledger[..|s.ledger|] == s.ledger
            && ReplayTold(q, number, s'.ledger[|s.ledger|])
  {
    hide Handle, AsRequest, TokensFor, EstimateLatency, RateVerdict, TokenVerdict, RateCall, TokenCall, IntakeOf;
    HandleCases(cfg, s, route, q, t, number);
    TokensTell(q);
  }

  /** The k-th entry is that of the k-th request: its model, its tokens and, if it is
      allowed, the latency of these in the turn of its number. */
  lemma {:induction false} EveryRequestTells(cfg: Setup, route: Route, requests: seq<ReplayRequest>, times: seq<Timing>, k: nat)
    requires |times| == |requests| && k < |requests|
    ensures var ledger := GatewayAfter(cfg, route, requests, times).ledger;
            |ledger| == |requests| && ReplayTold(requests[k], k + 1, ledger[k])
  {
    hide Handle, AsRequest, ReplayTold;
    var n := |requests| - 1;
    OneMoreTold(cfg, GatewayAfter(cfg, route, requests[..n], times[..n]), route, requests[n], times[n], n + 1);
    if k < n {
      EveryRequestTells(cfg, route, requests[..n], times[..n], k);
    } else if n > 0 {
      EveryRequestTells(cfg, route, requests[..n], times[..n], n - 1);
    }
  }

  lemma ReportSnoc(ledger: seq<Entry>, e: Entry)
    ensures ReportOf(ledger + [e]) == AddEntry(ReportOf(ledger), e.model, e.outcome, e.tokens, e.latency)
  {
    assert (ledger + [e])[..|ledger + [e]| - 1] == ledger;
  }

  lemma NothingYet(cfg: Setup, requests: seq<ReplayRequest>, times: seq<Timing>)
    requires |times| == |requests|
    ensures GatewayAfter(cfg, Route.Infer, requests[..0], times[..0]) == Start && ReportOf([]) == NO_REPORT
  {
  }

  lemma GatewaySnoc(cfg: Setup, route: Route, requests: seq<ReplayRequest>, times: seq<Timing>, i: nat)
    requires |times| == |requests| && i < |requests|
    ensures GatewayAfter(cfg, route, requests[..i + 1], times[..i + 1])
            == Handle(cfg, GatewayAfter(cfg, route, requests[..i], times[..i]), route, AsRequest(requests[i]), times[i], Answered(requests[i], i + 1))
  {
    assert requests[..i + 1][..i] == requests[..i] && times[..i + 1][..i] == times[..i];
  }

  /** The counters of one request: outcomes, per-model outcomes and tokens, and the
      latency of an allowed one. */
  method Tally(report: Report, model: string, outcome: string, tokens: int, sequence: int) returns (r: Report)
    ensures forall latency: Option<real> :: (outcome == "allowed" ==> latency == Some(EstimateLatency(model, tokens, sequence))) ==>
              r == AddEntry(report, model, outcome, tokens, latency)
  {
    var outcomes := Bump(report.outcomes, outcome, 1);
    var perModel := if model in report.modelOutcomes then report.modelOutcomes[model] else map[];
    var modelOutcomes := report.modelOutcomes[model := Bump(perModel, outcome, 1)];
    var modelTokens := Bump(report.modelTokens, model, tokens);
    var modelLatencies, latencies := report.modelLatencies, report.latencies;
    if outcome == "allowed" {
      var latency := EstimateLatency(model, tokens, sequence);
      latencies := latencies + [latency];
      modelLatencies := modelLatencies[model := (if model in modelLatencies then modelLatencies[model] else []) + [latency]];
    }
    r := Report(outcomes, modelOutcomes, modelTokens, modelLatencies, latencies);
  }

  /** The replay's report is the report of the ledger a gateway would keep whose limiters
      read the same clocks and whose backend always answers. */
  method BuildWorkloadReport(cfg: Setup, requests: seq<ReplayRequest>, times: seq<Timing>) returns (report: Report)
    requires PositiveLimits(cfg.policies) && cfg.allowDemo && "" !in cfg.directory && cfg.windowSeconds == 60
    requires |times| == |requests|
    ensures report == ReportOf(GatewayAfter(cfg, Route.Infer, requests, times).ledger)
  {
    hide Handle;
    hide ReportOf;
    hide GatewayAfter;
    hide EstimateLatency;
    hide EstimateTokens;
    hide AddEntry;
    hide MemoryLimiter.After;
    hide MemoryLimiter.AfterRequests;
    var requestLimiter := new MemoryLimiter.FixedWindowRateLimiter();
    var tokenLimiter := new MemoryLimiter.FixedWindowTokenBudgetLimiter();
    report := NO_REPORT;
    ghost var s := Start;
    NothingYet(cfg, requests, times);
    var i := 0;
    while i < |requests|
      invariant 0 <= i <= |requests| && s == GatewayAfter(cfg, Route.Infer, requests[..i], times[..i])
      invariant requestLimiter.Valid() && tokenLimiter.Valid() && requestLimiter.repr !! tokenLimiter.repr
      invariant fresh(requestLimiter.repr) && fresh(tokenLimiter.repr)
      invariant requestLimiter.calls == s.rate && tokenLimiter.calls == s.tokens
      invariant report == ReportOf(s.ledger)
    {
      var q := requests[i];
      var outcome, tokens := Decide(cfg, s, q, times[i], i + 1, requestLimiter, tokenLimiter);
      report := Tally(report, q.modelId, outcome, tokens, i + 1);
      GatewaySnoc(cfg, Route.Infer, requests, times, i);
      ghost var next := Handle(cfg, s, Route.Infer, AsRequest(q), times[i], Answered(q, i + 1));
      ReportSnoc(s.ledger, next.ledger[|s.ledger|]);
      s := next;
      i := i + 1;
    }
    assert requests[..i] == requests && times[..i] == times;
  }

  /** Each request of a replay is recorded once, and the report does not depend on which
      route the gateway serves. */
  lemma {:induction false} EitherRoute(cfg: Setup, requests: seq<ReplayRequest>, times: seq<Timing>)
    requires |times| == |requests|
    ensures var a, b := GatewayAfter(cfg, Route.Infer, requests, times), GatewayAfter(cfg, Route.Completions, requests, times);
            && a.rate == b.rate && a.tokens == b.tokens && |a.ledger| == |b.ledger| == |requests|
            && ReportOf(a.ledger) == ReportOf(b.ledger)
  {
    hide Handle;
    hide ReportOf;
    hide AddEntry;
    hide AsRequest;
    hide Answered;
    if requests != [] {
      var n := |requests| - 1;
      EitherRoute(cfg, requests[..n], times[..n]);
      var s, t := GatewayAfter(cfg, Route.Infer, requests[..n], times[..n]), GatewayAfter(cfg, Route.Completions, requests[..n], times[..n]);
      HandleCases(cfg, s, Route.Infer, requests[n], times[n], n + 1);
      HandleCases(cfg, t, Route.Completions, requests[n], times[n], n + 1);
      var a, b := GatewayAfter(cfg, Route.Infer, requests, times), GatewayAfter(cfg, Route.Completions, requests, times);
      var e, f := a.ledger[|s.ledger|], b.ledger[|t.ledger|];
      ReportSnoc(s.ledger, e);
      ReportSnoc(t.ledger, f);
      SameAddition(ReportOf(s.ledger), e, f);
    }
  }

  lemma SameAddition(report: Report, e: Entry, f: Entry)
    requires e.model == f.model && e.tokens == f.tokens && e.outcome == f.outcome
    requires e.outcome == "allowed" ==> e.latency == f.latency
    ensures AddEntry(report, e.model, e.outcome, e.tokens, e.latency) == AddEntry(report, f.model, f.outcome, f.tokens, f.latency)
  {
  }
}
