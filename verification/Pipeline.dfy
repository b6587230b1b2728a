/** The request pipeline of gateway/app.py in one place: what admitting and finishing a
    request does, for either route, as an account of histories. The limiters and the
    denial budget are given by the calls made to them, and everything that is ever
    recorded is one ledger; counters, audit log and spans are read off the ledger. */
module Pipeline {
  import opened Prelude
  import opened Access
  import opened Metrics
  import MemoryLimiter
  import DenialBudget

  datatype Route = Infer | Completions

  datatype Setup = Setup(
    policies: Registry, directory: map<string, Principal>, allowDemo: bool,
    windowSeconds: int, denialsPerMinute: int, startedAt: real, exporting: bool)
  {
    function W(): real { windowSeconds as real }
  }

  datatype Request = Request(credentials: Credentials, model: string, text: string, reason: Option<string>)

  /** Clock readings and measured durations of one admission. */
  datatype Timing = Timing(rateNow: real, tokenNow: real, auditNow: real, rateSeconds: real, tokenSeconds: real)

  /** One recorded request. */
  datatype Entry = Entry(
    route: Route, who: Resolved, model: string, outcome: string, allowed: bool, reasons: seq<string>,
    reason: Option<string>, tokens: int, tokenLimit: Option<int>, latency: Option<real>, suppressed: bool)

  datatype State = State(
    rate: seq<MemoryLimiter.Call>, tokens: seq<MemoryLimiter.Call>, gate: seq<DenialBudget.Ask>, ledger: seq<Entry>,
    auth: seq<(string, string)>, limiterTimes: seq<((string, string), real)>)

  const Start := State([], [], [], [], [], [])

  /** What an admitted request carries until it is finished. */
  datatype Admission = Admission(
    route: Route, who: Resolved, model: string, reason: Option<string>, reasons: seq<string>, tokens: int, tokenLimit: int)

  /** How an admitted request ends: answered; the backend failed; the client went away
      while a stream was running; a stream broke on some other exception; or the handler
      died, or its stream was never started, and nothing is written. */
  datatype Exit = Done(latency: real) | Down(latency: real) | Gone(latency: real) | Broken(latency: real) | Silent

  const RATE_REASON := "rate limit exceeded"
  const TOKEN_REASON := "token budget exceeded"
  const DOWN_REASON := "inference backend unavailable"
  const GONE_REASON := "client disconnected during inference"

  function PolicyOf(cfg: Setup, model: string): Option<ModelPolicy>
  {
    if model in cfg.policies then Some(cfg.policies[model]) else None
  }

  function LabelOf(cfg: Setup, model: string): string
  {
    if model in cfg.policies then model else "unknown"
  }

  // ---------------------------------------------------------- one admission

  datatype Admitted = Admitted(state: State, admission: Option<Admission>)

  function AuthOutcome(who: Resolved): string
  {
    if who.principal.Some? then "accepted" else "failed"
  }

  /** Whether a denial is kept out of the audit log, and the budget calls after it. */
  function Suppress(cfg: Setup, gate: seq<DenialBudget.Ask>, who: Resolved, now: real): (s: (bool, seq<DenialBudget.Ask>))
    ensures who.principal.Some? ==> s == (false, gate)
  {
    if who.principal.Some? then (false, gate)
    else (!DenialBudget.GateStep(cfg.denialsPerMinute, DenialBudget.GateAfter(cfg.denialsPerMinute, cfg.startedAt, gate), now).1, gate + [DenialBudget.Ask(now)])
  }

  function RateCall(who: Principal, model: string, policy: ModelPolicy, now: real): MemoryLimiter.Call
  {
    MemoryLimiter.Call((who.id, model), now, 1, policy.requestsPerMinute)
  }

  function TokenCall(who: Principal, model: string, policy: ModelPolicy, tokens: int, now: real): MemoryLimiter.Call
  {
    MemoryLimiter.Call((who.id, model), now, tokens, policy.inputTokensPerMinute)
  }

  function RateVerdict(cfg: Setup, calls: seq<MemoryLimiter.Call>, c: MemoryLimiter.Call): bool
  {
    MemoryLimiter.RequestStep(cfg.W(), MemoryLimiter.AfterRequests(cfg.W(), calls), c).1 == Ok(true)
  }

  function TokenVerdict(cfg: Setup, calls: seq<MemoryLimiter.Call>, c: MemoryLimiter.Call): bool
  {
    MemoryLimiter.TokenStep(cfg.W(), MemoryLimiter.After(cfg.W(), calls), c).1 == Ok(true)
  }

  /** What is settled about a request before any limiter is asked. */
  datatype Intake = Intake(who: Resolved, policy: Option<ModelPolicy>, tokens: int, tokenLimit: Option<int>, decision: Decision)

  function IntakeOf(cfg: Setup, r: Request): (i: Intake)
    ensures i.decision.allowed ==> i.who.principal.Some? && i.policy.Some? && r.model in cfg.policies && i.policy.value == cfg.policies[r.model]
    ensures i.policy.Some? ==> i.tokenLimit == Some(i.policy.value.inputTokensPerMinute)
    ensures i.tokens >= 1
    ensures i.who.principal.Some? ==> forall reasons :: WithAuthFailure(reasons, i.who.failure) == reasons
  {
    var who := Resolve(r.credentials, cfg.allowDemo, cfg.directory);
    var policy := PolicyOf(cfg, r.model);
    Intake(who, policy, EstimateTokens(r.text), if policy.Some? then Some(policy.value.inputTokensPerMinute) else None,
           EvaluatePolicy(who.principal, policy, r.reason))
  }

  datatype Limits = RateRefused | TokensRefused | Fits

  /** The request limiter is asked, and the question timed. */
  function AskRate(cfg: Setup, s: State, who: Principal, model: string, policy: ModelPolicy, now: real, seconds: real): (State, bool)
  {
    var c := RateCall(who, model, policy, now);
    (s.(rate := s.rate + [c], limiterTimes := s.limiterTimes + [(("requests", "memory"), seconds)]), RateVerdict(cfg, s.rate, c))
  }

  /** The token limiter is asked, and the question timed. */
  function AskTokens(cfg: Setup, s: State, who: Principal, model: string, policy: ModelPolicy, tokens: int, now: real, seconds: real): (State, bool)
  {
    var c := TokenCall(who, model, policy, tokens, now);
    (s.(tokens := s.tokens + [c], limiterTimes := s.limiterTimes + [(("input_tokens", "memory"), seconds)]), TokenVerdict(cfg, s.tokens, c))
  }

  /** The two limiters are asked in turn; the second only if the first agrees. */
  function AskLimiters(cfg: Setup, s: State, i: Intake, model: string, t: Timing): (State, Limits)
    requires i.who.principal.Some? && i.policy.Some?
  {
    var (s1, rateOk) := AskRate(cfg, s, i.who.principal.value, model, i.policy.value, t.rateNow, t.rateSeconds);
    if !rateOk then (s1, RateRefused)
    else
      var (s2, tokensOk) := AskTokens(cfg, s1, i.who.principal.value, model, i.policy.value, i.tokens, t.tokenNow, t.tokenSeconds);
      (s2, if tokensOk then Fits else TokensRefused)
  }

  /** The entry of a denied request. */
  function DeniedEntry(route: Route, r: Request, i: Intake, outcome: string, reasons: seq<string>): Entry
  {
    Entry(route, i.who, r.model, outcome, false, reasons, r.reason, i.tokens, i.tokenLimit, None, false)
  }

  function Log(s: State, e: Entry): State
  {
    s.(ledger := s.ledger + [e])
  }

  /** What an admitted request takes along. */
  function AdmissionOf(route: Route, r: Request, i: Intake): Admission
    requires i.policy.Some?
  {
    Admission(route, i.who, r.model, r.reason, i.decision.reasons, i.tokens, i.policy.value.inputTokensPerMinute)
  }

  /** A request the policy allows: the limiters deny and record it, or it is admitted. */
  function Ask(cfg: Setup, s: State, route: Route, r: Request, t: Timing): (a: Admitted)
    requires IntakeOf(cfg, r).decision.allowed
    ensures a.admission.Some? ==> a.admission.value.route == route
  {
    var i := IntakeOf(cfg, r);
    var (s1, limits) := AskLimiters(cfg, s, i, r.model, t);
    match limits
    case RateRefused => Admitted(Log(s1, DeniedEntry(route, r, i, "rate_limited", [RATE_REASON])), None)
    case TokensRefused => Admitted(Log(s1, DeniedEntry(route, r, i, "token_budget_limited", [TOKEN_REASON])), None)
    case Fits => Admitted(s1, Some(AdmissionOf(route, r, i)))
  }

  /** A request comes in: its authentication is counted, and a denial by the policy recorded. */
  function Enter(cfg: Setup, s: State, route: Route, r: Request, now: real): State
  {
    var i := IntakeOf(cfg, r);
    var s1 := s.(auth := s.auth + [(i.who.authMethod, AuthOutcome(i.who))]);
    if i.decision.allowed then s1
    else
      var (suppressed, gate) := Suppress(cfg, s.gate, i.who, now);
      var denied := DeniedEntry(route, r, i, "policy_denied", WithAuthFailure(i.decision.reasons, i.who.failure));
      Log(s1.(gate := gate), denied.(suppressed := suppressed))
  }

  /** A request reaches the gateway: it is denied and recorded, or admitted. */
  function Arrive(cfg: Setup, s: State, route: Route, r: Request, t: Timing): (a: Admitted)
    ensures a.admission.Some? ==> a.admission.value.route == route
  {
    var s1 := Enter(cfg, s, route, r, t.auditNow);
    if IntakeOf(cfg, r).decision.allowed then Ask(cfg, s1, route, r, t) else Admitted(s1, None)
  }

  // ------------------------------------------------------------- one finish

  function FinalEntry(a: Admission, exit: Exit): Entry
    requires !exit.Silent?
  {
    var ok := exit.Done? || exit.Broken?;
    var reasons := if ok then a.reasons else if exit.Gone? then [GONE_REASON] else [DOWN_REASON];
    var latency := if a.route.Infer? && !ok then None else Some(exit.latency);
    Entry(a.route, a.who, a.model, if ok then "allowed" else "backend_error", true, reasons, a.reason, a.tokens, Some(a.tokenLimit), latency, false)
  }

  /** An admitted request ends: it is recorded once, unless nothing was written at all. */
  function Finish(s: State, a: Admission, exit: Exit): State
  {
    if exit.Silent? then s else s.(ledger := s.ledger + [FinalEntry(a, exit)])
  }

  /** A whole request with nothing in between. */
  function Handle(cfg: Setup, s: State, route: Route, r: Request, t: Timing, exit: Exit): State
  {
    var a := Arrive(cfg, s, route, r, t);
    if a.admission.Some? then Finish(a.state, a.admission.value, exit) else a.state
  }

  // -------------------------------------------- what is read off the ledger

  datatype AuditEvent = AuditEvent(
    principalId: string, model: string, allowed: bool, reason: Option<string>, reasons: seq<string>,
    latency: Option<real>, authMethod: string, subject: Option<string>, tokens: int, tokenLimit: Option<int>)

  datatype Span = Span(
    route: Route, model: string, outcome: string, authMethod: string, reasons: seq<string>,
    latency: Option<real>, tokens: int, tokenLimit: Option<int>)

  function AuditOf(e: Entry): AuditEvent
  {
    var id := if e.who.principal.Some? then e.who.principal.value.id
              else if e.who.subject.Some? && e.who.subject.value != "" then e.who.subject.value else "unknown";
    AuditEvent(id, e.model, e.allowed, e.reason, e.reasons, e.latency, e.who.authMethod, e.who.subject, e.tokens, e.tokenLimit)
  }

  function SpanOf(e: Entry): Span
  {
    Span(e.route, e.model, e.outcome, e.who.authMethod, e.reasons, e.latency, e.tokens, e.tokenLimit)
  }

  function AuditLog(ledger: seq<Entry>): seq<AuditEvent>
  {
    if ledger == [] then []
    else AuditLog(ledger[..|ledger| - 1]) + (if ledger[|ledger| - 1].suppressed then [] else [AuditOf(ledger[|ledger| - 1])])
  }

  function SpanLog(cfg: Setup, ledger: seq<Entry>): seq<Span>
  {
    if ledger == [] then []
    else
      SpanLog(cfg, ledger[..|ledger| - 1])
      + (if cfg.exporting && !ledger[|ledger| - 1].suppressed then [SpanOf(ledger[|ledger| - 1])] else [])
  }

  // The counters, each as a fold over the ledger.

  function RequestsIn(cfg: Setup, ledger: seq<Entry>): map<(string, string), int>
  {
    if ledger == [] then map[]
    else
      var e := ledger[|ledger| - 1];
      Bump(RequestsIn(cfg, ledger[..|ledger| - 1]), (LabelOf(cfg, e.model), e.outcome), 1)
  }

  function DenialsIn(cfg: Setup, ledger: seq<Entry>): map<(string, string), int>
  {
    if ledger == [] then map[]
    else
      var e := ledger[|ledger| - 1];
      BumpDenials(DenialsIn(cfg, ledger[..|ledger| - 1]), LabelOf(cfg, e.model), e.outcome, e.reasons)
  }

  function TokensIn(cfg: Setup, ledger: seq<Entry>): map<(string, string), int>
  {
    if ledger == [] then map[]
    else
      var e := ledger[|ledger| - 1];
      Bump(TokensIn(cfg, ledger[..|ledger| - 1]), (LabelOf(cfg, e.model), e.outcome), e.tokens)
  }

  function LatencySample(cfg: Setup, e: Entry): seq<(string, real)>
  {
    if e.outcome == "allowed" && e.latency.Some? then [(LabelOf(cfg, e.model), e.latency.value / 1000.0)] else []
  }

  function LatenciesIn(cfg: Setup, ledger: seq<Entry>): seq<(string, real)>
  {
    if ledger == [] then [] else LatenciesIn(cfg, ledger[..|ledger| - 1]) + LatencySample(cfg, ledger[|ledger| - 1])
  }

  function SuppressedIn(ledger: seq<Entry>): nat
  {
    if ledger == [] then 0 else SuppressedIn(ledger[..|ledger| - 1]) + (if ledger[|ledger| - 1].suppressed then 1 else 0)
  }

  function AuthsIn(auth: seq<(string, string)>): map<(string, string), int>
  {
    if auth == [] then map[] else Bump(AuthsIn(auth[..|auth| - 1]), auth[|auth| - 1], 1)
  }

  lemma LedgerSnoc(cfg: Setup, ledger: seq<Entry>, e: Entry)
    ensures RequestsIn(cfg, ledger + [e]) == Bump(RequestsIn(cfg, ledger), (LabelOf(cfg, e.model), e.outcome), 1)
    ensures DenialsIn(cfg, ledger + [e]) == BumpDenials(DenialsIn(cfg, ledger), LabelOf(cfg, e.model), e.outcome, e.reasons)
    ensures TokensIn(cfg, ledger + [e]) == Bump(TokensIn(cfg, ledger), (LabelOf(cfg, e.model), e.outcome), e.tokens)
    ensures LatenciesIn(cfg, ledger + [e]) == LatenciesIn(cfg, ledger) + LatencySample(cfg, e)
    ensures SuppressedIn(ledger + [e]) == SuppressedIn(ledger) + (if e.suppressed then 1 else 0)
    ensures AuditLog(ledger + [e]) == AuditLog(ledger) + (if e.suppressed then [] else [AuditOf(e)])
    ensures SpanLog(cfg, ledger + [e]) == SpanLog(cfg, ledger) + (if cfg.exporting && !e.suppressed then [SpanOf(e)] else [])
  {
    assert (ledger + [e])[..|ledger + [e]| - 1] == ledger;
  }

  lemma AuthSnoc(auth: seq<(string, string)>, a: (string, string))
    ensures AuthsIn(auth + [a]) == Bump(AuthsIn(auth), a, 1)
  {
    assert (auth + [a])[..|auth + [a]| - 1] == auth;
  }
}
