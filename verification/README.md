# Secure inference gateway: a verified model

This project models the parts of the gateway that carry state, concurrency and
arithmetic, and proves what they guarantee over whole runs: admission control, the
request pipeline with its ledger and sinks, the histogram telemetry from observation to
benchmark row, the benchmark schedule and load generator, and the grouping of spans.
`dafny verify dfyconfig.toml` checks everything.

**How the pieces fit.** Code that updates objects in place is modelled by classes and by
methods with loops, each proved against a pure account of what it does. The results are
lemmas about these accounts.

- `Grants`, `FirstFit`: a theory of windows. A *grant* is a time, the start of the window
  it is charged to, and a cost. Two limiters that look different (windows anchored at the
  first admitted call, windows aligned with the epoch) are bounded by the same lemmas.
- `MemoryLimiter`, `MemoryWindows`, `DenialBudget`, `RedisLimiter`, `RedisScripts`,
  `RedisBounds`, `RedisExact`, `RedisLate`: the limiters. `MemoryWindows` says what whole
  runs in memory answer, from the calls alone. A Redis run interleaves clock reads and script runs of any
  number of processes with the passing of time; a script names its key by the epoch of its
  earlier clock read. `RedisScripts` shows that what a key answers depends on the times and
  costs of its own scripts alone, and `RedisExact` which times keep the limit.
- `Access`, `Pipeline`, `Streams`, `Gateway`, `GatewayBooks`, `PipelineRuns`,
  `PipelineEntries`, `PipelineSpend`, `PipelineRoutes`, `Replay`, `ReplayCounters`: the
  request pipeline. `Pipeline` is an
  account of histories: the limiters are given by the calls made to them, and everything
  recorded is one ledger from which counters, audit log and spans are read. `Gateway` holds
  the handlers as a class. A run in `PipelineRuns` interleaves the steps of any number of
  requests: coming in, asking the request limiter, asking the token limiter, ending.
- `Metrics`, `Escaping`, `Labels`, `LabelTexts`, `Numbers`, `NumberTexts`, `Exposition`,
  `LineTexts`, `Documents`, `MixedTexts`, `Snapshot`, `Telemetry`, `SnapshotTrips`, `SnapshotTotals`: observations into histograms, histograms
  into text, text back into samples, samples into counts and upper bounds.
- `LimiterDelta`, `LimiterScrapes`, `BenchText`, `Pooling`, `BenchTrips`, `Percentile`: what
  the benchmark makes of two scrapes and of many conditions, from the texts to the pool.
- `Schedule`, `LoadPool`, `SpanGroups`: the paired schedule, the closed-loop workers, and
  the one-pass group-by. `Prelude`, `Sorting`, `Ordering`, `Text`, `Decimal` are shared.

**Time and numbers.** Times, latencies and bucket bounds are exact reals, counters are
unbounded integers. `0.95 * n` is taken exactly.

**What the proofs found out about the code.** Some promises hold only on a condition;
each is stated with the exact one.

- The per-epoch Redis limit is kept for all costs exactly when the scripts of that model,
  budget, caller and epoch span less than one window length, or just one where a key
  outlives the instant of its deadline (`NeverOverspentIff`). Scripts that run before the
  epoch they named ends do; one late script can spend the limit twice
  (`LateScriptOverspends`). What holds however late scripts run is a bound per key
  (`IntervalUnderOneKey`), and that other callers' scripts do not matter
  (`ProjectionAnswersAlike`).
- Both in-memory limiters grant at most `2 * limit - 1` in any window length, and reach it;
  the denial budget can grant the full double for every limit, because its first window
  opens with the budget and not with a grant.
- The request limiter is the token limiter at cost one exactly when the limit is positive:
  with any other limit the token limiter raises, and the request limiter grants the first
  call of a window.
- With demo principals off, the default, every limiter call and every record other than a
  denial by the policy is for a request whose bearer token verifies.
- A stream that breaks on anything but an HTTP error is recorded as allowed.
- A stream that is never started, or a handler that dies, records nothing. Once nothing is
  open, requests and ledger entries agree exactly when no step of the run was such an end.
- `unescape_label` inverts the escaping exactly for values without a backslash before an n.
- A metrics text is read exactly when no label value of an allowed metric holds a line break
  other than the newline and each piece that breaks cut its other lines into is read. Where
  the other lines hold no closing brace in a value, that is when no value of any line holds
  such a break.
- The snapshot's p95 is right for all observations exactly when no bucket is configured twice.
- A benchmark row is kept for one backend per limiter only: the last in sorted order.
- Seeds differ between repetitions and workloads exactly up to a thousand workloads (or
  with a single repetition).
- Spans are grouped by resource and scope exactly when the dumped texts tell those of the
  records at hand apart; no pair ever has two groups.
- A load worker whose reply breaks off loses its request without counting a failure: the
  program's own counts add up to the total exactly when no reply broke off.
- An ended load run has all its latencies exactly when no reply was rejected or broke off
  and, if there was anything to send, some connection opened.

## Model

| member | source | states |
|---|---|---|
| `MemoryLimiter.FixedWindowRateLimiter.Allow` | gateway/rate_limit.py:40-53 | one call in place on the window dictionary: answer and new windows are those of the request step on the history of calls |
| `MemoryLimiter.FixedWindowTokenBudgetLimiter.Allow` | gateway/rate_limit.py:61-81 | the same for the token budget, with both rejections of invalid input before anything else; a refused call, an oversized first one included, leaves no window |
| `MemoryLimiter.FixedWindowTokenBudgetLimiter.Serve` | gateway/rate_limit.py:67-81 | a valid call opens a window, charges the open one or changes nothing |
| `MemoryLimiter.WindowDict.Open` | gateway/rate_limit.py:46-46 | a new window object replaces the key's, every other window as before |
| `MemoryLimiter.WindowDict.Charge` | gateway/rate_limit.py:80-80 | the key's own window object is charged in place and no other one is |
| `MemoryLimiter.UnitStep` | gateway/rate_limit.py:40-81 | one call answers alike and leaves the same windows in the request limiter and in the token limiter at cost one if and only if the limit is positive; a limit below one makes the token limiter raise before it looks at a window |
| `MemoryLimiter.RequestRunIsUnitCostRun` | gateway/rate_limit.py:35-81 | with positive limits, whole runs of the two in-memory limiters leave the same windows |
| `MemoryLimiter.RunAccounted` | gateway/rate_limit.py:56-81 | over every run on a clock that never goes back, the open window's count is what was granted in it, windows are a window apart, and each opened with a grant |
| `MemoryLimiter.IntervalLimit` | gateway/rate_limit.py:61-81 | no half-open interval as long as the window is granted more than 2 * limit - 1 tokens for one key |
| `MemoryLimiter.RequestIntervalLimit` | gateway/rate_limit.py:40-53 | the same of requests in the request limiter |
| `MemoryLimiter.IntervalLimitReached` | gateway/rate_limit.py:61-81 | that bound is reached, for every window and every limit from two on |
| `MemoryLimiter.RequestIntervalLimitReached` | gateway/rate_limit.py:40-53 | so is the bound on requests |
| `MemoryLimiter.SpanLimit` | gateway/rate_limit.py:61-81 | a run of length T is granted at most limit * (T div W + 1) per key |
| `MemoryLimiter.RequestSpanLimit` | gateway/rate_limit.py:40-53 | the same of requests in the request limiter |
| `MemoryLimiter.KeysIndependent` | gateway/rate_limit.py:68-69 | token limiter: answers, window and grants of a key equal those of the run projected to that key |
| `MemoryLimiter.RequestKeysIndependent` | gateway/rate_limit.py:42-43 | request limiter: answers and grants of a key equal those of the run projected to that key |
| `MemoryLimiter.OneWindowIsFirstFit` | gateway/rate_limit.py:71-81 | inside one window length a key's answers are those of first come, first served on its costs alone |
| `MemoryWindows.RunIsWindowsInTurn` | gateway/rate_limit.py:61-81 | every run of the token limiter on a clock that never goes back, rejections and changing limits included: a key's answers are those of windows in turn, each opened by the first call a new window grants, serving first come, first served the calls before its length is over, and the first call at or after its end begins afresh |
| `MemoryWindows.RequestsAreWindowsInTurn` | gateway/rate_limit.py:40-53 | the same of the request limiter; a limit below one lets one request through in a window |
| `MemoryWindows.BegunAfresh` | gateway/rate_limit.py:71-75 | a key left alone for at least the window is answered as on a new token limiter |
| `MemoryWindows.RequestsBegunAfresh` | gateway/rate_limit.py:45-47 | the same of the request limiter |
| `Grants.IntervalBound` | gateway/rate_limit.py:40-81 | grants charged at most the limit to windows a window apart cost at most twice the limit in any window length, one less if each window opened with a grant |
| `Grants.SpanBound` | gateway/rate_limit.py:40-81 | grants of windows starting within a span cost at most the limit per whole window in it and one more |
| `FirstFit.SpentGrows` | gateway/rate_limit.py:10-21 | first come, first served never spends more than the limit, never less than before, and all it spends is what it admitted |
| `FirstFit.RefusedNeverFits` | gateway/rate_limit.py:13-14 | a cost once refused would not fit even the final count |
| `FirstFit.EqualCosts` | gateway/rate_limit.py:10-21 | of equal costs c exactly the first limit div c are admitted |
| `DenialBudget.DenialAuditBudget.Allow` | gateway/audit.py:32-41 | the window restarts on time alone, then the count decides |
| `DenialBudget.RunIsWindowsInTurn` | gateway/audit.py:28-41 | every run, whatever its clock reads: each window lets its first `limit` asks through, and the first ask a minute or more after its start begins the next, let through or not |
| `DenialBudget.MinuteLimit` | gateway/audit.py:32-41 | no minute, wherever it starts, lets more than twice the limit through |
| `DenialBudget.MinuteLimitReached` | gateway/audit.py:28-41 | the double is reached, unlike in the limiters, for every limit from one on |
| `DenialBudget.NoBudgetNoGrant` | gateway/audit.py:38-39 | a limit of zero or less lets nothing through |
| `RedisLimiter.KeyTextInjective` | gateway/rate_limit.py:108-113 | for a fixed prefix, equal key texts mean equal model, budget, caller and epoch, whatever colons the model name holds |
| `RedisLimiter.RedisServer.Eval` | gateway/rate_limit.py:10-21 | the script of server commands has exactly the effect and reply of the one-step script function |
| `RedisLimiter.ReplyIsCount` | gateway/rate_limit.py:12-20 | the count in a reply is what the key holds from then on, the cost more than before if it was granted |
| `RedisLimiter.PunctualTracked` | gateway/rate_limit.py:10-21 | after every punctual run the answers of an id are first come, first served on its own costs, and its key holds their sum with a deadline not before the epoch's end |
| `RedisScripts.OwnScriptsDecide` | gateway/rate_limit.py:10-21 | after any run whatever, the answers of an id and the entry of its key are those of a counter of its own on the times and costs of its own scripts |
| `RedisScripts.LimitKeptIffOneLife` | gateway/rate_limit.py:12-19 | such a counter keeps the limit for all costs at given times if and only if these lie within one life of the entry |
| `RedisExact.NeverOverspentIff` | gateway/rate_limit.py:102-123 | over all runs with any number of replicas: the costs admitted under one model, budget, caller and epoch stay within the limit, whatever they are, if and only if the times of its scripts span less than a window, or exactly one where a key outlives the instant of its deadline |
| `RedisExact.ProjectionAnswersAlike` | gateway/rate_limit.py:108-123 | the answers of an id in any run are those of the run projected to its scripts |
| `RedisScripts.AnswersDependOnOwnScripts` | gateway/rate_limit.py:108-123 | two runs with the same times and costs of an id answer it alike, whatever else is in them and however late anything runs |
| `RedisBounds.EpochNeverOverspent` | gateway/rate_limit.py:10-21 | any number of replicas, any interleaving: if its own scripts run before the epoch ends, the costs admitted under one model, budget, caller and epoch never exceed the limit |
| `RedisBounds.EqualCostsFillTheLimit` | gateway/rate_limit.py:10-21 | within one life of the key, calls of equal cost c are admitted exactly limit div c times, the earliest to run |
| `RedisBounds.RefusedWouldNotFit` | gateway/rate_limit.py:13-14 | within one life of the key, every denied cost would still not fit the final count |
| `RedisBounds.KeyOutlivesItsEpoch` | gateway/rate_limit.py:16-19 | a key exists in its epoch iff something was admitted; its expiry was set exactly once and does not end before the epoch does |
| `RedisBounds.AnswersDependOnOwnCosts` | gateway/rate_limit.py:102-123 | within one life of the key not even times matter: decisions for an id are the same in every run that gives it the same costs |
| `RedisBounds.SameAsMemory` | gateway/rate_limit.py:56-125 | both fresh for a key and within one epoch, the Redis limiter and the in-memory token limiter decide every sequence of costs alike |
| `RedisBounds.IntervalAcrossEpochs` | gateway/rate_limit.py:108-123 | a caller whose own scripts run in the epochs they name is granted at most twice the limit in any window length, across epochs |
| `RedisLate.IntervalWhenLate` | gateway/rate_limit.py:102-123 | scripts up to any number of epochs late: in any window length a caller is granted at most the allowances of the delay + 2 epochs it can have named, the limit for an epoch within one life of its key and 2 * limit - 1 for another; without delay that is twice the limit |
| `RedisBounds.IntervalUnderOneKey` | gateway/rate_limit.py:10-21 | however late scripts run, every key carries an expiry and no window length is granted more than 2 * limit - 1 under one key |
| `RedisBounds.LateScriptOverspends` | gateway/rate_limit.py:108-121 | two replicas, one late script: twice the limit under one epoch |
| `Access.LetInIff` | gateway/identity.py:56-99 | a principal is let in if and only if the credentials are its verified bearer token or, where demo principals are allowed, its own non-empty name in the directory |
| `Access.NamedAndTold` | gateway/identity.py:56-99 | everyone else is told which of these is missing, and method and subject say how and as whom the caller came |
| `Access.AllowedIff` | gateway/policy.py:6-31 | allowed if and only if caller and model are known, they share a role, and a required reason is more than white space; otherwise the reasons name exactly what is missing |
| `Access.QuarterRoundedUp` | gateway/token_budget.py:6-10 | the estimate is a quarter of the stripped length rounded up, and one for white space alone |
| `Gateway.GatewayApp.Infer` | gateway/app.py:161-406 | the one-shot handler on limiters, metrics, sinks and budget leaves them as the pipeline's account says, and answers with the status of what it recorded |
| `GatewayBooks.StatusTells` | gateway/app.py:161-406 | 403 exactly if the credentials stand for nobody the policy allows, 429 if a limiter refuses, else 200, 502 or 500 as the backend answers, fails or breaks |
| `Gateway.GatewayApp.AdmitCompletion` | gateway/app.py:508-651 | admission on the completion route: denied and recorded, or admitted, as in the account |
| `Gateway.GatewayApp.IterCompletionResponse` | gateway/app.py:654-680 | a running stream sends and records what `Streams.StreamTells` says, whichever way it ends |
| `Streams.StreamTells` | gateway/app.py:658-680 | sent are the non-empty chunks before the first failure, or as many as the client waits for; recorded is backend_error with its reason for an HTTP failure or a disconnect, and allowed with the admission's reasons for the end of the body or any other exception |
| `Streams.UpstreamTells` | gateway/app.py:422-505 | a response that cannot be opened is recorded as a failed backend, an abandoned stream not at all, a running one as it ends |
| `Streams.ResponseTells` | gateway/app.py:323-406 | an answered request is recorded as allowed with its latency, a failed one as backend_error, with a latency on the completion route only |
| `Gateway.GatewayApp.Complete` | gateway/app.py:410-505 | the completion route from admission to the end of its response or stream |
| `Gateway.GatewayApp.RecordCompletionEventFields` | gateway/app.py:726-771 | counters always, the sinks unless an unauthenticated denial exceeds the budget |
| `Gateway.GatewayApp.DenialIsRecorded` | gateway/app.py:779-783 | denials of a known principal never ask the budget; a refusal counts as suppressed |
| `GatewayBooks.MetricLabelsConfigured` | gateway/app.py:774-776 | whatever names callers send, every label of a gateway's request, denial and token counters and latency histograms is a configured model or the one name for all others |
| `PipelineRuns.LabelsConfigured` | gateway/app.py:774-776 | the same of the counters and samples of any ledger |
| `Gateway.GatewayApp.constructor` | gateway/app.py:104-111 | a new gateway starts with empty books that balance |
| `PipelineRuns.AdmissionInSteps` | gateway/app.py:161-321 | the steps of one admission, taken with nothing in between, are the admission that the handlers make |
| `PipelineRuns.RequestsConserved` | gateway/app.py:160-771 | over every interleaving of the steps of requests on both routes, the requests received are the ledger entries, those still open, and the steps that ended one with nothing written |
| `PipelineRuns.AllRecordedIffNoneLost` | gateway/app.py:654-680 | once nothing is open, ledger entries equal requests if and only if no step of the run was the death of a handler or a stream abandoned before its start |
| `PipelineRuns.AbandonedStreamUnrecorded` | gateway/app.py:410-505 | a run in which that happens: any request the policy allows and the token limit can hold, charged by both limiters, its stream abandoned, is received and in no entry |
| `GatewayBooks.SinksOfGatewayAgree` | gateway/app.py:726-771 | of the fields a gateway's handlers write: the summed request counter is the audit events and the suppressed ones, with an exporter each event has a span that says the same, without one there is no span, and the summed histogram counts are the latencies observed |
| `PipelineRuns.SinksAgree` | gateway/app.py:726-771 | the same of the counters, events and spans of any ledger |
| `PipelineRuns.RequestCounter` | gateway/metrics.py:52-63 | each request counter is the number of ledger entries with its label and outcome |
| `PipelineRuns.TokenCounter` | gateway/metrics.py:73-75 | each token counter is the sum of the estimates of the entries with its label and outcome |
| `PipelineRuns.DenialCounter` | gateway/metrics.py:52-63 | each denial counter is how often entries with its label that were not allowed give its reason, unspecified where they give none |
| `PipelineRuns.LatenciesObserved` | gateway/app.py:743-744 | the latency histogram of a label observes the allowed entries under it, in seconds |
| `PipelineRuns.OnlyAnonymousSuppressed` | gateway/app.py:779-783 | over any run only denials without a principal are suppressed, each such denial asks the budget once, and as many are kept as it allows |
| `PipelineEntries.EveryRecordTells` | gateway/app.py:161-771 | over every run each record repeats a request received, its model, reason, estimate, limit and caller, and has the one outcome, reasons and latency that fit it; policy_denied exactly if its credentials stand for nobody the policy allows |
| `PipelineEntries.EveryCallIsAskedFor` | gateway/app.py:220-277 | over every run each limiter call is for a caller whom credentials and policy allow, with the cost and limit of that request's model |
| `PipelineEntries.OnlyVerifiedTokens` | gateway/identity.py:78-84 | with demo principals off, every limiter call and every record but policy_denied is for a request with a verified bearer token, under its principal |
| `PipelineEntries.CalledWhenAsked` | gateway/app.py:223-277 | each limiter is called at the readings of the steps that ask it, in order, and each call is timed under its limiter |
| `PipelineEntries.AuthenticationsTell` | gateway/app.py:180-184 | every request is counted once as an authentication, accepted exactly if its credentials stand for somebody |
| `PipelineEntries.EventTells` | gateway/app.py:840-872 | the audit event of a record names the principal, else the claimed name, else unknown, and event and span repeat the rest of it |
| `PipelineSpend.SpendBalanced` | gateway/app.py:224-321 | at every point of any run, charges of the two limiters equal the outcomes past them plus what is open or lost, per principal and model, and no call is invalid |
| `PipelineSpend.SpendEqualsOutcomes` | gateway/app.py:224-321 | with everything recorded, request charges equal the count of token_budget_limited, backend_error and allowed, token charges the estimated tokens of the last two |
| `PipelineSpend.PolicyDenialAsksNoLimiter` | gateway/app.py:186-218 | a request touches neither limiter if and only if the policy denies it |
| `PipelineSpend.ThroughputBound` | gateway/app.py:224-321 | over a run within a time span, what gets past each limiter is bounded by the model's limit per whole window and one more, whatever the routes and overlaps |
| `PipelineRoutes.RoutesAlike` | gateway/app.py:160-651 | two runs that differ in routes and durations alone make the same limiter calls, ask the budget alike and keep the same ledger up to route and latency |
| `PipelineRoutes.SameCounters` | gateway/metrics.py:52-83 | such ledgers give equal counters, equal suppression and as many latency samples under the same labels |
| `PipelineRoutes.SameDecisions` | gateway/app.py:161-771 | one request decides alike on either route from any state |
| `Replay.Decide` | gateway/workload_replay.py:77-100 | one replayed request is decided as the gateway would decide it from the same limiter calls; the second policy_denied branch is dead |
| `Replay.BuildWorkloadReport` | gateway/workload_replay.py:61-109 | the replay loop's report is the report of the ledger a gateway with an always answering backend keeps |
| `Replay.RequestStandsFor` | gateway/workload_replay.py:33-34 | a replayed request is one of the demo principal it names, with a quarter of its characters rounded up as tokens, and a reason if it says so |
| `Replay.EveryRequestTells` | gateway/workload_replay.py:73-110 | the k-th record of a replay is of the k-th request: its model, a token per four characters begun, and where allowed the latency of these at number k |
| `Replay.LatencyTells` | gateway/workload_replay.py:219-227 | the modelled latency: a base per model, 0.018 ms per token up to 34 ms, and a jitter of five steps in turn |
| `ReplayCounters.ReportIsTheCounters` | gateway/workload_replay.py:102-109 | the outcomes of a report are the request counter of the gateway summed over models, and for every configured model its outcomes, tokens and latencies are those of the gateway's own counters and histogram samples |
| `Replay.EitherRoute` | gateway/workload_replay.py:76-109 | each replayed request is recorded once, and the report does not depend on the route |
| `Metrics.GatewayMetrics.RecordRequest` | gateway/metrics.py:52-63 | one request, and one denial per reason unless it was allowed |
| `Metrics.GatewayMetrics.ObserveLatency` | gateway/metrics.py:77-83 | the histogram in place stays that of the list of observations |
| `Metrics.GatewayMetrics.ObserveLimiterLatency` | gateway/metrics.py:85-97 | the same per limiter and backend |
| `Metrics.BucketCounts` | gateway/metrics.py:81-83 | a bucket counts the observations not above its bound, once per time the bound is configured |
| `Metrics.CountAndSum` | gateway/metrics.py:79-80 | count and sum are those of the key's observations |
| `Sorting.SortedSorts` | gateway/metrics.py:37-38 | buckets are stored in order, a rearrangement of those configured |
| `Escaping.EscapeCons` | gateway/metrics.py:308-309 | the three replacement passes are one pass over the characters |
| `Escaping.UnescapeEscape` | bench/run.py:592-593 | what unescape_label makes of any escaped value: a backslash before an n comes back before a newline, all else as it was |
| `Escaping.UnescapeInverts` | bench/run.py:592-593 | unescape_label inverts the escaping of a value if and only if it has no backslash before an n |
| `Labels.ParseLabels` | gateway/telemetry_snapshot.py:61-98 | the nested index loops compute the recursive reading, errors included, and end on every text |
| `Labels.NextLabel` | gateway/telemetry_snapshot.py:65-96 | the inner loops read one label or give the error of its first defect |
| `Labels.LabelRoundTrip` | gateway/telemetry_snapshot.py:61-98 | parse_labels recovers every printed label map, for arbitrary values and any order of labels |
| `Labels.LabelsComeBackIff` | gateway/telemetry_snapshot.py:71-75 | a printed map comes back if and only if its keys are not empty, hold neither separator and have no space at their ends |
| `LabelTexts.ValueReads` | gateway/telemetry_snapshot.py:76-92 | any text behind an opening quote, printed by the gateway or not: characters and escapes up to the closing quote give the value, an escaped n, r or t its control character; without a quote, or behind a last backslash, it is an error of its own kind |
| `LabelTexts.TakeApart` | gateway/telemetry_snapshot.py:76-92 | every text is one of these |
| `LabelTexts.LabelReads` | gateway/telemetry_snapshot.py:65-75 | any text where a label is expected: spaces and commas, a key, then its quoted value, or the error of the first thing amiss |
| `LabelTexts.TextStarts` | gateway/telemetry_snapshot.py:65-70 | every text starts in this way |
| `LabelTexts.LabelsRead` | gateway/telemetry_snapshot.py:93-98 | behind a label the text ends, goes on behind a comma, or is an error |
| `Numbers.NumberReadsBack` | gateway/metrics.py:316-319 | a printed number reads back as the value rounded to millionths |
| `Numbers.RoundedClose` | gateway/metrics.py:319-319 | that rounding is off by at most half a millionth, and by nothing iff the value is a whole number of millionths |
| `Numbers.TieGoesToEven` | gateway/metrics.py:319-319 | of two nearest millionths the even one is printed |
| `NumberTexts.NumberReads` | gateway/telemetry_snapshot.py:17-17 | any text of digits, point, fraction and power of ten, with or without sign, is the number it spells |
| `NumberTexts.FiniteIff` | gateway/telemetry_snapshot.py:17-17 | no other text is a finite number, and exactly four spell an infinity or a missing number |
| `Exposition.ParsePrometheus` | gateway/telemetry_snapshot.py:38-58 | the line loop computes the reading of all lines, with the number of the first bad one |
| `LineTexts.MatchTells` | gateway/telemetry_snapshot.py:15-19 | what the sample patterns take of any line: the longest name, and either a tail at once or the labels up to the last closing brace that a tail follows |
| `LineTexts.TailTells` | gateway/telemetry_snapshot.py:16-18 | a sample line ends in space and a number, and perhaps space and a timestamp of digits |
| `LineTexts.FiniteTailTells` | bench/run.py:29-29 | a line of the benchmark ends in space and a finite number |
| `LineTexts.NameCharacters` | gateway/telemetry_snapshot.py:16-16 | which characters a name is made of, by code point |
| `LineTexts.KeyCharacters` | bench/run.py:31-31 | which characters a label key of the benchmark is made of |
| `Documents.PrintedMatches` | gateway/telemetry_snapshot.py:15-19 | the sample pattern takes a printed line apart into what it was printed from, braces in values included |
| `Documents.DocumentReads` | gateway/telemetry_snapshot.py:38-58 | a whole clean metrics text reads back as exactly the samples of its allowed metrics |
| `Documents.DocumentReadsIffClean` | gateway/telemetry_snapshot.py:41-58 | a text of allowed metrics is read if and only if no label value holds a line break other than the newline; else it is refused |
| `MixedTexts.TextReadIff` | gateway/telemetry_snapshot.py:38-58 | any metrics text, other metrics included, is read if and only if the label values of its allowed lines are clean and each piece of its other lines is read, and gives the samples of both in order |
| `MixedTexts.TextReadIffClean` | gateway/telemetry_snapshot.py:41-58 | where other metrics hold no closing brace in a label value, a text is read if and only if every line is clean |
| `Documents.BrokenLineRefused` | gateway/telemetry_snapshot.py:45-57 | a line broken inside a value gives an error at its first piece |
| `Snapshot.BuildTally` | gateway/telemetry_snapshot.py:109-142 | the aggregation loop computes the tally of the text, with its three ways to fail |
| `Snapshot.AsInt` | gateway/telemetry_snapshot.py:203-206 | a sample gives the count k if and only if it is the number k and k is not negative; so nothing that is infinite, negative or not whole is a count |
| `Snapshot.TakenOrPassedOver` | gateway/telemetry_snapshot.py:116-142 | a sample without the labels its metric needs is passed over whatever its value; a complete one fails exactly for a bound that is no number or a value that is no count |
| `Snapshot.LatencySummary` | gateway/telemetry_snapshot.py:209-225 | the search through the sorted buckets finds the first that holds the target |
| `Snapshot.SummaryTells` | gateway/telemetry_snapshot.py:209-225 | in whatever order the buckets come: count, mean in milliseconds, and as p95 the least bound that holds 95 in a hundred, rounded up |
| `Telemetry.LatencySamples` | gateway/metrics.py:226-258 | the sample builder's loops list buckets, +Inf, count and sum of every model |
| `Telemetry.LatencyLinesTaken` | gateway/telemetry_snapshot.py:130-142 | the latency lines of distinct models, read back, give each model its own histogram |
| `SnapshotTrips.TextTallied` | gateway/telemetry_snapshot.py:109-142 | the text of any counters and histograms is tallied to exactly these |
| `SnapshotTrips.SearchFindsLeast` | gateway/telemetry_snapshot.py:214-220 | the search finds the least bound that holds at least ceil(0.95 n) values, or none if even the largest holds fewer |
| `SnapshotTrips.ObservationsToSnapshot` | gateway/telemetry_snapshot.py:109-225 | for every sequence of observations: print, read, tally and summarise, and each observed model has its count, its mean up to the printed sum's rounding, and as p95 the least bucket that covers; no other model appears |
| `SnapshotTrips.SummariesRightIffDistinct` | gateway/metrics.py:81-83 | all summaries of all runs are right if and only if no bucket is configured twice |
| `SnapshotTrips.DefaultBucketsFit` | gateway/metrics.py:11-11 | the default buckets meet what the results ask of buckets and their labels |
| `SnapshotTotals.SnapshotCountsTheLedger` | gateway/telemetry_snapshot.py:119-151 | read from the metrics text, the snapshot's total is the length of the gateway's ledger, and its counts and tokens by outcome are those of the entries |
| `GatewayBooks.SnapshotOfGateway` | gateway/telemetry_snapshot.py:109-225 | the snapshot of a gateway's own text totals its audit events and suppressed ones, has each outcome's requests and tokens, and summarises each model's observed latencies |
| `LimiterDelta.Grouped` | bench/run.py:602-619 | the grouping loop computes the groups of differences |
| `LimiterDelta.RoundsToNearest` | bench/run.py:614-614 | a count is the whole number nearest to the difference, of two the even one |
| `LimiterDelta.SeriesTells` | bench/run.py:603-619 | a series is about a limiter and a backend exactly if it is one of the limiter metrics with both labels not empty, and its ending says what it is |
| `LimiterDelta.HistogramBound` | bench/run.py:635-647 | the least finite bucket whose value reaches ceil(p n / 100), None if there is none or n < 1 |
| `LimiterDelta.LimiterLatencyDelta` | bench/run.py:596-632 | None without two scrapes; else a row per limiter, made from the group of its last backend in sorted order |
| `LimiterDelta.RowsCompleteIff` | bench/run.py:621-625 | every group has its row if and only if no limiter has two backends |
| `LimiterScrapes.FirstBackendLosesItsRow` | bench/run.py:621-625 | two scrapes of one limiter with two backends: both have a group, and the one row is that of the backend sorted last |
| `LimiterDelta.RowAscends` | bench/run.py:629-631 | p50 <= p95 <= p99, with None as top, for any buckets whatever |
| `LimiterScrapes.LimiterLatencySamples` | gateway/metrics.py:260-293 | the limiter sample builder's loops list every key's buckets, +Inf, count and sum |
| `LimiterScrapes.DeltaIsBetween` | bench/run.py:602-619 | subtracting two scrapes gives exactly the histogram of the observations between them, new series counting from zero, and their sum up to the printed sums' rounding |
| `LimiterScrapes.RowCountsWhatHappened` | bench/run.py:596-647 | a row counts the observations in between, its mean times their number is their sum up to the rounding of two printed sums, and its three bounds are the least buckets that cover them |
| `BenchText.ParseScrape` | bench/run.py:572-589 | the benchmark's line loop computes the scrape of a text, passing over what does not match |
| `Ordering.SortedAlikeIff` | bench/run.py:582-588 | samples are kept under one key exactly when their label pairs are the same, repeats included |
| `BenchText.LabelsFound` | bench/run.py:582-587 | scanning with the label pattern finds all printed labels, values as unescape_label leaves them |
| `LineTexts.LabelTells` | bench/run.py:31-31 | a label the pattern finds in any text is a key, a sign and a quoted value with its escapes taken back, up to the first quote that no backslash goes before, or the last of all |
| `LineTexts.ValueEnds` | bench/run.py:31-31 | where that first quote is: behind any characters and pairs of a backslash and what it escapes |
| `LineTexts.LastQuoteTells` | bench/run.py:31-31 | and the last |
| `BenchText.TextScraped` | bench/run.py:572-593 | the scrape of any clean metrics text, a backslash before an n included |
| `BenchText.CleanTextScraped` | bench/run.py:572-593 | without a backslash before an n the scrape is exact |
| `BenchTrips.FetchScraped` | bench/run.py:572-593 | a metrics text of any observations whose names are plain is scraped to every key's histogram |
| `BenchTrips.TextsToRows` | bench/run.py:572-647 | two metrics texts fetched around some observations are parsed and subtracted without fail, and there is a row for every limiter observed, which counts, averages and bounds exactly what its last backend took in between |
| `Pooling.ConservativeMaxBound` | bench/analyze.py:886-890 | None if no row was observed or an observed one has no bound, else the greatest bound |
| `Pooling.CombineLimiterLatency` | bench/analyze.py:862-883 | one pooled row per limiter over all its rows, None if there are no rows at all |
| `Pooling.PooledNeverUnderstates` | bench/analyze.py:886-890 | the pooled bound covers ceil(p n / 100) of all observations; it is None iff nothing was observed or an observed condition lacks a bound |
| `Pooling.PooledMeanIsMean` | bench/analyze.py:871-878 | the weighted mean is the mean of the pooled observations, up to the slack of the rows' own means |
| `Pooling.ExactMeansPoolExactly` | bench/analyze.py:871-878 | rows with exact means pool to the exact mean |
| `BenchTrips.RightRowsPool` | bench/analyze.py:862-890 | such rows of any number of conditions pool rightly: the pool counts all their observations, its mean times their number is their sum to a thousandth of a millisecond per condition, and each pooled bound covers its percentage of them all |
| `Percentile.PermutationInvariant` | bench/analyze.py:36-36 | the order of the samples does not matter |
| `Percentile.WithinSamples` | bench/analyze.py:41-45 | a percentile lies between some sample and some sample |
| `Percentile.AtRanks` | bench/analyze.py:41-45 | at percentage 100 k / (n - 1) it is a sample with k others not above it and the further ones not below it |
| `Percentile.Interpolated` | bench/analyze.py:41-45 | between the percentages of neighbouring ranks it is interpolated: every convex combination of two percentages gives that combination of their percentiles |
| `Percentile.Extremes` | bench/analyze.py:41-45 | 0 gives the least sample and 100 the greatest |
| `Percentile.MonotoneInPercent` | bench/analyze.py:41-45 | a higher percentage never gives a lower percentile, across ranks too |
| `Percentile.ShiftEquivariant` | bench/analyze.py:35-45 | shifting every sample by d shifts the percentile by exactly d |
| `Schedule.BuildSchedule` | bench/run.py:140-170 | the nested loops build the schedule |
| `Schedule.AddPair` | bench/run.py:145-169 | one condition is appended on both paths, in the order of its parity |
| `Schedule.WholeSchedule` | bench/run.py:142-169 | 2*R*W*C entries, the pair of (r, w, c) at 2*((r*W + w)*C + c) |
| `Schedule.ConditionTells` | bench/run.py:142-169 | at its place each condition has its repetition, workload, concurrency and seed, direct first for an even sum of indices, and as many requests as the greater of its two minimums |
| `Schedule.NoRepetitions` | bench/run.py:142-142 | without repetitions the schedule is empty |
| `Schedule.ScheduleIsPaired` | bench/run.py:159-169 | the schedule is made of adjacent direct/gateway pairs alike in everything else |
| `Schedule.Balanced` | bench/run.py:145-147 | direct-first and gateway-first counts over R repetitions differ by exactly R mod 2, in favour of the path first in repetition 0 |
| `Schedule.SeedsDistinctIff` | bench/run.py:148-148 | seeds tell repetition and workload apart if and only if there are at most 1000 workloads or at most one repetition |
| `LoadPool.Drive.ConnectionOpened` | bench/overhead.py:179-185 | a worker's first turn, or its end on a refused connection |
| `LoadPool.Drive.HeadersRead` | bench/overhead.py:186-189 | a reply other than 200 counts one failure and ends its worker |
| `LoadPool.Drive.BodyRead` | bench/overhead.py:190-191 | a finished reply adds its latency and takes the next turn |
| `LoadPool.LatencyIsElapsed` | bench/overhead.py:183-191 | over every interleaving the j-th latency is that of the j-th finished reply: the time since its worker last sent a request, when its connection opened or its previous reply ended |
| `LoadPool.LatenciesNumber` | bench/overhead.py:191-191 | there are as many latencies as finished replies |
| `LoadPool.LatenciesNotNegative` | bench/overhead.py:183-191 | on a clock that never goes back no latency is negative |
| `LoadPool.EveryRequestAccounted` | bench/overhead.py:169-197 | at every step of every interleaving remaining + in flight + completed + failed + broken off = total, the counter is not negative, in flight is at most concurrency, and runs are of bounded length |
| `LoadPool.OverIffNothingEnabled` | bench/overhead.py:181-196 | a pool is stuck only when all its workers have ended |
| `LoadPool.LatenciesWhenOver` | bench/overhead.py:177-197 | an ended pool has exactly `total` latencies if and only if no reply was rejected or broke off and, if there was anything to send, some connection opened |
| `LoadPool.CountedIffNoneBroke` | bench/overhead.py:181-193 | at every step the program's own counts fall short of the total by exactly the replies that broke off, so they add up if and only if there was none |
| `LoadPool.BrokenReplyUncounted` | bench/overhead.py:186-190 | one reply that breaks off, and a request is in none of the counts |
| `SpanGroups.BuildOtlpTracesPayload` | gateway/trace_exporter.py:286-317 | one group per key in order of first appearance, each with the resource and scope of its first record and exactly its spans in input order |
| `SpanGroups.Dictionary.Add` | gateway/trace_exporter.py:290-315 | one pass of the loop on the dictionary of span lists, in place |
| `SpanGroups.PayloadConserves` | gateway/trace_exporter.py:289-317 | every record is in the payload exactly once, keys are distinct, no group is empty |
| `SpanGroups.InOrderOfAppearance` | gateway/trace_exporter.py:296-317 | groups stand in the order in which their first records came |
| `SpanGroups.NoPairTwice` | gateway/trace_exporter.py:293-296 | whatever the dumped texts are, no two groups have one resource and scope |
| `SpanGroups.EveryPairHasItsGroupIff` | gateway/trace_exporter.py:293-309 | every resource and scope in the records has its group if and only if the dumped texts tell those of the records apart |
| `SpanGroups.OneGroupPerPair` | gateway/trace_exporter.py:293-315 | then each pair in the records has exactly one group, no other pair has one, and a group holds exactly the spans of its pair in input order |

## Left out
- The endpoints health, models and metrics: the model list counts its authentications as the two modelled routes do, and asks no limiter.
- HTTP, request validation, environment parsing, file writes and the backend call: the backend is an input that answers, fails or disconnects, and the sinks are sequences.
- JWT verification: its outcome, a principal or a failure reason, is an input. Issuer, audience and scopes of a principal are not part of this model.
- SHA-256: a function that keeps the callers in use apart and yields no colon.
- Locks and threads: each call to an in-memory limiter, to the metrics or to the denial budget is taken whole, and so is the writing of one record. Interleaving is modelled between the limiter calls and records of overlapping requests, for the Redis script, and for the load workers.
- Redis beyond GET, INCRBY, PEXPIRE and expiry; whether a key is gone at the very instant of its deadline is left open, and the results hold either way.
- A failing Redis server or an invalid reply, whose exception leaves the handler before the request is recorded.
- Gateway.GatewayApp.Infer: handles a request with nothing in between, where `PipelineRuns` interleaves its steps with others; uses the in-memory limiters; the Redis limiters are related to these by `RedisBounds.SameAsMemory` and are not plugged into the handlers.
- Gateway.GatewayApp.Complete: drains its stream at once; streams that end later, with other requests in between, are the runs of `PipelineRuns`.
- Trace ids, span ids and nanosecond timestamps of audit events and spans, response headers, and the ValueError of a non-positive limit inside a handler, which the registry rules out.
- Replay.BuildWorkloadReport: requires the limits of the registry to be positive and no principal to have an empty name; release gates and percentiles of the report are not part of this model.
- The order in which Python's sorted() lists models, label keys and cells in the printed text: results hold for every order in which each is listed once. The order of groups in `LimiterDelta` is modelled.
- Floating point: sums, means and bounds are exact, display rounding is left out, counters are not limited to 2^53, and `:g` is any text that reads back as the bound.
- Exposition.ParsePrometheus: digits in patterns are the ASCII digits, and float() of a bucket label accepts the number syntax of sample lines.
- Snapshot.LatencySummary: bounds that are not a number sort in one fixed way, where Python's order depends on the list.
- LimiterDelta.HistogramBound: bucket labels that spell an infinity otherwise than +Inf, or a missing number, are excluded; the gateway prints none.
- LoadPool.EveryRequestAccounted: the exception by which a failed worker ends the whole measurement is not part of this model; the other workers go on as asyncio lets them.
- SpanGroups.BuildOtlpTracesPayload: rendering of a span and of attributes to OTLP values, and sanitize_attributes, which filters one map.
- capacity_plan.py, deployment_readiness.py, resilience_drill.py, distributed_limiter.py, report and headline assembly, plots: threshold checks and formatting that one reading settles.
