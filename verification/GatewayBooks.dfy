/** What a gateway object has written, counter by counter and sink by sink, agrees. */
module GatewayBooks {
  import opened Prelude
  import opened Metrics
  import opened Pipeline
  import opened Access
  import opened PipelineRuns
  import opened PipelineEntries
  import opened Gateway
  import opened Snapshot
  import opened SnapshotTotals
  import opened SnapshotTrips
  import Documents
  import Sorting

  /** The fields a gateway's handlers update tell the same: the summed request counter is
      the number of audit events and suppressed ones; with an exporter there is a span for
      each event and it says the same, without one there is none; the summed histogram
      counts are the latencies observed. */
  lemma SinksOfGatewayAgree(app: GatewayApp)
    requires app.Valid()
    ensures SumOver(app.metrics.requests) == |app.ledger| == |app.auditLog| + app.metrics.auditSuppressed
    ensures |app.spans| == (if app.cfg.exporting then |app.auditLog| else 0)
    ensures app.cfg.exporting ==> forall i :: 0 <= i < |app.auditLog| ==> TellTheSame(app.auditLog[i], app.spans[i])
    ensures SumOver(app.metrics.latency.count) == |app.metrics.latencies|
    ensures SumOver(app.metrics.authEvents) == |app.auth|
  {
    SinksAgree(app.cfg, app.ledger);
    CountsOf(app.metrics.latencyBuckets, app.metrics.latencies);
    AuthsCounted(app.auth);
  }

  lemma {:induction false} CountsOf(bounds: seq<real>, obs: seq<(string, real)>)
    ensures SumOver(HistogramOf(bounds, obs).count) == |obs|
  {
    if obs != [] {
      var n := |obs| - 1;
      CountsOf(bounds, obs[..n]);
      SumBump(HistogramOf(bounds, obs[..n]).count, obs[n].0, 1);
    }
  }

  lemma {:induction false} AuthsCounted(auth: seq<(string, string)>)
    ensures SumOver(AuthsIn(auth)) == |auth|
  {
    if auth != [] {
      AuthsCounted(auth[..|auth| - 1]);
      SumBump(AuthsIn(auth[..|auth| - 1]), auth[|auth| - 1], 1);
    }
  }

  /** No metric of a gateway has a label that a caller made up. */
  lemma MetricLabelsConfigured(app: GatewayApp)
    requires app.Valid()
    ensures forall k <- app.metrics.requests :: Configured(app.cfg, k.0)
    ensures forall k <- app.metrics.denials :: Configured(app.cfg, k.0)
    ensures forall k <- app.metrics.inputTokens :: Configured(app.cfg, k.0)
    ensures forall name <- app.metrics.latency.count :: Configured(app.cfg, name)
    ensures forall k <- app.metrics.latency.buckets :: Configured(app.cfg, k.0)
  {
    LabelsConfigured(app.cfg, app.ledger);
    HistogramKeys(app.metrics.latencyBuckets, app.metrics.latencies);
  }

  lemma {:induction false} HistogramKeys(bounds: seq<real>, obs: seq<(string, real)>)
    ensures forall name <- HistogramOf(bounds, obs).count :: exists sample <- obs :: sample.0 == name
    ensures forall k <- HistogramOf(bounds, obs).buckets :: exists sample <- obs :: sample.0 == k.0
  {
    if obs != [] {
      var n := |obs| - 1;
      HistogramKeys(bounds, obs[..n]);
      assert obs == obs[..n] + [obs[n]];
      BucketKeys(bounds, HistogramOf(bounds, obs[..n]).buckets, obs[n].0, obs[n].1);
    }
  }

  lemma {:induction false} BucketKeys(bounds: seq<real>, buckets: map<(string, real), int>, name: string, x: real)
    ensures forall k <- BumpBuckets(bounds, buckets, name, x) :: k in buckets || k.0 == name
  {
    if bounds != [] {
      BucketKeys(bounds[..|bounds| - 1], buckets, name, x);
    }
  }

  /** The cells and models printed are those of the gateway's counters, each once. */
  ghost predicate Prints(app: GatewayApp, s: Sections, le: real -> string)
    reads app.metrics
  {
    && ListsCells(s.requests, app.metrics.requests) && ListsCells(s.tokens, app.metrics.inputTokens)
    && Sorting.Ascending(app.metrics.latencyBuckets) && Listed(s, app.metrics.latencyBuckets, le, app.metrics.latencies)
  }

  /** The snapshot read from the metrics text of a gateway: its total is the audit events
      and the suppressed ones, each outcome has its requests and their tokens, and each
      model its latencies. */
  lemma SnapshotOfGateway(app: GatewayApp, s: Sections, le: real -> string, outcome: string, model: string)
    requires app.Valid() && Prints(app, s, le)
    ensures var r := TallyOf(Documents.PrintDoc(DocOf(s, app.metrics.latencyBuckets, le, app.metrics.latency)));
            && r.Ok?
            && SumOver(r.value.requests) == |app.auditLog| + app.metrics.auditSuppressed
            && Count(r.value.requests, outcome) == OverLedger(app.ledger, Ended(outcome))
            && Count(r.value.tokens, outcome) == OverLedger(app.ledger, EndedTokens(outcome))
            && (model in r.value.latency <==> ValuesOf(app.metrics.latencies, model) != [])
            && (model in r.value.latency ==> Faithful(app.metrics.latencyBuckets, ValuesOf(app.metrics.latencies, model), SummaryOf(r.value.latency[model])))
  {
    hide TallyOf, DocOf, Listed, Printable, ListsCells, Faithful, SummaryOf, HistogramOf;
    var bounds, obs := app.metrics.latencyBuckets, app.metrics.latencies;
    SinksOfGatewayAgree(app);
    ObservationsPrintable(s, bounds, le, obs);
    SnapshotCountsTheLedger(app.cfg, app.ledger, s, bounds, le, app.metrics.latency, outcome);
    ObservationsToSnapshot(s, bounds, le, obs, model);
  }

  /** The status of the one-shot route: 403 if the policy allows nobody with these
      credentials the model, 429 if a limiter refuses, and then as the backend ends. */
  lemma StatusTells(cfg: Setup, s: State, r: Pipeline.Request, t: Timing, backend: Exit)
    requires backend.Done? || backend.Down? || backend.Silent?
    ensures var status := ResponseStatus(|s.ledger|, Handle(cfg, s, Pipeline.Infer, r, t, backend).ledger);
            if forall p :: !Admissible(cfg, r, p) then status == 403
            else
              var i := IntakeOf(cfg, r);
              var ask, charge := RateCall(i.who.principal.value, r.model, i.policy.value, t.rateNow), TokenCall(i.who.principal.value, r.model, i.policy.value, i.tokens, t.tokenNow);
              if !RateVerdict(cfg, s.rate, ask) || !TokenVerdict(cfg, s.tokens, charge) then status == 429
              else status == (match backend case Done(_) => 200 case Down(_) => 502 case _ => 500)
  {
    AdmissibleIff(cfg, r);
    hide Admissible, IntakeOf, RateVerdict, TokenVerdict, RateCall, TokenCall, Suppress, WithAuthFailure;
  }
}
