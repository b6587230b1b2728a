/** A replay's report and the counters of the gateway it stands for. */
module ReplayCounters {
  import opened Prelude
  import opened Metrics
  import opened Pipeline
  import opened PipelineRuns
  import opened SnapshotTotals
  import opened Replay

  /** The entries of a counter under one model. */
  function OfModel(counter: map<(string, string), int>, model: string): map<(string, string), int>
  {
    map k | k in counter && k.0 == model :: counter[k]
  }

  function ModelOutcome(r: Report, model: string, outcome: string): int
  {
    if model in r.modelOutcomes then Count(r.modelOutcomes[model], outcome) else 0
  }

  function ModelSamples(r: Report, model: string): seq<real>
  {
    if model in r.modelLatencies then r.modelLatencies[model] else []
  }

  /** The gateway keeps seconds where the report keeps milliseconds. */
  function Seconds(ms: seq<real>): (s: seq<real>)
    ensures |s| == |ms|
  {
    seq(|ms|, i requires 0 <= i < |ms| => ms[i] / 1000.0)
  }

  lemma OfModelBump(counter: map<(string, string), int>, k: (string, string), amount: int, model: string)
    ensures OfModel(Bump(counter, k, amount), model)
            == if k.0 == model then Bump(OfModel(counter, model), k, amount) else OfModel(counter, model)
  {
  }

  lemma OneMore(r: Report, e: Entry, model: string, outcome: string)
    ensures var r' := AddEntry(r, e.model, e.outcome, e.tokens, e.latency);
            && Count(r'.outcomes, outcome) == Count(r.outcomes, outcome) + (if e.outcome == outcome then 1 else 0)
            && ModelOutcome(r', model, outcome) == ModelOutcome(r, model, outcome) + (if e.model == model && e.outcome == outcome then 1 else 0)
            && Count(r'.modelTokens, model) == Count(r.modelTokens, model) + (if e.model == model then e.tokens else 0)
            && ModelSamples(r', model) == ModelSamples(r, model) + (if e.model == model then SamplesOf(e) else [])
            && r'.latencies == r.latencies + SamplesOf(e)
  {
  }

  /** What a report counts of a ledger is what the gateway's metrics count of it: summed over
      models the requests of each outcome, and for a configured model its requests of each
      outcome, its tokens, and its latencies in seconds. */
  lemma {:induction false} ReportIsTheCounters(cfg: Setup, ledger: seq<Entry>, model: string, outcome: string)
    requires model in cfg.policies && model != "unknown"
    ensures var r := ReportOf(ledger);
            && Count(r.outcomes, outcome) == SumOver(Under(RequestsIn(cfg, ledger), outcome))
            && ModelOutcome(r, model, outcome) == Count(RequestsIn(cfg, ledger), (model, outcome))
            && Count(r.modelTokens, model) == SumOver(OfModel(TokensIn(cfg, ledger), model))
            && Seconds(ModelSamples(r, model)) == ValuesOf(LatenciesIn(cfg, ledger), model)
  {
    if ledger == [] {
      assert Under(map[], outcome) == map[] && OfModel(map[], model) == map[];
    } else {
      var n := |ledger| - 1;
      var front, e := ledger[..n], ledger[n];
      var k := (LabelOf(cfg, e.model), e.outcome);
      ReportIsTheCounters(cfg, front, model, outcome);
      OneMore(ReportOf(front), e, model, outcome);
      UnderBump(RequestsIn(cfg, front), k, 1, outcome);
      SumBump(Under(RequestsIn(cfg, front), outcome), k, 1);
      OfModelBump(TokensIn(cfg, front), k, e.tokens, model);
      SumBump(OfModel(TokensIn(cfg, front), model), k, e.tokens);
      SampleTaken(cfg, LatenciesIn(cfg, front), ModelSamples(ReportOf(front), model), e, model);
      hide AddEntry, SumOver, Under, OfModel, ValuesOf, Seconds, ModelSamples, ModelOutcome, LatencySample;
    }
  }

  function SamplesOf(e: Entry): seq<real>
  {
    if e.outcome == "allowed" && e.latency.Some? then [e.latency.value] else []
  }

  lemma SampleTaken(cfg: Setup, taken: seq<(string, real)>, samples: seq<real>, e: Entry, model: string)
    requires model in cfg.policies && model != "unknown"
    requires Seconds(samples) == ValuesOf(taken, model)
    ensures Seconds(samples + (if e.model == model then SamplesOf(e) else [])) == ValuesOf(taken + LatencySample(cfg, e), model)
  {
    var all := taken + LatencySample(cfg, e);
    if SamplesOf(e) == [] {
      assert all == taken && samples + [] == samples;
    } else {
      assert all[..|all| - 1] == taken;
      assert Seconds(samples + SamplesOf(e)) == Seconds(samples) + [e.latency.value / 1000.0];
      assert samples + [] == samples;
    }
  }
}
