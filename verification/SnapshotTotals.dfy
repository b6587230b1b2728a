/** The totals of the snapshot are those of the gateway's ledger. */
module SnapshotTotals {
  import opened Prelude
  import opened Metrics
  import opened Pipeline
  import opened PipelineRuns
  import opened Snapshot
  import opened SnapshotTrips
  import Documents

  /** The cells are the entries of a counter, each once. */
  ghost predicate ListsCells(cells: seq<Cell>, counter: map<(string, string), int>)
  {
    && (forall i :: 0 <= i < |cells| ==> (cells[i].model, cells[i].outcome) in counter && cells[i].count == counter[(cells[i].model, cells[i].outcome)])
    && (forall i, j :: 0 <= i < j < |cells| ==> (cells[i].model, cells[i].outcome) != (cells[j].model, cells[j].outcome))
    && (forall k <- counter :: exists i :: 0 <= i < |cells| && (cells[i].model, cells[i].outcome) == k)
  }

  lemma ListsFront(cells: seq<Cell>, counter: map<(string, string), int>)
    requires cells != [] && ListsCells(cells, counter)
    ensures var c := cells[|cells| - 1];
            ListsCells(cells[..|cells| - 1], counter - {(c.model, c.outcome)})
  {
    var front, c := cells[..|cells| - 1], cells[|cells| - 1];
    var rest := counter - {(c.model, c.outcome)};
    forall k | k in rest
      ensures exists i :: 0 <= i < |front| && (front[i].model, front[i].outcome) == k
    {
      var i :| 0 <= i < |cells| && (cells[i].model, cells[i].outcome) == k;
      assert front[i] == cells[i];
    }
  }

  /** The entries of a counter under one outcome. */
  function Under(counter: map<(string, string), int>, outcome: string): map<(string, string), int>
  {
    map k | k in counter && k.1 == outcome :: counter[k]
  }

  lemma WithoutOne(counter: map<(string, string), int>, k: (string, string), outcome: string)
    requires k in counter
    ensures SumOver(counter) == SumOver(counter - {k}) + counter[k]
    ensures SumOver(Under(counter, outcome)) == SumOver(Under(counter - {k}, outcome)) + (if k.1 == outcome then counter[k] else 0)
  {
    SumRemove(counter, k);
    if k.1 == outcome {
      SumRemove(Under(counter, outcome), k);
      assert Under(counter, outcome) - {k} == Under(counter - {k}, outcome);
    } else {
      assert Under(counter, outcome) == Under(counter - {k}, outcome);
    }
  }

  /** The summed sections of the text are the sums over the counter. */
  lemma {:induction false} SumsOfCells(cells: seq<Cell>, counter: map<(string, string), int>, outcome: string)
    requires ListsCells(cells, counter)
    ensures SumOver(OutcomeSums(map[], cells)) == SumOver(counter)
    ensures Count(OutcomeSums(map[], cells), outcome) == SumOver(Under(counter, outcome))
    decreases cells
  {
    hide SumOver;
    hide Under;
    if cells == [] {
      assert counter == map[];
      NothingUnder(outcome);
    } else {
      var front, c := cells[..|cells| - 1], cells[|cells| - 1];
      var k := (c.model, c.outcome);
      ListsFront(cells, counter);
      WithoutOne(counter, k, outcome);
      hide ListsCells;
      SumsOfCells(front, counter - {k}, outcome);
      SumBump(OutcomeSums(map[], front), c.outcome, c.count);
    }
  }

  lemma NothingUnder(outcome: string)
    ensures Under(map[], outcome) == map[] && SumOver<string>(map[]) == 0 && SumOver<(string, string)>(map[]) == 0
  {
  }

  lemma UnderBump(counter: map<(string, string), int>, k: (string, string), amount: int, outcome: string)
    ensures Under(Bump(counter, k, amount), outcome)
            == if k.1 == outcome then Bump(Under(counter, outcome), k, amount) else Under(counter, outcome)
  {
  }

  function Ended(outcome: string): Entry -> int
  {
    (e: Entry) => if e.outcome == outcome then 1 else 0
  }

  function EndedTokens(outcome: string): Entry -> int
  {
    (e: Entry) => if e.outcome == outcome then e.tokens else 0
  }

  lemma {:induction false} CountersUnder(cfg: Setup, ledger: seq<Entry>, outcome: string)
    ensures SumOver(Under(RequestsIn(cfg, ledger), outcome)) == OverLedger(ledger, Ended(outcome))
    ensures SumOver(Under(TokensIn(cfg, ledger), outcome)) == OverLedger(ledger, EndedTokens(outcome))
  {
    if ledger == [] {
      assert Under(map[], outcome) == map[];
    } else {
      var front, e := ledger[..|ledger| - 1], ledger[|ledger| - 1];
      var k := (LabelOf(cfg, e.model), e.outcome);
      CountersUnder(cfg, front, outcome);
      UnderBump(RequestsIn(cfg, front), k, 1, outcome);
      UnderBump(TokensIn(cfg, front), k, e.tokens, outcome);
      SumBump(Under(RequestsIn(cfg, front), outcome), k, 1);
      SumBump(Under(TokensIn(cfg, front), outcome), k, e.tokens);
    }
  }

  /** Read from the metrics text of a gateway, the snapshot counts every recorded request:
      the total is the length of the ledger, and under each outcome stand the number of its
      entries and the sum of their estimated tokens. */
  lemma SnapshotCountsTheLedger(cfg: Setup, ledger: seq<Entry>, s: Sections, bounds: seq<real>, le: real -> string, h: Histogram<string>, outcome: string)
    requires Printable(s, bounds, le, h)
    requires ListsCells(s.requests, RequestsIn(cfg, ledger)) && ListsCells(s.tokens, TokensIn(cfg, ledger))
    ensures var r := TallyOf(Documents.PrintDoc(DocOf(s, bounds, le, h)));
            && r.Ok?
            && SumOver(r.value.requests) == |ledger|
            && Count(r.value.requests, outcome) == OverLedger(ledger, Ended(outcome))
            && Count(r.value.tokens, outcome) == OverLedger(ledger, EndedTokens(outcome))
  {
    hide TallyOf;
    hide Printable;
    hide ListsCells;
    hide DocOf;
    TextTallied(s, bounds, le, h);
    SumsOfCells(s.requests, RequestsIn(cfg, ledger), outcome);
    SumsOfCells(s.tokens, TokensIn(cfg, ledger), outcome);
    CountersUnder(cfg, ledger, outcome);
    SinksAgree(cfg, ledger);
  }
}
