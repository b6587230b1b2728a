/** The metrics text: printed by gateway/metrics.py line by line, read by parse_prometheus
    of gateway/telemetry_snapshot.py. */
module Exposition {
  import opened Prelude
  import opened Labels
  import opened Numbers
  import Decimal
  import Text

  const REQUESTS := "security_gateway_requests_total"
  const TOKENS := "security_gateway_input_tokens_total"
  const LATENCY := "security_gateway_inference_latency"
  const BUCKET := LATENCY + "_seconds_bucket"
  const COUNT := LATENCY + "_seconds_count"
  const SUM := LATENCY + "_seconds_sum"

  const ALLOWED_METRICS: set<string> := {REQUESTS, TOKENS, BUCKET, COUNT, SUM}

  datatype Sample = Sample(name: string, labels: LabelMap, value: Number)

  datatype Failure = BadSample(line: nat) | BadLabel(why: LabelError)

  // --------------------------------------------------------- lines of a text

  /** The characters str.splitlines breaks at. */
  predicate IsBreak(c: char)
  {
    var n := c as int;
    0x0A <= n <= 0x0D || 0x1C <= n <= 0x1E || n == 0x85 || n == 0x2028 || n == 0x2029
  }

  /** Where the first break is, or the length. */
  function BreakAt(s: string): (k: nat)
    ensures k <= |s| && (k < |s| ==> IsBreak(s[k])) && forall i :: 0 <= i < k ==> !IsBreak(s[i])
  {
    if s == "" || IsBreak(s[0]) then 0 else BreakAt(s[1..]) + 1
  }

  /** str.splitlines: a carriage return and a newline after it are one break. */
  function SplitLines(s: string): seq<string>
  {
    var k := BreakAt(s);
    if s == "" then []
    else if k == |s| then [s]
    else [s[..k]] + SplitLines(s[k + (if s[k] == '\r' && k + 1 < |s| && s[k + 1] == '\n' then 2 else 1)..])
  }

  // ------------------------------------------------------------ a sample line

  predicate NameStart(c: char)
  {
    'a' <= c <= 'z' || 'A' <= c <= 'Z' || c == '_' || c == ':'
  }

  predicate NameChar(c: char)
  {
    NameStart(c) || Decimal.IsDigit(c)
  }

  function NameRun(s: string, i: nat): (j: nat)
    requires i <= |s|
    ensures i <= j <= |s|
    decreases |s| - i
  {
    if i < |s| && NameChar(s[i]) then NameRun(s, i + 1) else i
  }

  function SpaceRun(s: string, i: nat): (j: nat)
    requires i <= |s|
    ensures i <= j <= |s|
    decreases |s| - i
  {
    if i < |s| && Text.IsSpace(s[i]) then SpaceRun(s, i + 1) else i
  }

  function TokenRun(s: string, i: nat): (j: nat)
    requires i <= |s|
    ensures i <= j <= |s|
    decreases |s| - i
  {
    if i < |s| && !Text.IsSpace(s[i]) then TokenRun(s, i + 1) else i
  }

  /** Space, a number, and perhaps space and a timestamp, up to the end: the number's text. */
  function TailOf(s: string): Option<string>
  {
    var i := SpaceRun(s, 0);
    var j := TokenRun(s, i);
    if i == 0 || NumberOf(s[i..j]).None? then None
    else if j == |s| then Some(s[i..j])
    else
      var k := SpaceRun(s, j);
      if k < |s| && Decimal.IsDigit(s[k]) && DigitRun(s, k) == |s| then Some(s[i..j]) else None
  }

  /** What a sample pattern wants behind name and labels: the text of the number in it. */
  type Tail = string -> Option<string>

  /** The last closing brace in [from, end) that a tail follows, and the number in that tail. */
  function LastBrace(tail: Tail, s: string, from: nat, end: nat): (b: Option<(nat, string)>)
    requires from <= end <= |s|
    ensures b.Some? ==> from <= b.value.0 < end && s[b.value.0] == '}'
  {
    if end == from then None
    else if s[end - 1] == '}' && tail(s[end..]).Some? then Some((end - 1, tail(s[end..]).value))
    else LastBrace(tail, s, from, end - 1)
  }

  datatype Parts = Parts(name: string, labels: string, value: string)

  /** What a sample pattern captures: the longest name, and the longest label block. */
  function MatchLine(tail: Tail, s: string): Option<Parts>
  {
    if s == "" || !NameStart(s[0]) then None
    else
      var n := NameRun(s, 0);
      if n < |s| && s[n] == '{' then
        var b := LastBrace(tail, s, n + 1, |s|);
        if b.None? then None else Some(Parts(s[..n], s[n + 1..b.value.0], b.value.1))
      else
        var rest := tail(s[n..]);
        if rest.None? then None else Some(Parts(s[..n], "", rest.value))
  }

  // ---------------------------------------------------------------- reading

  /** What one line of a text gives: nothing, a sample, or the end of the reading. */
  function ReadLine(raw: string, number: nat): Result<Option<Sample>, Failure>
  {
    var line := Text.Strip(raw);
    if line == "" || line[0] == '#' then Ok(None)
    else
      var m := MatchLine(TailOf, line);
      if m.None? then Err(BadSample(number))
      else if m.value.name !in ALLOWED_METRICS then Ok(None)
      else match ParseFrom(m.value.labels, 0, map[])
        case Err(why) => Err(BadLabel(why))
        case Ok(labels) =>
          var v := NumberOf(m.value.value);
          if v.None? then Err(BadSample(number)) else Ok(Some(Sample(m.value.name, labels, v.value)))
  }

  function ReadLines(lines: seq<string>, number: nat): Result<seq<Sample>, Failure>
  {
    if lines == [] then Ok([])
    else match ReadLine(lines[0], number)
      case Err(why) => Err(why)
      case Ok(found) =>
        var rest := ReadLines(lines[1..], number + 1);
        if rest.Err? || found.None? then rest else Ok([found.value] + rest.value)
  }

  function Parsed(text: string): Result<seq<Sample>, Failure>
  {
    ReadLines(SplitLines(text), 1)
  }

  /** What a reading of the lines up to some point has left to do. */
  function Onwards(samples: seq<Sample>, rest: Result<seq<Sample>, Failure>): Result<seq<Sample>, Failure>
  {
    if rest.Err? then rest else Ok(samples + rest.value)
  }

  lemma OnwardsFirst(rest: Result<seq<Sample>, Failure>)
    ensures Onwards([], rest) == rest
  {
    assert rest.Ok? ==> [] + rest.value == rest.value;
  }

  lemma OnwardsNext(samples: seq<Sample>, found: Sample, rest: Result<seq<Sample>, Failure>)
    ensures Onwards(samples, if rest.Err? then rest else Ok([found] + rest.value)) == Onwards(samples + [found], rest)
  {
    assert rest.Ok? ==> samples + ([found] + rest.value) == samples + [found] + rest.value;
  }

  /** parse_prometheus */
  method ParsePrometheus(text: string) returns (r: Result<seq<Sample>, Failure>)
    ensures r == Parsed(text)
  {
    hide MatchLine;
    hide Text.Strip;
    hide SplitLines;
    var lines := SplitLines(text);
    var samples: seq<Sample> := [];
    var i := 0;
    assert lines[0..] == lines;
    OnwardsFirst(ReadLines(lines, 1));
    while i < |lines|
      invariant 0 <= i <= |lines|
      invariant Parsed(text) == Onwards(samples, ReadLines(lines[i..], i + 1))
    {
      assert lines[i..][1..] == lines[i + 1..];
      var line := Text.Strip(lines[i]);
      i := i + 1;
      if line == "" || line[0] == '#' {
        continue;
      }
      var m := MatchLine(TailOf, line);
      if m.None? {
        return Err(BadSample(i));
      }
      if m.value.name !in ALLOWED_METRICS {
        continue;
      }
      var labels := ParseLabels(m.value.labels);
      if labels.Err? {
        return Err(BadLabel(labels.error));
      }
      var v := NumberOf(m.value.value);
      if v.None? {
        return Err(BadSample(i));
      }
      OnwardsNext(samples, Sample(m.value.name, labels.value, v.value), ReadLines(lines[i..], i + 1));
      samples := samples + [Sample(m.value.name, labels.value, v.value)];
    }
    assert samples + [] == samples;
    return Ok(samples);
  }
}
