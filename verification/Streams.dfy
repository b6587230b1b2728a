/** Streamed completions: what a client receives of an upstream body, and what is recorded
    when it ends, one way or another. */
module Streams {
  import opened Prelude
  import opened Pipeline

  /** What the upstream body of a stream yields. */
  datatype Raw = Chunk(data: string) | HttpFailure | OtherFailure

  /** What a stream forwards, and how it ends. */
  function Stream(raw: seq<Raw>, closeAfter: Option<nat>, latency: real): (seq<string>, Exit)
  {
    StreamOn(raw, closeAfter, latency, [])
  }

  function StreamOn(raw: seq<Raw>, closeAfter: Option<nat>, latency: real, sent: seq<string>): (seq<string>, Exit)
    decreases raw
  {
    if raw == [] then (sent, Done(latency))
    else match raw[0]
      case HttpFailure => (sent, Down(latency))
      case OtherFailure => (sent, Broken(latency))
      case Chunk(data) =>
        if data == "" then StreamOn(raw[1..], closeAfter, latency, sent)
        else if closeAfter == Some(|sent| + 1) then (sent + [data], Gone(latency))
        else StreamOn(raw[1..], closeAfter, latency, sent + [data])
  }

  /** What comes of opening the upstream response of an admitted completion: a stream is
      consumed, or abandoned before its first chunk is asked for. */
  datatype Upstream =
    | OpenFailed(latency: real)
    | Streamed(raw: seq<Raw>, closeAfter: Option<nat>, latency: real)
    | StreamAbandoned
    | Buffered(exit: Exit)

  function ExitOf(u: Upstream): Exit
  {
    match u
    case OpenFailed(latency) => Down(latency)
    case Streamed(raw, closeAfter, latency) => Stream(raw, closeAfter, latency).1
    case StreamAbandoned => Silent
    case Buffered(exit) => exit
  }

  // ------------------------------------------------ what ends a stream, and how

  /** Where the body fails, or its length. */
  function FailsAt(raw: seq<Raw>): (k: nat)
    ensures k <= |raw| && (k < |raw| ==> !raw[k].Chunk?) && forall i :: 0 <= i < k ==> raw[i].Chunk?
  {
    if raw == [] || !raw[0].Chunk? then 0 else FailsAt(raw[1..]) + 1
  }

  /** The chunks that are not empty, in order. */
  function Forwarded(raw: seq<Raw>): seq<string>
  {
    if raw == [] then []
    else (if raw[0].Chunk? && raw[0].data != "" then [raw[0].data] else []) + Forwarded(raw[1..])
  }

  /** The record of an admitted request: what it was admitted with, and how it ended. */
  predicate Ended(a: Admission, outcome: string, reasons: seq<string>, latency: Option<real>, e: Entry)
  {
    e == Entry(a.route, a.who, a.model, outcome, true, reasons, a.reason, a.tokens, Some(a.tokenLimit), latency, false)
  }

  /** The client gets the non-empty chunks up to a failure, or as many of them as it waits
      for. A stream closed by its client is a backend_error, so is one that fails on HTTP;
      any other, even one that breaks otherwise, is recorded as allowed. */
  predicate StreamTold(a: Admission, raw: seq<Raw>, closeAfter: Option<nat>, latency: real, sent: seq<string>, e: Entry)
  {
    var k := FailsAt(raw);
    var chunks := Forwarded(raw[..k]);
    if closeAfter.Some? && 1 <= closeAfter.value <= |chunks| then
      sent == chunks[..closeAfter.value] && Ended(a, "backend_error", ["client disconnected during inference"], Some(latency), e)
    else
      && sent == chunks
      && if k < |raw| && raw[k].HttpFailure? then Ended(a, "backend_error", ["inference backend unavailable"], Some(latency), e)
         else Ended(a, "allowed", a.reasons, Some(latency), e)
  }

  lemma SentBoth(sent: seq<string>, data: string, chunks: seq<string>)
    ensures sent + [data] + chunks == sent + ([data] + chunks)
    ensures forall n :: 1 <= n <= 1 + |chunks| ==> sent + [data] + chunks[..n - 1] == sent + ([data] + chunks)[..n]
  {
  }

  lemma {:induction false} StreamsOn(raw: seq<Raw>, closeAfter: Option<nat>, latency: real, sent: seq<string>)
    ensures var (all, exit), k := StreamOn(raw, closeAfter, latency, sent), FailsAt(raw);
            var chunks := Forwarded(raw[..k]);
            if closeAfter.Some? && |sent| < closeAfter.value <= |sent| + |chunks| then
              all == sent + chunks[..closeAfter.value - |sent|] && exit == Gone(latency)
            else
              all == sent + chunks
              && exit == (if k == |raw| then Done(latency) else if raw[k].HttpFailure? then Down(latency) else Broken(latency))
    decreases raw
  {
    if raw == [] || !raw[0].Chunk? {
      assert raw[..0] == [];
    } else {
      OneChunk(raw);
      hide FailsAt, Forwarded;
      var data, rest := raw[0].data, raw[1..];
      if data == "" {
        StreamsOn(rest, closeAfter, latency, sent);
      } else {
        StreamsOn(rest, closeAfter, latency, sent + [data]);
        SentBoth(sent, data, Forwarded(rest[..FailsAt(rest)]));
      }
    }
  }

  lemma OneChunk(raw: seq<Raw>)
    requires raw != [] && raw[0].Chunk?
    ensures FailsAt(raw) == FailsAt(raw[1..]) + 1
    ensures var later := Forwarded(raw[1..][..FailsAt(raw[1..])]);
            Forwarded(raw[..FailsAt(raw)]) == if raw[0].data != "" then [raw[0].data] + later else later
  {
    assert raw[..FailsAt(raw)][1..] == raw[1..][..FailsAt(raw) - 1];
  }

  /** What a stream sends and what is recorded of it are these. */
  lemma StreamTells(a: Admission, raw: seq<Raw>, closeAfter: Option<nat>, latency: real)
    requires a.route.Completions?
    ensures var (sent, exit) := Stream(raw, closeAfter, latency);
            !exit.Silent? && StreamTold(a, raw, closeAfter, latency, sent, FinalEntry(a, exit))
  {
    StreamsOn(raw, closeAfter, latency, []);
    var chunks := Forwarded(raw[..FailsAt(raw)]);
    assert [] + chunks == chunks;
    if closeAfter.Some? && 1 <= closeAfter.value <= |chunks| {
      assert [] + chunks[..closeAfter.value] == chunks[..closeAfter.value];
    }
  }

  /** The same of a response that is no stream: a failed one has a latency on the
      completion route only. */
  lemma ResponseTells(a: Admission, latency: real)
    ensures Ended(a, "allowed", a.reasons, Some(latency), FinalEntry(a, Done(latency)))
    ensures Ended(a, "backend_error", ["inference backend unavailable"], if a.route.Infer? then None else Some(latency), FinalEntry(a, Down(latency)))
  {
  }

  /** Whatever comes of the upstream response of an admitted completion: nothing is written
      if a stream is abandoned or the handler dies, a response that cannot be opened is a
      failed backend, and a stream is recorded as it ends. */
  lemma UpstreamTells(a: Admission, u: Upstream)
    requires a.route.Completions?
    ensures ExitOf(u).Silent? <==> u.StreamAbandoned? || u == Buffered(Silent)
    ensures u.OpenFailed? ==> Ended(a, "backend_error", ["inference backend unavailable"], Some(u.latency), FinalEntry(a, ExitOf(u)))
    ensures u.Streamed? ==> StreamTold(a, u.raw, u.closeAfter, u.latency, Stream(u.raw, u.closeAfter, u.latency).0, FinalEntry(a, ExitOf(u)))
    ensures u.Buffered? ==> ExitOf(u) == u.exit
  {
    if u.Streamed? {
      StreamTells(a, u.raw, u.closeAfter, u.latency);
    }
  }
}
