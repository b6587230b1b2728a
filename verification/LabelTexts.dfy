/** What parse_labels makes of any text, printed by the gateway or not. */
module LabelTexts {
  import opened Prelude
  import opened Labels
  import Text

  // ----------------------------------------------------------- the inside of quotes

  /** A character as it stands, or one behind a backslash. */
  datatype Piece = Plain(c: char) | Escaped(c: char)

  /** Quotes and backslashes stand behind a backslash. */
  predicate Written(pieces: seq<Piece>)
  {
    forall i :: 0 <= i < |pieces| ==> pieces[i].Plain? ==> pieces[i].c != '"' && pieces[i].c != '\\'
  }

  function PieceText(p: Piece): string
  {
    match p case Plain(c) => [c] case Escaped(c) => ['\\', c]
  }

  /** An escaped n, r or t is a line feed, carriage return or tab; anything else itself. */
  function PieceValue(p: Piece): char
  {
    if p == Escaped('n') then '\n' else if p == Escaped('r') then '\r' else if p == Escaped('t') then '\t' else p.c
  }

  function TextOf(pieces: seq<Piece>): string
  {
    if pieces == [] then "" else PieceText(pieces[0]) + TextOf(pieces[1..])
  }

  function ValueOf(pieces: seq<Piece>): string
  {
    if pieces == [] then "" else [PieceValue(pieces[0])] + ValueOf(pieces[1..])
  }

  /** How the text behind an opening quote goes on: it is closed, ends, or ends in a
      backslash. */
  datatype Ending = Closed(rest: string) | Ends | EndsEscaping

  function EndingText(e: Ending): string
  {
    match e case Closed(rest) => "\"" + rest case Ends => "" case EndsEscaping => "\\"
  }

  /** The value, or what is missing. */
  function Reading(e: Ending, acc: string, pieces: seq<Piece>, after: nat): Result<(string, nat), LabelError>
  {
    match e
    case Closed(_) => Ok((acc + ValueOf(pieces), after + 1))
    case Ends => Err(OpenValue)
    case EndsEscaping => Err(OpenEscape)
  }

  lemma EndReads(t: string, i: nat, e: Ending, acc: string)
    requires i <= |t| && t[i..] == EndingText(e)
    ensures ReadValue(t, i, acc) == Reading(e, acc, [], i)
  {
    var s := t[i..];
    assert |s| == |t| - i && acc + "" == acc;
    if !e.Ends? {
      assert t[i] == s[0];
    }
  }

  lemma PieceReads(t: string, i: nat, p: Piece, rest: string, acc: string)
    requires i <= |t| && (p.Plain? ==> p.c != '"' && p.c != '\\') && t[i..] == PieceText(p) + rest
    ensures var n := |PieceText(p)|;
            i + n <= |t| && t[i + n..] == rest && ReadValue(t, i, acc) == ReadValue(t, i + n, acc + [PieceValue(p)])
  {
    var s := t[i..];
    assert t[i] == s[0];
    if p.Escaped? {
      assert t[i + 1] == s[1];
    }
    assert t[i + |PieceText(p)|..] == s[|PieceText(p)|..];
  }

  lemma {:induction false} ValueReads(t: string, i: nat, pieces: seq<Piece>, e: Ending, acc: string)
    requires i <= |t| && Written(pieces) && t[i..] == TextOf(pieces) + EndingText(e)
    ensures ReadValue(t, i, acc) == Reading(e, acc, pieces, i + |TextOf(pieces)|)
    decreases pieces
  {
    if pieces == [] {
      assert t[i..] == EndingText(e);
      EndReads(t, i, e, acc);
    } else {
      var p, rest := pieces[0], pieces[1..];
      assert TextOf(pieces) == PieceText(p) + TextOf(rest) && ValueOf(pieces) == [PieceValue(p)] + ValueOf(rest);
      hide EndingText, ReadValue, PieceText, PieceValue, TextOf, ValueOf;
      Text.Joined(PieceText(p), TextOf(rest), EndingText(e));
      PieceReads(t, i, p, TextOf(rest) + EndingText(e), acc);
      ValueReads(t, i + |PieceText(p)|, rest, e, acc + [PieceValue(p)]);
      Text.Joined(acc, [PieceValue(p)], ValueOf(rest));
    }
  }

  /** Every text behind an opening quote is one of these. */
  lemma {:induction false} TakeApart(s: string) returns (pieces: seq<Piece>, e: Ending)
    ensures Written(pieces) && s == TextOf(pieces) + EndingText(e)
    decreases |s|
  {
    if s == "" {
      pieces, e := [], Ends;
    } else if s[0] == '"' {
      pieces, e := [], Closed(s[1..]);
    } else if s == "\\" {
      pieces, e := [], EndsEscaping;
    } else {
      var first := if s[0] == '\\' then Escaped(s[1]) else Plain(s[0]);
      var n := if first.Plain? then 1 else 2;
      var rest: seq<Piece>;
      rest, e := TakeApart(s[n..]);
      pieces := [first] + rest;
      assert pieces[1..] == rest;
      assert s == s[..n] + s[n..];
    }
  }

  // --------------------------------------------------------------- one label

  /** Spaces and commas, a key up to the sign, and what follows it. */
  predicate Starts(gap: string, key: string, tail: string)
  {
    && (forall k :: 0 <= k < |gap| ==> Gap(gap[k]))
    && (forall k :: 0 <= k < |key| ==> !Stop(key[k]))
    && (key != "" ==> key[0] != ' ')
    && (tail == "" || tail[0] == '=' || (tail[0] == ',' && key != ""))
  }

  /** Gaps are made of spaces and commas, and a key stops at a sign or a comma. */
  lemma GapsAndStops(c: char)
    ensures (Gap(c) <==> c in " ,") && (Stop(c) <==> c in "=,")
  {
  }

  lemma {:induction false} GapSkipped(t: string, i: nat, j: nat)
    requires i <= j <= |t| && (forall k :: i <= k < j ==> Gap(t[k])) && (j == |t| || !Gap(t[j]))
    ensures SkipGap(t, i) == j
    decreases j - i
  {
    if i < j {
      GapSkipped(t, i + 1, j);
    }
  }

  lemma {:induction false} KeyRuns(t: string, i: nat, j: nat)
    requires i <= j <= |t| && (forall k :: i <= k < j ==> !Stop(t[k])) && (j == |t| || Stop(t[j]))
    ensures KeyEnd(t, i) == j
    decreases j - i
  {
    if i < j {
      KeyRuns(t, i + 1, j);
    }
  }

  lemma PartOf(t: string, i: nat, before: string, part: string, after: string)
    requires i <= |t| && t[i..] == before + part + after
    ensures var start := i + |before|;
            start + |part| <= |t| && t[start..start + |part|] == part && t[start + |part|..] == after
            && (forall k :: i <= k < start ==> t[k] == before[k - i]) && (forall k :: start <= k < start + |part| ==> t[k] == part[k - start])
            && (after != "" ==> start + |part| < |t| && t[start + |part|] == after[0])
  {
    var s := t[i..];
    assert forall k :: i <= k < |t| ==> t[k] == s[k - i];
    assert t[i + |before| + |part|..] == s[|before| + |part|..];
  }

  /** Where a label's key starts and ends. */
  lemma KeyFound(t: string, i: nat, gap: string, key: string, tail: string)
    requires i < |t| && Starts(gap, key, tail) && t[i..] == gap + key + tail
    ensures var start := i + |gap|;
            SkipGap(t, i) == start && KeyEnd(t, start) == start + |key| <= |t| && t[start..start + |key|] == key && t[start + |key|..] == tail
  {
    var start := i + |gap|;
    PartOf(t, i, gap, key, tail);
    assert key != "" ==> !Gap(key[0]);
    GapSkipped(t, i, start);
    KeyRuns(t, start, start + |key|);
  }

  lemma LabelParts(t: string, i: nat, end: nat, key: string)
    requires i < |t| && SkipGap(t, i) <= end <= |t| && KeyEnd(t, SkipGap(t, i)) == end && t[SkipGap(t, i)..end] == key
    ensures ReadLabel(t, i) ==
              if Text.Strip(key) == "" || end == |t| || t[end] != '=' then Err(InvalidLabel)
              else if end + 1 == |t| || t[end + 1] != '"' then Err(NotQuoted)
              else match ReadValue(t, end + 2, "") case Err(why) => Err(why) case Ok((value, after)) => Ok((Text.Strip(key), value, after))
  {
    hide ReadValue, Text.Strip, SkipGap, KeyEnd;
  }

  /** What is read of a label: its stripped key and value, or the first thing amiss: no key
      or no sign, no quote behind the sign, an unfinished value. */
  ghost predicate LabelAt(t: string, i: nat, end: nat, key: string, tail: string)
    requires i < |t|
  {
    var r := ReadLabel(t, i);
    && (Text.Strip(key) == "" || tail == "" || tail[0] == ',' ==> r == Err(InvalidLabel))
    && (Text.Strip(key) != "" && tail != "" && tail[0] == '=' && (|tail| == 1 || tail[1] != '"') ==> r == Err(NotQuoted))
    && (Text.Strip(key) != "" && |tail| > 1 && tail[0] == '=' && tail[1] == '"' ==>
          && end + 2 <= |t| && t[end + 2..] == tail[2..]
          && r == match ReadValue(t, end + 2, "") case Err(why) => Err(why) case Ok((value, after)) => Ok((Text.Strip(key), value, after)))
  }

  lemma LabelReadsAt(t: string, i: nat, end: nat, key: string, tail: string)
    requires i < |t| && SkipGap(t, i) <= end <= |t| && KeyEnd(t, SkipGap(t, i)) == end && t[SkipGap(t, i)..end] == key
    requires t[end..] == tail
    ensures LabelAt(t, i, end, key, tail)
  {
    hide SkipGap, KeyEnd, ReadValue, Text.Strip, ReadLabel;
    LabelParts(t, i, end, key);
    TailAt(t, end, tail);
  }

  lemma LabelReads(t: string, i: nat, gap: string, key: string, tail: string)
    requires i < |t| && Starts(gap, key, tail) && t[i..] == gap + key + tail
    ensures LabelAt(t, i, i + |gap| + |key|, key, tail)
  {
    hide LabelAt;
    KeyFound(t, i, gap, key, tail);
    hide SkipGap, KeyEnd;
    LabelReadsAt(t, i, i + |gap| + |key|, key, tail);
  }

  lemma TailAt(t: string, end: nat, tail: string)
    requires end <= |t| && t[end..] == tail
    ensures |t| == end + |tail| && (tail != "" ==> t[end] == tail[0]) && (|tail| > 1 ==> t[end + 1] == tail[1] && t[end + 2..] == tail[2..])
  {
  }

  /** Every text starts in this way. */
  lemma {:induction false} TextStarts(s: string) returns (gap: string, key: string, tail: string)
    ensures Starts(gap, key, tail) && s == gap + key + tail
  {
    var i := 0;
    while i < |s| && Gap(s[i])
      invariant i <= |s| && forall k :: 0 <= k < i ==> Gap(s[k])
    {
      i := i + 1;
    }
    var j := i;
    while j < |s| && !Stop(s[j])
      invariant i <= j <= |s| && forall k :: i <= k < j ==> !Stop(s[k])
    {
      j := j + 1;
    }
    gap, key, tail := s[..i], s[i..j], s[j..];
    assert gap + key == s[..j] && s == s[..j] + s[j..];
    GapsAndStops(if i < |s| then s[i] else ' ');
    GapsAndStops(if j < |s| then s[j] else ' ');
  }

  // ------------------------------------------------------------- all labels

  /** Labels stand behind one another with a comma between, and perhaps one at the end. */
  lemma LabelsRead(t: string, i: nat, labels: LabelMap)
    requires i < |t|
    ensures match ReadLabel(t, i)
            case Err(why) => ParseFrom(t, i, labels) == Err(why)
            case Ok((key, value, after)) =>
              if after == |t| then ParseFrom(t, i, labels) == Ok(labels[key := value])
              else if t[after] != ',' then ParseFrom(t, i, labels) == Err(BadSeparator)
              else ParseFrom(t, i, labels) == ParseFrom(t, after + 1, labels[key := value])
  {
    hide ReadLabel;
  }
}
