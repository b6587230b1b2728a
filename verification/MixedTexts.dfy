/** Metrics texts that also hold metrics the snapshot passes over, with any label values. */
module MixedTexts {
  import opened Prelude
  import opened Documents
  import opened Exposition
  import Escaping
  import Labels
  import Numbers
  import Text

  // ------------------------------------------------------ lines of two texts

  /** Behind the break at position k. */
  function Behind(s: string, k: nat): (next: nat)
    requires k < |s|
    ensures k < next <= |s|
  {
    k + (if s[k] == '\r' && k + 1 < |s| && s[k + 1] == '\n' then 2 else 1)
  }

  lemma SplitOnce(s: string, k: nat)
    requires k < |s| && IsBreak(s[k]) && forall i :: 0 <= i < k ==> !IsBreak(s[i])
    ensures SplitLines(s) == [s[..k]] + SplitLines(s[Behind(s, k)..])
  {
    hide IsBreak, BreakAt;
    BreakAtFirst(s, k);
  }

  /** A text that does not end in a break, and what follows it on a line of its own. */
  lemma {:induction false} SplitBoth(line: string, rest: string)
    requires line != "" && !IsBreak(line[|line| - 1])
    ensures SplitLines(line + "\n" + rest) == SplitLines(line) + SplitLines(rest)
    decreases |line|
  {
    hide SplitLines;
    var k := BreakAt(line);
    if k == |line| {
      OneLine(line);
      FirstLine(line, rest);
    } else {
      var all, next := line + "\n" + rest, Behind(line, k);
      assert forall i :: 0 <= i < |line| ==> all[i] == line[i];
      assert k + 1 < |line| && next < |line|;
      SplitOnce(line, k);
      SplitOnce(all, k);
      assert all[..k] == line[..k] && Behind(all, k) == next;
      assert all[next..] == line[next..] + "\n" + rest;
      SplitBoth(line[next..], rest);
    }
  }

  lemma OneLine(s: string)
    requires s != "" && NoBreak(s)
    ensures SplitLines(s) == [s]
  {
    BreakAtFirst(s, |s|);
  }

  // ---------------------------------------------------- readings of two texts

  /** Whether a line is read does not depend on its number, nor does what it gives. */
  lemma NumberAside(raw: string, n: nat, m: nat)
    ensures ReadLine(raw, n).Ok? == ReadLine(raw, m).Ok?
    ensures ReadLine(raw, n).Ok? ==> ReadLine(raw, n) == ReadLine(raw, m)
  {
    hide MatchLine;
    hide Text.Strip;
  }

  /** What the lines give that are read. */
  function Taken(lines: seq<string>): seq<Sample>
  {
    if lines == [] then []
    else
      var r := ReadLine(lines[0], 0);
      (if r.Ok? && r.value.Some? then [r.value.value] else []) + Taken(lines[1..])
  }

  predicate EachRead(lines: seq<string>)
  {
    forall i :: 0 <= i < |lines| ==> ReadLine(lines[i], 0).Ok?
  }

  /** Lines are read exactly when each of them is, and then give what each gives. */
  lemma {:induction false} ReadEach(lines: seq<string>, number: nat)
    ensures ReadLines(lines, number).Ok? <==> EachRead(lines)
    ensures EachRead(lines) ==> ReadLines(lines, number) == Ok(Taken(lines))
    decreases lines
  {
    hide ReadLine;
    if lines != [] {
      var rest := lines[1..];
      NumberAside(lines[0], number, 0);
      ReadEach(rest, number + 1);
      assert forall i :: 0 <= i < |rest| ==> rest[i] == lines[i + 1];
      assert [] + Taken(rest) == Taken(rest);
      if EachRead(rest) && ReadLine(lines[0], 0).Ok? {
        assert EachRead(lines);
      }
    }
  }

  lemma {:induction false} TakenBoth(xs: seq<string>, ys: seq<string>)
    ensures Taken(xs + ys) == Taken(xs) + Taken(ys)
    decreases xs
  {
    hide ReadLine;
    if xs == [] {
      assert xs + ys == ys;
    } else {
      assert (xs + ys)[1..] == xs[1..] + ys;
      TakenBoth(xs[1..], ys);
    }
  }

  lemma EachBoth(xs: seq<string>, ys: seq<string>)
    ensures EachRead(xs + ys) <==> EachRead(xs) && EachRead(ys)
  {
    hide ReadLine;
    if EachRead(xs + ys) {
      assert forall i :: 0 <= i < |xs| ==> (xs + ys)[i] == xs[i];
      assert forall i :: 0 <= i < |ys| ==> (xs + ys)[|xs| + i] == ys[i];
    }
  }

  // --------------------------------------------------------- one printed line

  function Pieces(l: Line): seq<string>
  {
    SplitLines(PrintLine(l))
  }

  /** A comment is always passed over. A line of an allowed metric is read when its label
      values hold no line break but the newline; a line of another metric when each piece
      that its breaks cut it into is. */
  predicate Readable(l: Line)
  {
    if Allowed(l) then Clean(l) else EachRead(Pieces(l))
  }

  /** What a readable line gives. */
  function Given(l: Line): seq<Sample>
  {
    if Allowed(l) then (if SampleOf(l).Some? then [SampleOf(l).value] else []) else Taken(Pieces(l))
  }

  lemma EndsUnbroken(l: Line)
    requires WellFormed(l)
    ensures PrintLine(l) != "" && !IsBreak(PrintLine(l)[|PrintLine(l)| - 1])
  {
    hide Labels.PrintLabels, Numbers.FormatNumber, MetricName, Identifier;
    match l
    case Comment(text) =>
    case Metric(name, items, value) => LineBreaks(name, items, value);
  }

  lemma PiecesRead(l: Line)
    requires WellFormed(l)
    ensures EachRead(Pieces(l)) <==> Readable(l)
    ensures Readable(l) ==> Taken(Pieces(l)) == Given(l)
  {
    hide ReadLine, PrintLine, SplitLines, SampleOf, WellFormed;
    if Allowed(l) {
      EndsUnbroken(l);
      hide Allowed;
      if Clean(l) {
        LineReads(l, 0);
        OneLine(PrintLine(l));
        assert Pieces(l)[1..] == [];
      } else {
        BrokenLine(l, "", 0);
        SplitBoth(PrintLine(l), "");
        NoLines();
        assert Pieces(l) + [] == Pieces(l);
      }
    }
  }

  // ------------------------------------------------------- whole documents

  function AllGiven(doc: seq<Line>): seq<Sample>
  {
    if doc == [] then [] else Given(doc[0]) + AllGiven(doc[1..])
  }

  lemma {:induction false} DocumentPieces(doc: seq<Line>)
    requires forall l <- doc :: WellFormed(l)
    ensures EachRead(SplitLines(PrintDoc(doc))) <==> forall l <- doc :: Readable(l)
    ensures (forall l <- doc :: Readable(l)) ==> Taken(SplitLines(PrintDoc(doc))) == AllGiven(doc)
    decreases doc
  {
    hide WellFormed, SplitLines, Readable, Given, PrintLine, EachRead, Taken;
    if doc == [] {
      NoLines();
      NothingRead();
    } else {
      var l, rest := doc[0], doc[1..];
      assert l in doc && doc == [l] + rest && forall m <- rest :: m in doc;
      DocumentPieces(rest);
      EndsUnbroken(l);
      SplitBoth(PrintLine(l), PrintDoc(rest));
      PiecesRead(l);
      EachBoth(Pieces(l), SplitLines(PrintDoc(rest)));
      TakenBoth(Pieces(l), SplitLines(PrintDoc(rest)));
    }
  }

  lemma NothingRead()
    ensures EachRead([]) && Taken([]) == []
  {
  }

  /** Any metrics text is read exactly when the label values of its allowed lines hold no
      line break but the newline, and every piece of its other lines is read; and then it
      gives the samples of its allowed lines and of those pieces, in order. */
  lemma TextReadIff(doc: seq<Line>, number: nat)
    requires forall l <- doc :: WellFormed(l)
    ensures var r := ReadLines(SplitLines(PrintDoc(doc)), number);
            && (r.Ok? <==> forall l <- doc :: Readable(l))
            && (r.Ok? ==> r.value == AllGiven(doc))
  {
    ReadEach(SplitLines(PrintDoc(doc)), number);
    DocumentPieces(doc);
  }

  // ------------------------------------------- lines without a closing brace

  /** No label value holds a closing brace. */
  predicate Braceless(l: Line)
  {
    l.Metric? ==> forall i :: 0 <= i < |l.items| ==> '}' !in l.items[i].1
  }

  lemma {:induction false} EscapedBraceless(v: string)
    requires '}' !in v
    ensures '}' !in Escaping.Escape(v)
  {
    if v != "" {
      Escaping.EscapeCons(v);
      EscapedBraceless(v[1..]);
      hide Escaping.Escape;
      assert v == [v[0]] + v[1..] && '}' !in Escaping.EscapeChar(v[0]);
    }
  }

  lemma LabelBraceless(key: string, value: string)
    requires Identifier(key) && '}' !in value
    ensures '}' !in Labels.PrintLabel(key, value)
  {
    hide Escaping.Escape;
    EscapedBraceless(value);
    assert forall c <- key :: Exposition.NameChar(c);
  }

  lemma {:induction false} LabelsBraceless(items: seq<(string, string)>)
    requires forall i :: 0 <= i < |items| ==> Identifier(items[i].0) && '}' !in items[i].1
    ensures '}' !in Labels.PrintLabels(items)
    decreases items
  {
    hide Labels.PrintLabel, Identifier;
    if items != [] {
      LabelBraceless(items[0].0, items[0].1);
      LabelsBraceless(items[1..]);
    }
  }

  /** A line broken inside such a value is refused at its first piece, whatever its metric. */
  lemma BrokenBraceless(l: Line)
    requires WellFormed(l) && Braceless(l) && !Clean(l)
    ensures !EachRead(Pieces(l))
  {
    hide Numbers.FormatNumber, Labels.PrintLabels, Identifier, MatchLine, Text.Strip, ALLOWED_METRICS, SplitLines, Labels.ParseFrom, Numbers.NumberOf, PrintMetric;
    var Metric(name, items, value) := l;
    var line := PrintLine(l);
    LineBreaks(name, items, value);
    FirstPiece(line, "");
    assert line + "" == line;
    var piece := line[..BreakAt(line)];
    StripsToItself(name, items, value);
    assert piece[0] == name[0];
    PrefixStripped(piece);
    var p := Text.Strip(piece);
    assert p == line[..|p|];
    if MatchLine(TailOf, p).Some? {
      LabelsBraceless(items);
      CutMatches(p, name, items, value);
      assert false;
    }
    assert ReadLine(Pieces(l)[0], 0).Err?;
  }

  /** A text whose other lines hold no closing brace in a label value is read exactly when
      no label value of any line holds a line break but the newline. */
  lemma TextReadIffClean(doc: seq<Line>, number: nat)
    requires forall l <- doc :: WellFormed(l) && (Allowed(l) || Braceless(l))
    ensures var r := ReadLines(SplitLines(PrintDoc(doc)), number);
            if forall l <- doc :: Clean(l) then r == Ok(Expected(doc)) else r.Err?
  {
    hide WellFormed, Clean, Allowed, Braceless, Readable, Pieces, EachRead, ReadLines;
    TextReadIff(doc, number);
    if forall l <- doc :: Clean(l) {
      DocumentReads(doc, number);
    } else {
      var l :| l in doc && !Clean(l);
      UncleanUnread(l);
    }
  }

  lemma UncleanUnread(l: Line)
    requires WellFormed(l) && (Allowed(l) || Braceless(l)) && !Clean(l)
    ensures !Readable(l)
  {
    if !Allowed(l) {
      BrokenBraceless(l);
    }
  }
}
