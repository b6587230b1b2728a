/** The metrics text as bench/run.py reads it: a scrape of name and labels to value. */
module BenchText {
  import opened Prelude
  import opened Escaping
  import opened Exposition
  import opened Labels
  import opened LimiterDelta
  import opened Numbers
  import opened Ordering
  import Documents
  import LimiterScrapes
  import Text

  // ------------------------------------------------------- labels by pattern

  predicate KeyStart(c: char)
  {
    NameStart(c) && c != ':'
  }

  predicate KeyChar(c: char)
  {
    NameChar(c) && c != ':'
  }

  function KeyRun(t: string, i: nat): (j: nat)
    requires i <= |t|
    ensures i <= j <= |t|
    decreases |t| - i
  {
    if i < |t| && KeyChar(t[i]) then KeyRun(t, i + 1) else i
  }

  /** The first quote from i on that no backslash goes before, taking backslashes in pairs
      with what follows them; a newline does not pair. */
  function OpenQuote(t: string, i: nat): (q: Option<nat>)
    ensures q.Some? ==> i <= q.value < |t|
    decreases |t| - i
  {
    if i >= |t| then None
    else if t[i] == '"' then Some(i)
    else if t[i] == '\\' && i + 1 < |t| && t[i + 1] != '\n' then OpenQuote(t, i + 2)
    else OpenQuote(t, i + 1)
  }

  function LastQuote(t: string, i: nat, end: nat): (q: Option<nat>)
    requires end <= |t|
    ensures q.Some? ==> i <= q.value < |t|
  {
    if end <= i then None else if t[end - 1] == '"' then Some(end - 1) else LastQuote(t, i, end - 1)
  }

  /** Where the pattern ends a value: at its first open quote; failing that, backtracking
      lets it end at the last quote there is. */
  function ValueEnd(t: string, i: nat): (q: Option<nat>)
    ensures q.Some? ==> i <= q.value < |t|
  {
    if OpenQuote(t, i).Some? then OpenQuote(t, i) else LastQuote(t, i, |t|)
  }

  /** A label that starts at position i, its value unescaped, and the position behind it. */
  function FindOne(t: string, i: nat): (found: Option<(string, string, nat)>)
    requires i < |t|
    ensures found.Some? ==> i < found.value.2 <= |t|
  {
    var k := KeyRun(t, i);
    if KeyStart(t[i]) && k + 1 < |t| && t[k] == '=' && t[k + 1] == '"' && ValueEnd(t, k + 2).Some? then
      var q := ValueEnd(t, k + 2).value;
      Some((t[i..k], Unescape(t[k + 2..q]), q + 1))
    else None
  }

  /** All labels the pattern finds from position i on. */
  function FindLabels(t: string, i: nat): seq<(string, string)>
    decreases |t| - i
  {
    if i >= |t| then []
    else match FindOne(t, i)
      case None => FindLabels(t, i + 1)
      case Some((key, value, after)) => [(key, value)] + FindLabels(t, after)
  }

  /** Space and a finite number up to the end: no infinities and no timestamp here. */
  function FiniteTail(s: string): Option<string>
  {
    var i := SpaceRun(s, 0);
    if i > 0 && TokenRun(s, i) == |s| && NumberOf(s[i..]).Some? && NumberOf(s[i..]).value.Fin? then Some(s[i..]) else None
  }

  /** One line: a sample joins the scrape, anything else is passed over. */
  function ScrapeLine(scrape: Scrape, line: string): Scrape
  {
    if line == "" || line[0] == '#' then scrape
    else
      var m := MatchLine(FiniteTail, Text.Strip(line));
      if m.None? then scrape
      else
        var v := NumberOf(m.value.value);
        if v.Some? && v.value.Fin? then scrape[Series(m.value.name, SortPairs(FindLabels(m.value.labels, 0))) := v.value.r] else scrape
  }

  function ScrapeLines(lines: seq<string>): Scrape
  {
    if lines == [] then map[] else ScrapeLine(ScrapeLines(lines[..|lines| - 1]), lines[|lines| - 1])
  }

  /** parse_prometheus of bench/run.py */
  method ParseScrape(text: string) returns (scrape: Scrape)
    ensures scrape == ScrapeLines(SplitLines(text))
  {
    hide SplitLines;
    hide FindLabels;
    hide Text.Strip;
    var lines := SplitLines(text);
    scrape := map[];
    for i := 0 to |lines|
      invariant scrape == ScrapeLines(lines[..i])
    {
      assert lines[..i + 1][..i] == lines[..i];
      var line := lines[i];
      if line == "" || line[0] == '#' {
        continue;
      }
      var m := MatchLine(FiniteTail, Text.Strip(line));
      if m.None? {
        continue;
      }
      var v := NumberOf(m.value.value);
      if v.Some? && v.value.Fin? {
        scrape := scrape[Series(m.value.name, SortPairs(FindLabels(m.value.labels, 0))) := v.value.r];
      }
    }
    assert lines[..|lines|] == lines;
  }

  // -------------------------------------------------- printed labels are found

  /** In an escaped value every quote is paired with a backslash. */
  lemma {:induction false} EscapedHasNoOpenQuote(t: string, i: nat, v: string, rest: string)
    requires i <= |t| && t[i..] == Escape(v) + ("\"" + rest)
    ensures OpenQuote(t, i) == Some(i + |Escape(v)|)
    decreases v
  {
    if v == "" {
      assert Escape(v) == "";
      Behind(t, i, "\"", rest);
      assert t[i + 0] == "\""[0];
    } else {
      hide Escape;
      var e, behind := EscapeChar(v[0]), Escape(v[1..]) + ("\"" + rest);
      EscapeCons(v);
      assert t[i..] == e + behind;
      Behind(t, i, e, behind);
      assert t[i + 0] == e[0] && (|e| == 2 ==> t[i + 1] == e[1]);
      EscapedHasNoOpenQuote(t, i + |e|, v[1..], rest);
    }
  }

  lemma {:induction false} KeyRunAll(t: string, i: nat, j: nat)
    requires i <= j < |t| && (forall k :: i <= k < j ==> KeyChar(t[k])) && !KeyChar(t[j])
    ensures KeyRun(t, i) == j
    decreases j - i
  {
    if i < j {
      KeyRunAll(t, i + 1, j);
    }
  }

  /** What the reader makes of printed labels: the same keys, each value as unescape_label
      leaves it. */
  function Reread(items: seq<(string, string)>): seq<(string, string)>
  {
    if items == [] then [] else [(items[0].0, Blurred(items[0].1))] + Reread(items[1..])
  }

  lemma KeyFound(t: string, i: nat, key: string, rest: string)
    requires i < |t| && t[i..] == key + ("=\"" + rest) && Documents.Identifier(key)
    ensures var k := i + |key|;
            KeyStart(t[i]) && KeyRun(t, i) == k && k + 1 < |t| && t[k] == '=' && t[k + 1] == '"' && t[i..k] == key && t[k + 2..] == rest
  {
    var k := i + |key|;
    Behind(t, i, key, "=\"" + rest);
    Behind(t, k, "=\"", rest);
    assert t[k + 0] == '=' && t[k + 1] == '"' && t[i + 0] == key[0];
    assert forall n :: i <= n < k ==> t[n] == key[n - i];
    KeyRunAll(t, i, k);
  }

  lemma LabelFound(t: string, i: nat, key: string, value: string, rest: string)
    requires i < |t| && t[i..] == PrintLabel(key, value) + rest && Documents.Identifier(key)
    ensures FindOne(t, i) == Some((key, Blurred(value), i + |PrintLabel(key, value)|))
  {
    hide Escape;
    hide Unescape;
    hide Documents.Identifier;
    hide OpenQuote;
    hide LastQuote;
    hide KeyRun;
    var behind := Escape(value) + ("\"" + rest);
    assert t[i..] == key + ("=\"" + behind);
    KeyFound(t, i, key, behind);
    var from := i + |key| + 2;
    EscapedHasNoOpenQuote(t, from, value, rest);
    Behind(t, from, Escape(value), "\"" + rest);
    UnescapeEscape(value);
  }

  lemma CommaIsNoLabel(t: string, i: nat)
    requires i < |t| && t[i] == ','
    ensures FindLabels(t, i) == FindLabels(t, i + 1)
  {
  }

  lemma OneFound(t: string, i: nat, key: string, value: string, after: nat)
    requires i < |t| && FindOne(t, i) == Some((key, value, after))
    ensures after <= |t| && FindLabels(t, i) == [(key, value)] + FindLabels(t, after)
    ensures FindLabels(t, |t|) == []
  {
  }

  lemma LastFound(t: string, i: nat, key: string, value: string)
    requires i < |t| && t[i..] == PrintLabel(key, value) && Documents.Identifier(key)
    ensures FindLabels(t, i) == [(key, Blurred(value))]
  {
    hide Documents.Identifier;
    hide FindOne;
    hide FindLabels;
    hide Blurred;
    hide PrintLabel;
    var p := PrintLabel(key, value);
    assert t[i..] == p + "";
    LabelFound(t, i, key, value, "");
    assert i + |p| == |t|;
    OneFound(t, i, key, Blurred(value), |t|);
  }

  lemma NextFound(t: string, i: nat, key: string, value: string, others: string)
    requires i < |t| && t[i..] == PrintLabel(key, value) + "," + others && Documents.Identifier(key)
    ensures var next := i + |PrintLabel(key, value)| + 1;
            next <= |t| && t[next..] == others && FindLabels(t, i) == [(key, Blurred(value))] + FindLabels(t, next)
  {
    hide Documents.Identifier;
    hide FindOne;
    hide FindLabels;
    hide Blurred;
    hide PrintLabel;
    var p, rest := PrintLabel(key, value), "," + others;
    assert t[i..] == p + rest;
    Behind(t, i, p, rest);
    Behind(t, i + |p|, ",", others);
    assert t[i + |p| + 0] == ',';
    LabelFound(t, i, key, value, rest);
    OneFound(t, i, key, Blurred(value), i + |p|);
    CommaIsNoLabel(t, i + |p|);
  }

  lemma LabelNotEmpty(key: string, value: string)
    ensures PrintLabel(key, value) != ""
  {
    hide Escape;
    var p := PrintLabel(key, value);
    assert p[|p| - 1] == '"';
  }

  lemma {:induction false} LabelsFound(t: string, i: nat, items: seq<(string, string)>)
    requires i <= |t| && t[i..] == PrintLabels(items) && forall k :: 0 <= k < |items| ==> Documents.Identifier(items[k].0)
    ensures FindLabels(t, i) == Reread(items)
    decreases items
  {
    hide Documents.Identifier;
    hide FindOne;
    hide Blurred;
    hide PrintLabel;
    if items != [] {
      hide FindLabels;
      var key, value, rest := items[0].0, items[0].1, items[1..];
      LabelNotEmpty(key, value);
      if |items| == 1 {
        LastFound(t, i, key, value);
        assert rest == [] && Reread(rest) == [];
      } else {
        NextFound(t, i, key, value, PrintLabels(rest));
        LabelsFound(t, i + |PrintLabel(key, value)| + 1, rest);
      }
    }
  }

  // ------------------------------------------------- printed documents are scraped

  lemma FiniteTailReads(v: real)
    ensures FiniteTail(" " + FormatNumber(v)) == Some(FormatNumber(v))
  {
    hide FormatNumber;
    hide NumberOf;
    var t := FormatNumber(v);
    var s := " " + t;
    NumberReadsBack(v);
    assert s[1..] == t;
    forall k | 1 <= k < |s|
      ensures !Text.IsSpace(s[k])
    {
      Documents.NumberTextPlain(t, k - 1);
    }
    Documents.SpaceRunAll(s, 0, 1);
    Documents.TokenRunAll(s, 1, |s|);
  }

  /** What the scrape of a line adds: the labels come back as unescape_label leaves them. */
  function Added(scrape: Scrape, l: Documents.Line): Scrape
  {
    match l
    case Comment(_) => scrape
    case Metric(name, items, value) => scrape[Series(name, SortPairs(Reread(items))) := Rounded(value)]
  }

  function AllAdded(lines: seq<Documents.Line>): Scrape
  {
    if lines == [] then map[] else Added(AllAdded(lines[..|lines| - 1]), lines[|lines| - 1])
  }

  lemma LineScraped(scrape: Scrape, l: Documents.Line)
    requires Documents.WellFormed(l)
    ensures ScrapeLine(scrape, Documents.PrintLine(l)) == Added(scrape, l)
  {
    hide FormatNumber;
    hide NumberOf;
    hide PrintLabels;
    hide MatchLine;
    hide Text.Strip;
    hide FindLabels;
    hide Documents.Identifier;
    hide Documents.PrintMetric;
    hide FiniteTail;
    match l
    case Comment(text) =>
    case Metric(name, items, value) =>
      Documents.StripsToItself(name, items, value);
      FiniteTailReads(value);
      Documents.PrintedMatches(FiniteTail, name, items, value);
      NumberReadsBack(value);
      var t := PrintLabels(items);
      assert t[0..] == t;
      LabelsFound(t, 0, items);
  }

  lemma {:induction false} DocumentLines(doc: seq<Documents.Line>)
    requires forall l <- doc :: Documents.WellFormed(l) && Documents.Clean(l)
    ensures |SplitLines(Documents.PrintDoc(doc))| == |doc|
    ensures forall i :: 0 <= i < |doc| ==> SplitLines(Documents.PrintDoc(doc))[i] == Documents.PrintLine(doc[i])
    decreases doc
  {
    hide SplitLines;
    hide Documents.WellFormed;
    hide Documents.Clean;
    hide Documents.PrintLine;
    if doc == [] {
      Documents.NoLines();
    } else {
      assert doc[0] in doc && forall l <- doc[1..] :: l in doc;
      DocumentLines(doc[1..]);
      Documents.LineReads(doc[0], 0);
      Documents.FirstLine(Documents.PrintLine(doc[0]), Documents.PrintDoc(doc[1..]));
    }
  }

  lemma {:induction false} LinesScraped(lines: seq<string>, doc: seq<Documents.Line>)
    requires |lines| == |doc| && forall i :: 0 <= i < |doc| ==> lines[i] == Documents.PrintLine(doc[i])
    requires forall l <- doc :: Documents.WellFormed(l)
    ensures ScrapeLines(lines) == AllAdded(doc)
  {
    hide ScrapeLine;
    hide Added;
    hide Documents.WellFormed;
    hide Documents.PrintLine;
    if doc != [] {
      var n := |doc| - 1;
      assert doc[n] in doc && forall l <- doc[..n] :: l in doc;
      LinesScraped(lines[..n], doc[..n]);
      LineScraped(AllAdded(doc[..n]), doc[n]);
    }
  }

  /** The benchmark reads every line of a clean metrics text, its labels changed only by
      what unescape_label does to a backslash before an n. */
  lemma TextScraped(doc: seq<Documents.Line>)
    requires forall l <- doc :: Documents.WellFormed(l) && Documents.Clean(l)
    ensures ScrapeLines(SplitLines(Documents.PrintDoc(doc))) == AllAdded(doc)
  {
    hide SplitLines;
    DocumentLines(doc);
    LinesScraped(SplitLines(Documents.PrintDoc(doc)), doc);
  }

  predicate NoBackslashN(l: Documents.Line)
  {
    l.Metric? ==> forall i :: 0 <= i < |l.items| ==> !HasBackslashN(l.items[i].1)
  }

  lemma {:induction false} RereadSame(items: seq<(string, string)>)
    requires forall i :: 0 <= i < |items| ==> !HasBackslashN(items[i].1)
    ensures Reread(items) == items
    decreases items
  {
    if items != [] {
      BlurredIsSame(items[0].1);
      RereadSame(items[1..]);
      assert items == [items[0]] + items[1..];
    }
  }

  lemma {:induction false} AddedSame(doc: seq<Documents.Line>)
    requires forall l <- doc :: NoBackslashN(l)
    ensures AllAdded(doc) == LimiterScrapes.ScrapeOf(doc)
  {
    if doc != [] {
      var front, l := doc[..|doc| - 1], doc[|doc| - 1];
      assert l in doc && forall m <- front :: m in doc;
      AddedSame(front);
      if l.Metric? {
        RereadSame(l.items);
      }
    }
  }

  /** A clean text whose label values hold no backslash before an n is scraped exactly:
      every series under its name and labels, with its value as printed. */
  lemma CleanTextScraped(doc: seq<Documents.Line>)
    requires forall l <- doc :: Documents.WellFormed(l) && Documents.Clean(l) && NoBackslashN(l)
    ensures ScrapeLines(SplitLines(Documents.PrintDoc(doc))) == LimiterScrapes.ScrapeOf(doc)
  {
    TextScraped(doc);
    AddedSame(doc);
  }
}
