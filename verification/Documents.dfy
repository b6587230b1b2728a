/** Whole metrics texts, printed and read back: the printer of gateway/metrics.py against
    the parser of gateway/telemetry_snapshot.py. */
module Documents {
  import opened Prelude
  import opened Escaping
  import opened Exposition
  import opened Labels
  import opened Numbers
  import Text

  datatype Line = Comment(text: string) | Metric(name: string, items: seq<(string, string)>, value: real)

  /** format_sample, with the labels in the order of the list. */
  function PrintMetric(name: string, items: seq<(string, string)>, value: real): string
  {
    name + (if items == [] then "" else "{" + PrintLabels(items) + "}") + " " + FormatNumber(value)
  }

  function PrintLine(l: Line): string
  {
    match l case Comment(text) => text case Metric(name, items, value) => PrintMetric(name, items, value)
  }

  function PrintDoc(doc: seq<Line>): string
  {
    if doc == [] then "" else PrintLine(doc[0]) + "\n" + PrintDoc(doc[1..])
  }

  // ------------------------------------------------- what the gateway prints

  predicate MetricName(s: string)
  {
    s != "" && NameStart(s[0]) && forall i :: 0 <= i < |s| ==> NameChar(s[i])
  }

  predicate Identifier(k: string)
  {
    MetricName(k) && ':' !in k
  }

  predicate WellFormed(l: Line)
  {
    match l
    case Comment(text) => text != "" && text[0] == '#' && NoBreak(text)
    case Metric(name, items, _) =>
      && MetricName(name)
      && forall i :: 0 <= i < |items| ==> Identifier(items[i].0)
  }

  predicate NoBreak(s: string)
  {
    forall i :: 0 <= i < |s| ==> !IsBreak(s[i])
  }

  /** The value holds no line break but the newline, which is escaped. */
  predicate CleanValue(v: string)
  {
    forall i :: 0 <= i < |v| ==> IsBreak(v[i]) ==> v[i] == '\n'
  }

  predicate CleanItems(items: seq<(string, string)>)
  {
    forall i :: 0 <= i < |items| ==> CleanValue(items[i].1)
  }

  predicate Clean(l: Line)
  {
    l.Metric? ==> CleanItems(l.items)
  }

  predicate Allowed(l: Line)
  {
    l.Metric? ==> l.name in ALLOWED_METRICS
  }

  /** The sample a line stands for: that of an allowed metric, with its value as printed. */
  function SampleOf(l: Line): Option<Sample>
  {
    if l.Metric? && l.name in ALLOWED_METRICS then Some(Sample(l.name, AddAll(map[], l.items), Fin(Rounded(l.value)))) else None
  }

  function Expected(doc: seq<Line>): seq<Sample>
  {
    if doc == [] then []
    else (if SampleOf(doc[0]).Some? then [SampleOf(doc[0]).value] else []) + Expected(doc[1..])
  }

  // ---------------------------------------------------- one printed line matches

  lemma {:induction false} SpaceRunAll(s: string, i: nat, j: nat)
    requires i <= j <= |s| && (forall k :: i <= k < j ==> Text.IsSpace(s[k])) && (j == |s| || !Text.IsSpace(s[j]))
    ensures SpaceRun(s, i) == j
    decreases j - i
  {
    if i < j {
      SpaceRunAll(s, i + 1, j);
    }
  }

  lemma {:induction false} TokenRunAll(s: string, i: nat, j: nat)
    requires i <= j <= |s| && (forall k :: i <= k < j ==> !Text.IsSpace(s[k])) && (j == |s| || Text.IsSpace(s[j]))
    ensures TokenRun(s, i) == j
    decreases j - i
  {
    if i < j {
      TokenRunAll(s, i + 1, j);
    }
  }

  lemma {:induction false} NameRunAll(s: string, i: nat, j: nat)
    requires i <= j <= |s| && (forall k :: i <= k < j ==> NameChar(s[k])) && (j == |s| || !NameChar(s[j]))
    ensures NameRun(s, i) == j
    decreases j - i
  {
    if i < j {
      NameRunAll(s, i + 1, j);
    }
  }

  lemma NumberTextPlain(t: string, i: nat)
    requires NumberText(t) && i < |t|
    ensures !Text.IsSpace(t[i]) && t[i] != '}' && !IsBreak(t[i])
  {
    assert t[i] in t;
  }

  lemma TailReads(v: real)
    ensures TailOf(" " + FormatNumber(v)) == Some(FormatNumber(v))
  {
    hide FormatNumber;
    hide NumberOf;
    var t := FormatNumber(v);
    var s := " " + t;
    NumberReadsBack(v);
    assert s[1..] == t;
    forall k | 1 <= k < |s|
      ensures !Text.IsSpace(s[k])
    {
      NumberTextPlain(t, k - 1);
    }
    SpaceRunAll(s, 0, 1);
    TokenRunAll(s, 1, |s|);
    assert s[1..|s|] == t;
  }

  /** Nothing behind the last brace of a line is taken for one. */
  lemma {:induction false} LastBraceAt(tail: Tail, s: string, from: nat, b: nat, end: nat)
    requires from <= b < end <= |s| && s[b] == '}' && tail(s[b + 1..]).Some?
    requires forall k :: b < k < end ==> s[k] != '}'
    ensures LastBrace(tail, s, from, end) == Some((b, tail(s[b + 1..]).value))
    decreases end
  {
    if b < end - 1 {
      LastBraceAt(tail, s, from, b, end - 1);
    }
  }

  /** The pattern takes a printed number behind one space. */
  predicate TakesNumber(tail: Tail, value: real)
  {
    tail(" " + FormatNumber(value)) == Some(FormatNumber(value))
  }

  lemma BareMatches(tail: Tail, name: string, value: real)
    requires MetricName(name) && TakesNumber(tail, value)
    ensures MatchLine(tail, name + " " + FormatNumber(value)) == Some(Parts(name, "", FormatNumber(value)))
  {
    hide FormatNumber;
    hide NumberOf;
    var s := name + " " + FormatNumber(value);
    var n := |name|;
    assert s[..n] == name && s[0] == name[0] && s[n] == ' ';
    assert s[n..] == " " + FormatNumber(value);
    assert forall k :: 0 <= k < n ==> s[k] == name[k];
    NameRunAll(s, 0, n);
  }

  lemma BlockMatches(tail: Tail, name: string, labels: string, value: real)
    requires MetricName(name) && TakesNumber(tail, value)
    ensures MatchLine(tail, name + "{" + labels + "}" + " " + FormatNumber(value)) == Some(Parts(name, labels, FormatNumber(value)))
  {
    hide FormatNumber;
    hide NumberOf;
    hide NumberText;
    var t := FormatNumber(value);
    var s := name + "{" + labels + "}" + " " + t;
    var n := |name|;
    var b := n + 1 + |labels|;
    assert s[..n] == name && s[0] == name[0] && s[n] == '{' && s[b] == '}';
    assert s[b + 1..] == " " + t;
    assert s[n + 1..b] == labels;
    assert forall k :: 0 <= k < n ==> s[k] == name[k];
    NameRunAll(s, 0, n);
    NoBraceAfter(s, b, value);
    LastBraceAt(tail, s, n + 1, b, |s|);
  }

  lemma NoBraceAfter(s: string, b: nat, value: real)
    requires b < |s| && s[b + 1..] == " " + FormatNumber(value)
    ensures forall k :: b < k < |s| ==> s[k] != '}'
  {
    hide FormatNumber;
    hide NumberOf;
    hide NumberText;
    var t := FormatNumber(value);
    NumberReadsBack(value);
    forall k | b < k < |s|
      ensures s[k] != '}'
    {
      assert s[k] == s[b + 1..][k - b - 1] == (" " + t)[k - b - 1];
      if k > b + 1 {
        NumberTextPlain(t, k - b - 2);
      }
    }
  }

  /** A sample pattern takes a printed line apart into what it was printed from. */
  lemma PrintedMatches(tail: Tail, name: string, items: seq<(string, string)>, value: real)
    requires MetricName(name) && TakesNumber(tail, value)
    ensures MatchLine(tail, PrintMetric(name, items, value)) == Some(Parts(name, PrintLabels(items), FormatNumber(value)))
  {
    hide FormatNumber;
    hide MatchLine;
    if items == [] {
      BareMatches(tail, name, value);
      assert PrintMetric(name, [], value) == name + " " + FormatNumber(value);
    } else {
      hide PrintLabels;
      BlockMatches(tail, name, PrintLabels(items), value);
      assert PrintMetric(name, items, value) == name + "{" + PrintLabels(items) + "}" + " " + FormatNumber(value);
    }
  }

  // ------------------------------------------------------- breaks in a line

  lemma {:induction false} EscapeBreaks(v: string)
    ensures NoBreak(Escape(v)) <==> CleanValue(v)
  {
    if v == "" {
      assert Escape(v) == "";
    } else {
      var e, rest := EscapeChar(v[0]), Escape(v[1..]);
      EscapeCons(v);
      EscapeBreaks(v[1..]);
      BreaksOfSum(e, rest);
      assert v == [v[0]] + v[1..];
      assert NoBreak(e) <==> (IsBreak(v[0]) ==> v[0] == '\n');
      CleanOfSum([v[0]], v[1..]);
    }
  }

  lemma CleanOfSum(s: string, t: string)
    ensures CleanValue(s + t) <==> CleanValue(s) && CleanValue(t)
  {
    assert forall i :: 0 <= i < |s| ==> (s + t)[i] == s[i];
    assert forall i :: 0 <= i < |t| ==> (s + t)[|s| + i] == t[i];
  }

  lemma BreaksOfSum(s: string, t: string)
    ensures NoBreak(s + t) <==> NoBreak(s) && NoBreak(t)
  {
    assert forall i :: 0 <= i < |s| ==> (s + t)[i] == s[i];
    assert forall i :: 0 <= i < |t| ==> (s + t)[|s| + i] == t[i];
  }

  lemma LabelBreaks(key: string, value: string)
    requires Identifier(key)
    ensures NoBreak(PrintLabel(key, value)) <==> CleanValue(value)
  {
    EscapeBreaks(value);
    BreaksOfSum(key + "=\"", Escape(value));
    BreaksOfSum(key + "=\"" + Escape(value), "\"");
    BreaksOfSum(key, "=\"");
  }

  lemma {:induction false} LabelsBreaks(items: seq<(string, string)>)
    requires forall i :: 0 <= i < |items| ==> Identifier(items[i].0)
    ensures NoBreak(PrintLabels(items)) <==> CleanItems(items)
    decreases items
  {
    hide Identifier;
    hide CleanValue;
    hide PrintLabel;
    if items != [] {
      var (key, value) := items[0];
      var rest := items[1..];
      LabelBreaks(key, value);
      LabelsBreaks(rest);
      assert CleanItems(items) <==> CleanValue(value) && CleanItems(rest) by {
        assert forall i :: 0 <= i < |rest| ==> rest[i] == items[i + 1];
      }
      if |items| > 1 {
        BreaksOfSum(PrintLabel(key, value) + ",", PrintLabels(rest));
        BreaksOfSum(PrintLabel(key, value), ",");
      }
    }
  }

  lemma NumberHasNoBreak(value: real)
    ensures NoBreak(FormatNumber(value))
  {
    NumberReadsBack(value);
    forall i | 0 <= i < |FormatNumber(value)|
      ensures !IsBreak(FormatNumber(value)[i])
    {
      NumberTextPlain(FormatNumber(value), i);
    }
  }

  lemma NameHasNoBreak(name: string)
    requires MetricName(name)
    ensures NoBreak(name)
  {
  }

  lemma MiddleBreaks(head: string, middle: string, tail: string)
    requires NoBreak(head) && NoBreak(tail)
    ensures var s := head + middle + tail;
            && (NoBreak(s) <==> NoBreak(middle))
            && forall k :: 0 <= k < |s| && IsBreak(s[k]) ==> |head| <= k < |head| + |middle|
  {
    var s := head + middle + tail;
    BreaksOfSum(head + middle, tail);
    BreaksOfSum(head, middle);
    assert forall k :: 0 <= k < |head| ==> s[k] == head[k];
    assert forall k :: |head| + |middle| <= k < |s| ==> s[k] == tail[k - |head| - |middle|];
  }

  lemma EndsHaveNoBreak(name: string, value: real)
    requires MetricName(name)
    ensures NoBreak(name) && NoBreak(name + "{") && NoBreak(" " + FormatNumber(value)) && NoBreak("}" + " " + FormatNumber(value))
  {
    hide FormatNumber;
    NameHasNoBreak(name);
    NumberHasNoBreak(value);
    BreaksOfSum(name, "{");
    BreaksOfSum(" ", FormatNumber(value));
    BreaksOfSum("} ", FormatNumber(value));
    assert "}" + " " == "} ";
  }

  /** A printed line breaks exactly when one of its values does, and then inside the labels. */
  lemma LineBreaks(name: string, items: seq<(string, string)>, value: real)
    requires WellFormed(Metric(name, items, value))
    ensures NoBreak(PrintMetric(name, items, value)) <==> CleanItems(items)
    ensures var s := PrintMetric(name, items, value);
            forall k :: 0 <= k < |s| && IsBreak(s[k]) ==> items != [] && |name| < k < |name| + 1 + |PrintLabels(items)|
  {
    hide FormatNumber;
    hide PrintLabels;
    hide Identifier;
    hide IsBreak;
    assert NoBreak("");
    hide NoBreak;
    hide MetricName;
    EndsHaveNoBreak(name, value);
    LabelsBreaks(items);
    var t := FormatNumber(value);
    if items == [] {
      MiddleBreaks(name, "", " " + t);
      assert PrintMetric(name, items, value) == name + "" + (" " + t);
    } else {
      MiddleBreaks(name + "{", PrintLabels(items), "}" + " " + t);
      assert PrintMetric(name, items, value) == (name + "{") + PrintLabels(items) + ("}" + " " + t);
    }
  }

  // ------------------------------------------------------- a clean line reads

  lemma StripsToItself(name: string, items: seq<(string, string)>, value: real)
    requires MetricName(name)
    ensures Text.Strip(PrintMetric(name, items, value)) == PrintMetric(name, items, value)
    ensures PrintMetric(name, items, value) != "" && PrintMetric(name, items, value)[0] == name[0]
  {
    hide FormatNumber;
    hide PrintLabels;
    var s := PrintMetric(name, items, value);
    NumberReadsBack(value);
    NumberTextPlain(FormatNumber(value), |FormatNumber(value)| - 1);
    assert s[|s| - 1] == FormatNumber(value)[|FormatNumber(value)| - 1];
    Text.StripFixed(s);
  }

  lemma MetricReads(name: string, items: seq<(string, string)>, value: real, number: nat)
    requires WellFormed(Metric(name, items, value))
    ensures ReadLine(PrintMetric(name, items, value), number)
            == Ok(if name in ALLOWED_METRICS then Some(Sample(name, AddAll(map[], items), Fin(Rounded(value)))) else None)
  {
    hide FormatNumber;
    hide PrintLabels;
    hide ALLOWED_METRICS;
    hide NumberOf;
    hide MatchLine;
    hide ParseFrom;
    hide PrintMetric;
    hide Text.Strip;
    StripsToItself(name, items, value);
    TailReads(value);
    PrintedMatches(TailOf, name, items, value);
    NumberReadsBack(value);
    var t := PrintLabels(items);
    assert t[0..] == t;
    IdentifiersPlain(items);
    LabelsReadBack(t, 0, items, map[]);
  }

  lemma IdentifiersPlain(items: seq<(string, string)>)
    requires forall i :: 0 <= i < |items| ==> Identifier(items[i].0)
    ensures PlainKeys(items)
  {
  }

  lemma CommentReads(text: string, number: nat)
    requires WellFormed(Comment(text))
    ensures ReadLine(text, number) == Ok(None)
  {
    var left := Text.StripLeft(text);
    StripRightOf(left);
    KeepsFirst(text);
  }

  lemma {:induction false} KeepsFirst(s: string)
    requires s != "" && !Text.IsSpace(s[0])
    ensures Text.StripLeft(s) == s && Text.StripRight(s) != "" && Text.StripRight(s)[0] == s[0]
    ensures |Text.StripRight(s)| <= |s| && s[..|Text.StripRight(s)|] == Text.StripRight(s)
  {
    if Text.IsSpace(s[|s| - 1]) {
      KeepsFirst(s[..|s| - 1]);
    }
  }

  // ------------------------------------------------- a broken line is refused

  /** A value cut short before its closing quote is not read. */
  lemma {:induction false} CutValue(t: string, i: nat, v: string, q: nat, acc: string)
    requires i <= |t| && q <= |Escape(v)| && t[i..] == Escape(v)[..q]
    ensures ReadValue(t, i, acc).Err?
    decreases v
  {
    if v == "" {
      assert Escape(v) == "";
    } else {
      var e := EscapeChar(v[0]);
      EscapeCons(v);
      if q >= |e| {
        assert t[i..][..|e|] == e;
        assert t[i] == t[i..][0] == e[0];
        assert |e| == 2 ==> t[i + 1] == t[i..][1] == e[1];
        assert t[i + |e|..] == t[i..][|e|..] == Escape(v[1..])[..q - |e|];
        CutValue(t, i + |e|, v[1..], q - |e|, acc + [v[0]]);
      } else if q == 1 {
        assert t[i] == t[i..][0] == e[0];
      }
    }
  }

  /** The only braces of a printed label are in its value. */
  lemma BraceInValue(key: string, value: string, q: nat)
    requires Identifier(key) && q < |PrintLabel(key, value)| && PrintLabel(key, value)[q] == '}'
    ensures |key| + 2 <= q <= |key| + 2 + |Escape(value)|
    ensures PrintLabel(key, value)[..q] == key + ("=\"" + Escape(value)[..q - |key| - 2])
  {
    hide Escape;
    var p := PrintLabel(key, value);
    assert forall k :: 0 <= k < |key| ==> p[k] == key[k];
    assert p[|key|] == '=' && p[|key| + 1] == '"' && p[|p| - 1] == '"';
  }

  lemma CutLabel(t: string, i: nat, key: string, value: string, q: nat)
    requires i < |t| && Identifier(key) && q < |PrintLabel(key, value)| && PrintLabel(key, value)[q] == '}'
    requires t[i..] == PrintLabel(key, value)[..q]
    ensures ReadLabel(t, i).Err?
  {
    hide Escape;
    hide PrintLabel;
    hide ReadValue;
    hide Text.Strip;
    BraceInValue(key, value, q);
    PlainIdentifier(key);
    var rest := Escape(value)[..q - |key| - 2];
    KeyReads(t, i, key, rest);
    CutValue(t, i + |key| + 2, value, q - |key| - 2, "");
  }

  /** Labels cut short before a closing brace, which only a value can hold, are not read. */
  lemma {:induction false} CutLabels(t: string, i: nat, items: seq<(string, string)>, q: nat, labels: LabelMap)
    requires forall k :: 0 <= k < |items| ==> Identifier(items[k].0)
    requires i <= |t| && q < |PrintLabels(items)| && PrintLabels(items)[q] == '}' && t[i..] == PrintLabels(items)[..q]
    ensures ParseFrom(t, i, labels).Err?
    decreases items
  {
    hide Identifier;
    hide ReadLabel;
    hide PrintLabel;
    var (key, value) := items[0];
    var p := PrintLabel(key, value);
    FirstOfLabel(key, value);
    assert PrintLabels(items)[..|p|] == p;
    assert PrintLabels(items)[0] == p[0];
    if q < |p| {
      assert t[i..] == p[..q];
      assert PrintLabels(items)[q] == p[q];
      CutLabel(t, i, key, value, q);
    } else {
      var cut := q - |p| - 1;
      assert PrintLabels(items) == p + "," + PrintLabels(items[1..]);
      assert q > |p|;
      var rest := "," + PrintLabels(items[1..])[..cut];
      assert t[i..] == p + rest;
      PlainIdentifier(key);
      LabelReadsBack(t, i, key, value, rest);
      var after := i + |p|;
      assert t[after..] == t[i..][|p|..] == rest;
      assert t[after] == t[after..][0];
      assert t[after + 1..] == t[after..][1..] == PrintLabels(items[1..])[..cut];
      CutLabels(t, after + 1, items[1..], cut, labels[key := value]);
    }
  }

  lemma FirstOfLabel(key: string, value: string)
    requires Identifier(key)
    ensures |PrintLabel(key, value)| > 0 && PrintLabel(key, value)[0] != '}'
  {
  }

  lemma PlainIdentifier(key: string)
    requires Identifier(key)
    ensures PlainKey(key)
  {
  }

  lemma PrefixStripped(s: string)
    requires s != "" && !Text.IsSpace(s[0])
    ensures var p := Text.Strip(s);
            p != "" && |p| <= |s| && s[..|p|] == p
  {
    KeepsFirst(s);
  }

  /** The name of a line cut behind it, and whether a label block follows. */
  lemma CutName(p: string, name: string, s: string)
    requires MetricName(name) && name + "{" <= s && p <= s && p != ""
    ensures NameRun(p, 0) == if |p| <= |name| then |p| else |name|
    ensures |p| > |name| ==> p[..|name|] == name && p[|name|] == '{'
    ensures NameStart(p[0])
  {
    assert forall k :: 0 <= k < |name| ==> s[k] == (name + "{")[k] == name[k];
    assert s[|name|] == (name + "{")[|name|];
    assert forall k :: 0 <= k < |p| ==> p[k] == s[k];
    NameRunAll(p, 0, if |p| <= |name| then |p| else |name|);
  }

  lemma BlockInPlace(head: string, block: string, tail: string)
    ensures (head + (block + tail))[|head|..|head| + |block|] == block
  {
  }

  /** A stretch of a prefix is a prefix of the block it starts with. */
  lemma CutBlock(p: string, from: nat, b: nat, block: string, s: string)
    requires p <= s && from <= b < |p| && b < from + |block| && from + |block| <= |s| && s[from..from + |block|] == block
    ensures p[from..b] == block[..b - from] && p[b] == block[b - from]
  {
    assert p[b] == s[b] == s[from..from + |block|][b - from];
    assert p[from..b] == s[from..b] == s[from..from + |block|][..b - from];
  }

  /** A name alone is no sample. */
  lemma NameAloneTaken(tail: Tail, p: string)
    requires NameRun(p, 0) == |p| && tail("").None?
    ensures MatchLine(tail, p).None?
  {
    assert p[|p|..] == "";
  }

  /** What a pattern takes of a line whose name a brace follows. */
  lemma TakenApart(tail: Tail, p: string, n: nat) returns (b: nat)
    requires p != "" && NameRun(p, 0) == n < |p| && p[n] == '{' && MatchLine(tail, p).Some?
    ensures n + 1 <= b < |p| && p[b] == '}'
    ensures MatchLine(tail, p).value.name == p[..n] && MatchLine(tail, p).value.labels == p[n + 1..b]
  {
    b := LastBrace(tail, p, n + 1, |p|).value.0;
  }

  /** What is left of a printed line once it is cut inside the labels: if the sample
      pattern takes it at all, its labels stop before a brace in some value. */
  lemma CutMatches(p: string, name: string, items: seq<(string, string)>, value: real)
    requires MetricName(name) && items != []
    requires p != "" && p <= PrintMetric(name, items, value) && |p| < |name| + 1 + |PrintLabels(items)|
    requires MatchLine(TailOf, p).Some?
    ensures var parts := MatchLine(TailOf, p).value;
            && parts.name == name && |parts.labels| < |PrintLabels(items)|
            && PrintLabels(items)[|parts.labels|] == '}' && parts.labels == PrintLabels(items)[..|parts.labels|]
  {
    hide FormatNumber;
    hide PrintLabels;
    hide MatchLine;
    hide NameStart;
    hide NameRun;
    hide MetricName;
    hide NumberOf;
    var s, n, all := PrintMetric(name, items, value), |name|, PrintLabels(items);
    assert s == (name + "{") + (all + ("}" + " " + FormatNumber(value)));
    BlockInPlace(name + "{", all, "}" + " " + FormatNumber(value));
    CutName(p, name, s);
    NoTail();
    hide TailOf;
    if |p| > n {
      var b := TakenApart(TailOf, p, n);
      CutBlock(p, n + 1, b, all, s);
    } else {
      NameAloneTaken(TailOf, p);
    }
  }

  lemma NoTail()
    ensures TailOf("").None?
  {
  }

  /** A printed line that breaks inside its labels gives an error at its first piece. */
  lemma BrokenLineRefused(name: string, items: seq<(string, string)>, value: real, k: nat, number: nat)
    requires WellFormed(Metric(name, items, value)) && name in ALLOWED_METRICS
    requires items != [] && |name| < k < |name| + 1 + |PrintLabels(items)|
    ensures k <= |PrintMetric(name, items, value)| && ReadLine(PrintMetric(name, items, value)[..k], number).Err?
  {
    hide FormatNumber;
    hide PrintLabels;
    hide Identifier;
    hide MatchLine;
    hide ParseFrom;
    hide Text.Strip;
    hide ALLOWED_METRICS;
    hide NumberOf;
    var s := PrintMetric(name, items, value);
    var piece := s[..k];
    assert piece[0] == s[0] == name[0];
    PrefixStripped(piece);
    var p := Text.Strip(piece);
    assert p[0] == piece[0] && p == s[..|p|];
    if MatchLine(TailOf, p).Some? {
      CutMatches(p, name, items, value);
      var labels := MatchLine(TailOf, p).value.labels;
      assert labels[0..] == labels;
      CutLabels(labels, 0, items, |labels|, map[]);
    }
  }

  // ------------------------------------------------------- whole documents

  lemma {:induction false} BreakAtFirst(s: string, k: nat)
    requires k <= |s| && (k < |s| ==> IsBreak(s[k])) && forall i :: 0 <= i < k ==> !IsBreak(s[i])
    ensures BreakAt(s) == k
  {
    if k > 0 {
      BreakAtFirst(s[1..], k - 1);
    }
  }

  /** A line without breaks is the first line of a text. */
  lemma FirstLine(line: string, rest: string)
    requires NoBreak(line)
    ensures SplitLines(line + "\n" + rest) == [line] + SplitLines(rest)
  {
    var s := line + "\n" + rest;
    assert forall i :: 0 <= i < |line| ==> s[i] == line[i];
    assert s[|line|] == '\n';
    BreakAtFirst(s, |line|);
    assert s[..|line|] == line && s[|line| + 1..] == rest;
  }

  /** A broken line gives its first piece as the first line. */
  lemma FirstPiece(line: string, rest: string)
    requires !NoBreak(line)
    ensures var k := BreakAt(line);
            k < |line| && IsBreak(line[k]) && SplitLines(line + rest) != [] && SplitLines(line + rest)[0] == line[..k]
  {
    var s, k := line + rest, BreakAt(line);
    assert forall i :: 0 <= i < |line| ==> s[i] == line[i];
    BreakAtFirst(s, k);
    assert s[..k] == line[..k];
  }

  lemma NoLines()
    ensures SplitLines("") == []
  {
  }

  /** Every line of a document is read, in order: a document whose sample lines are clean
      or not of interest gives the samples of its allowed metrics. */
  lemma {:induction false} DocumentReads(doc: seq<Line>, number: nat)
    requires forall l <- doc :: WellFormed(l) && Clean(l)
    ensures ReadLines(SplitLines(PrintDoc(doc)), number) == Ok(Expected(doc))
    decreases doc
  {
    hide WellFormed;
    hide ReadLine;
    hide SplitLines;
    hide PrintLine;
    hide SampleOf;
    hide Clean;
    hide Allowed;
    if doc == [] {
      NoLines();
    } else {
      var l, rest := doc[0], doc[1..];
      assert l in doc && forall m <- rest :: m in doc;
      DocumentReads(rest, number + 1);
      LineReads(l, number);
      FirstLine(PrintLine(l), PrintDoc(rest));
      var lines := SplitLines(PrintDoc(doc));
      assert lines == [PrintLine(l)] + SplitLines(PrintDoc(rest));
      assert lines[1..] == SplitLines(PrintDoc(rest));
      assert [] + Expected(rest) == Expected(rest);
    }
  }

  lemma LineReads(l: Line, number: nat)
    requires WellFormed(l) && Clean(l)
    ensures NoBreak(PrintLine(l))
    ensures ReadLine(PrintLine(l), number) == Ok(SampleOf(l))
  {
    match l
    case Comment(text) => CommentReads(text, number);
    case Metric(name, items, value) =>
      LineBreaks(name, items, value);
      MetricReads(name, items, value, number);
  }

  lemma BrokenLine(l: Line, rest: string, number: nat)
    requires WellFormed(l) && Allowed(l) && !Clean(l)
    ensures var lines := SplitLines(PrintLine(l) + "\n" + rest);
            lines != [] && ReadLine(lines[0], number).Err?
  {
    hide ReadLine;
    hide SplitLines;
    hide PrintMetric;
    hide ALLOWED_METRICS;
    var line := PrintLine(l);
    LineBreaks(l.name, l.items, l.value);
    FirstPiece(line, "\n" + rest);
    assert line + "\n" + rest == line + ("\n" + rest);
    BrokenLineRefused(l.name, l.items, l.value, BreakAt(line), number);
  }

  /** A document of allowed metrics is read at all exactly when no label value holds a
      line break other than the newline, and then it gives exactly its samples. */
  lemma {:induction false} DocumentReadsIffClean(doc: seq<Line>, number: nat)
    requires forall l <- doc :: WellFormed(l) && Allowed(l)
    ensures var r := ReadLines(SplitLines(PrintDoc(doc)), number);
            if forall l <- doc :: Clean(l) then r == Ok(Expected(doc)) else r.Err?
    decreases doc
  {
    hide WellFormed;
    hide ReadLine;
    hide SplitLines;
    hide Clean;
    hide Allowed;
    hide PrintLine;
    hide SampleOf;
    if forall l <- doc :: Clean(l) {
      DocumentReads(doc, number);
    } else {
      var l, rest := doc[0], doc[1..];
      assert l in doc && forall m <- rest :: m in doc;
      assert doc == [l] + rest;
      if Clean(l) {
        DocumentReadsIffClean(rest, number + 1);
        LineReads(l, number);
        FirstLine(PrintLine(l), PrintDoc(rest));
        var lines := SplitLines(PrintDoc(doc));
        assert lines == [PrintLine(l)] + SplitLines(PrintDoc(rest));
        assert lines[1..] == SplitLines(PrintDoc(rest));
      } else {
        BrokenLine(l, PrintDoc(rest), number);
      }
    }
  }
}
