/** Labels of a sample as text: printed by gateway/metrics.py, read by parse_labels of
    gateway/telemetry_snapshot.py. */
module Labels {
  import opened Prelude
  import opened Escaping
  import Text

  datatype LabelError = InvalidLabel | NotQuoted | OpenEscape | OpenValue | BadSeparator

  type LabelMap = map<string, string>

  predicate Gap(c: char) { c == ' ' || c == ',' }

  predicate Stop(c: char) { c == '=' || c == ',' }

  function Meaning(escaped: char): char
  {
    match escaped case 'n' => '\n' case 'r' => '\r' case 't' => '\t' case c => c
  }

  // ------------------------------------------------------ what is read, by position

  function SkipGap(t: string, i: nat): (j: nat)
    requires i <= |t|
    ensures i <= j <= |t|
    decreases |t| - i
  {
    if i < |t| && Gap(t[i]) then SkipGap(t, i + 1) else i
  }

  function KeyEnd(t: string, i: nat): (j: nat)
    requires i <= |t|
    ensures i <= j <= |t| && forall k :: i <= k < j ==> !Stop(t[k])
    decreases |t| - i
  {
    if i < |t| && !Stop(t[i]) then KeyEnd(t, i + 1) else i
  }

  /** A quoted value from position i on, up to and over its closing quote. */
  function ReadValue(t: string, i: nat, acc: string): (r: Result<(string, nat), LabelError>)
    ensures r.Ok? ==> i < r.value.1 <= |t|
    decreases |t| - i
  {
    if i >= |t| then Err(OpenValue)
    else if t[i] == '"' then Ok((acc, i + 1))
    else if t[i] == '\\' then
      if i + 1 >= |t| then Err(OpenEscape) else ReadValue(t, i + 2, acc + [Meaning(t[i + 1])])
    else ReadValue(t, i + 1, acc + [t[i]])
  }

  /** One label from position i on: key, value and the position behind it. */
  function ReadLabel(t: string, i: nat): (r: Result<(string, string, nat), LabelError>)
    requires i < |t|
    ensures r.Ok? ==> i < r.value.2 <= |t|
  {
    var start := SkipGap(t, i);
    var end := KeyEnd(t, start);
    var key := Text.Strip(t[start..end]);
    if key == "" || end >= |t| || t[end] != '=' then Err(InvalidLabel)
    else if end + 1 >= |t| || t[end + 1] != '"' then Err(NotQuoted)
    else match ReadValue(t, end + 2, "")
      case Err(why) => Err(why)
      case Ok((value, after)) => Ok((key, value, after))
  }

  function ParseFrom(t: string, i: nat, labels: LabelMap): Result<LabelMap, LabelError>
    decreases |t| - i
  {
    if i >= |t| then Ok(labels)
    else match ReadLabel(t, i)
      case Err(why) => Err(why)
      case Ok((key, value, after)) =>
        if after < |t| && t[after] != ',' then Err(BadSeparator)
        else ParseFrom(t, after + 1, labels[key := value])
  }

  /** The inner loops of parse_labels: one index moves over a gap, a key and a value. */
  method NextLabel(t: string, from: nat) returns (r: Result<(string, string, nat), LabelError>)
    requires from < |t|
    ensures r == ReadLabel(t, from)
  {
    hide Text.Strip;
    hide Meaning;
    var index := from;
    while index < |t| && Gap(t[index])
      invariant from <= index <= |t| && SkipGap(t, from) == SkipGap(t, index)
    {
      index := index + 1;
    }
    var keyStart := index;
    while index < |t| && !Stop(t[index])
      invariant keyStart <= index <= |t| && KeyEnd(t, keyStart) == KeyEnd(t, index)
    {
      index := index + 1;
    }
    var key := Text.Strip(t[keyStart..index]);
    if key == "" || index >= |t| || t[index] != '=' {
      return Err(InvalidLabel);
    }
    index := index + 1;
    if index >= |t| || t[index] != '"' {
      return Err(NotQuoted);
    }
    index := index + 1;
    var value, closed := "", false;
    ghost var valueStart := index;
    while index < |t| && !closed
      invariant valueStart <= index <= |t|
      invariant ReadValue(t, valueStart, "") == if closed then Ok((value, index)) else ReadValue(t, index, value)
      decreases |t| - index, !closed
    {
      var c := t[index];
      if c == '"' {
        closed := true;
      } else if c == '\\' {
        index := index + 1;
        if index >= |t| {
          return Err(OpenEscape);
        }
        value := value + [Meaning(t[index])];
      } else {
        value := value + [c];
      }
      index := index + 1;
    }
    return if closed then Ok((key, value, index)) else Err(OpenValue);
  }

  /** parse_labels: its outer loop collects labels until the text is used up. */
  method ParseLabels(t: string) returns (r: Result<LabelMap, LabelError>)
    ensures r == ParseFrom(t, 0, map[])
  {
    hide ReadLabel;
    var labels: LabelMap := map[];
    var index := 0;
    while index < |t|
      invariant ParseFrom(t, 0, map[]) == ParseFrom(t, index, labels)
      decreases |t| - index
    {
      var found := NextLabel(t, index);
      if found.Err? {
        return Err(found.error);
      }
      var (key, value, after) := found.value;
      labels := labels[key := value];
      if after < |t| && t[after] != ',' {
        return Err(BadSeparator);
      }
      index := after + 1;
    }
    return Ok(labels);
  }

  // ------------------------------------------------------------- printing

  function PrintLabel(key: string, value: string): string
  {
    key + "=\"" + Escape(value) + "\""
  }

  /** The inside of a label block, in the order of the list. */
  function PrintLabels(items: seq<(string, string)>): string
  {
    if items == [] then ""
    else if |items| == 1 then PrintLabel(items[0].0, items[0].1)
    else PrintLabel(items[0].0, items[0].1) + "," + PrintLabels(items[1..])
  }

  function AddAll(labels: LabelMap, items: seq<(string, string)>): LabelMap
    decreases items
  {
    if items == [] then labels else AddAll(labels[items[0].0 := items[0].1], items[1..])
  }

  /** A key that is not empty, holds neither separator and has no space at its ends. */
  predicate PlainKey(k: string)
  {
    k != "" && (forall i :: 0 <= i < |k| ==> !Stop(k[i])) && !Text.IsSpace(k[0]) && !Text.IsSpace(k[|k| - 1])
  }

  predicate PlainKeys(items: seq<(string, string)>)
  {
    forall i :: 0 <= i < |items| ==> PlainKey(items[i].0)
  }

  // ---------------------------------------------------- printing, then reading

  /** Where a text goes on with p, what follows p stands behind it. */
  lemma Behind(t: string, i: nat, p: string, rest: string)
    requires i <= |t| && t[i..] == p + rest
    ensures i + |p| <= |t| && t[i + |p|..] == rest && t[i..i + |p|] == p
    ensures forall k :: 0 <= k < |p| ==> t[i + k] == p[k]
  {
    var u := t[i..];
    assert |u| == |t| - i;
    assert u[..|p|] == p && u[|p|..] == rest;
    assert t[i..i + |p|] == u[..|p|] && t[i + |p|..] == u[|p|..];
    forall k | 0 <= k < |p|
      ensures t[i + k] == p[k]
    {
      assert t[i + k] == u[k] == (p + rest)[k];
    }
  }

  lemma {:induction false} ValueReadsBack(t: string, i: nat, v: string, rest: string, acc: string)
    requires i <= |t| && t[i..] == Escape(v) + "\"" + rest
    ensures ReadValue(t, i, acc) == Ok((acc + v, i + |Escape(v)| + 1))
    decreases v
  {
    assert t[i] == t[i..][0];
    if v == "" {
      assert acc + v == acc;
    } else {
      var e := EscapeChar(v[0]);
      EscapeCons(v);
      assert t[i..] == e + (Escape(v[1..]) + "\"" + rest);
      assert t[i..][|e|..] == Escape(v[1..]) + "\"" + rest;
      assert t[i + |e|..] == t[i..][|e|..];
      assert |e| == 2 ==> t[i + 1] == t[i..][1] == e[1];
      ValueReadsBack(t, i + |e|, v[1..], rest, acc + [v[0]]);
      assert acc + [v[0]] + v[1..] == acc + v;
    }
  }

  lemma {:induction false} KeyEndsAt(t: string, i: nat, j: nat)
    requires i <= j < |t| && t[j] == '=' && forall k :: i <= k < j ==> !Stop(t[k])
    ensures KeyEnd(t, i) == j
    decreases j - i
  {
    if i < j {
      KeyEndsAt(t, i + 1, j);
    }
  }

  /** A key, an equals sign and a quote are found where they stand. */
  lemma KeyReads(t: string, i: nat, key: string, rest: string)
    requires i < |t| && t[i..] == key + ("=\"" + rest) && PlainKey(key)
    ensures var end := i + |key|;
            && SkipGap(t, i) == i && KeyEnd(t, i) == end && end + 1 < |t| && t[i..end] == key && Text.Strip(key) == key
            && t[end] == '=' && t[end + 1] == '"' && t[end + 2..] == rest
  {
    var end := i + |key|;
    assert t[i] == t[i..][0] == key[0];
    assert forall k :: 0 <= k < |key| ==> t[i + k] == t[i..][k] == key[k];
    assert forall k :: i <= k < end ==> t[k] == key[k - i];
    assert t[i..end] == key;
    assert t[end] == t[i..][|key|] == '=' && t[end + 1] == t[i..][|key| + 1] == '"';
    KeyEndsAt(t, i, end);
    Text.StripFixed(key);
    assert t[end + 2..] == t[i..][|key| + 2..] == rest;
  }

  /** A printed label reads back wherever it stands. */
  lemma LabelReadsBack(t: string, i: nat, key: string, value: string, rest: string)
    requires i < |t| && t[i..] == PrintLabel(key, value) + rest && PlainKey(key)
    ensures ReadLabel(t, i) == Ok((key, value, i + |PrintLabel(key, value)|))
  {
    hide Escape;
    hide ReadValue;
    hide Text.Strip;
    assert t[i..] == key + ("=\"" + (Escape(value) + "\"" + rest));
    KeyReads(t, i, key, Escape(value) + "\"" + rest);
    ValueReadsBack(t, i + |key| + 2, value, rest, "");
    assert "" + value == value;
  }

  /** A printed list of labels reads back from wherever it ends the text. */
  lemma {:induction false} LabelsReadBack(t: string, i: nat, items: seq<(string, string)>, labels: LabelMap)
    requires i <= |t| && t[i..] == PrintLabels(items) && PlainKeys(items)
    ensures ParseFrom(t, i, labels) == Ok(AddAll(labels, items))
    decreases items
  {
    hide ReadLabel;
    hide Escape;
    hide PlainKey;
    if items != [] {
      var (key, value) := items[0];
      var rest := if |items| == 1 then "" else "," + PrintLabels(items[1..]);
      assert t[i..] == PrintLabel(key, value) + rest;
      LabelReadsBack(t, i, key, value, rest);
      var after := i + |PrintLabel(key, value)|;
      assert t[after..] == t[i..][|PrintLabel(key, value)|..] == rest;
      if |items| > 1 {
        assert t[after] == t[after..][0];
        assert t[after + 1..] == t[after..][1..] == PrintLabels(items[1..]);
        LabelsReadBack(t, after + 1, items[1..], labels[key := value]);
      }
    }
  }

  /** The list holds every entry of the map, each key once. */
  predicate Lists(items: seq<(string, string)>, m: LabelMap)
  {
    && (forall i :: 0 <= i < |items| ==> items[i].0 in m && items[i].1 == m[items[i].0])
    && (forall i, j :: 0 <= i < j < |items| ==> items[i].0 != items[j].0)
    && (forall k :: k in m ==> exists i :: 0 <= i < |items| && items[i].0 == k)
  }

  /** Later entries win; with no key twice, every entry is kept. */
  lemma {:induction false} AddAllKeeps(labels: LabelMap, items: seq<(string, string)>, k: string)
    requires forall i, j :: 0 <= i < j < |items| ==> items[i].0 != items[j].0
    ensures (forall i :: 0 <= i < |items| ==> items[i].0 != k) ==>
              (k in AddAll(labels, items) <==> k in labels) && (k in labels ==> AddAll(labels, items)[k] == labels[k])
    ensures forall i :: 0 <= i < |items| && items[i].0 == k ==> k in AddAll(labels, items) && AddAll(labels, items)[k] == items[i].1
    decreases items
  {
    if items != [] {
      AddAllKeeps(labels[items[0].0 := items[0].1], items[1..], k);
      assert forall i :: 1 <= i < |items| ==> items[i] == items[1..][i - 1];
    }
  }

  /** parse_labels recovers every label map with plain keys, whatever the values are and
      in whatever order the labels are printed. */
  lemma LabelRoundTrip(items: seq<(string, string)>, m: LabelMap)
    requires Lists(items, m) && PlainKeys(items)
    ensures ParseFrom(PrintLabels(items), 0, map[]) == Ok(m)
  {
    hide PrintLabels;
    hide ParseFrom;
    hide PlainKeys;
    var t := PrintLabels(items);
    assert t[0..] == t;
    LabelsReadBack(t, 0, items, map[]);
    forall k: string
      ensures k in AddAll(map[], items) <==> k in m
      ensures k in m ==> AddAll(map[], items)[k] == m[k]
    {
      AddAllKeeps(map[], items, k);
    }
    assert AddAll(map[], items) == m;
  }

  // ------------------------------------------------- keys that survive a reading

  lemma StripOf(s: string)
    ensures var r := Text.Strip(s);
            && (r != "" ==> !Text.IsSpace(r[0]) && !Text.IsSpace(r[|r| - 1]))
            && forall c :: c in r ==> c in s
  {
    StripLeftOf(s);
    StripRightOf(Text.StripLeft(s));
  }

  lemma {:induction false} StripLeftOf(s: string)
    ensures var r := Text.StripLeft(s);
            (r != "" ==> !Text.IsSpace(r[0])) && forall c :: c in r ==> c in s
  {
    if s != "" && Text.IsSpace(s[0]) {
      StripLeftOf(s[1..]);
    }
  }

  lemma {:induction false} StripRightOf(s: string)
    ensures var r := Text.StripRight(s);
            && (r != "" ==> r[0] == s[0] && !Text.IsSpace(r[|r| - 1])) && |r| <= |s|
            && forall c :: c in r ==> c in s
  {
    if s != "" && Text.IsSpace(s[|s| - 1]) {
      StripRightOf(s[..|s| - 1]);
    }
  }

  lemma KeyIsPlain(t: string, i: nat)
    requires i < |t| && ReadLabel(t, i).Ok?
    ensures PlainKey(ReadLabel(t, i).value.0)
  {
    var start := SkipGap(t, i);
    var raw := t[start..KeyEnd(t, start)];
    assert forall c :: c in raw ==> !Stop(c);
    StripOf(raw);
  }

  lemma {:induction false} ParsedKeysPlain(t: string, i: nat, labels: LabelMap)
    requires forall k <- labels :: PlainKey(k)
    requires ParseFrom(t, i, labels).Ok?
    ensures forall k <- ParseFrom(t, i, labels).value :: PlainKey(k)
    decreases |t| - i
  {
    if i < |t| {
      KeyIsPlain(t, i);
      var (key, value, after) := ReadLabel(t, i).value;
      ParsedKeysPlain(t, after + 1, labels[key := value]);
    }
  }

  /** A printed map comes back from parse_labels exactly when all its keys are plain. */
  lemma LabelsComeBackIff(items: seq<(string, string)>, m: LabelMap)
    requires Lists(items, m)
    ensures ParseFrom(PrintLabels(items), 0, map[]) == Ok(m) <==> forall k <- m :: PlainKey(k)
  {
    if ParseFrom(PrintLabels(items), 0, map[]) == Ok(m) {
      ParsedKeysPlain(PrintLabels(items), 0, map[]);
    }
    if forall k <- m :: PlainKey(k) {
      LabelRoundTrip(items, m);
    }
  }
}
