/** What the two line patterns take of any line, printed by the gateway or not. */
module LineTexts {
  import opened Prelude
  import opened Exposition
  import opened Numbers
  import BenchText
  import Decimal
  import Escaping
  import LabelTexts
  import Text

  // --------------------------------------------------------------- characters

  /** By code points, names are made of capital and small letters, underscores, colons and,
      behind the first character, digits. */
  lemma NameCharacters(c: char)
    ensures var n := c as int;
            && (NameStart(c) <==> 65 <= n < 65 + 26 || 97 <= n < 97 + 26 || n == 95 || n == 58)
            && (NameChar(c) <==> NameStart(c) || 48 <= n < 48 + 10)
  {
  }

  /** Label keys of the benchmark are such names without a colon. */
  lemma KeyCharacters(c: char)
    ensures BenchText.KeyStart(c) <==> NameStart(c) && c as int != 58
    ensures BenchText.KeyChar(c) <==> NameChar(c) && c as int != 58
  {
  }

  // ----------------------------------------------------------------- runs

  predicate AllSpace(s: string)
  {
    forall i :: 0 <= i < |s| ==> Text.IsSpace(s[i])
  }

  predicate NoSpace(s: string)
  {
    forall i :: 0 <= i < |s| ==> !Text.IsSpace(s[i])
  }

  lemma {:induction false} SpaceEnds(s: string, i: nat, j: nat)
    requires i <= j <= |s| && AllSpace(s[i..j]) && (j < |s| ==> !Text.IsSpace(s[j]))
    ensures SpaceRun(s, i) == j
    decreases j - i
  {
    hide Text.IsSpace;
    if i < j {
      assert s[i] == s[i..j][0] && s[i + 1..j] == s[i..j][1..];
      SpaceEnds(s, i + 1, j);
    }
  }

  lemma {:induction false} TokenEnds(s: string, i: nat, j: nat)
    requires i <= j <= |s| && NoSpace(s[i..j]) && (j < |s| ==> Text.IsSpace(s[j]))
    ensures TokenRun(s, i) == j
    decreases j - i
  {
    hide Text.IsSpace;
    if i < j {
      assert s[i] == s[i..j][0] && s[i + 1..j] == s[i..j][1..];
      TokenEnds(s, i + 1, j);
    }
  }

  lemma {:induction false} NameEnds(s: string, i: nat, j: nat)
    requires i <= j <= |s| && (forall k :: i <= k < j ==> NameChar(s[k])) && (j == |s| || !NameChar(s[j]))
    ensures NameRun(s, i) == j
    decreases j - i
  {
    hide NameChar;
    if i < j {
      NameEnds(s, i + 1, j);
    }
  }

  // ----------------------------------------------------------------- tails

  /** A line's end in parts: space, a token, space and another token. */
  predicate Split(s: string, gap: string, token: string, space: string, stamp: string)
  {
    && s == gap + token + (space + stamp)
    && AllSpace(gap) && NoSpace(token) && AllSpace(space) && (token == "" ==> space == "") && (space == "" ==> stamp == "")
    && (stamp != "" ==> !Text.IsSpace(stamp[0]))
  }

  /** Where the parts stand. */
  predicate Stands(s: string, gap: string, token: string, space: string, stamp: string)
  {
    var i, j, k := |gap|, |gap| + |token|, |gap| + |token| + |space|;
    && k <= |s| && s[0..i] == gap && s[i..j] == token && s[j..k] == space && s[k..] == stamp
    && (token != "" ==> s[i] == token[0]) && (space != "" ==> s[j] == space[0]) && (stamp != "" ==> s[k] == stamp[0])
  }

  lemma SplitStands(s: string, gap: string, token: string, space: string, stamp: string)
    requires s == gap + token + (space + stamp)
    ensures Stands(s, gap, token, space, stamp) && |s| == |gap| + |token| + |space| + |stamp|
  {
    Text.PartsStand(s, gap, token, space + stamp);
    Text.Joined(gap + token, space, stamp);
    Text.PartsStand(s, gap + token, space, stamp);
    assert s[0..|gap|] == gap;
  }

  lemma TokensStand(s: string, gap: string, token: string, space: string, stamp: string)
    requires Split(s, gap, token, space, stamp)
    ensures Stands(s, gap, token, space, stamp) && |s| == |gap| + |token| + |space| + |stamp| && SpaceRun(s, 0) == |gap|
    ensures TokenRun(s, |gap|) == |gap| + |token| && (token != "" ==> SpaceRun(s, |gap| + |token|) == |gap| + |token| + |space|)
  {
    SplitStands(s, gap, token, space, stamp);
    assert (token != "" ==> !Text.IsSpace(token[0])) && (space != "" ==> Text.IsSpace(space[0]));
    hide Text.IsSpace, AllSpace, NoSpace;
    var j := |gap| + |token|;
    SpaceEnds(s, 0, |gap|);
    TokenEnds(s, |gap|, j);
    if token != "" {
      SpaceEnds(s, j, j + |space|);
    }
  }

  /** A sample line of the snapshot ends in space and a number, and perhaps a timestamp. */
  lemma TailTells(s: string, gap: string, token: string, space: string, stamp: string)
    requires Split(s, gap, token, space, stamp)
    ensures TailOf(s) == if gap != "" && NumberOf(token).Some? && (space + stamp == "" || (stamp != "" && Decimal.AllDigits(stamp))) then Some(token) else None
  {
    TokensStand(s, gap, token, space, stamp);
    EmptyIsNoNumber();
    var k := |gap| + |token| + |space|;
    StampDigits(s, k, stamp);
    TailIs(s, |gap|, |gap| + |token|, k);
    hide TailOf, NumberOf, SpaceRun, TokenRun, Text.IsSpace, AllSpace, NoSpace, Decimal.IsDigit, Decimal.AllDigits, DigitRun;
    assert space + stamp == "" <==> space == "" && stamp == "";
  }

  lemma TailIs(s: string, i: nat, j: nat, k: nat)
    requires i <= j <= k <= |s| && SpaceRun(s, 0) == i && TokenRun(s, i) == j && (i < j < |s| ==> SpaceRun(s, j) == k)
    ensures TailOf(s) == if i == 0 || NumberOf(s[i..j]).None? then None
                         else if j == |s| || (j > i && k < |s| && Decimal.IsDigit(s[k]) && DigitRun(s, k) == |s|) then Some(s[i..j])
                         else None
  {
    EmptyIsNoNumber();
    assert i == j ==> s[i..j] == "";
    hide NumberOf, SpaceRun, TokenRun, DigitRun;
  }

  lemma EmptyIsNoNumber()
    ensures NumberOf("").None?
  {
  }

  lemma StampDigits(s: string, k: nat, stamp: string)
    requires k <= |s| && s[k..] == stamp
    ensures (stamp != "" && Decimal.AllDigits(stamp)) <==> (k < |s| && Decimal.IsDigit(s[k]) && DigitRun(s, k) == |s|)
  {
    if k < |s| {
      assert s[k] == stamp[0];
      if Decimal.AllDigits(stamp) {
        assert s[k..|s|] == stamp;
        DigitRunAll(s, k, |s|);
      }
      if DigitRun(s, k) == |s| {
        assert s[k..|s|] == stamp;
      }
    }
  }

  /** A sample line of the benchmark ends in space and a finite number. */
  lemma FiniteTailTells(s: string, gap: string, token: string, space: string, stamp: string)
    requires Split(s, gap, token, space, stamp)
    ensures BenchText.FiniteTail(s)
            == if gap != "" && NumberOf(token).Some? && NumberOf(token).value.Fin? && space + stamp == "" then Some(token) else None
  {
    TokensStand(s, gap, token, space, stamp);
    EmptyIsNoNumber();
    hide NumberOf, SpaceRun, TokenRun, Text.IsSpace;
    if space + stamp == "" {
      assert s[|gap|..] == token;
    }
  }

  // ------------------------------------------------------------- whole lines

  /** The last closing brace that a tail follows. */
  lemma {:induction false} LastBraceTells(tail: Tail, s: string, from: nat, end: nat)
    requires from <= end <= |s|
    ensures var b := LastBrace(tail, s, from, end);
            && (b.None? <==> forall k :: from <= k < end && s[k] == '}' ==> tail(s[k + 1..]).None?)
            && (b.Some? ==> tail(s[b.value.0 + 1..]) == Some(b.value.1) && forall k :: b.value.0 < k < end && s[k] == '}' ==> tail(s[k + 1..]).None?)
    decreases end
  {
    if end > from {
      assert s[end - 1 + 1..] == s[end..];
      LastBraceTells(tail, s, from, end - 1);
    }
  }

  /** A line starts with n characters of a name, and no more. It is taken apart if they are
      a name, and either a tail follows at once, or an opening brace, and a tail behind the
      last closing brace that one follows: the labels are what these two braces enclose. */
  lemma MatchTells(tail: Tail, s: string, n: nat)
    requires n <= |s| && (forall i :: 0 <= i < n ==> NameChar(s[i])) && (n < |s| ==> !NameChar(s[n]))
    ensures n == 0 || !NameStart(s[0]) ==> MatchLine(tail, s) == None
    ensures n > 0 && NameStart(s[0]) && (n == |s| || s[n] != '{') ==>
              MatchLine(tail, s) == if tail(s[n..]).Some? then Some(Parts(s[..n], "", tail(s[n..]).value)) else None
    ensures n > 0 && NameStart(s[0]) && n < |s| && s[n] == '{' ==> BracesTell(tail, s, n, MatchLine(tail, s))
  {
    NameEnds(s, 0, n);
    if n == 0 || !NameStart(s[0]) {
      assert s != "" ==> !NameStart(s[0]);
    } else if n == |s| || s[n] != '{' {
      hide NameChar, NameRun, NameStart, LastBrace;
    } else {
      hide NameChar, NameRun, NameStart, LastBrace, MatchLine, BracesTell;
      MatchIs(tail, s, n);
      BracesFound(tail, s, n);
    }
  }

  lemma MatchIs(tail: Tail, s: string, n: nat)
    requires 0 < n < |s| && NameStart(s[0]) && NameRun(s, 0) == n && s[n] == '{'
    ensures MatchLine(tail, s) == FromBraces(s, n, LastBrace(tail, s, n + 1, |s|))
  {
    hide LastBrace, NameStart, NameRun;
  }

  function FromBraces(s: string, n: nat, b: Option<(nat, string)>): Option<Parts>
    requires n < |s| && (b.Some? ==> n < b.value.0 <= |s|)
  {
    if b.None? then None else Some(Parts(s[..n], s[n + 1..b.value.0], b.value.1))
  }

  lemma BracesFound(tail: Tail, s: string, n: nat)
    requires n < |s|
    ensures BracesTell(tail, s, n, FromBraces(s, n, LastBrace(tail, s, n + 1, |s|)))
  {
    LastBraceTells(tail, s, n + 1, |s|);
    hide LastBrace;
  }

  ghost predicate BracesTell(tail: Tail, s: string, n: nat, m: Option<Parts>)
    requires n < |s|
  {
    match m
    case None => forall k :: n < k < |s| && s[k] == '}' ==> tail(s[k + 1..]).None?
    case Some(p) =>
      var k := n + 1 + |p.labels|;
      && k < |s| && s[k] == '}' && p == Parts(s[..n], s[n + 1..k], p.value) && tail(s[k + 1..]) == Some(p.value)
      && forall j :: k < j < |s| && s[j] == '}' ==> tail(s[j + 1..]).None?
  }

  // ------------------------------------------------- where a label value ends

  /** Characters and escapes that the benchmark's label pattern takes in pairs. */
  predicate Paired(pieces: seq<LabelTexts.Piece>)
  {
    LabelTexts.Written(pieces) && forall i :: 0 <= i < |pieces| ==> pieces[i] != LabelTexts.Escaped('\n')
  }

  /** A value ends at the first quote that no backslash goes before. */
  lemma {:induction false} ValueEnds(t: string, i: nat, pieces: seq<LabelTexts.Piece>, e: LabelTexts.Ending)
    requires i <= |t| && Paired(pieces) && t[i..] == LabelTexts.TextOf(pieces) + LabelTexts.EndingText(e)
    ensures BenchText.OpenQuote(t, i) == if e.Closed? then Some(i + |LabelTexts.TextOf(pieces)|) else None
    decreases pieces
  {
    hide LabelTexts.TextOf, LabelTexts.EndingText, LabelTexts.PieceText, BenchText.OpenQuote, Paired;
    PiecesTaken(pieces, e);
    if pieces == [] {
      EndingQuote(t, i, e);
    } else {
      RestPaired(pieces);
      var p, rest := pieces[0], pieces[1..];
      PieceQuote(t, i, p, LabelTexts.TextOf(rest) + LabelTexts.EndingText(e));
      ValueEnds(t, i + |LabelTexts.PieceText(p)|, rest, e);
    }
  }

  /** A text of pieces begins with the first of them. */
  lemma PiecesTaken(pieces: seq<LabelTexts.Piece>, e: LabelTexts.Ending)
    ensures pieces == [] ==> LabelTexts.TextOf(pieces) == "" && LabelTexts.TextOf(pieces) + LabelTexts.EndingText(e) == LabelTexts.EndingText(e)
    ensures pieces != [] ==> var head, rest := LabelTexts.PieceText(pieces[0]), LabelTexts.TextOf(pieces[1..]);
                             && |LabelTexts.TextOf(pieces)| == |head| + |rest|
                             && LabelTexts.TextOf(pieces) + LabelTexts.EndingText(e) == head + (rest + LabelTexts.EndingText(e))
  {
    hide LabelTexts.EndingText, LabelTexts.PieceText;
    if pieces != [] {
      Text.Joined(LabelTexts.PieceText(pieces[0]), LabelTexts.TextOf(pieces[1..]), LabelTexts.EndingText(e));
    }
  }

  lemma RestPaired(pieces: seq<LabelTexts.Piece>)
    requires Paired(pieces) && pieces != []
    ensures var p := pieces[0];
            Paired(pieces[1..]) && (p.Plain? ==> p.c != '"' && p.c != '\\') && p != LabelTexts.Escaped('\n')
  {
  }

  lemma EndingQuote(t: string, i: nat, e: LabelTexts.Ending)
    requires i <= |t| && t[i..] == LabelTexts.EndingText(e)
    ensures BenchText.OpenQuote(t, i) == if e.Closed? then Some(i) else None
  {
    var s := t[i..];
    assert |s| == |t| - i;
    if !e.Ends? {
      assert t[i] == s[0];
    }
  }

  lemma PieceQuote(t: string, i: nat, p: LabelTexts.Piece, rest: string)
    requires i <= |t| && (p.Plain? ==> p.c != '"' && p.c != '\\') && p != LabelTexts.Escaped('\n') && t[i..] == LabelTexts.PieceText(p) + rest
    ensures var n := |LabelTexts.PieceText(p)|;
            i + n <= |t| && t[i + n..] == rest && BenchText.OpenQuote(t, i) == BenchText.OpenQuote(t, i + n)
  {
    var s := t[i..];
    assert t[i] == s[0];
    if p.Escaped? {
      assert t[i + 1] == s[1];
    }
    assert t[i + |LabelTexts.PieceText(p)|..] == s[|LabelTexts.PieceText(p)|..];
  }

  /** If there is none, it ends at the last quote of all. */
  lemma {:induction false} LastQuoteTells(t: string, i: nat, end: nat)
    requires end <= |t|
    ensures var q := BenchText.LastQuote(t, i, end);
            && (q.None? <==> forall k :: i <= k < end ==> t[k] != '"')
            && (q.Some? ==> q.value < end && t[q.value] == '"' && forall k :: q.value < k < end ==> t[k] != '"')
    decreases end
  {
    if end > i {
      LastQuoteTells(t, i, end - 1);
    }
  }

  /** A label found is a key, a sign and an opening quote, and the value between the quotes
      with its escapes taken back. */
  lemma LabelTells(t: string, i: nat, key: string, value: string, after: nat) returns (k: nat)
    requires i < |t| && BenchText.FindOne(t, i) == Some((key, value, after))
    ensures i < k && k + 2 < after <= |t| && key == t[i..k] && t[k] == '=' && t[k + 1] == '"' && t[after - 1] == '"'
    ensures BenchText.KeyStart(t[i]) && forall j :: i <= j < k ==> BenchText.KeyChar(t[j])
    ensures value == Escaping.Unescape(t[k + 2..after - 1])
    ensures Some(after - 1) == if BenchText.OpenQuote(t, k + 2).Some? then BenchText.OpenQuote(t, k + 2) else BenchText.LastQuote(t, k + 2, |t|)
  {
    k := BenchText.KeyRun(t, i);
    FindIs(t, i, key, value, after);
    KeyRunIs(t, i);
    ValueEndIs(t, k + 2);
    hide BenchText.FindOne, BenchText.KeyRun, BenchText.OpenQuote, BenchText.LastQuote, Escaping.Unescape, BenchText.KeyStart, BenchText.KeyChar, BenchText.ValueEnd;
  }

  lemma FindIs(t: string, i: nat, key: string, value: string, after: nat)
    requires i < |t| && BenchText.FindOne(t, i) == Some((key, value, after))
    ensures var k := BenchText.KeyRun(t, i);
            && BenchText.KeyStart(t[i]) && k + 2 < after <= |t| && t[k] == '=' && t[k + 1] == '"' && key == t[i..k]
            && BenchText.ValueEnd(t, k + 2) == Some(after - 1) && value == Escaping.Unescape(t[k + 2..after - 1])
  {
    hide BenchText.KeyRun, BenchText.ValueEnd, Escaping.Unescape, BenchText.KeyStart;
  }

  lemma ValueEndIs(t: string, i: nat)
    ensures var q := BenchText.ValueEnd(t, i);
            && q == (if BenchText.OpenQuote(t, i).Some? then BenchText.OpenQuote(t, i) else BenchText.LastQuote(t, i, |t|))
            && (q.Some? ==> t[q.value] == '"')
  {
    OpenQuoteIsQuote(t, i);
    LastQuoteTells(t, i, |t|);
    hide BenchText.OpenQuote, BenchText.LastQuote;
  }

  lemma {:induction false} KeyRunIs(t: string, i: nat)
    requires i < |t|
    ensures var j := BenchText.KeyRun(t, i);
            (forall k :: i <= k < j ==> BenchText.KeyChar(t[k])) && (BenchText.KeyStart(t[i]) ==> j > i)
    decreases |t| - i
  {
    if i + 1 < |t| && BenchText.KeyChar(t[i]) {
      KeyRunIs(t, i + 1);
    }
  }

  lemma {:induction false} OpenQuoteIsQuote(t: string, i: nat)
    ensures BenchText.OpenQuote(t, i).Some? ==> t[BenchText.OpenQuote(t, i).value] == '"'
    decreases |t| - i
  {
    if i < |t| && t[i] != '"' {
      OpenQuoteIsQuote(t, if t[i] == '\\' && i + 1 < |t| && t[i + 1] != '\n' then i + 2 else i + 1);
    }
  }
}
