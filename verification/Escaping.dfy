/** How label values are escaped (gateway/metrics.py), and the two ways of undoing it. */
module Escaping {

  predicate StartsWith(s: string, prefix: string)
  {
    |prefix| <= |s| && s[..|prefix|] == prefix
  }

  /** str.replace: leftmost first, without overlaps. */
  function Replace(s: string, what: string, with: string): string
    requires what != ""
  {
    if s == "" then ""
    else if StartsWith(s, what) then with + Replace(s[|what|..], what, with)
    else [s[0]] + Replace(s[1..], what, with)
  }

  /** escape_label_value: backslashes first, then newlines, then quotes. */
  function Escape(v: string): string
  {
    Replace(Replace(Replace(v, "\\", "\\\\"), "\n", "\\n"), "\"", "\\\"")
  }

  /** unescape_label of bench/run.py */
  function Unescape(v: string): string
  {
    Replace(Replace(Replace(v, "\\n", "\n"), "\\\"", "\""), "\\\\", "\\")
  }

  // ------------------------------------------------------ escaping by character

  function EscapeChar(c: char): string
  {
    match c
    case '\\' => "\\\\"
    case '\n' => "\\n"
    case '"' => "\\\""
    case _ => [c]
  }

  lemma {:induction false} ReplaceOne(s: string, t: string, c: char, with: string)
    ensures Replace(s + t, [c], with) == Replace(s, [c], with) + Replace(t, [c], with)
  {
    if s == "" {
      assert s + t == t;
    } else {
      assert (s + t)[1..] == s[1..] + t;
      assert (s + t)[..1] == [s[0]] && s[..1] == [s[0]];
      ReplaceOne(s[1..], t, c, with);
    }
  }

  lemma ReplaceChar(d: char, c: char, with: string)
    ensures Replace([d], [c], with) == if d == c then with else [d]
  {
    assert [d][..1] == [d] && [d][1..] == "";
    assert Replace("", [c], with) == "";
    assert with + "" == with && [d] + "" == [d];
  }

  /** Three passes over the text are one pass over its characters. */
  lemma EscapeCons(v: string)
    requires v != ""
    ensures Escape(v) == EscapeChar(v[0]) + Escape(v[1..])
  {
    var c, rest := v[0], v[1..];
    assert v == [c] + rest;
    ReplaceOne([c], rest, '\\', "\\\\");
    ReplaceChar(c, '\\', "\\\\");
    var s, t := Replace([c], "\\", "\\\\"), Replace(rest, "\\", "\\\\");
    ReplaceOne(s, t, '\n', "\\n");
    var s', t' := Replace(s, "\n", "\\n"), Replace(t, "\n", "\\n");
    ReplaceOne(s', t', '"', "\\\"");
    ReplaceChar(c, '\n', "\\n");
    ReplaceChar(c, '"', "\\\"");
    if c == '\\' {
      ReplaceOne("\\", "\\", '\n', "\\n");
      ReplaceChar('\\', '\n', "\\n");
      ReplaceOne("\\", "\\", '"', "\\\"");
      ReplaceChar('\\', '"', "\\\"");
      assert ['\\'] + "\\" == "\\\\";
    } else if c == '\n' {
      ReplaceOne("\\", "n", '"', "\\\"");
      ReplaceChar('\\', '"', "\\\"");
      ReplaceChar('n', '"', "\\\"");
      assert ['\\'] + "n" == "\\n";
    }
  }

  /** An escaped text holds no newline, and only newlines, quotes and backslashes are touched. */
  lemma {:induction false} EscapeHasNoNewline(v: string)
    ensures '\n' !in Escape(v)
    ensures forall c :: c in Escape(v) ==> c in v || c in "\\n\""
  {
    if v != "" {
      EscapeCons(v);
      EscapeHasNoNewline(v[1..]);
    }
  }

  // ---------------------------------------------------- what unescape_label undoes

  /** The value with every backslash-n in it read as a backslash and a newline. */
  function Blurred(v: string): string
  {
    if v == "" then ""
    else if StartsWith(v, "\\n") then "\\\n" + Blurred(v[2..])
    else [v[0]] + Blurred(v[1..])
  }

  /** The escaped value after the first pass of unescape_label, and after the second. */
  function AfterNewlines(v: string): string
  {
    if v == "" then ""
    else if StartsWith(v, "\\n") then "\\\n" + AfterNewlines(v[2..])
    else (if v[0] == '\n' then "\n" else EscapeChar(v[0])) + AfterNewlines(v[1..])
  }

  function AfterQuotes(v: string): string
  {
    if v == "" then ""
    else if StartsWith(v, "\\n") then "\\\n" + AfterQuotes(v[2..])
    else (if v[0] == '\\' then "\\\\" else [v[0]]) + AfterQuotes(v[1..])
  }

  /** One step of a replacement of two characters. */
  lemma ReplacePair(s: string, a: char, b: char, with: string)
    requires s != ""
    ensures Replace(s, [a, b], with)
            == if |s| >= 2 && s[0] == a && s[1] == b then with + Replace(s[2..], [a, b], with) else [s[0]] + Replace(s[1..], [a, b], with)
  {
    if |s| >= 2 {
      assert s[..2] == [s[0], s[1]];
    }
  }

  lemma EscapeFirst(v: string)
    ensures v == "" <==> Escape(v) == ""
    ensures v != "" ==> Escape(v)[0] == EscapeChar(v[0])[0]
  {
    if v != "" {
      EscapeCons(v);
    }
  }

  /** The first pass over the two characters of an escaped one, and what follows them. */
  lemma FirstPassPair(e: string, rest: string)
    requires |e| == 2 && e[0] == '\\' && (rest == "" || e[1] != '\\' || rest[0] != 'n')
    ensures Replace(e + rest, "\\n", "\n") == (if e[1] == 'n' then "\n" else e) + Replace(rest, "\\n", "\n")
  {
    hide Replace;
    var s := e + rest;
    ReplacePair(s, '\\', 'n', "\n");
    assert s[2..] == rest && s[1..] == [e[1]] + rest;
    ReplacePair(s[1..], '\\', 'n', "\n");
    assert s[1..][1..] == rest;
    assert e == [e[0]] + [e[1]];
  }

  lemma FirstPassTriple(rest: string)
    ensures Replace("\\\\n" + rest, "\\n", "\n") == "\\\n" + Replace(rest, "\\n", "\n")
  {
    hide Replace;
    var s := "\\\\n" + rest;
    ReplacePair(s, '\\', 'n', "\n");
    assert s[1..][2..] == rest;
    ReplacePair(s[1..], '\\', 'n', "\n");
  }

  lemma {:induction false} FirstPass(v: string)
    ensures Replace(Escape(v), "\\n", "\n") == AfterNewlines(v)
  {
    hide Replace;
    hide Escape;
    if v == "" {
      NothingToReplace();
    } else {
      var c, rest := v[0], v[1..];
      EscapeCons(v);
      EscapeFirst(rest);
      FirstPass(rest);
      if StartsWith(v, "\\n") {
        assert rest[1..] == v[2..] && v[..2][0] == '\\' && v[..2][1] == 'n';
        EscapeCons(rest);
        FirstPass(v[2..]);
        assert Escape(v) == "\\\\n" + Escape(v[2..]);
        FirstPassTriple(Escape(v[2..]));
      } else if |EscapeChar(c)| == 2 {
        assert rest != "" && c == '\\' ==> v[..2] == [c, rest[0]];
        FirstPassPair(EscapeChar(c), Escape(rest));
      } else {
        ReplacePair(Escape(v), '\\', 'n', "\n");
        assert Escape(v)[1..] == Escape(rest);
      }
    }
  }

  lemma NothingToReplace()
    ensures Escape("") == "" && Replace("", "\\n", "\n") == "" && AfterNewlines("") == ""
  {
  }

  lemma AfterNewlinesFirst(v: string)
    ensures AfterNewlines(v) != "" ==> AfterNewlines(v)[0] != '"'
  {
  }

  lemma {:induction false} SecondPass(v: string)
    ensures Replace(AfterNewlines(v), "\\\"", "\"") == AfterQuotes(v)
  {
    if v != "" {
      hide Replace;
      var s := AfterNewlines(v);
      ReplacePair(s, '\\', '"', "\"");
      if StartsWith(v, "\\n") {
        ReplacePair(s[1..], '\\', '"', "\"");
        assert s[1..][1..] == AfterNewlines(v[2..]);
        SecondPass(v[2..]);
      } else {
        var head := if v[0] == '\n' then "\n" else EscapeChar(v[0]);
        assert s == head + AfterNewlines(v[1..]);
        SecondPass(v[1..]);
        if |head| == 2 {
          AfterNewlinesFirst(v[1..]);
          ReplacePair(s[1..], '\\', '"', "\"");
          assert s[1..][1..] == s[2..] == AfterNewlines(v[1..]);
        } else {
          assert s[1..] == AfterNewlines(v[1..]);
        }
      }
    } else {
      assert AfterNewlines(v) == "";
    }
  }

  lemma {:induction false} ThirdPass(v: string)
    ensures Replace(AfterQuotes(v), "\\\\", "\\") == Blurred(v)
  {
    if v != "" {
      var s := AfterQuotes(v);
      ReplacePair(s, '\\', '\\', "\\");
      if StartsWith(v, "\\n") {
        ReplacePair(s[1..], '\\', '\\', "\\");
        assert s[1..][1..] == AfterQuotes(v[2..]);
        ThirdPass(v[2..]);
      } else {
        var head := if v[0] == '\\' then "\\\\" else [v[0]];
        assert s == head + AfterQuotes(v[1..]);
        ThirdPass(v[1..]);
        assert s[|head|..] == AfterQuotes(v[1..]);
      }
    }
  }

  /** What unescape_label makes of an escaped value: every backslash before an n comes
      back as itself, but the n comes back as a newline. */
  lemma UnescapeEscape(v: string)
    ensures Unescape(Escape(v)) == Blurred(v)
  {
    hide Replace;
    FirstPass(v);
    SecondPass(v);
    ThirdPass(v);
  }

  predicate HasBackslashN(v: string)
  {
    exists i :: 0 <= i < |v| - 1 && v[i] == '\\' && v[i + 1] == 'n'
  }

  lemma HasInTail(v: string)
    requires v != "" && !StartsWith(v, "\\n")
    ensures HasBackslashN(v) <==> HasBackslashN(v[1..])
  {
    var t := v[1..];
    assert |v| >= 2 ==> v[..2] == [v[0], v[1]];
    if HasBackslashN(v) {
      var i :| 0 <= i < |v| - 1 && v[i] == '\\' && v[i + 1] == 'n';
      assert i > 0;
      assert t[i - 1] == '\\' && t[i - 1 + 1] == 'n';
    }
    if HasBackslashN(t) {
      var i :| 0 <= i < |t| - 1 && t[i] == '\\' && t[i + 1] == 'n';
      assert v[i + 1] == '\\' && v[i + 1 + 1] == 'n';
    }
  }

  lemma {:induction false} BlurredIsSame(v: string)
    ensures Blurred(v) == v <==> !HasBackslashN(v)
  {
    if v != "" {
      if StartsWith(v, "\\n") {
        assert v[..2][0] == v[0] && v[..2][1] == v[1];
        assert v[0] == '\\' && v[0 + 1] == 'n';
        assert Blurred(v)[1] == '\n';
      } else {
        var t := v[1..];
        BlurredIsSame(t);
        HasInTail(v);
        assert v == [v[0]] + t;
        assert Blurred(v)[1..] == Blurred(t);
      }
    }
  }

  /** unescape_label gives an escaped value back exactly when the value has no backslash
      followed by an n. */
  lemma UnescapeInverts(v: string)
    ensures Unescape(Escape(v)) == v <==> !HasBackslashN(v)
  {
    UnescapeEscape(v);
    BlurredIsSame(v);
  }
}
