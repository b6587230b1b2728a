/** Python string operations the gateway relies on. */
module Text {

  /** str.isspace for one character. */
  predicate IsSpace(c: char)
  {
    var n := c as int;
    0x09 <= n <= 0x0D || 0x1C <= n <= 0x20 || n == 0x85 || n == 0xA0 || n == 0x1680
    || 0x2000 <= n <= 0x200A || n == 0x2028 || n == 0x2029 || n == 0x202F || n == 0x205F || n == 0x3000
  }

  function StripLeft(s: string): string
  {
    if s != "" && IsSpace(s[0]) then StripLeft(s[1..]) else s
  }

  function StripRight(s: string): string
  {
    if s != "" && IsSpace(s[|s| - 1]) then StripRight(s[..|s| - 1]) else s
  }

  /** str.strip() */
  function Strip(s: string): string
  {
    StripRight(StripLeft(s))
  }

  /** A text with no space at either end is its own strip. */
  lemma StripFixed(s: string)
    requires s == "" || (!IsSpace(s[0]) && !IsSpace(s[|s| - 1]))
    ensures Strip(s) == s
  {
  }

  lemma {:induction false} StripLeftKeeps(s: string)
    ensures StripLeft(s) == "" || !IsSpace(StripLeft(s)[0])
    ensures (exists c <- StripLeft(s) :: !IsSpace(c)) <==> exists c <- s :: !IsSpace(c)
  {
    if s != "" && IsSpace(s[0]) {
      StripLeftKeeps(s[1..]);
      assert s == [s[0]] + s[1..];
    }
  }

  lemma {:induction false} StripRightKeeps(s: string)
    ensures (exists c <- StripRight(s) :: !IsSpace(c)) <==> exists c <- s :: !IsSpace(c)
    ensures StripRight(s) == "" || !IsSpace(StripRight(s)[|StripRight(s)| - 1])
  {
    if s != "" && IsSpace(s[|s| - 1]) {
      StripRightKeeps(s[..|s| - 1]);
      assert s == s[..|s| - 1] + [s[|s| - 1]];
    }
  }

  /** Nothing is left of a text exactly when it is all white space. */
  lemma StripsToNothing(s: string)
    ensures Strip(s) == "" <==> forall c <- s :: IsSpace(c)
  {
    StripLeftKeeps(s);
    StripRightKeeps(StripLeft(s));
    if Strip(s) != "" {
      assert Strip(s)[|Strip(s)| - 1] in Strip(s);
    }
  }

  lemma Joined(a: string, b: string, c: string)
    ensures a + b + c == a + (b + c)
  {
  }

  /** Where the parts of a text stand. */
  lemma PartsStand(s: string, a: string, b: string, c: string)
    requires s == a + b + c
    ensures |s| == |a| + |b| + |c|
    ensures s[..|a|] == a && s[|a|..|a| + |b|] == b && s[|a| + |b|..] == c
    ensures (b != "" ==> s[|a|] == b[0]) && (c != "" ==> s[|a| + |b|] == c[0])
  {
  }
}
