/** Decimal text of integers, and reading it back. */
module Decimal {

  predicate IsDigit(c: char)
  {
    '0' <= c <= '9'
  }

  predicate AllDigits(s: string)
  {
    forall i :: 0 <= i < |s| ==> IsDigit(s[i])
  }

  function DigitChar(d: int): (c: char)
    requires 0 <= d < 10
    ensures IsDigit(c) && DigitValue(c) == d
  {
    ('0' as int + d) as char
  }

  function DigitValue(c: char): (d: int)
    requires IsDigit(c)
    ensures 0 <= d < 10
  {
    c as int - '0' as int
  }

  /** str(n) for n >= 0. */
  function Text(n: nat): (s: string)
    ensures |s| >= 1 && AllDigits(s)
  {
    if n < 10 then [DigitChar(n)] else Text(n / 10) + [DigitChar(n % 10)]
  }

  /** int(s) for a run of digits. */
  function Value(s: string): nat
    requires AllDigits(s)
  {
    if s == "" then 0 else Value(s[..|s| - 1]) * 10 + DigitValue(s[|s| - 1])
  }

  lemma {:induction false} ReadBack(n: nat)
    ensures Value(Text(n)) == n
  {
    if n >= 10 {
      ReadBack(n / 10);
      assert Text(n)[..|Text(n)| - 1] == Text(n / 10);
    } else {
      assert Text(n)[..0] == "";
    }
  }

  /** str(i) for any integer. */
  function Signed(i: int): string
  {
    if i < 0 then "-" + Text(-i) else Text(i)
  }

  lemma SignedInjective(i: int, j: int)
    requires Signed(i) == Signed(j)
    ensures i == j
  {
    assert IsDigit(Text(if i < 0 then -i else i)[0]) && IsDigit(Text(if j < 0 then -j else j)[0]);
    if i < 0 {
      assert Signed(i)[0] == '-' && j < 0;
      assert Signed(i)[1..] == Text(-i) && Signed(j)[1..] == Text(-j);
      ReadBack(-i);
      ReadBack(-j);
    } else {
      assert j >= 0;
      ReadBack(i);
      ReadBack(j);
    }
  }

  lemma SignedHasNo(i: int, c: char)
    requires !IsDigit(c) && c != '-'
    ensures c !in Signed(i)
  {
    assert c !in Text(if i < 0 then -i else i);
  }
}
