/** Numbers as text: format_number of gateway/metrics.py, and the number syntax that the
    sample line of gateway/telemetry_snapshot.py accepts, over exact values. */
module Numbers {
  import opened Prelude
  import opened Decimal

  datatype Number = Fin(r: real) | PosInf | NegInf | NotANumber

  const MICRO := 1000000

  function PowTen(n: nat): (p: real)
    ensures p >= 1.0
  {
    if n == 0 then 1.0 else 10.0 * PowTen(n - 1)
  }

  // ------------------------------------------------------------- reading

  /** Where the run of digits from position i ends. */
  function DigitRun(s: string, i: nat): (j: nat)
    requires i <= |s|
    ensures i <= j <= |s| && AllDigits(s[i..j])
    decreases |s| - i
  {
    if i < |s| && IsDigit(s[i]) then DigitRun(s, i + 1) else i
  }

  function Fraction(digits: string): real
    requires AllDigits(digits)
  {
    Value(digits) as real / PowTen(|digits|)
  }

  /** The power of ten after an e. */
  function Exponent(s: string): Option<real>
  {
    var from := if s != "" && (s[0] == '-' || s[0] == '+') then 1 else 0;
    if from == |s| || DigitRun(s, from) != |s| then None
    else
      var p := PowTen(Value(s[from..|s|]));
      Some(if s[0] == '-' then 1.0 / p else p)
  }

  function Scaled(mantissa: real, power: real): real
  {
    mantissa * power
  }

  /** Digits with an optional fraction and exponent. */
  function Unsigned(s: string): Option<real>
  {
    var i := DigitRun(s, 0);
    var dotted := i < |s| && s[i] == '.';
    var j := if dotted then DigitRun(s, i + 1) else i;
    if i == 0 && !(dotted && j > i + 1) then None
    else
      var mantissa := Value(s[0..i]) as real + (if dotted then Fraction(s[i + 1..j]) else 0.0);
      if j == |s| then Some(mantissa)
      else if s[j] == 'e' || s[j] == 'E' then
        var e := Exponent(s[j + 1..]);
        if e.Some? then Some(Scaled(mantissa, e.value)) else None
      else None
  }

  function NumberOf(s: string): Option<Number>
  {
    if s == "NaN" then Some(NotANumber)
    else if s == "Inf" || s == "+Inf" then Some(PosInf)
    else if s == "-Inf" then Some(NegInf)
    else if s == "" then None
    else
      var signed := s[0] == '-' || s[0] == '+';
      var u := Unsigned(if signed then s[1..] else s);
      if u.None? then None else Some(Fin(if s[0] == '-' then -u.value else u.value))
  }

  // ------------------------------------------------------------- printing

  predicate IsInteger(v: real)
  {
    v.Floor as real == v
  }

  /** The nearest whole number of millionths, a tie going to the even one. */
  function Millionths(v: real): (m: nat)
    requires v >= 0.0
  {
    var x := v * 1000000.0;
    var f := x.Floor;
    if x - f as real < 0.5 then f else if x - f as real > 0.5 then f + 1 else if f % 2 == 0 then f else f + 1
  }

  function Padded(n: nat, width: nat): (s: string)
    ensures |s| == width && AllDigits(s)
  {
    if width == 0 then "" else Padded(n / 10, width - 1) + [DigitChar(n % 10)]
  }

  function StripEnd(s: string, c: char): string
  {
    if s != "" && s[|s| - 1] == c then StripEnd(s[..|s| - 1], c) else s
  }

  /** f"{v:.6f}" for v >= 0 */
  function Fixed(v: real): string
    requires v >= 0.0
  {
    Text(Millionths(v) / MICRO) + "." + Padded(Millionths(v) % MICRO, 6)
  }

  function FormatNumber(v: real): string
  {
    if IsInteger(v) then Signed(v.Floor)
    else (if v < 0.0 then "-" else "") + StripEnd(StripEnd(Fixed(if v < 0.0 then -v else v), '0'), '.')
  }

  /** What is left of a value once it is printed. */
  function Rounded(v: real): real
  {
    if IsInteger(v) then v
    else if v < 0.0 then -(Millionths(-v) as real / 1000000.0)
    else Millionths(v) as real / 1000000.0
  }

  lemma WholeNumber(x: real, n: int)
    requires x == n as real
    ensures IsInteger(x) && x.Floor == n
  {
  }

  lemma MillionthsClose(v: real)
    requires v >= 0.0
    ensures -0.5 <= Millionths(v) as real - v * 1000000.0 <= 0.5
    ensures Millionths(v) as real == v * 1000000.0 <==> IsInteger(v * 1000000.0)
  {
    if Millionths(v) as real == v * 1000000.0 {
      WholeNumber(v * 1000000.0, Millionths(v));
    }
  }

  /** Of two nearest millionths the even one is printed. */
  lemma TieGoesToEven(v: real)
    requires v >= 0.0
    ensures var d := Millionths(v) as real - v * 1000000.0;
            d == 0.5 || d == -0.5 ==> Millionths(v) % 2 == 0
  {
  }

  lemma Opposite(x: real)
    ensures IsInteger(-x) <==> IsInteger(x)
  {
    if IsInteger(x) {
      WholeNumber(-x, -x.Floor);
    }
    if IsInteger(-x) {
      WholeNumber(x, -(-x).Floor);
    }
  }

  /** Printing is off by at most half a millionth, and by nothing exactly when the value
      is a whole number of millionths. */
  lemma RoundedClose(v: real)
    ensures -0.0000005 <= Rounded(v) - v <= 0.0000005
    ensures Rounded(v) == v <==> IsInteger(v * 1000000.0)
  {
    hide Millionths;
    if IsInteger(v) {
      WholeNumber(v * 1000000.0, v.Floor * MICRO);
    } else if v < 0.0 {
      hide IsInteger;
      MillionthsClose(-v);
      Opposite(v * 1000000.0);
      assert (-v) * 1000000.0 == -(v * 1000000.0);
    } else {
      hide IsInteger;
      MillionthsClose(v);
    }
  }

  // ----------------------------------------------------- printing, then reading

  lemma {:induction false} DigitRunAll(s: string, i: nat, j: nat)
    requires i <= j <= |s| && AllDigits(s[i..j]) && (j == |s| || !IsDigit(s[j]))
    ensures DigitRun(s, i) == j
    decreases j - i
  {
    if i < j {
      assert IsDigit(s[i..j][0]);
      assert s[i + 1..j] == s[i..j][1..];
      DigitRunAll(s, i + 1, j);
    }
  }

  lemma QuotientBelow(n: nat, p: real)
    requires n as real < 10.0 * p
    ensures (n / 10) as real < p && n / 10 * 10 + n % 10 == n
  {
    var q := n / 10;
    assert q * 10 <= n;
    assert q as real * 10.0 <= n as real;
  }

  lemma {:induction false} PaddedValue(n: nat, width: nat)
    requires n as real < PowTen(width)
    ensures Value(Padded(n, width)) == n
  {
    if width > 0 {
      QuotientBelow(n, PowTen(width - 1));
      hide PowTen;
      PaddedValue(n / 10, width - 1);
      var s := Padded(n, width);
      assert s[..|s| - 1] == Padded(n / 10, width - 1) && s[|s| - 1] == DigitChar(n % 10);
    } else {
      assert n == 0;
    }
  }

  /** Dropping the zeros at the end of a fraction does not change it. */
  lemma {:induction false} FractionStripped(digits: string)
    requires AllDigits(digits)
    ensures AllDigits(StripEnd(digits, '0')) && Fraction(StripEnd(digits, '0')) == Fraction(digits)
  {
    if digits != "" && digits[|digits| - 1] == '0' {
      var front := digits[..|digits| - 1];
      FractionStripped(front);
      assert Value(digits) == Value(front) * 10;
      SameRatio(Value(front) as real, PowTen(|front|));
    }
  }

  lemma SameRatio(x: real, y: real)
    requires y > 0.0
    ensures (x * 10.0) / (10.0 * y) == x / y
  {
    var q := x / y;
    assert q * y == x;
    assert q * (10.0 * y) == x * 10.0;
  }

  /** Zeros at the end are stripped up to the last other character. */
  lemma {:induction false} StripEndSplit(head: string, tail: string, c: char)
    requires head != "" && head[|head| - 1] != c
    ensures StripEnd(head + tail, c) == head + StripEnd(tail, c)
  {
    var s := head + tail;
    if tail == "" {
      assert s == head;
    } else if tail[|tail| - 1] == c {
      assert s[..|s| - 1] == head + tail[..|tail| - 1];
      StripEndSplit(head, tail[..|tail| - 1], c);
    }
  }

  lemma WholeRead(whole: string)
    requires whole != "" && AllDigits(whole)
    ensures Unsigned(whole) == Some(Value(whole) as real)
  {
    hide Value;
    hide Exponent;
    hide Fraction;
    assert whole[0..|whole|] == whole;
    DigitRunAll(whole, 0, |whole|);
  }

  lemma PointRead(whole: string, fraction: string)
    requires whole != "" && AllDigits(whole) && AllDigits(fraction)
    ensures Unsigned(whole + "." + fraction) == Some(Value(whole) as real + Fraction(fraction))
  {
    hide Value, Exponent, Fraction, Scaled;
    var s, n := whole + "." + fraction, |whole|;
    assert s[0..n] == whole && s[n + 1..|s|] == fraction && s[n] == '.';
    DigitRunAll(s, 0, n);
    DigitRunAll(s, n + 1, |s|);
    hide DigitRun, AllDigits;
  }

  /** The unsigned text of a whole part and a fraction. */
  lemma UnsignedReads(whole: string, fraction: string)
    requires whole != "" && AllDigits(whole) && AllDigits(fraction)
    ensures Unsigned(whole) == Some(Value(whole) as real)
    ensures Unsigned(whole + "." + fraction) == Some(Value(whole) as real + Fraction(fraction))
  {
    hide Unsigned;
    WholeRead(whole);
    PointRead(whole, fraction);
  }

  lemma SignReads(s: string)
    requires s != "" && IsDigit(s[0])
    ensures NumberOf(s) == if Unsigned(s).None? then None else Some(Fin(Unsigned(s).value))
    ensures NumberOf("-" + s) == if Unsigned(s).None? then None else Some(Fin(-Unsigned(s).value))
  {
    assert ("-" + s)[1..] == s && ("-" + s)[0] == '-' && ("-" + s)[1] == s[0];
  }

  /** A whole part and a fraction, printed without the zeros and the point they leave. */
  lemma StrippedReads(whole: string, digits: string)
    requires whole != "" && AllDigits(whole) && AllDigits(digits)
    ensures var s := StripEnd(StripEnd(whole + "." + digits, '0'), '.');
            && s != "" && IsDigit(s[0]) && IsDigit(s[|s| - 1]) && (forall c <- s :: IsDigit(c) || c == '.')
            && Unsigned(s) == Some(Value(whole) as real + Fraction(digits))
  {
    hide Unsigned;
    hide Value;
    var fraction := StripEnd(digits, '0');
    FractionStripped(digits);
    StripEndSplit(whole + ".", digits, '0');
    assert whole + "." + digits == (whole + ".") + digits;
    UnsignedReads(whole, fraction);
    if fraction == "" {
      assert whole + "." + fraction == whole + ".";
      StripEndSplit(whole, ".", '.');
      assert StripEnd(".", '.') == "";
      assert whole + "" == whole;
      EmptyFraction();
    } else {
      EndsInDigit(digits);
    }
  }

  lemma EmptyFraction()
    ensures Fraction("") == 0.0
  {
  }

  lemma {:induction false} EndsInDigit(digits: string)
    requires AllDigits(digits)
    ensures StripEnd(digits, '0') != "" ==> IsDigit(StripEnd(digits, '0')[|StripEnd(digits, '0')| - 1])
  {
    if digits != "" {
      EndsInDigit(digits[..|digits| - 1]);
    }
  }

  lemma FixedReads(v: real)
    requires v >= 0.0
    ensures var s := StripEnd(StripEnd(Fixed(v), '0'), '.');
            && s != "" && IsDigit(s[0]) && IsDigit(s[|s| - 1]) && (forall c <- s :: IsDigit(c) || c == '.')
            && Unsigned(s) == Some(Millionths(v) as real / 1000000.0)
  {
    hide Unsigned;
    hide Millionths;
    hide StripEnd;
    hide Text;
    hide Padded;
    hide AllDigits;
    var m := Millionths(v);
    StrippedReads(Text(m / MICRO), Padded(m % MICRO, 6));
    ReadBack(m / MICRO);
    SixDigits(m % MICRO);
    MillionthsSplit(m);
  }

  lemma SixDigits(n: nat)
    requires n < MICRO
    ensures Fraction(Padded(n, 6)) == n as real / 1000000.0
  {
    SixPlaces();
    PaddedValue(n, 6);
    hide PowTen;
    hide Padded;
    hide Value;
  }

  lemma SixPlaces()
    ensures PowTen(6) == 1000000.0
  {
    assert PowTen(3) == 1000.0;
  }

  lemma MillionthsSplit(m: nat)
    ensures (m / MICRO) as real + (m % MICRO) as real / 1000000.0 == m as real / 1000000.0
  {
    assert m == m / MICRO * MICRO + m % MICRO;
  }

  predicate NumberText(s: string)
  {
    s != "" && IsDigit(s[|s| - 1]) && forall c <- s :: IsDigit(c) || c == '.' || c == '-'
  }

  lemma SignedNumberText(s: string)
    requires s != "" && IsDigit(s[|s| - 1]) && forall c <- s :: IsDigit(c) || c == '.'
    ensures NumberText(s) && NumberText("-" + s)
  {
  }

  /** A printed number reads back as the value rounded to millionths; whole numbers are exact. */
  lemma NumberReadsBack(v: real)
    ensures NumberOf(FormatNumber(v)) == Some(Fin(Rounded(v)))
    ensures NumberText(FormatNumber(v))
  {
    hide NumberOf;
    hide Unsigned;
    hide StripEnd;
    hide Fixed;
    hide NumberText;
    hide Millionths;
    if IsInteger(v) {
      var t := Text(if v.Floor < 0 then -v.Floor else v.Floor);
      UnsignedReads(t, "");
      ReadBack(if v.Floor < 0 then -v.Floor else v.Floor);
      SignReads(t);
      SignedNumberText(t);
    } else {
      hide IsInteger;
      var u := if v < 0.0 then -v else v;
      FixedReads(u);
      var s := StripEnd(StripEnd(Fixed(u), '0'), '.');
      SignReads(s);
      SignedNumberText(s);
      assert "" + s == s;
    }
  }
}
