/** Which texts are numbers, and which numbers they are. */
module NumberTexts {
  import opened Prelude
  import opened Decimal
  import opened Numbers
  import Text

  /** A power of ten behind a number: the letter, a sign and digits. */
  datatype Power = Power(letter: char, sign: string, digits: string)

  /** Digits, perhaps a point and more digits, perhaps a power. */
  datatype Parts = Parts(whole: string, point: bool, fraction: string, power: Option<Power>)

  predicate IsSign(s: string)
  {
    s == "" || s == "+" || s == "-"
  }

  predicate Proper(p: Parts)
  {
    && AllDigits(p.whole) && AllDigits(p.fraction) && (p.fraction != "" ==> p.point) && p.whole + p.fraction != ""
    && (p.power.Some? ==> ProperPower(p.power.value))
  }

  predicate ProperPower(e: Power)
  {
    (e.letter == 'e' || e.letter == 'E') && IsSign(e.sign) && e.digits != "" && AllDigits(e.digits)
  }

  function PowerText(power: Option<Power>): string
  {
    match power case None => "" case Some(e) => [e.letter] + (e.sign + e.digits)
  }

  function TextOf(p: Parts): string
  {
    p.whole + ((if p.point then "." + p.fraction else "") + PowerText(p.power))
  }

  function PowerOf(e: Power): real
    requires AllDigits(e.digits)
  {
    if e.sign == "-" then 1.0 / PowTen(Value(e.digits)) else PowTen(Value(e.digits))
  }

  function ValueOf(p: Parts): real
    requires Proper(p)
  {
    if p.power.Some? then Scaled(MantissaOf(p), PowerOf(p.power.value)) else MantissaOf(p)
  }

  // ------------------------------------------------------------ what is read

  lemma {:induction false} RunOfDigits(s: string, i: nat)
    requires i <= |s|
    ensures var j := DigitRun(s, i);
            (forall k :: i <= k < j ==> IsDigit(s[k])) && (j == |s| || !IsDigit(s[j]))
    decreases |s| - i
  {
    if i < |s| && IsDigit(s[i]) {
      RunOfDigits(s, i + 1);
    }
  }

  lemma ExponentAt(s: string, n: nat, digits: string)
    requires n == (if s != "" && (s[0] == '-' || s[0] == '+') then 1 else 0)
    requires s[n..] == digits && digits != "" && AllDigits(digits)
    ensures Exponent(s) == Some(if s[0] == '-' then 1.0 / PowTen(Value(digits)) else PowTen(Value(digits)))
  {
    assert s[n..|s|] == digits;
    DigitRunAll(s, n, |s|);
    hide PowTen, Value, DigitRun;
  }

  lemma ExponentReads(e: Power)
    requires ProperPower(e)
    ensures Exponent(e.sign + e.digits) == Some(PowerOf(e))
  {
    var s := e.sign + e.digits;
    Text.PartsStand(s, "", e.sign, e.digits);
    assert IsDigit(e.digits[0]) && !IsDigit('-') && !IsDigit('+');
    hide Exponent, PowTen, Value, AllDigits;
    ExponentAt(s, |e.sign|, e.digits);
  }

  lemma NoDigit(c: char)
    requires c in ".eE+-"
    ensures !IsDigit(c)
  {
  }

  /** Where the digits before the power end. */
  function EndOf(p: Parts): nat
  {
    if p.point then |p.whole| + 1 + |p.fraction| else |p.whole|
  }

  /** Where the whole part and the fraction stand. */
  predicate DigitsPlaced(s: string, p: Parts)
  {
    && |p.whole| <= EndOf(p) <= |s| && s[0..|p.whole|] == p.whole && DigitRun(s, 0) == |p.whole|
    && ((|p.whole| < |s| && s[|p.whole|] == '.') <==> p.point)
    && (p.point ==> DigitRun(s, |p.whole| + 1) == EndOf(p) && s[|p.whole| + 1..EndOf(p)] == p.fraction)
  }

  /** What stands behind them. */
  predicate PowerPlaced(s: string, j: nat, power: Option<Power>)
  {
    && j <= |s| && (power.None? <==> j == |s|)
    && (power.Some? ==> s[j] == power.value.letter && s[j + 1..] == power.value.sign + power.value.digits)
  }

  predicate Placed(s: string, p: Parts)
  {
    DigitsPlaced(s, p) && PowerPlaced(s, EndOf(p), p.power)
  }

  lemma PowerStarts(power: Option<Power>)
    requires power.Some? ==> ProperPower(power.value)
    ensures var t := PowerText(power);
            && (power.None? <==> t == "")
            && (power.Some? ==> t[0] == power.value.letter && !IsDigit(t[0]) && t[0] != '.' && t[1..] == power.value.sign + power.value.digits)
  {
    if power.Some? {
      NoDigit(power.value.letter);
    }
  }

  lemma PointStands(s: string, whole: string, fraction: string, last: string)
    requires s == whole + ("." + fraction + last)
    ensures var i, j := |whole|, |whole| + 1 + |fraction|;
            j <= |s| && s[0..i] == whole && s[i] == '.' && s[i + 1..j] == fraction && s[j..] == last
  {
    Text.Joined(".", fraction, last);
    Text.Joined(whole, ".", fraction + last);
    Text.PartsStand(s, whole, ".", fraction + last);
    Text.Joined(whole + ".", fraction, last);
    Text.PartsStand(s, whole + ".", fraction, last);
  }

  lemma PointPlaced(s: string, whole: string, fraction: string, last: string)
    requires s == whole + ("." + fraction + last) && AllDigits(whole) && AllDigits(fraction) && (last != "" ==> !IsDigit(last[0]))
    ensures var i, j := |whole|, |whole| + 1 + |fraction|;
            && j <= |s| && s[0..i] == whole && DigitRun(s, 0) == i && s[i] == '.' && DigitRun(s, i + 1) == j && s[i + 1..j] == fraction && s[j..] == last
  {
    NoDigit('.');
    hide AllDigits, IsDigit;
    PointStands(s, whole, fraction, last);
    var j := |whole| + 1 + |fraction|;
    TailOfSlice(s, j, last);
    RunAt(s, 0, |whole|, whole);
    RunAt(s, |whole| + 1, j, fraction);
  }

  lemma RunAt(s: string, i: nat, j: nat, digits: string)
    requires i <= j <= |s| && s[i..j] == digits && AllDigits(digits) && (j < |s| ==> !IsDigit(s[j]))
    ensures DigitRun(s, i) == j
  {
    DigitRunAll(s, i, j);
  }

  lemma NoPointPlaced(s: string, whole: string, last: string)
    requires s == whole + last && AllDigits(whole) && (last != "" ==> !IsDigit(last[0]))
    ensures s[0..|whole|] == whole && DigitRun(s, 0) == |whole| && s[|whole|..] == last
  {
    Text.PartsStand(s, "", whole, last);
    DigitRunAll(s, 0, |whole|);
  }

  lemma PartsInPlace(p: Parts)
    requires Proper(p)
    ensures Placed(TextOf(p), p)
  {
    if p.point {
      WithPoint(p);
    } else {
      WithoutPoint(p);
    }
  }

  lemma PowerFound(s: string, j: nat, power: Option<Power>)
    requires (power.Some? ==> ProperPower(power.value)) && j <= |s| && s[j..] == PowerText(power)
    ensures PowerPlaced(s, j, power)
  {
    PowerStarts(power);
    hide PowerText, ProperPower;
    TailOfSlice(s, j, PowerText(power));
  }

  lemma WithPoint(p: Parts)
    requires Proper(p) && p.point
    ensures Placed(TextOf(p), p)
  {
    var s, last := TextOf(p), PowerText(p.power);
    assert s == p.whole + ("." + p.fraction + last);
    PowerStarts(p.power);
    hide PowerText, TextOf, DigitRun, ProperPower, AllDigits, IsDigit, PowerPlaced;
    PointPlaced(s, p.whole, p.fraction, last);
    PowerFound(s, EndOf(p), p.power);
  }

  lemma WithoutPoint(p: Parts)
    requires Proper(p) && !p.point
    ensures Placed(TextOf(p), p)
  {
    var s, last := TextOf(p), PowerText(p.power);
    assert "" + last == last && s == p.whole + last;
    PowerStarts(p.power);
    hide PowerText, TextOf, DigitRun, ProperPower, AllDigits, IsDigit, PowerPlaced;
    NoPointPlaced(s, p.whole, last);
    PowerFound(s, EndOf(p), p.power);
    TailOfSlice(s, |p.whole|, last);
  }

  lemma TailOfSlice(s: string, j: nat, last: string)
    requires j <= |s| && s[j..] == last
    ensures (last == "" <==> j == |s|) && (last != "" ==> s[j] == last[0] && s[j + 1..] == last[1..])
  {
  }

  /** What Unsigned makes of a text whose runs of digits end at i and j. */
  lemma UnsignedIs(s: string, i: nat, dotted: bool, j: nat)
    requires i == DigitRun(s, 0) && (dotted <==> i < |s| && s[i] == '.') && j == (if dotted then DigitRun(s, i + 1) else i)
    ensures AllDigits(s[0..i]) && (dotted ==> AllDigits(s[i + 1..j]))
    ensures Unsigned(s) ==
              if i == 0 && !(dotted && j > i + 1) then None
              else
                var mantissa := Value(s[0..i]) as real + (if dotted then Fraction(s[i + 1..j]) else 0.0);
                if j == |s| then Some(mantissa)
                else if (s[j] == 'e' || s[j] == 'E') && Exponent(s[j + 1..]).Some? then Some(Scaled(mantissa, Exponent(s[j + 1..]).value))
                else None
  {
    hide DigitRun, Exponent, PowTen, Value, AllDigits, Fraction, Scaled;
  }

  function MantissaOf(p: Parts): real
    requires Proper(p)
  {
    Value(p.whole) as real + Value(p.fraction) as real / PowTen(|p.fraction|)
  }

  lemma MantissaRead(p: Parts)
    requires Proper(p)
    ensures MantissaOf(p) == Value(p.whole) as real + (if p.point then Fraction(p.fraction) else 0.0)
  {
    EmptyDigits();
    FractionIs(p.fraction);
    hide Value, PowTen, Fraction;
  }

  lemma NoPowerReads(s: string, p: Parts)
    requires Proper(p) && Placed(s, p) && p.power.None?
    ensures Unsigned(s) == Some(MantissaOf(p))
  {
    hide Unsigned, DigitRun, Exponent, PowTen, Value, MantissaOf, AllDigits, IsDigit, ProperPower, Fraction, Scaled;
    MantissaRead(p);
    UnsignedIs(s, |p.whole|, p.point, EndOf(p));
    assert p.whole == "" ==> |p.fraction| > 0;
  }

  lemma PowerReads(s: string, p: Parts)
    requires Proper(p) && Placed(s, p) && p.power.Some?
    ensures Unsigned(s) == Some(Scaled(MantissaOf(p), PowerOf(p.power.value)))
  {
    ExponentReads(p.power.value);
    hide Unsigned, DigitRun, Exponent, PowTen, Value, PowerOf, MantissaOf, AllDigits, IsDigit, Fraction, Scaled;
    MantissaRead(p);
    UnsignedIs(s, |p.whole|, p.point, EndOf(p));
    assert p.whole == "" ==> |p.fraction| > 0;
  }

  lemma UnsignedReads(s: string, p: Parts)
    requires Proper(p) && Placed(s, p)
    ensures Unsigned(s) == Some(ValueOf(p))
  {
    hide Unsigned, Placed, MantissaOf, PowerOf, Scaled;
    if p.power.Some? {
      PowerReads(s, p);
    } else {
      NoPowerReads(s, p);
    }
  }

  lemma FractionIs(digits: string)
    requires AllDigits(digits)
    ensures Fraction(digits) == Value(digits) as real / PowTen(|digits|)
  {
  }

  lemma EmptyDigits()
    ensures Value("") == 0 && PowTen(0) == 1.0 && Fraction("") == 0.0
  {
  }

  lemma SignedReads(sign: string, u: string)
    requires IsSign(sign) && u != "" && (IsDigit(u[0]) || u[0] == '.') && Unsigned(u).Some?
    ensures NumberOf(sign + u) == Some(Fin(if sign == "-" then -Unsigned(u).value else Unsigned(u).value))
  {
    var s := sign + u;
    hide Unsigned;
    assert s == sign + u + "";
    Text.PartsStand(s, sign, u, "");
    if sign == "" {
      assert s == u;
    } else {
      assert s[0] == sign[0] && s[1..] == u;
    }
    assert !IsDigit('N') && !IsDigit('I') && !IsDigit('+') && !IsDigit('-');
  }

  /** Every text of this form is the number it spells, with its sign. */
  lemma NumberReads(sign: string, p: Parts)
    requires IsSign(sign) && Proper(p)
    ensures NumberOf(sign + TextOf(p)) == Some(Fin(if sign == "-" then -ValueOf(p) else ValueOf(p)))
  {
    PartsInPlace(p);
    UnsignedReads(TextOf(p), p);
    FirstCharacter(p);
    hide TextOf, ValueOf, Unsigned, Proper, NumberOf, Placed;
    SignedReads(sign, TextOf(p));
  }

  lemma FirstCharacter(p: Parts)
    requires Proper(p)
    ensures TextOf(p) != "" && (IsDigit(TextOf(p)[0]) || TextOf(p)[0] == '.')
  {
    var s := TextOf(p);
    if p.whole != "" {
      assert s[0] == p.whole[0];
    } else {
      assert s[0] == '.';
    }
  }

  // ------------------------------------------------------------ nothing else is

  lemma ExponentParts(letter: char, s: string) returns (e: Power)
    requires Exponent(s).Some? && (letter == 'e' || letter == 'E')
    ensures ProperPower(e) && e.letter == letter && e.sign + e.digits == s
  {
    var n := if s != "" && (s[0] == '-' || s[0] == '+') then 1 else 0;
    RunOfDigits(s, n);
    e := Power(letter, s[..n], s[n..]);
    assert s[n..] == s[n..|s|];
    if n == 1 {
      assert s[..1] == [s[0]];
    }
  }

  lemma UnsignedParts(s: string) returns (p: Parts)
    requires Unsigned(s).Some?
    ensures Proper(p) && TextOf(p) == s
  {
    var i := DigitRun(s, 0);
    var dotted := i < |s| && s[i] == '.';
    var j := if dotted then DigitRun(s, i + 1) else i;
    UnsignedShape(s, i, dotted, j);
    hide Unsigned, DigitRun;
    var power: Option<Power> := None;
    if j < |s| {
      var e := ExponentParts(s[j], s[j + 1..]);
      power := Some(e);
    }
    PowerIs(s, j, power);
    hide Exponent, PowerText, ProperPower;
    p := Parts(s[..i], dotted, if dotted then s[i + 1..j] else "", power);
    Glued(s, i, j, dotted);
  }

  lemma UnsignedShape(s: string, i: nat, dotted: bool, j: nat)
    requires Unsigned(s).Some? && i == DigitRun(s, 0) && (dotted <==> i < |s| && s[i] == '.') && j == (if dotted then DigitRun(s, i + 1) else i)
    ensures i <= j <= |s| && AllDigits(s[..i]) && (dotted ==> i < j && AllDigits(s[i + 1..j])) && (i > 0 || (dotted && j > i + 1))
    ensures j < |s| ==> (s[j] == 'e' || s[j] == 'E') && Exponent(s[j + 1..]).Some?
  {
    UnsignedIs(s, i, dotted, j);
    assert s[0..i] == s[..i];
    hide Unsigned, Exponent, PowTen, Value, Fraction, AllDigits, DigitRun;
  }

  lemma PowerIs(s: string, j: nat, power: Option<Power>)
    requires j <= |s| && (power.None? <==> j == |s|)
    requires power.Some? ==> power.value.letter == s[j] && power.value.sign + power.value.digits == s[j + 1..]
    ensures PowerText(power) == s[j..]
  {
    if j < |s| {
      assert s[j..] == [s[j]] + s[j + 1..];
    }
  }

  lemma Glued(s: string, i: nat, j: nat, dotted: bool)
    requires i <= j <= |s| && (if dotted then i < j && s[i] == '.' else i == j)
    ensures s == s[..i] + ((if dotted then "." + s[i + 1..j] else "") + s[j..])
  {
    assert dotted ==> s[i..j] == "." + s[i + 1..j];
    assert s == s[..i] + (s[i..j] + s[j..]);
  }

  /** Exactly the texts of this form are finite numbers; the others that are read spell an
      infinity or a missing number. */
  lemma FiniteIff(s: string)
    ensures NumberOf(s).Some? && NumberOf(s).value.Fin? <==> exists sign, p :: IsSign(sign) && Proper(p) && s == sign + TextOf(p)
    ensures NumberOf(s) == Some(NotANumber) <==> s == "NaN"
    ensures NumberOf(s) == Some(PosInf) <==> s == "Inf" || s == "+Inf"
    ensures NumberOf(s) == Some(NegInf) <==> s == "-Inf"
  {
    hide TextOf, Unsigned, Proper;
    if sign, p :| IsSign(sign) && Proper(p) && s == sign + TextOf(p) {
      NumberReads(sign, p);
    }
    if NumberOf(s).Some? && NumberOf(s).value.Fin? {
      FiniteParts(s);
    }
  }

  lemma FiniteParts(s: string)
    requires NumberOf(s).Some? && NumberOf(s).value.Fin?
    ensures exists sign, p :: IsSign(sign) && Proper(p) && s == sign + TextOf(p)
  {
    hide TextOf, Unsigned, Proper;
    var signed := s[0] == '-' || s[0] == '+';
    var n := if signed then 1 else 0;
    assert s[0..] == s;
    var p := UnsignedParts(s[n..]);
    hide NumberOf;
    assert signed ==> s[..1] == [s[0]];
    assert s == s[..n] + TextOf(p) && IsSign(s[..n]);
  }
}
