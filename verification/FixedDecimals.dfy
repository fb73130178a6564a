/**
 Fixed-scale decimals are canonical: at one scale, each number has one text.
 */
module FixedDecimals {
  import opened Digits
  import opened Canonical
  import Decimals

  function Whole(text: string): string {
    Magnitude(text)[..PointAt(Magnitude(text))]
  }

  function Fraction(text: string): string {
    var magnitude := Magnitude(text);
    if PointAt(magnitude) < |magnitude| then magnitude[PointAt(magnitude) + 1..] else []
  }

  /** The number of a valid text, in units of its last place. */
  ghost function Units(text: string, scale: nat): int
    requires FixedError(text, scale).None?
  {
    DigitsOfValid(text, scale);
    var units := NatOf(Whole(text) + Fraction(text));
    if text[0] == '-' then 0 - units else units
  }

  lemma DigitsOfValid(text: string, scale: nat)
    requires FixedError(text, scale).None?
    ensures text != [] && AllDigits(Whole(text) + Fraction(text))
    ensures Whole(text) != [] && |Fraction(text)| == scale && (|Whole(text)| > 1 ==> Whole(text)[0] != '0')
    ensures AllDigits(Whole(text)) && AllDigits(Fraction(text))
  {
  }

  lemma {:induction false} BelowPower(s: string)
    requires AllDigits(s)
    ensures NatOf(s) < Pow10(|s|)
  {
    if s != [] {
      BelowPower(s[..|s| - 1]);
      assert Pow10(|s|) == 10 * Pow10(|s| - 1);
    }
  }

  lemma {:induction false} LeadingDigitCounts(s: string)
    requires AllDigits(s) && s != [] && s[0] != '0'
    ensures NatOf(s) >= Pow10(|s| - 1)
  {
    if |s| > 1 {
      LeadingDigitCounts(s[..|s| - 1]);
      assert Pow10(|s| - 1) == 10 * Pow10(|s| - 2);
    } else {
      assert s[..0] == [] && NatOf(s[..0]) == 0;
    }
  }

  lemma {:induction false} SameLengthSameDigits(s: string, t: string)
    requires AllDigits(s) && AllDigits(t) && |s| == |t| && NatOf(s) == NatOf(t)
    ensures s == t
  {
    if s != [] {
      var n := |s| - 1;
      assert DigitValue(s[n]) == NatOf(s) % 10 && DigitValue(t[n]) == NatOf(t) % 10;
      SameLengthSameDigits(s[..n], t[..n]);
      assert s == s[..n] + [s[n]] && t == t[..n] + [t[n]];
    }
  }

  /** The digits of a longer valid text are a larger number. */
  lemma LongerIsLarger(s: string, t: string, scale: nat)
    requires FixedError(s, scale).None? && FixedError(t, scale).None?
    requires |Whole(s)| > |Whole(t)|
    ensures AllDigits(Whole(s) + Fraction(s)) && AllDigits(Whole(t) + Fraction(t))
    ensures NatOf(Whole(s) + Fraction(s)) > NatOf(Whole(t) + Fraction(t))
  {
    DigitsOfValid(s, scale);
    DigitsOfValid(t, scale);
    hide FixedError, Whole, Fraction;
    var a, b := Whole(s) + Fraction(s), Whole(t) + Fraction(t);
    assert a[0] == Whole(s)[0];
    LeadingDigitCounts(a);
    BelowPower(b);
    Pow10Grows(|b|, |a| - 1);
  }

  lemma SplitAround(s: string, k: nat)
    requires k < |s|
    ensures s == s[..k] + [s[k]] + s[k + 1..]
  {
  }

  /** Whether a valid text has a fraction depends on the scale alone. */
  lemma ScaleDecidesPoint(text: string, scale: nat)
    requires FixedError(text, scale).None?
    ensures text != [] && (scale > 0 <==> PointAt(Magnitude(text)) < |Magnitude(text)|)
  {
    hide PointAt;
  }

  /** Whole part and fraction determine the magnitude. */
  lemma SameMagnitude(s: string, t: string, scale: nat)
    requires FixedError(s, scale).None? && FixedError(t, scale).None?
    requires Whole(s) == Whole(t) && Fraction(s) == Fraction(t)
    ensures Magnitude(s) == Magnitude(t)
  {
    ScaleDecidesPoint(s, scale);
    ScaleDecidesPoint(t, scale);
    hide FixedError, PointAt;
    var a, b := Magnitude(s), Magnitude(t);
    if scale > 0 {
      PointIsAPoint(a);
      PointIsAPoint(b);
      SplitAround(a, PointAt(a));
      SplitAround(b, PointAt(b));
    } else {
      assert a[..|a|] == a && b[..|b|] == b;
    }
  }

  lemma SameSignSameText(s: string, t: string)
    requires s != [] && t != [] && Magnitude(s) == Magnitude(t) && (s[0] == '-' <==> t[0] == '-')
    ensures s == t
  {
    if s[0] == '-' {
      assert s == [s[0]] + s[1..] && t == [t[0]] + t[1..];
    }
  }

  lemma ZeroHasNoSign(text: string, scale: nat)
    requires FixedError(text, scale).None? && Units(text, scale) == 0
    ensures text[0] != '-'
  {
    DigitsOfValid(text, scale);
    if text[0] == '-' {
      var digits := Whole(text) + Fraction(text);
      ZeroIsAllZeros(digits);
      assert forall i :: 0 <= i < |Whole(text)| ==> Whole(text)[i] == digits[i];
      assert forall i :: 0 <= i < |Fraction(text)| ==> Fraction(text)[i] == digits[|Whole(text)| + i];
    }
  }

  lemma {:induction false} ZeroIsAllZeros(s: string)
    requires AllDigits(s) && NatOf(s) == 0
    ensures AllZeros(s)
  {
    if s != [] {
      ZeroIsAllZeros(s[..|s| - 1]);
    }
  }

  lemma SameDigitsSameParts(s: string, t: string, scale: nat)
    requires FixedError(s, scale).None? && FixedError(t, scale).None? && |Whole(s)| == |Whole(t)|
    requires AllDigits(Whole(s) + Fraction(s)) && AllDigits(Whole(t) + Fraction(t))
    requires NatOf(Whole(s) + Fraction(s)) == NatOf(Whole(t) + Fraction(t))
    ensures Whole(s) == Whole(t) && Fraction(s) == Fraction(t)
  {
    DigitsOfValid(s, scale);
    DigitsOfValid(t, scale);
    hide FixedError, Whole, Fraction;
    var a, b := Whole(s) + Fraction(s), Whole(t) + Fraction(t);
    SameLengthSameDigits(a, b);
    assert Whole(s) == a[..|Whole(s)|] == b[..|Whole(t)|] == Whole(t);
    assert Fraction(s) == a[|Whole(s)|..] == b[|Whole(t)|..] == Fraction(t);
  }

  /** At one scale, valid texts of the same number are the same text. */
  lemma FixedTextIsUnique(s: string, t: string, scale: nat)
    requires FixedError(s, scale).None? && FixedError(t, scale).None?
    ensures Units(s, scale) == Units(t, scale) <==> s == t
  {
    if Units(s, scale) == Units(t, scale) {
      DigitsOfValid(s, scale);
      DigitsOfValid(t, scale);
      if Units(s, scale) == 0 {
        ZeroHasNoSign(s, scale);
        ZeroHasNoSign(t, scale);
      }
      if |Whole(s)| > |Whole(t)| {
        LongerIsLarger(s, t, scale);
      } else if |Whole(t)| > |Whole(s)| {
        LongerIsLarger(t, s, scale);
      }
      SameDigitsSameParts(s, t, scale);
      SameMagnitude(s, t, scale);
      SameSignSameText(s, t);
    }
  }

  // ---------------------------------------------------------------------------------------
  // Which numbers have a text
  // ---------------------------------------------------------------------------------------

  lemma {:induction false} NoLeadingZero(n: nat)
    ensures |DigitsOf(n)| > 1 ==> DigitsOf(n)[0] != '0'
  {
    if n >= 10 {
      NoLeadingZero(n / 10);
      assert DigitsOf(n)[0] == DigitsOf(n / 10)[0];
    }
  }

  lemma {:induction false} DigitsWithin(n: nat, bound: nat)
    requires n < Pow10(bound) && bound > 0
    ensures |DigitsOf(n)| <= bound
  {
    var digits := DigitsOf(n);
    if |digits| > bound {
      PrintedDigitsRead(n);
      NoLeadingZero(n);
      LeadingDigitCounts(digits);
      Pow10Grows(bound, |digits| - 1);
    }
  }

  lemma {:induction false} AllZerosAreZero(s: string)
    requires AllDigits(s) && AllZeros(s)
    ensures NatOf(s) == 0
  {
    if s != [] {
      AllZerosAreZero(s[..|s| - 1]);
    }
  }

  lemma {:induction false} PointAfter(whole: string, rest: string)
    requires AllDigits(whole) && (rest != [] ==> rest[0] == '.')
    ensures PointAt(whole + rest) == |whole|
  {
    if whole == [] {
      assert whole + rest == rest;
    } else {
      assert (whole + rest)[1..] == whole[1..] + rest;
      PointAfter(whole[1..], rest);
    }
  }

  /** A sign, digits, and at a positive scale a point and a fraction. */
  function Assembled(negative: bool, whole: string, fraction: string): string {
    Decimals.Sign(negative) + (whole + if fraction == [] then [] else ['.'] + fraction)
  }

  lemma AssembledParts(negative: bool, whole: string, fraction: string)
    requires AllDigits(whole) && whole != []
    ensures var text := Assembled(negative, whole, fraction);
      && text != [] && (text[0] == '-' <==> negative)
      && PointAt(Magnitude(text)) == |whole| && (|whole| < |Magnitude(text)| <==> fraction != [])
      && Whole(text) == whole && Fraction(text) == fraction
  {
    var rest := if fraction == [] then [] else ['.'] + fraction;
    var magnitude, text := whole + rest, Assembled(negative, whole, fraction);
    PointAfter(whole, rest);
    hide PointAt;
    assert magnitude[0] == whole[0] && IsDigit(magnitude[0]);
    if negative {
      assert text[1..] == magnitude;
    } else {
      assert text == magnitude;
    }
    assert magnitude[..|whole|] == whole;
    if fraction != [] {
      assert magnitude[|whole| + 1..] == fraction;
    }
  }

  /** Assembled digits are a valid text of their number. */
  lemma AssembledIsValid(negative: bool, whole: string, fraction: string)
    requires AllDigits(whole) && AllDigits(fraction) && whole != [] && |fraction| <= MAX_FIXED_SCALE
    requires |whole| + |fraction| <= MAX_FIXED_DIGITS && (|whole| > 1 ==> whole[0] != '0')
    requires AllDigits(whole + fraction) && (negative ==> NatOf(whole + fraction) > 0)
    ensures var text := Assembled(negative, whole, fraction);
      && FixedError(text, |fraction|).None?
      && Units(text, |fraction|) == if negative then 0 - NatOf(whole + fraction) else NatOf(whole + fraction)
  {
    hide NatOf, PointAt, Magnitude, Assembled;
    AssembledParts(negative, whole, fraction);
    if AllZeros(whole) && AllZeros(fraction) {
      AllZerosAreZero(whole + fraction);
    }
  }

  /** The text a number has at a scale, if it has one. */
  lemma {:induction false} TextOf(units: int, scale: nat) returns (text: string)
    requires scale <= MAX_FIXED_SCALE && 0 - Pow10(MAX_FIXED_DIGITS) < units < Pow10(MAX_FIXED_DIGITS)
    ensures FixedError(text, scale).None? && Units(text, scale) == units
  {
    hide NatOf, FixedError, Units, Pow10;
    var n: nat := if units < 0 then -units else units;
    var digits := DigitsOf(n);
    PrintedDigitsRead(n);
    NoLeadingZero(n);
    DigitsWithin(n, MAX_FIXED_DIGITS);
    if scale == 0 {
      assert digits + [] == digits;
      AssembledIsValid(units < 0, digits, []);
      text := Assembled(units < 0, digits, []);
    } else {
      var (whole, fraction) := Decimals.SplitAt(digits, scale);
      Decimals.SplitKeepsTheNumber(digits, scale);
      AssembledIsValid(units < 0, whole, fraction);
      text := Assembled(units < 0, whole, fraction);
    }
  }

  /** The numbers with a valid text at a scale are exactly those of at most 38 digits. */
  lemma {:induction false} FixedTextExists(units: int, scale: nat)
    ensures (exists text :: FixedError(text, scale).None? && Units(text, scale) == units)
       <==> scale <= MAX_FIXED_SCALE && 0 - Pow10(MAX_FIXED_DIGITS) < units < Pow10(MAX_FIXED_DIGITS)
  {
    if scale <= MAX_FIXED_SCALE && 0 - Pow10(MAX_FIXED_DIGITS) < units < Pow10(MAX_FIXED_DIGITS) {
      hide FixedError, Units, Pow10;
      var text := TextOf(units, scale);
      assert FixedError(text, scale).None?;
    } else {
      forall text | FixedError(text, scale).None?
        ensures Units(text, scale) != units
      {
        TextIsWithin(text, scale);
      }
    }
  }

  lemma {:induction false} TextIsWithin(text: string, scale: nat)
    requires FixedError(text, scale).None?
    ensures scale <= MAX_FIXED_SCALE && 0 - Pow10(MAX_FIXED_DIGITS) < Units(text, scale) < Pow10(MAX_FIXED_DIGITS)
  {
    DigitsOfValid(text, scale);
    BelowPower(Whole(text) + Fraction(text));
    Pow10Grows(|Whole(text) + Fraction(text)|, MAX_FIXED_DIGITS);
  }
}
