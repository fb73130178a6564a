/**
 Exact decimals of provider numbers: parsing a JSON number's text, and printing it back.
 */
module Decimals {
  import opened Arithmetic
  import opened Wrappers
  import opened Digits

  const MAX_DECIMAL_SCALE: nat := 18
  const U8_MAX: nat := 255

  /** `coefficient * 10^-scale`. */
  datatype Decimal = Decimal(coefficient: int, scale: nat) {
    predicate Canonical() {
      && I64_MIN <= coefficient <= I64_MAX
      && scale <= MAX_DECIMAL_SCALE
      && (scale == 0 || coefficient % 10 != 0)
      && (coefficient != 0 || scale == 0)
    }
  }

  // ---------------------------------------------------------------------------------------
  // What a text denotes
  // ---------------------------------------------------------------------------------------

  /** Where the first of `marks` is in a text, or its end. */
  function Find(text: string, marks: set<char>): (i: nat)
    ensures i <= |text| && (i < |text| ==> text[i] in marks)
    ensures forall j :: 0 <= j < i ==> text[j] !in marks
  {
    if text == [] || text[0] in marks then 0 else 1 + Find(text[1..], marks)
  }

  function Before(text: string, marks: set<char>): string {
    text[..Find(text, marks)]
  }

  function After(text: string, marks: set<char>): Option<string> {
    if Find(text, marks) < |text| then Some(text[Find(text, marks) + 1..]) else None
  }

  function Unsigned(text: string): string {
    if text != [] && (text[0] == '-' || text[0] == '+') then text[1..] else text
  }

  predicate Negative(text: string) {
    text != [] && text[0] == '-'
  }

  function Mantissa(text: string): string {
    Before(text, {'e', 'E'})
  }

  function Whole(text: string): string {
    Before(Unsigned(Mantissa(text)), {'.'})
  }

  function Fraction(text: string): string {
    var fraction := After(Unsigned(Mantissa(text)), {'.'});
    if fraction.Some? then fraction.value else []
  }

  predicate IsInteger(text: string) {
    Unsigned(text) != [] && AllDigits(Unsigned(text))
  }

  ghost function IntegerOf(text: string): int
    requires IsInteger(text)
  {
    if Negative(text) then 0 - NatOf(Unsigned(text)) else NatOf(Unsigned(text))
  }

  /** A sign, digits, a fraction and an exponent, all but the digits optional. */
  predicate WellFormed(text: string) {
    && Whole(text) != [] && AllDigits(Whole(text)) && AllDigits(Fraction(text))
    && After(Unsigned(Mantissa(text)), {'.'}) != Some([])
    && var exponent := After(text, {'e', 'E'});
       exponent.Some? ==> IsInteger(exponent.value)
  }

  ghost function Exponent(text: string): int
    requires WellFormed(text)
  {
    var exponent := After(text, {'e', 'E'});
    if exponent.Some? then IntegerOf(exponent.value) else 0
  }

  /** A well-formed text denotes `Coefficient * 10^-Scale`. */
  ghost function Coefficient(text: string): int
    requires WellFormed(text)
  {
    var digits := NatOf(Whole(text) + Fraction(text));
    if Negative(Mantissa(text)) then 0 - digits else digits
  }

  ghost function Scale(text: string): int
    requires WellFormed(text)
  {
    |Fraction(text)| - Exponent(text)
  }

  /** `a * 10^-s` and `b * 10^-t` are the same number. */
  ghost predicate Same(a: int, s: int, b: int, t: int) {
    if s <= t then Shifted(a, t - s) == b else Shifted(b, s - t) == a
  }

  ghost predicate Denotes(d: Decimal, text: string)
    requires WellFormed(text)
  {
    Same(d.coefficient, d.scale, Coefficient(text), Scale(text))
  }

  /** Some canonical decimal is exactly the number denoted. */
  ghost predicate Representable(text: string)
    requires WellFormed(text)
  {
    exists d: Decimal :: d.Canonical() && Denotes(d, text)
  }

  /** The texts parsed: well-formed and exactly representable, with digits, fraction and exponent that
      fit the parser's own integers, and for a zero a scale within its range. */
  ghost predicate Accepted(text: string) {
    && WellFormed(text) && Representable(text)
    && -I32_MAX - 1 <= Exponent(text) <= I32_MAX
    && |Fraction(text)| <= I32_MAX
    && NatOf(Whole(text) + Fraction(text)) <= I128_MAX
    && (Coefficient(text) == 0 ==> -38 <= Scale(text) <= I32_MAX)
  }

  // ---------------------------------------------------------------------------------------
  // Sameness
  // ---------------------------------------------------------------------------------------

  lemma SameTransitive(a: int, s: int, b: int, t: int, c: int, u: int)
    requires Same(a, s, b, t) && Same(b, t, c, u)
    ensures Same(a, s, c, u)
  {
    // Over the widest scale w all three are the same integer.
    var w := if s >= t && s >= u then s else if t >= u then t else u;
    Widened(a, s, b, t, w);
    Widened(b, t, c, u, w);
    Narrowed(a, s, c, u, w);
  }

  lemma Widened(a: int, s: int, b: int, t: int, w: int)
    requires Same(a, s, b, t) && s <= w && t <= w
    ensures Shifted(a, w - s) == Shifted(b, w - t)
  {
    if s <= t {
      ShiftedTwice(a, t - s, w - t);
    } else {
      ShiftedTwice(b, s - t, w - s);
    }
  }

  lemma {:induction false} Narrowed(a: int, s: int, b: int, t: int, w: int)
    requires s <= w && t <= w && Shifted(a, w - s) == Shifted(b, w - t)
    ensures Same(a, s, b, t)
  {
    if s <= t {
      ShiftedTwice(a, t - s, w - t);
      ShiftedIsInjective(Shifted(a, t - s), b, w - t);
    } else {
      ShiftedTwice(b, s - t, w - s);
      ShiftedIsInjective(Shifted(b, s - t), a, w - s);
    }
  }

  lemma SameSymmetric(a: int, s: int, b: int, t: int)
    requires Same(a, s, b, t)
    ensures Same(b, t, a, s)
  {
    assert Shifted(a, 0) == a && Shifted(b, 0) == b;
  }

  /** A number without trailing fractional zeros is written in one way. */
  lemma {:induction false} LowestTermsAreUnique(a: int, s: nat, b: int, t: nat)
    requires Same(a, s, b, t)
    requires (s == 0 || a % 10 != 0) && (t == 0 || b % 10 != 0)
    ensures a == b && s == t
  {
    if s < t {
      LongerEndsInZero(a, b, t - s);
    } else if t < s {
      LongerEndsInZero(b, a, s - t);
    }
  }

  lemma {:induction false} LongerEndsInZero(a: int, b: int, n: nat)
    requires n > 0 && Shifted(a, n) == b
    ensures b % 10 == 0
  {
    assert b == 10 * Shifted(a, n - 1);
  }

  /** Two canonical decimals of one number are equal. */
  lemma {:induction false} CanonicalIsUnique(a: Decimal, b: Decimal)
    requires a.Canonical() && b.Canonical() && Same(a.coefficient, a.scale, b.coefficient, b.scale)
    ensures a == b
  {
    LowestTermsAreUnique(a.coefficient, a.scale, b.coefficient, b.scale);
  }

  /** The width of canonical decimals: 64 signed bits of coefficient, and a scale of at most 18. */
  lemma CanonicalWidth(coefficient: int, scale: nat)
    ensures Decimal(coefficient, 0).Canonical() <==> -0x8000_0000_0000_0000 <= coefficient < 0x8000_0000_0000_0000
    ensures Decimal(1, scale).Canonical() <==> scale <= 18
    ensures Decimal(coefficient, scale).Canonical() && scale > 0 ==> coefficient % 10 != 0
  {
  }

  /** Texts of the same number. */
  ghost predicate SameNumber(text: string, other: string)
    requires WellFormed(text) && WellFormed(other)
  {
    Same(Coefficient(text), Scale(text), Coefficient(other), Scale(other))
  }

  /** Accepted texts of the same number denote one canonical decimal. */
  lemma {:induction false} SameNumberSameDecimal(text: string, other: string, d: Decimal, e: Decimal)
    requires WellFormed(text) && WellFormed(other)
    requires d.Canonical() && e.Canonical() && Denotes(d, text) && Denotes(e, other)
    ensures SameNumber(text, other) <==> d == e
  {
    SameSymmetric(d.coefficient, d.scale, Coefficient(text), Scale(text));
    SameSymmetric(e.coefficient, e.scale, Coefficient(other), Scale(other));
    if SameNumber(text, other) {
      SameTransitive(d.coefficient, d.scale, Coefficient(text), Scale(text), Coefficient(other), Scale(other));
      SameTransitive(d.coefficient, d.scale, Coefficient(other), Scale(other), e.coefficient, e.scale);
      CanonicalIsUnique(d, e);
    } else if d == e {
      SameTransitive(Coefficient(text), Scale(text), d.coefficient, d.scale, Coefficient(other), Scale(other));
    }
  }

  // ---------------------------------------------------------------------------------------
  // Parsing
  // ---------------------------------------------------------------------------------------

  /** Some canonical decimal is `c * 10^-s`. */
  ghost predicate HasCanonical(c: int, s: int) {
    exists d: Decimal :: d.Canonical() && Same(d.coefficient, d.scale, c, s)
  }

  lemma {:induction false} CanonicalIsSmall(d: Decimal, c: int, s: int)
    requires d.Canonical() && Same(d.coefficient, d.scale, c, s)
    ensures s <= 0 ==> I64_MIN <= c <= I64_MAX
    ensures s > MAX_DECIMAL_SCALE && c != 0 ==> Pow10(s - MAX_DECIMAL_SCALE) <= if c < 0 then -c else c
  {
    if s <= d.scale {
      SameSymmetric(d.coefficient, d.scale, c, s);
      ShiftedGrows(c, d.scale - s);
    } else {
      ShiftedGrows(d.coefficient, s - d.scale);
      if s > MAX_DECIMAL_SCALE {
        Pow10Grows(s - MAX_DECIMAL_SCALE, s - d.scale);
      }
    }
  }

  /** In lowest terms, a number has a canonical decimal only if it is one. */
  lemma {:induction false} LowestTermsDecide(c: int, s: nat, c0: int, s0: int)
    requires Same(c, s, c0, s0) && (s == 0 || c % 10 != 0)
    ensures HasCanonical(c0, s0) <==> Decimal(c, s).Canonical()
  {
    if Decimal(c, s).Canonical() {
      assert Same(Decimal(c, s).coefficient, Decimal(c, s).scale, c0, s0);
    }
    if HasCanonical(c0, s0) {
      var d: Decimal :| d.Canonical() && Same(d.coefficient, d.scale, c0, s0);
      SameSymmetric(c, s, c0, s0);
      SameTransitive(d.coefficient, d.scale, c0, s0, c, s);
      LowestTermsAreUnique(d.coefficient, d.scale, c, s);
    }
  }

  lemma OneDigitMore(c: int, s: int, c0: int, s0: int)
    requires Same(c, s, c0, s0)
    ensures Same(10 * c, s + 1, c0, s0)
  {
    assert Shifted(c, 1) == 10 * Shifted(c, 0);
    assert Same(10 * c, s + 1, c, s);
    SameTransitive(10 * c, s + 1, c, s, c0, s0);
  }

  lemma OneDigitLess(c: int, s: int, c0: int, s0: int)
    requires Same(c, s, c0, s0) && c % 10 == 0
    ensures Same(c / 10, s - 1, c0, s0)
  {
    assert Shifted(c / 10, 1) == 10 * Shifted(c / 10, 0);
    assert Same(c / 10, s - 1, c, s);
    SameTransitive(c / 10, s - 1, c, s, c0, s0);
  }

  lemma SameItself(c: int, s: int)
    ensures Same(c, s, c, s)
  {
  }

  /** Brings `c0 * 10^-s0` into canonical form, if it has one. */
  method Canonicalize(c0: int, s0: int) returns (r: Option<Decimal>)
    requires -I128_MAX <= c0 <= I128_MAX && -38 <= s0 <= I32_MAX
    ensures r.Some? <==> HasCanonical(c0, s0)
    ensures r.Some? ==> r.value.Canonical() && Same(r.value.coefficient, r.value.scale, c0, s0)
  {
    hide Same;
    var coefficient, scale := c0, s0;
    SameItself(c0, s0);
    while scale < 0
      invariant scale <= 0 || scale == s0
      invariant Same(coefficient, scale, c0, s0)
    {
      OneDigitMore(coefficient, scale, c0, s0);
      if !(-I128_MAX - 1 <= 10 * coefficient <= I128_MAX) {
        if HasCanonical(c0, s0) {
          var d: Decimal :| d.Canonical() && Same(d.coefficient, d.scale, c0, s0);
          SameSymmetric(10 * coefficient, scale + 1, c0, s0);
          SameTransitive(d.coefficient, d.scale, c0, s0, 10 * coefficient, scale + 1);
          CanonicalIsSmall(d, 10 * coefficient, scale + 1);
        }
        return None;
      }
      coefficient, scale := 10 * coefficient, scale + 1;
    }
    while scale > 0 && coefficient % 10 == 0
      invariant scale >= 0 && Same(coefficient, scale, c0, s0)
    {
      OneDigitLess(coefficient, scale, c0, s0);
      coefficient, scale := coefficient / 10, scale - 1;
    }
    if coefficient == 0 {
      scale := 0;
    }
    LowestTermsDecide(coefficient, scale, c0, s0);
    if !(I64_MIN <= coefficient <= I64_MAX) || scale > U8_MAX {
      return None;
    }
    var value := Decimal(coefficient, scale);
    return if value.Canonical() then Some(value) else None;
  }

  /** Reads an exponent. */
  method ReadI32(text: string) returns (r: Option<int>)
    ensures r.Some? <==> IsInteger(text) && -I32_MAX - 1 <= IntegerOf(text) <= I32_MAX
    ensures r.Some? ==> r.value == IntegerOf(text)
  {
    var unsigned := Unsigned(text);
    if unsigned == [] || !AllDigits(unsigned) {
      return None;
    }
    var n := ReadDigits(unsigned, if Negative(text) then I32_MAX + 1 else I32_MAX);
    if n.None? {
      return None;
    }
    var value: int := n.value;
    return Some(if Negative(text) then -value else value);
  }

  /** A scale past the parser's integers is no representable number's, unless zero's. */
  lemma LargeScaleIsZero(text: string)
    requires WellFormed(text) && Representable(text)
    requires NatOf(Whole(text) + Fraction(text)) <= I128_MAX && Scale(text) > I32_MAX
    ensures Coefficient(text) == 0
  {
    hide Pow10, Same, Whole, Fraction, Exponent, Decimal.Canonical;
    if Coefficient(text) != 0 {
      var d: Decimal :| d.Canonical() && Denotes(d, text);
      CanonicalIsSmall(d, Coefficient(text), Scale(text));
      Pow10Grows(39, Scale(text) - MAX_DECIMAL_SCALE);
      Pow10Of39();
    }
  }

  /** Nor is one of fewer than -38. */
  lemma SmallScaleIsZero(text: string)
    requires WellFormed(text) && Representable(text) && Scale(text) < -38
    ensures Coefficient(text) == 0
  {
    if Coefficient(text) != 0 {
      var d: Decimal :| d.Canonical() && Denotes(d, text);
      var c, s := Coefficient(text), Scale(text);
      // d.coefficient == c * 10^(d.scale - s), at least 10^39 either way.
      assert s <= d.scale;
      SameSymmetric(d.coefficient, d.scale, c, s);
      Pow10Grows(39, d.scale - s);
      Pow10Of39();
      ShiftedGrows(c, d.scale - s);
    }
  }

  /** Parses a JSON number exactly: accepted texts give their one canonical decimal, none is rounded. */
  method Parse(text: string) returns (r: Option<Decimal>)
    ensures r.Some? <==> Accepted(text)
    ensures r.Some? ==> r.value.Canonical() && Denotes(r.value, text)
  {
    hide Same, Decimal.Canonical, Whole, Fraction;
    var exponent := 0;
    var exponentText := After(text, {'e', 'E'});
    if exponentText.Some? {
      var read := ReadI32(exponentText.value);
      if read.None? {
        return None;
      }
      exponent := read.value;
    }
    var whole, fraction := Whole(text), Fraction(text);
    if whole == [] || After(Unsigned(Mantissa(text)), {'.'}) == Some([]) || !AllDigits(whole) || !AllDigits(fraction) {
      return None;
    }
    var digits := ReadDigits(whole + fraction, I128_MAX);
    if digits.None? {
      return None;
    }
    var coefficient: int := digits.value;
    if Negative(Mantissa(text)) {
      coefficient := -coefficient;
    }
    if |fraction| > I32_MAX {
      return None;
    }
    var scale := |fraction| - exponent;
    assert coefficient == Coefficient(text) && scale == Scale(text);
    if scale > I32_MAX {
      if Representable(text) {
        LargeScaleIsZero(text);
      }
      return None;
    }
    if scale < -38 {
      if Representable(text) {
        SmallScaleIsZero(text);
      }
      return None;
    }
    r := Canonicalize(coefficient, scale);
    assert HasCanonical(coefficient, scale) <==> Representable(text);
  }

  // ---------------------------------------------------------------------------------------
  // Printing
  // ---------------------------------------------------------------------------------------

  /** Digits split at a decimal point, with a leading zero when none are left before it. */
  function SplitAt(digits: string, scale: nat): (string, string) {
    if |digits| > scale then (digits[..|digits| - scale], digits[|digits| - scale..])
    else ("0", Zeros(scale - |digits|) + digits)
  }

  /** A decimal as its Display prints it. */
  function Print(d: Decimal): string {
    var sign := Sign(d.coefficient < 0);
    var digits := DigitsOf(if d.coefficient < 0 then -d.coefficient else d.coefficient);
    if d.scale == 0 then sign + digits
    else
      var (whole, fraction) := SplitAt(digits, d.scale);
      sign + (whole + ['.'] + fraction)
  }

  lemma {:induction false} SplitKeepsTheNumber(digits: string, scale: nat)
    requires AllDigits(digits) && scale > 0
    ensures var (whole, fraction) := SplitAt(digits, scale);
      && whole != [] && AllDigits(whole) && AllDigits(fraction) && |fraction| == scale
      && NatOf(whole + fraction) == NatOf(digits)
  {
    hide NatOf;
    if |digits| > scale {
      var split := |digits| - scale;
      assert digits[..split] + digits[split..] == digits;
    } else {
      var (whole, fraction) := SplitAt(digits, scale);
      assert whole + fraction == Zeros(scale - |digits| + 1) + digits;
      LeadingZeros(scale - |digits| + 1, digits);
    }
  }

  lemma NoExponent(text: string)
    requires forall i :: 0 <= i < |text| ==> text[i] !in {'e', 'E'}
    ensures Mantissa(text) == text && After(text, {'e', 'E'}) == None
  {
    hide Find;
    NoneFound(text, {'e', 'E'});
    assert text[..|text|] == text;
  }

  function Sign(negative: bool): string {
    if negative then ['-'] else []
  }

  lemma SignStripped(negative: bool, unsigned: string)
    requires unsigned != [] && IsDigit(unsigned[0])
    ensures var text := Sign(negative) + unsigned;
            Unsigned(text) == unsigned && Negative(text) == negative
  {
    var text := Sign(negative) + unsigned;
    if negative {
      assert text[1..] == unsigned;
    } else {
      assert text == unsigned;
    }
  }

  lemma SplitAtPoint(whole: string, fraction: string)
    requires AllDigits(whole)
    ensures var unsigned := whole + ['.'] + fraction;
            Before(unsigned, {'.'}) == whole && After(unsigned, {'.'}) == Some(fraction)
  {
    hide Find;
    var unsigned := whole + ['.'] + fraction;
    assert unsigned[..|whole|] == whole && unsigned[|whole|] == '.' && unsigned[|whole| + 1..] == fraction;
    assert forall i :: 0 <= i < |whole| ==> IsDigit(unsigned[i]) by {
      assert forall i :: 0 <= i < |whole| ==> unsigned[i] == whole[i];
    }
    FirstFound(unsigned, {'.'}, |whole|);
  }

  /** How a text with a sign, digits and a fraction, and no exponent, is taken apart. */
  lemma TakenApart(negative: bool, whole: string, fraction: string)
    requires AllDigits(whole) && AllDigits(fraction) && whole != [] && fraction != []
    ensures var text := Sign(negative) + (whole + ['.'] + fraction);
      && WellFormed(text) && Whole(text) == whole && Fraction(text) == fraction
      && Exponent(text) == 0 && Negative(Mantissa(text)) == negative
  {
    var unsigned := whole + ['.'] + fraction;
    var text := Sign(negative) + unsigned;
    assert unsigned[0] == whole[0];
    NoExponent(text);
    SignStripped(negative, unsigned);
    SplitAtPoint(whole, fraction);
    hide Find, Unsigned, Before, After, Mantissa, Negative;
  }

  lemma IntegerTakenApart(negative: bool, whole: string)
    requires AllDigits(whole) && whole != []
    ensures var text := Sign(negative) + whole;
      && WellFormed(text) && Whole(text) == whole && Fraction(text) == []
      && Exponent(text) == 0 && Negative(Mantissa(text)) == negative
  {
    hide Find;
    var text := Sign(negative) + whole;
    NoExponent(text);
    SignStripped(negative, whole);
    NoneFound(whole, {'.'});
    assert whole[..|whole|] == whole;
  }

  lemma NoneFound(text: string, marks: set<char>)
    requires forall i :: 0 <= i < |text| ==> text[i] !in marks
    ensures Find(text, marks) == |text|
  {
  }

  lemma FirstFound(text: string, marks: set<char>, n: nat)
    requires n < |text| && text[n] in marks && forall i :: 0 <= i < n ==> text[i] !in marks
    ensures Find(text, marks) == n
  {
    var i := Find(text, marks);
    assert i < |text| ==> text[i] in marks;
  }

  /** What is printed has the decimal's digits and scale. */
  lemma PrintedIsTheDecimal(d: Decimal)
    ensures var text := Print(d);
            WellFormed(text) && Coefficient(text) == d.coefficient && Scale(text) == d.scale && Exponent(text) == 0
  {
    hide Whole, Fraction, WellFormed, Exponent, Mantissa, SplitAt;
    var magnitude := if d.coefficient < 0 then -d.coefficient else d.coefficient;
    var digits := DigitsOf(magnitude);
    PrintedDigitsRead(magnitude);
    if d.scale == 0 {
      IntegerTakenApart(d.coefficient < 0, digits);
      assert digits + [] == digits;
    } else {
      var (whole, fraction) := SplitAt(digits, d.scale);
      SplitKeepsTheNumber(digits, d.scale);
      TakenApart(d.coefficient < 0, whole, fraction);
    }
  }

  /** Round trip: a printed canonical decimal is accepted, and no other canonical decimal is what it
      denotes, so parsing gives it back. */
  lemma {:induction false} PrintedDecimalsParse(d: Decimal, e: Decimal)
    requires d.Canonical()
    ensures Accepted(Print(d))
    ensures e.Canonical() && Denotes(e, Print(d)) <==> e == d
  {
    PrintedIsTheDecimal(d);
    var text := Print(d);
    SameItself(d.coefficient, d.scale);
    assert Denotes(d, text);
    if e.Canonical() && Denotes(e, text) {
      SameNumberSameDecimal(text, text, d, e);
    }
    hide Whole, Fraction, WellFormed, Exponent, Mantissa, Same, Print;
    assert |Fraction(text)| == d.scale;
  }

  /** Prints and parses back. */
  method ReadBack(d: Decimal) returns (r: Decimal)
    requires d.Canonical()
    ensures r == d
  {
    var parsed := Parse(Print(d));
    PrintedDecimalsParse(d, d);
    PrintedDecimalsParse(d, parsed.value);
    r := parsed.value;
  }

  /** A zero with a large exponent is representable, but not accepted. */
  lemma RepresentableButRefused()
    ensures WellFormed("0e39") && Representable("0e39") && !Accepted("0e39")
  {
    hide Find, Same;
    var text := "0e39";
    FirstFound(text, {'e', 'E'}, 1);
    assert text[..1] == "0" && text[2..] == "39";
    NoneFound("0", {'.'});
    assert "0"[..1] == "0" && "0" + [] == "0";
    ThirtyNine();
    assert Coefficient(text) == 0 && Scale(text) == -39;
    ZeroIsZero(0, -39);
    assert Decimal(0, 0).Canonical() && Denotes(Decimal(0, 0), text);
  }

  /** A one with `n` zeros after its point is the number one, whatever `n`, and accepted up to 38. */
  lemma {:induction false} OneWithZeros(n: nat)
    requires n > 0
    ensures var text := "1." + Zeros(n);
            WellFormed(text) && Representable(text) && (Accepted(text) <==> n <= 38)
  {
    hide Whole, Fraction, WellFormed, Exponent, Mantissa, Same;
    var text := "1." + Zeros(n);
    assert text == Sign(false) + ("1" + ['.'] + Zeros(n));
    TakenApart(false, "1", Zeros(n));
    TrailingZeros("1", n);
    OneIsOne();
    PowersAround38(n);
    assert Same(1, 0, Coefficient(text), Scale(text)) by {
      OneShifted(n);
    }
    assert Decimal(1, 0).Canonical() && Denotes(Decimal(1, 0), text);
  }

  lemma OneIsOne()
    ensures NatOf("1") == 1
  {
    assert "1"[..0] == [];
  }

  lemma OneShifted(n: nat)
    ensures Same(1, 0, Shifted(1, n), n)
  {
  }

  lemma {:induction false} PowersAround38(n: nat)
    ensures 0 < Shifted(1, n) && (Shifted(1, n) <= I128_MAX <==> n <= 38)
  {
    assert Shifted(1, 10) == 10_000_000_000 && Shifted(10_000_000_000, 9) == 10_000_000_000_000_000_000;
    ShiftedTwice(1, 10, 9);
    assert Shifted(10_000_000_000_000_000_000, 10) == 100_000_000_000_000_000_000_000_000_000;
    ShiftedTwice(1, 19, 10);
    assert Shifted(100_000_000_000_000_000_000_000_000_000, 9) == 100_000_000_000_000_000_000_000_000_000_000_000_000;
    ShiftedTwice(1, 29, 9);
    if n <= 38 {
      ShiftedTwice(1, n, 38 - n);
      ShiftedGrows(1, n);
      ShiftedGrows(Shifted(1, n), 38 - n);
    } else {
      ShiftedTwice(1, 39, n - 39);
      ShiftedGrows(Shifted(1, 39), n - 39);
    }
  }

  lemma ThirtyNine()
    ensures IsInteger("39") && !Negative("39") && NatOf(Unsigned("39")) == 39 && NatOf("0") == 0
  {
    assert "39"[..1] == "3" && "3"[..0] == "";
  }

  lemma ZeroIsZero(s: int, t: int)
    ensures Same(0, s, 0, t)
  {
    ShiftedGrows(0, if s <= t then t - s else s - t);
  }
}
