/**
 The numbers the decimal parser reads, as they are written: an optional sign, digits, an optional fraction
 and an optional exponent.
 */
module Numerals {
  import opened Wrappers
  import opened Digits
  import opened Decimals

  /** An exponent's mark, sign and digits. */
  datatype Power = Power(mark: char, sign: string, digits: string)

  datatype Numeral = Numeral(sign: string, whole: string, fraction: Option<string>, power: Option<Power>) {
    predicate Valid() {
      && IsSign(sign) && IsNumber(whole)
      && (fraction.Some? ==> IsNumber(fraction.value))
      && (power.Some? ==>
            && (power.value.mark == 'e' || power.value.mark == 'E')
            && IsSign(power.value.sign) && IsNumber(power.value.digits))
    }

    function Significand(): string {
      sign + (whole + PointAndFraction(fraction))
    }

    function Written(): string {
      Significand() + if power.Some? then [power.value.mark] + (power.value.sign + power.value.digits) else ""
    }

    function FractionDigits(): string {
      if fraction.Some? then fraction.value else ""
    }

    /** The integer of its digits, and the power of ten it is over. */
    ghost function Units(): int
      requires Valid()
    {
      (if sign == "-" then -1 else 1) * NatOf(whole + FractionDigits())
    }

    ghost function Places(): int
      requires Valid()
    {
      |FractionDigits()|
        - if power.None? then 0 else (if power.value.sign == "-" then -1 else 1) * NatOf(power.value.digits)
    }
  }

  predicate IsSign(s: string) {
    s == "" || s == "-" || s == "+"
  }

  predicate IsNumber(s: string) {
    s != "" && AllDigits(s)
  }

  lemma CutBefore(head: string, mark: char, tail: string, marks: set<char>)
    requires mark in marks && forall i :: 0 <= i < |head| ==> head[i] !in marks
    ensures var text := head + ([mark] + tail); Before(text, marks) == head && After(text, marks) == Some(tail)
  {
    var text := head + ([mark] + tail);
    assert text[|head|] == mark && text[..|head|] == head && text[|head| + 1..] == tail;
    FirstFound(text, marks, |head|);
  }

  lemma CutNowhere(text: string, marks: set<char>)
    requires forall i :: 0 <= i < |text| ==> text[i] !in marks
    ensures Before(text, marks) == text && After(text, marks) == None
  {
    NoneFound(text, marks);
    assert text[..|text|] == text;
  }

  lemma SignIsCut(sign: string, rest: string)
    requires IsSign(sign) && rest != [] && IsDigit(rest[0])
    ensures Unsigned(sign + rest) == rest && (Negative(sign + rest) <==> sign == "-")
  {
    if sign != "" {
      assert (sign + rest)[1..] == rest && (sign + rest)[0] == sign[0];
    } else {
      assert sign + rest == rest;
    }
  }

  lemma DigitsHoldNoMark(digits: string)
    requires AllDigits(digits)
    ensures forall i :: 0 <= i < |digits| ==> digits[i] !in {'.', 'e', 'E'}
  {
  }

  function PointAndFraction(fraction: Option<string>): string {
    if fraction.Some? then "." + fraction.value else ""
  }

  lemma FractionIsCut(whole: string, fraction: Option<string>)
    requires IsNumber(whole)
    ensures var rest := whole + PointAndFraction(fraction);
      rest[0] == whole[0] && Before(rest, {'.'}) == whole && After(rest, {'.'}) == fraction
  {
    DigitsHoldNoMark(whole);
    hide AllDigits, Before, After;
    if fraction.Some? {
      assert "." + fraction.value == ['.'] + fraction.value;
      CutBefore(whole, '.', fraction.value, {'.'});
    } else {
      assert whole + "" == whole;
      CutNowhere(whole, {'.'});
    }
  }

  lemma SignificandHoldsNoMark(n: Numeral)
    requires n.Valid()
    ensures forall i :: 0 <= i < |n.Significand()| ==> n.Significand()[i] !in {'e', 'E'}
  {
    DigitsHoldNoMark(n.whole);
    if n.fraction.Some? {
      DigitsHoldNoMark(n.fraction.value);
    }
    hide AllDigits;
  }

  /** How a significand is taken apart. */
  lemma SignificandTakenApart(n: Numeral)
    requires n.Valid()
    ensures var head := n.Significand();
      && (Negative(head) <==> n.sign == "-")
      && Before(Unsigned(head), {'.'}) == n.whole && After(Unsigned(head), {'.'}) == n.fraction
  {
    FractionIsCut(n.whole, n.fraction);
    var rest := n.whole + PointAndFraction(n.fraction);
    assert n.Significand() == n.sign + rest;
    SignIsCut(n.sign, rest);
    hide Before, After, Unsigned, Negative;
  }

  /** How a numeral's text is taken apart. */
  lemma NumeralTakenApart(n: Numeral)
    requires n.Valid()
    ensures var text := n.Written();
      && Mantissa(text) == n.Significand()
      && After(text, {'e', 'E'})
           == (if n.power.Some? then Some(n.power.value.sign + n.power.value.digits) else None)
      && (Negative(n.Significand()) <==> n.sign == "-")
      && Whole(text) == n.whole && After(Unsigned(n.Significand()), {'.'}) == n.fraction
  {
    SignificandTakenApart(n);
    SignificandHoldsNoMark(n);
    var text, head := n.Written(), n.Significand();
    if n.power.Some? {
      CutBefore(head, n.power.value.mark, n.power.value.sign + n.power.value.digits, {'e', 'E'});
    } else {
      assert text == head;
      CutNowhere(text, {'e', 'E'});
    }
    hide AllDigits, Unsigned, Before, After, Negative, Numeral.Significand;
  }

  /** A numeral's text is well-formed, and denotes its digits over its power of ten. */
  lemma {:induction false} NumeralsAreWellFormed(n: Numeral)
    requires n.Valid()
    ensures WellFormed(n.Written())
    ensures Coefficient(n.Written()) == n.Units() && Scale(n.Written()) == n.Places()
  {
    NumeralTakenApart(n);
    if n.power.Some? {
      PowerIsAnInteger(n.power.value);
    }
    hide Find, Unsigned, Before, After, Negative, NatOf, IsInteger, IntegerOf, AllDigits;
    assert Fraction(n.Written()) == n.FractionDigits();
  }

  lemma PowerIsAnInteger(power: Power)
    requires IsSign(power.sign) && IsNumber(power.digits)
    ensures IsInteger(power.sign + power.digits)
    ensures IntegerOf(power.sign + power.digits) == (if power.sign == "-" then -1 else 1) * NatOf(power.digits)
  {
    SignIsCut(power.sign, power.digits);
  }

  /** A text is what comes before its first mark, and from there on the rest. */
  lemma CutJoins(text: string, marks: set<char>) returns (mark: char)
    ensures After(text, marks).Some? ==>
      mark in marks && text == Before(text, marks) + ([mark] + After(text, marks).value)
    ensures After(text, marks).None? ==> text == Before(text, marks)
  {
    mark := if Find(text, marks) < |text| then text[Find(text, marks)] else ' ';
  }

  lemma SignJoins(text: string) returns (sign: string)
    ensures IsSign(sign) && text == sign + Unsigned(text)
  {
    sign := if |Unsigned(text)| < |text| then text[..1] else "";
  }

  /** And every well-formed text is a numeral's. */
  lemma {:induction false} WellFormedIsANumeral(text: string) returns (n: Numeral)
    requires WellFormed(text)
    ensures n.Valid() && n.Written() == text
  {
    hide Unsigned, Before, After, AllDigits;
    var head, tail := Mantissa(text), After(text, {'e', 'E'});
    var sign := SignJoins(head);
    var mark := CutJoins(text, {'e', 'E'});
    var point := CutJoins(Unsigned(head), {'.'});
    var power: Option<Power> := None;
    if tail.Some? {
      var powerSign := SignJoins(tail.value);
      power := Some(Power(mark, powerSign, Unsigned(tail.value)));
    }
    n := Numeral(sign, Whole(text), After(Unsigned(head), {'.'}), power);
    assert n.fraction.Some? ==> "." + n.fraction.value == ['.'] + n.fraction.value;
  }
}
