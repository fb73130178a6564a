/**
 Decimal digits: reading them, printing them, and powers of ten.
 */
module Digits {
  import opened Wrappers

  predicate IsDigit(c: char) {
    '0' <= c <= '9'
  }

  predicate AllDigits(s: string) {
    forall i :: 0 <= i < |s| ==> IsDigit(s[i])
  }

  function DigitValue(c: char): nat
    requires IsDigit(c)
  {
    c as int - '0' as int
  }

  function DigitChar(n: nat): char
    requires n < 10
  {
    '0' + n as char
  }

  /** The number a sequence of digits denotes; nothing denotes zero. */
  ghost function NatOf(s: string): nat
    requires AllDigits(s)
  {
    if s == [] then 0 else 10 * NatOf(s[..|s| - 1]) + DigitValue(s[|s| - 1])
  }

  /** The shortest digits of a number. */
  function DigitsOf(n: nat): (s: string)
    ensures s != [] && AllDigits(s)
  {
    if n < 10 then [DigitChar(n)] else DigitsOf(n / 10) + [DigitChar(n % 10)]
  }

  /** A number as its Display prints it. */
  function Signed(n: int): string {
    if n < 0 then ['-'] + DigitsOf(-n) else DigitsOf(n)
  }

  ghost function Pow10(n: nat): (p: nat)
    ensures p >= 1
  {
    if n == 0 then 1 else 10 * Pow10(n - 1)
  }

  // ---------------------------------------------------------------------------------------
  // Reading and printing
  // ---------------------------------------------------------------------------------------

  lemma {:induction false} PrintedDigitsRead(n: nat)
    ensures NatOf(DigitsOf(n)) == n
  {
    if n >= 10 {
      PrintedDigitsRead(n / 10);
      var s := DigitsOf(n);
      assert s[..|s| - 1] == DigitsOf(n / 10);
    }
  }

  /** Printed numbers are distinct. */
  lemma SignedIsInjective(a: int, b: int)
    requires Signed(a) == Signed(b)
    ensures a == b
  {
    PrintedDigitsRead(if a < 0 then -a else a);
    PrintedDigitsRead(if b < 0 then -b else b);
    if a < 0 {
      assert Signed(a)[0] == '-' && Signed(a)[1..] == DigitsOf(-a);
    }
    if b < 0 {
      assert Signed(b)[0] == '-' && Signed(b)[1..] == DigitsOf(-b);
    }
  }

  lemma TimesTen(a: int, b: int)
    ensures a * (10 * b) == 10 * (a * b)
  {
  }

  lemma {:induction false} ZerosDenoteNothing(n: nat)
    ensures AllDigits(Zeros(n)) && NatOf(Zeros(n)) == 0
  {
    if n > 0 {
      assert Zeros(n)[..n - 1] == Zeros(n - 1);
      ZerosDenoteNothing(n - 1);
    }
  }

  /** Leading zeros do not change what is denoted. */
  lemma {:induction false} LeadingZeros(n: nat, digits: string)
    requires AllDigits(digits)
    ensures AllDigits(Zeros(n) + digits) && NatOf(Zeros(n) + digits) == NatOf(digits)
  {
    if digits == [] {
      ZerosDenoteNothing(n);
      assert Zeros(n) + digits == Zeros(n);
    } else {
      LeadingZeros(n, digits[..|digits| - 1]);
      var all := Zeros(n) + digits;
      assert all[..|all| - 1] == Zeros(n) + digits[..|digits| - 1] && all[|all| - 1] == digits[|digits| - 1];
    }
  }

  function Zeros(n: nat): (s: string)
    ensures |s| == n && AllDigits(s)
  {
    seq(n, _ => '0')
  }

  // ---------------------------------------------------------------------------------------
  // Powers of ten
  // ---------------------------------------------------------------------------------------

  /** `a * 10^n`. */
  ghost function Shifted(a: int, n: nat): int {
    if n == 0 then a else 10 * Shifted(a, n - 1)
  }

  lemma {:induction false} ShiftedTwice(a: int, m: nat, n: nat)
    ensures Shifted(a, m + n) == Shifted(Shifted(a, m), n)
  {
    if n > 0 {
      ShiftedTwice(a, m, n - 1);
    }
  }

  /** Each trailing zero multiplies by ten. */
  lemma {:induction false} TrailingZeros(digits: string, n: nat)
    requires AllDigits(digits)
    ensures AllDigits(digits + Zeros(n)) && NatOf(digits + Zeros(n)) == Shifted(NatOf(digits), n)
  {
    if n == 0 {
      assert digits + Zeros(n) == digits;
    } else {
      TrailingZeros(digits, n - 1);
      var all := digits + Zeros(n);
      assert all[..|all| - 1] == digits + Zeros(n - 1) && all[|all| - 1] == '0';
    }
  }

  lemma {:induction false} ShiftedIsInjective(a: int, b: int, n: nat)
    requires Shifted(a, n) == Shifted(b, n)
    ensures a == b
  {
    if n > 0 {
      ShiftedIsInjective(a, b, n - 1);
    }
  }

  lemma {:induction false} ShiftedGrows(c: int, n: nat)
    ensures c > 0 ==> Shifted(c, n) >= c && Shifted(c, n) >= Pow10(n)
    ensures c < 0 ==> Shifted(c, n) <= c && Shifted(c, n) <= 0 - Pow10(n)
    ensures c == 0 ==> Shifted(c, n) == 0
  {
    if n > 0 {
      ShiftedGrows(c, n - 1);
    }
  }

  lemma {:induction false} Pow10Sum(m: nat, n: nat)
    ensures Pow10(m + n) == Pow10(m) * Pow10(n)
  {
    if n > 0 {
      Pow10Sum(m, n - 1);
      TimesTen(Pow10(m), Pow10(n - 1));
    }
  }

  lemma {:induction false} Pow10Grows(m: nat, n: nat)
    requires m <= n
    ensures Pow10(m) <= Pow10(n)
  {
    if m < n {
      Pow10Grows(m, n - 1);
    }
  }

  /** Past every signed 128-bit number. */
  lemma Pow10Of39()
    ensures Pow10(39) == 1_000_000_000_000_000_000_000_000_000_000_000_000_000
  {
    Pow10Of13();
    Pow10Sum(13, 13);
    Pow10Sum(26, 13);
  }

  lemma Pow10Of13()
    ensures Pow10(13) == 10_000_000_000_000
  {
    assert Pow10(1) == 10;
    assert Pow10(2) == 100;
    assert Pow10(3) == 1_000;
    assert Pow10(4) == 10_000;
    assert Pow10(5) == 100_000;
    assert Pow10(6) == 1_000_000;
    assert Pow10(7) == 10_000_000;
    assert Pow10(8) == 100_000_000;
    assert Pow10(9) == 1_000_000_000;
    assert Pow10(10) == 10_000_000_000;
    assert Pow10(11) == 100_000_000_000;
    assert Pow10(12) == 1_000_000_000_000;
  }

  // ---------------------------------------------------------------------------------------
  // Bounded reading
  // ---------------------------------------------------------------------------------------

  lemma {:induction false} NatOfPrefix(s: string, n: nat)
    requires AllDigits(s) && n <= |s|
    ensures NatOf(s[..n]) <= NatOf(s)
  {
    if n < |s| {
      NatOfPrefix(s[..|s| - 1], n);
      assert s[..|s| - 1][..n] == s[..n];
    } else {
      assert s[..n] == s;
    }
  }

  /** Reads digits up to a bound, as checked integer parsing does. */
  method ReadDigits(s: string, bound: nat) returns (r: Option<nat>)
    requires AllDigits(s)
    ensures r == if NatOf(s) <= bound then Some(NatOf(s)) else None
  {
    var value := 0;
    for i := 0 to |s|
      invariant value == NatOf(s[..i]) <= bound
    {
      assert s[..i + 1][..i] == s[..i];
      NatOfPrefix(s, i + 1);
      if 10 * value > bound {
        return None;
      }
      if 10 * value + DigitValue(s[i]) > bound {
        return None;
      }
      value := 10 * value + DigitValue(s[i]);
    }
    assert s[..|s|] == s;
    return Some(value);
  }
}
