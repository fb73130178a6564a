/** Integer widths and exact rounding, shared by the money and the encoding modules. */
module Arithmetic {

  const U64_MAX: nat := 0xFFFF_FFFF_FFFF_FFFF
  const U128_MAX: nat := 0xFFFF_FFFF_FFFF_FFFF_FFFF_FFFF_FFFF_FFFF
  const I32_MAX: int := 0x7FFF_FFFF
  const I64_MIN: int := -0x8000_0000_0000_0000
  const I64_MAX: int := 0x7FFF_FFFF_FFFF_FFFF
  const I128_MIN: int := -0x8000_0000_0000_0000_0000_0000_0000_0000
  const I128_MAX: int := 0x7FFF_FFFF_FFFF_FFFF_FFFF_FFFF_FFFF_FFFF

  type int64 = x: int | I64_MIN <= x <= I64_MAX

  function Min(a: int, b: int): int {
    if a <= b then a else b
  }

  function Max(a: int, b: int): int {
    if a >= b then a else b
  }

  // Products and quotients of unbounded quantities are specified by repeated addition, so that a
  // proof meets multiplication only where it asks for one of the laws below.

  ghost function Times(a: nat, b: nat): nat {
    if b == 0 then 0 else Times(a, b - 1) + a
  }

  lemma {:induction false} TimesIsProduct(a: nat, b: nat)
    ensures Times(a, b) == a * b
  {
    if b > 0 {
      TimesIsProduct(a, b - 1);
      assert a * b == a * (b - 1) + a;
    }
  }

  lemma TimesCommutes(a: nat, b: nat)
    ensures Times(a, b) == Times(b, a)
  {
    TimesIsProduct(a, b);
    TimesIsProduct(b, a);
  }

  lemma {:induction false} TimesDistributes(a: nat, b: nat, c: nat)
    ensures Times(a + b, c) == Times(a, c) + Times(b, c)
    ensures Times(c, a + b) == Times(c, a) + Times(c, b)
  {
    if c > 0 {
      TimesDistributes(a, b, c - 1);
    }
    TimesCommutes(a + b, c);
    TimesCommutes(a, c);
    TimesCommutes(b, c);
  }

  lemma {:induction false} TimesAssociates(a: nat, b: nat, c: nat)
    ensures Times(Times(a, b), c) == Times(a, Times(b, c))
  {
    if c > 0 {
      TimesAssociates(a, b, c - 1);
      TimesDistributes(Times(b, c - 1), b, a);
    }
  }

  lemma TimesMonotone(a: nat, b: nat, c: nat)
    requires a <= b
    ensures Times(a, c) <= Times(b, c) && Times(c, a) <= Times(c, b)
  {
    TimesDistributes(a, b - a, c);
  }

  /** Three factors in any order. */
  lemma TimesRearranges(a: nat, b: nat, c: nat)
    ensures Times(Times(a, b), c) == Times(b, Times(a, c)) == Times(a, Times(b, c))
         == Times(Times(a, c), b)
  {
    TimesAssociates(a, b, c);
    TimesAssociates(b, a, c);
    TimesAssociates(a, c, b);
    TimesCommutes(a, b);
    TimesCommutes(b, c);
  }

  /** The quotient rounded up: the least `q` with `n <= q * d`. */
  ghost function CeilDiv(n: nat, d: nat): (q: nat)
    requires d > 0
    ensures n <= Times(q, d) < n + d
    decreases n
  {
    if n == 0 then
      TimesIsProduct(0, d);
      0
    else if n <= d then
      assert Times(1, d) == d by { TimesIsProduct(1, d); }
      1
    else
      var q := CeilDiv(n - d, d);
      assert Times(q + 1, d) == Times(q, d) + d by { TimesDistributes(q, 1, d); TimesIsProduct(1, d); }
      q + 1
  }

  lemma CeilDivLeast(n: nat, d: nat, k: nat)
    requires d > 0
    requires n <= Times(k, d)
    ensures CeilDiv(n, d) <= k
  {
    var q := CeilDiv(n, d);
    if k < q {
      TimesMonotone(k, q - 1, d);
      TimesDistributes(q - 1, 1, d);
      TimesIsProduct(1, d);
    }
  }

  lemma QuotientBounds(n: nat, d: nat)
    requires d > 0
    ensures Times(n / d, d) <= n < Times(n / d, d) + d
  {
    TimesIsProduct(n / d, d);
    assert n == n / d * d + n % d;
  }

  lemma TimesReflects(a: nat, b: nat, d: nat)
    requires Times(a, d) < Times(b, d)
    ensures a < b
  {
    if b <= a {
      TimesMonotone(b, a, d);
    }
  }

  /** The quotient as the machine computes it. */
  lemma {:induction false} CeilDivIsQuotient(n: nat, d: nat)
    requires d > 0
    ensures CeilDiv(n, d) == (n + d - 1) / d
  {
    var k, q := (n + d - 1) / d, CeilDiv(n, d);
    QuotientBounds(n + d - 1, d);
    CeilDivLeast(n, d, k);
    TimesDistributes(q, 1, d);
    TimesIsProduct(1, d);
    TimesReflects(k, q + 1, d);
  }

  /** Rounding up is the same before and after a common factor is taken out. */
  lemma {:induction false} CeilDivReduced(n: nat, d: nat, g: nat)
    requires d > 0 && g > 0
    ensures Times(g, d) > 0 && CeilDiv(Times(g, n), Times(g, d)) == CeilDiv(n, d)
  {
    TimesMonotone(1, d, g);
    TimesIsProduct(g, 1);
    var q := CeilDiv(n, d);
    TimesMonotone(n, Times(q, d), g);
    TimesRearranges(g, q, d);
    TimesCommutes(g, q);
    CeilDivLeast(Times(g, n), Times(g, d), q);
    var k := CeilDiv(Times(g, n), Times(g, d));
    TimesRearranges(k, g, d);
    TimesCancels(g, n, Times(k, d));
    CeilDivLeast(n, d, k);
  }

  lemma TimesCancels(g: nat, a: nat, b: nat)
    requires g > 0 && Times(g, a) <= Times(g, b)
    ensures a <= b
  {
    if a > b {
      TimesDistributes(b, a - b, g);
      TimesMonotone(1, a - b, g);
      TimesIsProduct(g, 1);
    }
  }
}
