/**
 What the Broker charges for fills, to the microdollar, and the rounding carried from one fill of an
 order to the next. Prices are microdollars a contract, quantities hundredths of one.
 */
module Fees {
  import opened Arithmetic
  import opened Wrappers

  const MICROS_PER_DOLLAR: nat := 1_000_000
  const FEE_DENOMINATOR: nat := 100_000_000_000_000_000_000

  /** A refusal, or a posting whose multiplication back to the grid leaves 128 bits, which the source
      does not refuse. */
  datatype FeeError = InvalidInput | PostingOverflow

  type FeeResult<T> = Result<T, FeeError>

  datatype OrderAction = Buy | Sell

  datatype LiquidityRole = Maker | Taker

  datatype FeeType = Quadratic | QuadraticWithMakerFees | Flat {
    function BaseRateMillionths(role: LiquidityRole): nat {
      match (this, role)
      case (Quadratic, Maker) => 0
      case (Flat, Maker) => 0
      case (Quadratic, Taker) => 70_000
      case (QuadraticWithMakerFees, Taker) => 70_000
      case (QuadraticWithMakerFees, Maker) => 17_500
      case (Flat, Taker) => 35_000
    }
  }

  /** The curve a Market charges by, and a 64-bit factor on it in millionths. */
  datatype FeeTerms = FeeTerms(feeType: FeeType, multiplierMillionths: nat) {
    ghost predicate Valid() {
      multiplierMillionths <= U64_MAX
    }
  }

  predicate IsBaseRate(rate: nat) {
    rate in {0, 17_500, 35_000, 70_000}
  }

  // ---------------------------------------------------------------------------------------
  // Trade fee
  // ---------------------------------------------------------------------------------------

  /** The unrounded trade fee's numerator over `FEE_DENOMINATOR`. */
  ghost function RawFee(price: nat, quantity: nat, rate: nat, multiplier: nat): nat
    requires price <= MICROS_PER_DOLLAR
  {
    Times(Times(Times(rate, Curve(price)), quantity), multiplier)
  }

  /** The quadratic curve before its rate, in squared microdollars. */
  ghost function Curve(price: nat): nat
    requires price <= MICROS_PER_DOLLAR
  {
    Times(price, MICROS_PER_DOLLAR - price)
  }

  /** The trade fee in exact arithmetic: the quadratic curve rounded up to the microdollar. */
  ghost function TrueTradeFee(price: nat, quantity: nat, rate: nat, multiplier: nat): nat
    requires price <= MICROS_PER_DOLLAR
  {
    CeilDiv(RawFee(price, quantity, rate, multiplier), FEE_DENOMINATOR)
  }

  /** The fee the exact curve charges, when it is a 64-bit amount. */
  ghost function TradeFee(price: nat, quantity: nat, rate: nat, multiplier: nat): FeeResult<nat>
    requires price <= MICROS_PER_DOLLAR
  {
    var fee := TrueTradeFee(price, quantity, rate, multiplier);
    if fee <= U64_MAX then Success(fee) else Failure(InvalidInput)
  }

  function Gcd(a: nat, b: nat): nat
    decreases b
  {
    if b == 0 then a else Gcd(b, a % b)
  }

  ghost predicate Divides(d: nat, n: nat) {
    exists k: nat :: Times(d, k) == n
  }

  /** Euclid's algorithm ends in a common divisor. */
  lemma {:induction false} GcdDividesBoth(a: nat, b: nat)
    requires a > 0
    ensures Gcd(a, b) > 0
    ensures Divides(Gcd(a, b), a) && Divides(Gcd(a, b), b)
    decreases b
  {
    if b == 0 {
      TimesIsProduct(a, 1);
      TimesIsProduct(a, 0);
    } else {
      GcdDividesBoth(b, a % b);
      DividesCombination(Gcd(b, a % b), b, a / b, a % b);
      TimesIsProduct(b, a / b);
      assert a == b * (a / b) + a % b;
    }
  }

  lemma DividesCombination(g: nat, b: nat, q: nat, r: nat)
    requires Divides(g, b) && Divides(g, r)
    ensures Divides(g, Times(b, q) + r)
  {
    var x: nat :| Times(g, x) == b;
    var y: nat :| Times(g, y) == r;
    TimesAssociates(g, x, q);
    TimesDistributes(Times(x, q), y, g);
    assert Times(g, Times(x, q) + y) == Times(b, q) + r;
  }

  /** Euclid's algorithm, in place. */
  method GreatestCommonDivisor(a: nat, b: nat) returns (divisor: nat)
    requires a > 0
    ensures divisor == Gcd(a, b)
  {
    var remainder: nat := b;
    divisor := a;
    while remainder != 0
      invariant Gcd(divisor, remainder) == Gcd(a, b)
      decreases remainder
    {
      divisor, remainder := remainder, divisor % remainder;
    }
  }

  lemma ExactQuotient(g: nat, n: nat)
    requires g > 0 && Divides(g, n)
    ensures Times(g, n / g) == n
  {
    hide Times;
    var k: nat :| Times(g, k) == n;
    QuotientBounds(n, g);
    TimesCommutes(g, k);
    TimesCommutes(g, n / g);
    TimesDistributes(n / g, 1, g);
    TimesIsProduct(1, g);
    TimesReflects(k, n / g + 1, g);
    if k < n / g {
      TimesMonotone(k + 1, n / g, g);
      TimesDistributes(k, 1, g);
    }
  }

  lemma BaseRateDivisor(rate: nat)
    requires IsBaseRate(rate)
    ensures Gcd(FEE_DENOMINATOR, rate) ==
      if rate == 0 then FEE_DENOMINATOR else if rate == 17_500 then 2_500 else if rate == 35_000 then 5_000 else 10_000
  {
    assert Gcd(FEE_DENOMINATOR, 0) == FEE_DENOMINATOR;
    assert Gcd(FEE_DENOMINATOR, 17_500) == 2_500;
    assert Gcd(FEE_DENOMINATOR, 35_000) == 5_000;
    assert Gcd(FEE_DENOMINATOR, 70_000) == 10_000;
  }

  /** What the reduced fraction is for each base rate: small enough that a product over the wide
      intermediate is a fee over 64 bits. */
  lemma {:induction false} ReducedDenominatorIsSmall(rate: nat)
    requires IsBaseRate(rate)
    ensures Gcd(FEE_DENOMINATOR, rate) > 0
    ensures rate / Gcd(FEE_DENOMINATOR, rate) <= 7
    ensures 0 < FEE_DENOMINATOR / Gcd(FEE_DENOMINATOR, rate) <= 40_000_000_000_000_000
  {
    hide Gcd;
    BaseRateDivisor(rate);
  }

  ghost function Product(factors: seq<nat>): nat {
    if factors == [] then 1 else Times(Product(factors[..|factors| - 1]), factors[|factors| - 1])
  }

  /** Multiplies the factors in order without leaving 128 bits, or gives nothing. */
  method CheckedProduct(factors: seq<nat>) returns (r: Option<nat>)
    ensures r.Some? ==> r.value == Product(factors)
    ensures r.None? ==> exists k :: 0 <= k <= |factors| && Product(factors[..k]) > U128_MAX
  {
    var value := 1;
    for i := 0 to |factors|
      invariant value == Product(factors[..i])
    {
      assert factors[..i + 1][..i] == factors[..i];
      TimesIsProduct(value, factors[i]);
      assert value * factors[i] == Product(factors[..i + 1]);
      if value * factors[i] > U128_MAX {
        return None;
      }
      value := value * factors[i];
    }
    assert factors[..|factors|] == factors;
    return Some(value);
  }

  /** The numerator's factors, in the order they are multiplied. */
  function Factors(price: nat, quantity: nat, rate: nat, multiplier: nat): seq<nat>
    requires price <= MICROS_PER_DOLLAR
  {
    [rate, price, MICROS_PER_DOLLAR - price, quantity, multiplier]
  }

  lemma PartialProducts(price: nat, quantity: nat, rate: nat, multiplier: nat)
    requires price <= MICROS_PER_DOLLAR
    ensures var f := Factors(price, quantity, rate, multiplier);
      && Product(f[..0]) == 1
      && Product(f[..1]) == rate
      && Product(f[..2]) == Times(rate, price)
      && Product(f[..3]) == Times(rate, Curve(price))
      && Product(f[..4]) == Times(Product(f[..3]), quantity)
      && Product(f[..5]) == Product(f) == RawFee(price, quantity, rate, multiplier)
  {
    var f := Factors(price, quantity, rate, multiplier);
    assert f[..5] == f && f[..5][..4] == f[..4] && f[..4][..3] == f[..3] && f[..3][..2] == f[..2]
        && f[..2][..1] == f[..1] && f[..1][..0] == f[..0];
    TimesIsProduct(1, rate);
    TimesAssociates(rate, price, MICROS_PER_DOLLAR - price);
  }

  /** With a reduced base rate, only the last factor can leave 128 bits. */
  lemma EarlyProductsFit(price: nat, quantity: nat, rate: nat, multiplier: nat, k: nat)
    requires price <= MICROS_PER_DOLLAR && quantity <= U64_MAX && rate <= 7 && k <= 4
    ensures Product(Factors(price, quantity, rate, multiplier)[..k]) <= U128_MAX
  {
    PartialProducts(price, quantity, rate, multiplier);
    var left := MICROS_PER_DOLLAR - price;
    TimesMonotone(rate, 7, price);
    TimesMonotone(price, MICROS_PER_DOLLAR, 7);
    TimesIsProduct(7, MICROS_PER_DOLLAR);
    TimesAssociates(rate, price, left);
    TimesMonotone(Times(rate, price), 7_000_000, left);
    TimesMonotone(left, MICROS_PER_DOLLAR, 7_000_000);
    TimesIsProduct(7_000_000, MICROS_PER_DOLLAR);
    TimesMonotone(Times(rate, Curve(price)), 7_000_000_000_000, quantity);
    TimesMonotone(quantity, U64_MAX, 7_000_000_000_000);
    TimesIsProduct(7_000_000_000_000, U64_MAX);
    match k
    case 0 => case 1 => case 2 => case 3 => case 4 =>
  }

  lemma OverflowMeansWideFee(price: nat, quantity: nat, rate: nat, multiplier: nat, denominator: nat)
    requires price <= MICROS_PER_DOLLAR && quantity <= U64_MAX && rate <= 7
    requires 0 < denominator <= 40_000_000_000_000_000
    requires exists k :: 0 <= k <= 5 && Product(Factors(price, quantity, rate, multiplier)[..k]) > U128_MAX
    ensures CeilDiv(RawFee(price, quantity, rate, multiplier), denominator) > U64_MAX
  {
    var f := Factors(price, quantity, rate, multiplier);
    var k :| 0 <= k <= 5 && Product(f[..k]) > U128_MAX;
    if k <= 4 {
      EarlyProductsFit(price, quantity, rate, multiplier, k);
    }
    PartialProducts(price, quantity, rate, multiplier);
    TimesMonotone(denominator, 40_000_000_000_000_000, U64_MAX);
    TimesIsProduct(U64_MAX, 40_000_000_000_000_000);
    TimesReflects(U64_MAX, CeilDiv(RawFee(price, quantity, rate, multiplier), denominator), denominator);
  }

  /** The coefficient in lowest terms, by Euclid's algorithm. */
  method ReducedRate(rate: nat) returns (numerator: nat, denominator: nat)
    requires IsBaseRate(rate)
    ensures numerator <= 7 && 0 < denominator <= 40_000_000_000_000_000
    ensures exists g: nat :: g > 0 && Times(g, numerator) == rate && Times(g, denominator) == FEE_DENOMINATOR
  {
    hide Gcd;
    var divisor := GreatestCommonDivisor(FEE_DENOMINATOR, rate);
    GcdDividesBoth(FEE_DENOMINATOR, rate);
    ReducedDenominatorIsSmall(rate);
    ExactQuotient(divisor, rate);
    ExactQuotient(divisor, FEE_DENOMINATOR);
    numerator, denominator := rate / divisor, FEE_DENOMINATOR / divisor;
  }

  lemma ReducedFee(price: nat, quantity: nat, rate: nat, multiplier: nat, n: nat, d: nat)
    requires price <= MICROS_PER_DOLLAR && d > 0
    requires exists g: nat :: g > 0 && Times(g, n) == rate && Times(g, d) == FEE_DENOMINATOR
    ensures CeilDiv(RawFee(price, quantity, n, multiplier), d) == TrueTradeFee(price, quantity, rate, multiplier)
  {
    var g: nat :| g > 0 && Times(g, n) == rate && Times(g, d) == FEE_DENOMINATOR;
    TimesAssociates(g, n, Curve(price));
    TimesAssociates(g, Times(n, Curve(price)), quantity);
    TimesAssociates(g, Times(Times(n, Curve(price)), quantity), multiplier);
    CeilDivReduced(RawFee(price, quantity, n, multiplier), d, g);
  }

  method DivCeil(n: nat, d: nat) returns (q: nat)
    requires d > 0
    ensures q == CeilDiv(n, d)
  {
    CeilDivIsQuotient(n, d);
    q := (n + d - 1) / d;
  }

  /** The trade fee over 128-bit intermediates. Reducing the coefficient first loses nothing, and
      no intermediate overflow refuses a fee that 64 bits hold. */
  method TradeFeeMicros(price: nat, quantity: nat, rate: nat, multiplier: nat) returns (r: FeeResult<nat>)
    requires price <= MICROS_PER_DOLLAR && quantity <= U64_MAX && multiplier <= U64_MAX
    requires IsBaseRate(rate)
    ensures r == TradeFee(price, quantity, rate, multiplier)
  {
    var reduced, denominator := ReducedRate(rate);
    ReducedFee(price, quantity, rate, multiplier, reduced, denominator);
    var numerator := CheckedProduct(Factors(price, quantity, reduced, multiplier));
    PartialProducts(price, quantity, reduced, multiplier);
    if numerator.None? {
      OverflowMeansWideFee(price, quantity, reduced, multiplier, denominator);
      return Failure(InvalidInput);
    }
    var fee := DivCeil(numerator.value, denominator);
    if fee > U64_MAX {
      return Failure(InvalidInput);
    }
    return Success(fee);
  }

  // ---------------------------------------------------------------------------------------
  // Posting one fill
  // ---------------------------------------------------------------------------------------

  /** One fill's charge. `netFee` leaves out the principal, `postedBalanceChange` moves both. */
  datatype FeeCalculation = FeeCalculation(
    tradeFee: nat,
    roundingFee: nat,
    rebate: nat,
    netFee: nat,
    postedBalanceChange: int,
    accumulator: nat)

  /** The multiple of the posting grid at or below `x`. */
  function FloorGrid(x: int): (r: int)
    ensures r % 100 == 0 && r <= x < r + 100
  {
    x / 100 * 100
  }

  /** The accumulator's whole grid units, capped at this fill's own. */
  function Rebate(accumulated: nat, beforeRebate: nat): (rebate: nat)
    ensures rebate % 100 == 0 && rebate <= accumulated && rebate <= beforeRebate
    ensures accumulated - rebate < 100 || beforeRebate - rebate < 100
  {
    Min(FloorGrid(accumulated), FloorGrid(beforeRebate))
  }

  predicate InI128(x: int) {
    I128_MIN <= x <= I128_MAX
  }

  /** Posts a fill's cash change in whole grid units. What the floor takes away goes to the order's
      accumulator, whose whole grid units come back as a rebate of at most the fill's own fee. */
  function ApplyFeeRounding(revenue: int, tradeFee: nat, accumulator: nat): (r: FeeResult<FeeCalculation>)
    requires InI128(revenue) && tradeFee <= U64_MAX && accumulator <= U64_MAX
    ensures r == Failure(PostingOverflow) <==>
        revenue - tradeFee >= I128_MIN && FloorGrid(revenue - tradeFee) < I128_MIN
    ensures r.Success? ==>
              && r.value.tradeFee == tradeFee && r.value.roundingFee < 100
              && r.value.rebate == Rebate(accumulator + r.value.roundingFee, tradeFee + r.value.roundingFee)
              && r.value.netFee == tradeFee + r.value.roundingFee - r.value.rebate
              && r.value.netFee + accumulator == tradeFee + r.value.accumulator
              && r.value.postedBalanceChange == revenue - r.value.netFee
              && r.value.postedBalanceChange % 100 == 0
              && r.value.netFee <= U64_MAX && r.value.accumulator <= U64_MAX
  {
    var unposted := revenue - tradeFee;
    if !InI128(unposted) then Failure(InvalidInput)
    else if !InI128(FloorGrid(unposted)) then Failure(PostingOverflow)
    else
      var rounding: nat := unposted - FloorGrid(unposted);
      var accumulated := accumulator + rounding;
      var beforeRebate := tradeFee + rounding;
      var rebate := Rebate(accumulated, beforeRebate);
      var net := beforeRebate - rebate;
      GridSum(FloorGrid(unposted), rebate);
      var carried := accumulated - rebate;
      if net > U64_MAX || carried > U64_MAX || rebate > U64_MAX || !InI128(revenue - net) then
        Failure(InvalidInput)
      else
        Success(FeeCalculation(tradeFee, rounding, rebate, net, revenue - net, carried))
  }

  datatype Fill = Fill(price: nat, quantity: nat, role: LiquidityRole)

  ghost predicate ValidFill(fill: Fill) {
    fill.price <= U64_MAX && fill.quantity <= U64_MAX
  }

  function Revenue(action: OrderAction, principal: nat): int {
    match action
    case Buy => 0 - principal as int
    case Sell => principal
  }

  /** A fill's exact principal in hundredths of a microdollar. */
  ghost function PrincipalProduct(fill: Fill): nat {
    Times(fill.price, fill.quantity)
  }

  ghost function Principal(fill: Fill): nat {
    PrincipalProduct(fill) / 100
  }

  /** What one fill is charged: the exact arithmetic of the whole calculation. */
  ghost function FillFee(action: OrderAction, fill: Fill, accumulator: nat, terms: FeeTerms)
    : (r: FeeResult<FeeCalculation>)
    requires accumulator <= U64_MAX
    ensures r.Success? ==>
              && r.value.netFee + accumulator == r.value.tradeFee + r.value.accumulator
              && r.value.postedBalanceChange == Revenue(action, Principal(fill)) - r.value.netFee
              && r.value.postedBalanceChange % 100 == 0
              && r.value.netFee <= U64_MAX && r.value.accumulator <= U64_MAX
    ensures r.Failure? ==> r.error.InvalidInput?
  {
    if fill.price > MICROS_PER_DOLLAR then Failure(InvalidInput)
    else if PrincipalProduct(fill) % 100 != 0 || Principal(fill) > U64_MAX then Failure(InvalidInput)
    else
      var fee := FillTradeFee(fill, terms);
      if fee.Failure? then Failure(InvalidInput)
      else ApplyFeeRounding(Revenue(action, Principal(fill)), fee.value, accumulator)
  }

  ghost function FillTradeFee(fill: Fill, terms: FeeTerms): (r: FeeResult<nat>)
    requires fill.price <= MICROS_PER_DOLLAR
    ensures r.Success? ==> r.value <= U64_MAX
  {
    TradeFee(fill.price, fill.quantity, terms.feeType.BaseRateMillionths(fill.role), terms.multiplierMillionths)
  }

  method CalculateDirectMemberFillFee(action: OrderAction, fill: Fill, accumulator: nat, terms: FeeTerms)
    returns (r: FeeResult<FeeCalculation>)
    requires ValidFill(fill) && terms.Valid() && accumulator <= U64_MAX
    ensures r == FillFee(action, fill, accumulator, terms)
  {
    if fill.price > MICROS_PER_DOLLAR {
      return Failure(InvalidInput);
    }
    TimesIsProduct(fill.price, fill.quantity);
    var product := fill.price * fill.quantity;
    if product % 100 != 0 {
      return Failure(InvalidInput);
    }
    var principal := product / 100;
    if principal > U64_MAX {
      return Failure(InvalidInput);
    }
    var fee := TradeFeeMicros(fill.price, fill.quantity, terms.feeType.BaseRateMillionths(fill.role),
                              terms.multiplierMillionths);
    if fee.Failure? {
      return Failure(InvalidInput);
    }
    return ApplyFeeRounding(Revenue(action, principal), fee.value, accumulator);
  }

  // ---------------------------------------------------------------------------------------
  // The fills of one order
  // ---------------------------------------------------------------------------------------

  /** Running totals of one order's fills; the accumulator is threaded through them. */
  datatype Settlement = Settlement(posted: int, revenue: int, tradeFees: nat, netFees: nat, accumulator: nat)

  /** Settles an order's fills in turn, from a starting accumulator; fails when any fill does. */
  ghost function Settle(action: OrderAction, fills: seq<Fill>, accumulator: nat, terms: FeeTerms)
    : (r: FeeResult<Settlement>)
    requires accumulator <= U64_MAX
    ensures r.Success? ==> r.value.accumulator <= U64_MAX
  {
    if fills == [] then Success(Settlement(0, 0, 0, 0, accumulator))
    else
      var before := Settle(action, fills[..|fills| - 1], accumulator, terms);
      if before.Failure? then before else SettleOne(action, before.value, fills[|fills| - 1], terms)
  }

  ghost function SettleOne(action: OrderAction, before: Settlement, fill: Fill, terms: FeeTerms)
    : (r: FeeResult<Settlement>)
    requires before.accumulator <= U64_MAX
    ensures r.Success? ==> r.value.accumulator <= U64_MAX
  {
    var charge := FillFee(action, fill, before.accumulator, terms);
    if charge.Failure? then Failure(charge.error)
    else
      Success(Settlement(
        before.posted + charge.value.postedBalanceChange,
        before.revenue + Revenue(action, Principal(fill)),
        before.tradeFees + charge.value.tradeFee,
        before.netFees + charge.value.netFee,
        charge.value.accumulator))
  }

  /** What is charged beyond the trade fees is exactly what the accumulator gained, and cash moved
      by revenue less net fees in whole grid units. */
  ghost predicate Conserved(s: Settlement, accumulator: nat) {
    && s.netFees + accumulator == s.tradeFees + s.accumulator
    && s.posted == s.revenue - s.netFees
    && s.posted % 100 == 0
  }

  lemma GridSum(x: int, y: int)
    requires x % 100 == 0 && y % 100 == 0
    ensures (x + y) % 100 == 0
  {
  }

  lemma FillConserves(action: OrderAction, before: Settlement, fill: Fill, accumulator: nat, terms: FeeTerms)
    requires before.accumulator <= U64_MAX && Conserved(before, accumulator)
    requires SettleOne(action, before, fill, terms).Success?
    ensures Conserved(SettleOne(action, before, fill, terms).value, accumulator)
  {
    var charge := FillFee(action, fill, before.accumulator, terms).value;
    GridSum(before.posted, charge.postedBalanceChange);
  }

  /** Fees are conserved over any order, buy or sell, from any starting accumulator. */
  lemma {:induction false} FeesAreConserved(action: OrderAction, fills: seq<Fill>, accumulator: nat, terms: FeeTerms)
    requires accumulator <= U64_MAX
    requires Settle(action, fills, accumulator, terms).Success?
    ensures Conserved(Settle(action, fills, accumulator, terms).value, accumulator)
  {
    if fills != [] {
      var earlier := fills[..|fills| - 1];
      FeesAreConserved(action, earlier, accumulator, terms);
      var before := Settle(action, earlier, accumulator, terms).value;
      FillConserves(action, before, fills[|fills| - 1], accumulator, terms);
    }
  }
}
