/**
 What a fill is charged, in dollars and for each curve and role: statements over whole charges that
 name neither the rate table nor the order of the arithmetic.
 */
module Charges {
  import opened Arithmetic
  import opened Wrappers
  import opened Fees

  /** The dollars a curve takes of a fill: the coefficient times p(1 - p) a contract, over its contracts,
      times the Market's multiplier. */
  ghost function CurveDollars(coefficient: real, fill: Fill, terms: FeeTerms): real {
    var p, contracts := fill.price as real / 1_000_000.0, fill.quantity as real / 100.0;
    coefficient * (p * (1.0 - p)) * contracts * (terms.multiplierMillionths as real / 1_000_000.0)
  }

  /** Whether `micros` is so many dollars rounded up to the microdollar. */
  ghost predicate RoundedUp(micros: nat, dollars: real) {
    1_000_000.0 * dollars <= micros as real < 1_000_000.0 * dollars + 1.0
  }

  /** What the fee schedule promises of a fill's trade fee. */
  ghost predicate FollowsSchedule(fee: nat, fill: Fill, terms: FeeTerms) {
    match (terms.feeType, fill.role)
    case (Quadratic, Taker) => RoundedUp(fee, CurveDollars(0.07, fill, terms))
    case (QuadraticWithMakerFees, Taker) => RoundedUp(fee, CurveDollars(0.07, fill, terms))
    case (QuadraticWithMakerFees, Maker) => RoundedUp(fee, CurveDollars(0.0175, fill, terms))
    case (Flat, Taker) => RoundedUp(fee, CurveDollars(0.035, fill, terms))
    case (Quadratic, Maker) => fee == 0
    case (Flat, Maker) => fee == 0
  }

  lemma {:induction false} RealOfTimes(a: nat, b: nat)
    ensures Times(a, b) as real == a as real * b as real
  {
    if b > 0 {
      RealOfTimes(a, b - 1);
      var x, y := a as real, (b - 1) as real;
      assert x * (y + 1.0) == x * y + x;
    }
  }

  /** The numerator in real arithmetic. */
  lemma RealOfRawFee(price: nat, quantity: nat, rate: nat, multiplier: nat)
    requires price <= MICROS_PER_DOLLAR
    ensures RawFee(price, quantity, rate, multiplier) as real
         == rate as real * (price as real * (1_000_000.0 - price as real)) * quantity as real * multiplier as real
  {
    hide Times;
    RealOfTimes(price, MICROS_PER_DOLLAR - price);
    RealOfTimes(rate, Curve(price));
    RealOfTimes(Times(rate, Curve(price)), quantity);
    RealOfTimes(Times(Times(rate, Curve(price)), quantity), multiplier);
  }

  lemma ScaledCurve(rate: real, price: real, quantity: real, multiplier: real)
    ensures var p := price / 1_000_000.0;
            rate * (price * (1_000_000.0 - price)) * quantity * multiplier
              == 100_000_000_000_000_000_000_000_000.0
                   * (rate / 1_000_000.0 * (p * (1.0 - p)) * (quantity / 100.0) * (multiplier / 1_000_000.0))
  {
    var p := price / 1_000_000.0;
    var q, m, k := quantity / 100.0, multiplier / 1_000_000.0, rate / 1_000_000.0;
    var curve := p * (1.0 - p);
    assert price * (1_000_000.0 - price) == 1_000_000_000_000.0 * curve;
    assert rate * (1_000_000_000_000.0 * curve) == 1_000_000_000_000_000_000.0 * (k * curve);
    var x := k * curve;
    assert 1_000_000_000_000_000_000.0 * x * quantity == 100_000_000_000_000_000_000.0 * (x * q);
    var y := x * q;
    assert 100_000_000_000_000_000_000.0 * y * multiplier == 100_000_000_000_000_000_000_000_000.0 * (y * m);
  }

  /** The exact fee is the curve's dollars at the rate, rounded up. */
  lemma ExactFeeIsRoundedUp(fill: Fill, terms: FeeTerms, rate: nat)
    requires fill.price <= MICROS_PER_DOLLAR
    ensures RoundedUp(TrueTradeFee(fill.price, fill.quantity, rate, terms.multiplierMillionths),
                      CurveDollars(rate as real / 1_000_000.0, fill, terms))
  {
    hide Times, RawFee;
    var raw := RawFee(fill.price, fill.quantity, rate, terms.multiplierMillionths);
    var fee := TrueTradeFee(fill.price, fill.quantity, rate, terms.multiplierMillionths);
    RealOfRawFee(fill.price, fill.quantity, rate, terms.multiplierMillionths);
    ScaledCurve(rate as real, fill.price as real, fill.quantity as real, terms.multiplierMillionths as real);
    RealOfTimes(fee, FEE_DENOMINATOR);
    var dollars := CurveDollars(rate as real / 1_000_000.0, fill, terms);
    assert raw as real == 100_000_000_000_000_000_000.0 * (1_000_000.0 * dollars);
    assert raw <= Times(fee, FEE_DENOMINATOR) < raw + FEE_DENOMINATOR;
    assert raw as real <= fee as real * 100_000_000_000_000_000_000.0 < raw as real + 100_000_000_000_000_000_000.0;
  }

  /** A fill's trade fee follows the fee schedule. */
  lemma TradeFeeFollowsSchedule(fill: Fill, terms: FeeTerms)
    requires fill.price <= MICROS_PER_DOLLAR && FillTradeFee(fill, terms).Success?
    ensures FollowsSchedule(FillTradeFee(fill, terms).value, fill, terms)
  {
    hide Times, CurveDollars, RoundedUp, TrueTradeFee;
    NothingAtNoRate(fill, terms);
    match (terms.feeType, fill.role)
    case (Quadratic, Taker) => ExactFeeIsRoundedUp(fill, terms, 70_000);
    case (QuadraticWithMakerFees, Taker) => ExactFeeIsRoundedUp(fill, terms, 70_000);
    case (QuadraticWithMakerFees, Maker) => ExactFeeIsRoundedUp(fill, terms, 17_500);
    case (Flat, Taker) => ExactFeeIsRoundedUp(fill, terms, 35_000);
    case _ =>
  }

  /** Every charge follows the fee schedule, and moves the principal out for a buy and in for a sell. */
  lemma FeeFollowsSchedule(action: OrderAction, fill: Fill, accumulator: nat, terms: FeeTerms)
    requires accumulator <= U64_MAX && FillFee(action, fill, accumulator, terms).Success?
    ensures var charge := FillFee(action, fill, accumulator, terms).value;
      && FollowsSchedule(charge.tradeFee, fill, terms)
      && 100 * (charge.postedBalanceChange + charge.netFee)
           == (if action.Buy? then -1 else 1) * (fill.price * fill.quantity)
  {
    hide Times, FillTradeFee, FollowsSchedule;
    TradeFeeFollowsSchedule(fill, terms);
    TimesIsProduct(fill.price, fill.quantity);
  }

  lemma NothingAtNoRate(fill: Fill, terms: FeeTerms)
    requires fill.price <= MICROS_PER_DOLLAR
    ensures TrueTradeFee(fill.price, fill.quantity, 0, terms.multiplierMillionths) == 0
  {
    TimesIsProduct(0, Curve(fill.price));
    TimesIsProduct(0, fill.quantity);
    TimesIsProduct(0, terms.multiplierMillionths);
    CeilDivLeast(0, FEE_DENOMINATOR, 0);
  }

  lemma FeeGrowsWithRate(price: nat, quantity: nat, rate: nat, top: nat, multiplier: nat)
    requires price <= MICROS_PER_DOLLAR && rate <= top
    ensures TrueTradeFee(price, quantity, rate, multiplier) <= TrueTradeFee(price, quantity, top, multiplier)
  {
    hide Times;
    var fee := TrueTradeFee(price, quantity, top, multiplier);
    TimesMonotone(rate, top, Curve(price));
    TimesMonotone(Times(rate, Curve(price)), Times(top, Curve(price)), quantity);
    TimesMonotone(Times(Times(rate, Curve(price)), quantity), Times(Times(top, Curve(price)), quantity), multiplier);
    CeilDivLeast(RawFee(price, quantity, rate, multiplier), FEE_DENOMINATOR, fee);
  }

  /** Making a fill never costs more than taking it. */
  lemma MakingNeverCostsMore(action: OrderAction, fill: Fill, accumulator: nat, terms: FeeTerms)
    requires accumulator <= U64_MAX
    requires FillFee(action, fill.(role := Maker), accumulator, terms).Success?
    requires FillFee(action, fill.(role := Taker), accumulator, terms).Success?
    ensures FillFee(action, fill.(role := Maker), accumulator, terms).value.tradeFee
         <= FillFee(action, fill.(role := Taker), accumulator, terms).value.tradeFee
  {
    hide TrueTradeFee;
    FeeGrowsWithRate(fill.price, fill.quantity, terms.feeType.BaseRateMillionths(Maker),
                     terms.feeType.BaseRateMillionths(Taker), terms.multiplierMillionths);
  }

  /** A posting is refused exactly when one of its amounts leaves its width: cash 128 signed bits, net fee and
      accumulator 64. */
  lemma PostingFailsExactlyWhen(revenue: int, tradeFee: nat, accumulator: nat)
    requires InI128(revenue) && tradeFee <= U64_MAX && accumulator <= U64_MAX
    ensures var unposted := revenue - tradeFee;
      var rounding := unposted % 100;
      var rebate := Rebate(accumulator + rounding, tradeFee + rounding);
      ApplyFeeRounding(revenue, tradeFee, accumulator).Failure? <==>
        || unposted - rounding < I128_MIN || revenue - (tradeFee + rounding - rebate) < I128_MIN
        || tradeFee + rounding - rebate > U64_MAX || accumulator + rounding - rebate > U64_MAX || rebate > U64_MAX
  {
    var unposted := revenue - tradeFee;
    assert unposted == unposted / 100 * 100 + unposted % 100;
    assert FloorGrid(unposted) == unposted - unposted % 100;
    hide Rebate;
  }

  /** A fill is charged unless its price is above a dollar, its principal inexact or past 64 bits, its exact
      fee past 64 bits, or its posting refused. */
  lemma FillsAreCharged(action: OrderAction, fill: Fill, accumulator: nat, terms: FeeTerms)
    requires accumulator <= U64_MAX
    ensures FillFee(action, fill, accumulator, terms).Success? <==>
      && fill.price <= 1_000_000 && (fill.price * fill.quantity) % 100 == 0
      && fill.price * fill.quantity / 100 <= U64_MAX
      && FillTradeFee(fill, terms).Success?
      && ApplyFeeRounding(
           if action.Buy? then -(fill.price * fill.quantity / 100) else fill.price * fill.quantity / 100,
           FillTradeFee(fill, terms).value, accumulator).Success?
  {
    TimesIsProduct(fill.price, fill.quantity);
    hide Times, ApplyFeeRounding, FillTradeFee;
  }
}
