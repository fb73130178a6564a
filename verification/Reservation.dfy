/**
 The cash a buy order reserves on admission. The source checks at most 200 candidate prices; the
 specification here is the maximum over every price up to the cap, and the theorem is that no
 sequence of fills can cost more.
 */
module Reservation {
  import opened Arithmetic
  import opened Wrappers
  import opened Fees

  /** The larger of the curve's two base rates. */
  function TopRate(terms: FeeTerms): (rate: nat)
    ensures IsBaseRate(rate)
    ensures forall role :: terms.feeType.BaseRateMillionths(role) <= rate
    ensures exists role :: terms.feeType.BaseRateMillionths(role) == rate
  {
    Max(terms.feeType.BaseRateMillionths(Maker), terms.feeType.BaseRateMillionths(Taker))
  }

  /** Price and fee of one hundredth at `price`, in hundredths of a microdollar. */
  ghost function PriceBound(price: nat, rate: nat, multiplier: nat): nat
    requires price <= MICROS_PER_DOLLAR
  {
    price + 100 * TrueTradeFee(price, 1, rate, multiplier)
  }

  /** The greatest price bound over every integer price from zero to `cap`. */
  ghost function GreatestBound(cap: nat, rate: nat, multiplier: nat): nat
    requires cap <= MICROS_PER_DOLLAR
  {
    var here := PriceBound(cap, rate, multiplier);
    if cap == 0 then here else Max(GreatestBound(cap - 1, rate, multiplier), here)
  }

  lemma {:induction false} GreatestBoundIsUpper(cap: nat, rate: nat, multiplier: nat, price: nat)
    requires price <= cap <= MICROS_PER_DOLLAR
    ensures PriceBound(price, rate, multiplier) <= GreatestBound(cap, rate, multiplier)
  {
    if price < cap {
      GreatestBoundIsUpper(cap - 1, rate, multiplier, price);
    }
  }

  lemma {:induction false} GreatestBoundIsLeast(cap: nat, rate: nat, multiplier: nat, bound: nat)
    requires cap <= MICROS_PER_DOLLAR
    requires forall p :: 0 <= p <= cap ==> PriceBound(p, rate, multiplier) <= bound
    ensures GreatestBound(cap, rate, multiplier) <= bound
  {
    if cap > 0 {
      GreatestBoundIsLeast(cap - 1, rate, multiplier, bound);
    }
  }

  /** The cap rounded up to the posting grid, per quantity hundredth. */
  function GridBound(cap: nat): (bound: nat)
    ensures cap <= bound < cap + 10_000 && bound % 10_000 == 0
  {
    (cap + 9_999) / 10_000 * 10_000
  }

  /** What one hundredth may cost at most, in hundredths of a microdollar. */
  ghost function PerHundredth(cap: nat, terms: FeeTerms): (bound: nat)
    requires cap <= MICROS_PER_DOLLAR
    ensures cap <= bound
  {
    Max(GridBound(cap), GreatestBound(cap, TopRate(terms), terms.multiplierMillionths))
  }

  /** The cash an order of `quantity` at `cap` may spend in all. */
  ghost function CashBound(cap: nat, quantity: nat, terms: FeeTerms): nat
    requires cap <= MICROS_PER_DOLLAR
  {
    if quantity == 0 || cap == 0 then 0
    else GridCash(Times(quantity, PerHundredth(cap, terms)))
  }

  /** Hundredths of a microdollar with the accumulator's allowance, in whole grid units. */
  function GridCash(bound: nat): (cash: nat)
    ensures bound + 9_900 <= 100 * cash < bound + 19_900
    ensures cash % 100 == 0
  {
    ((bound + 99) / 100 + 99 + 99) / 100 * 100
  }

  /** The principal at the cap, floored. */
  ghost function CapPrincipal(cap: nat, quantity: nat): nat {
    Times(quantity, cap) / 100
  }

  lemma CashCoversPrincipal(cap: nat, quantity: nat, terms: FeeTerms)
    requires cap <= MICROS_PER_DOLLAR
    ensures CapPrincipal(cap, quantity) <= CashBound(cap, quantity, terms)
  {
    TimesMonotone(cap, PerHundredth(cap, terms), quantity);
    TimesIsProduct(quantity, 0);
    TimesIsProduct(0, cap);
  }

  /** The fee reservation: what the cash bound adds to the floored principal, when 64 bits hold it. */
  ghost function BuyFeeReservation(cap: nat, quantity: nat, terms: FeeTerms): FeeResult<nat> {
    if cap > MICROS_PER_DOLLAR then Failure(InvalidInput)
    else
      CashCoversPrincipal(cap, quantity, terms);
      var reserved: nat := CashBound(cap, quantity, terms) - CapPrincipal(cap, quantity);
      if reserved <= U64_MAX then Success(reserved) else Failure(InvalidInput)
  }

  // ---------------------------------------------------------------------------------------
  // Soundness over any sequence of fills
  // ---------------------------------------------------------------------------------------

  /** The accumulator's potential: what it may yet be worth to the order, short of one grid unit. */
  function Potential(accumulator: nat): nat {
    Min(accumulator, 99)
  }

  /** Rounding alone: either the fee is under one grid unit and nothing is rebated, or what is
      charged beyond the trade fee is paid for by the potential. */
  lemma RoundingIsAmortised(principal: nat, fee: nat, accumulator: nat)
    requires principal <= U64_MAX && fee <= U64_MAX && accumulator <= U64_MAX
    requires ApplyFeeRounding(Revenue(Buy, principal), fee, accumulator).Success?
    ensures var r := ApplyFeeRounding(Revenue(Buy, principal), fee, accumulator).value;
            || (r.netFee < 100 && Potential(accumulator) <= Potential(r.accumulator))
            || r.netFee + Potential(accumulator) <= fee + Potential(r.accumulator)
  {
    var r := ApplyFeeRounding(Revenue(Buy, principal), fee, accumulator).value;
    if fee + r.roundingFee < 100 {
      assert r.rebate == 0;
    } else if accumulator + r.roundingFee >= 100 {
      assert r.rebate >= 100;
    }
  }

  /** A fill's fee is at most its quantity times the fee of one hundredth at the top rate. */
  lemma FeeSplits(price: nat, quantity: nat, rate: nat, top: nat, multiplier: nat)
    requires price <= MICROS_PER_DOLLAR && rate <= top
    ensures TrueTradeFee(price, quantity, rate, multiplier)
         <= Times(quantity, TrueTradeFee(price, 1, top, multiplier))
  {
    var one := TrueTradeFee(price, 1, top, multiplier);
    var mine := Times(Times(rate, Curve(price)), multiplier);
    TimesRearranges(Times(rate, Curve(price)), quantity, multiplier);
    TimesIsProduct(Times(top, Curve(price)), 1);
    TimesMonotone(rate, top, Curve(price));
    TimesMonotone(Times(rate, Curve(price)), Times(top, Curve(price)), multiplier);
    assert mine <= Times(one, FEE_DENOMINATOR);
    TimesMonotone(mine, Times(one, FEE_DENOMINATOR), quantity);
    TimesAssociates(quantity, one, FEE_DENOMINATOR);
    CeilDivLeast(RawFee(price, quantity, rate, multiplier), FEE_DENOMINATOR, Times(quantity, one));
  }

  /** A multiple of the grid less than one grid unit above the principal is within the grid bound. */
  lemma SmallFillWithinGrid(cost: nat, price: nat, quantity: nat, cap: nat)
    requires price <= cap
    requires cost % 100 == 0
    requires 100 * cost < Times(price, quantity) + 10_000
    ensures 100 * cost <= Times(quantity, GridBound(cap))
  {
    hide Times;
    var units := GridBound(cap) / 10_000;
    TimesMonotone(price, GridBound(cap), quantity);
    TimesCommutes(price, quantity);
    TimesIsProduct(units, 10_000);
    TimesAssociates(quantity, units, 10_000);
    TimesIsProduct(Times(quantity, units), 10_000);
  }

  lemma GridBoundIsWithin(cap: nat, terms: FeeTerms)
    requires cap <= MICROS_PER_DOLLAR
    ensures GridBound(cap) <= PerHundredth(cap, terms)
  {
    hide GreatestBound;
  }

  /** One buy fill costs at most its share of the bound plus the potential it leaves. */
  lemma FillWithinBound(fill: Fill, accumulator: nat, terms: FeeTerms, cap: nat)
    requires accumulator <= U64_MAX && fill.price <= cap <= MICROS_PER_DOLLAR
    requires FillFee(Buy, fill, accumulator, terms).Success?
    ensures var charge := FillFee(Buy, fill, accumulator, terms).value;
            && 100 * -charge.postedBalanceChange + 100 * Potential(accumulator)
               <= Times(fill.quantity, PerHundredth(cap, terms)) + 100 * Potential(charge.accumulator)
  {
    hide Times, TrueTradeFee, PerHundredth;
    var charge := FillFee(Buy, fill, accumulator, terms).value;
    RoundingIsAmortised(Principal(fill), FillTradeFee(fill, terms).value, accumulator);
    assert 100 * Principal(fill) == PrincipalProduct(fill);
    if charge.netFee < 100 && Potential(accumulator) <= Potential(charge.accumulator) {
      SmallFillWithinGrid(-charge.postedBalanceChange, fill.price, fill.quantity, cap);
      GridBoundIsWithin(cap, terms);
      TimesMonotone(GridBound(cap), PerHundredth(cap, terms), fill.quantity);
    } else {
      LargeFillWithinBound(fill, terms, cap);
    }
  }

  /** Principal and trade fee of a fill are within its quantity's share of the bound. */
  lemma LargeFillWithinBound(fill: Fill, terms: FeeTerms, cap: nat)
    requires fill.price <= cap <= MICROS_PER_DOLLAR
    ensures PrincipalProduct(fill)
          + 100 * TrueTradeFee(fill.price, fill.quantity, terms.feeType.BaseRateMillionths(fill.role),
                               terms.multiplierMillionths)
         <= Times(fill.quantity, PerHundredth(cap, terms))
  {
    hide Times, TrueTradeFee, GreatestBound;
    var top, multiplier := TopRate(terms), terms.multiplierMillionths;
    var one := TrueTradeFee(fill.price, 1, top, multiplier);
    FeeSplits(fill.price, fill.quantity, terms.feeType.BaseRateMillionths(fill.role), top, multiplier);
    GreatestBoundIsUpper(cap, top, multiplier, fill.price);
    TimesDistributes(fill.price, 100 * one, fill.quantity);
    TimesCommutes(fill.price, fill.quantity);
    TimesIsProduct(100, one);
    TimesIsProduct(100, Times(fill.quantity, one));
    TimesRearranges(fill.quantity, 100, one);
    TimesMonotone(PriceBound(fill.price, top, multiplier), PerHundredth(cap, terms), fill.quantity);
  }

  function TotalQuantity(fills: seq<Fill>): nat {
    if fills == [] then 0 else TotalQuantity(fills[..|fills| - 1]) + fills[|fills| - 1].quantity
  }

  ghost predicate WithinCap(fills: seq<Fill>, cap: nat) {
    forall k :: 0 <= k < |fills| ==> fills[k].price <= cap
  }

  /** Any fills of one buy, from an empty accumulator, cost at most their quantity's share of the
      bound plus the potential still held: the amortised argument. */
  lemma {:induction false} FillsWithinBound(fills: seq<Fill>, cap: nat, terms: FeeTerms)
    requires cap <= MICROS_PER_DOLLAR && WithinCap(fills, cap)
    requires Settle(Buy, fills, 0, terms).Success?
    ensures var s := Settle(Buy, fills, 0, terms).value;
            && 100 * -s.posted
               <= Times(TotalQuantity(fills), PerHundredth(cap, terms)) + 100 * Potential(s.accumulator)
  {
    hide FillFee, PerHundredth;
    if fills != [] {
      var earlier, fill := fills[..|fills| - 1], fills[|fills| - 1];
      var before := Settle(Buy, earlier, 0, terms).value;
      var bound := PerHundredth(cap, terms);
      FillsWithinBound(earlier, cap, terms);
      FillWithinBound(fill, before.accumulator, terms, cap);
      TimesDistributes(TotalQuantity(earlier), fill.quantity, bound);
    }
  }

  /** Reservation soundness: after any fills of a buy at or below its cap, in any mix of roles, the
      cash spent and the unfilled quantity's principal at the cap stay within the floored cap
      principal plus the reservation. */
  lemma {:induction false} ReservationCoversAnyFills(fills: seq<Fill>, cap: nat, quantity: nat, terms: FeeTerms)
    requires BuyFeeReservation(cap, quantity, terms).Success?
    requires WithinCap(fills, cap) && TotalQuantity(fills) <= quantity
    requires Settle(Buy, fills, 0, terms).Success?
    ensures -Settle(Buy, fills, 0, terms).value.posted + CapPrincipal(cap, quantity - TotalQuantity(fills))
         <= CapPrincipal(cap, quantity) + BuyFeeReservation(cap, quantity, terms).value
  {
    hide Settle, PerHundredth;
    var s := Settle(Buy, fills, 0, terms).value;
    var filled := TotalQuantity(fills);
    var rest := quantity - filled;
    var bound := PerHundredth(cap, terms);
    FillsWithinBound(fills, cap, terms);
    if quantity == 0 || cap == 0 {
      FreeFillsCostNothing(fills, cap, quantity, terms);
    } else {
      TimesDistributes(filled, rest, bound);
      TimesMonotone(cap, bound, rest);
    }
  }

  /** An order with no quantity or no price has nothing to pay. */
  lemma {:induction false} FreeFillsCostNothing(fills: seq<Fill>, cap: nat, quantity: nat, terms: FeeTerms)
    requires quantity == 0 || cap == 0
    requires cap <= MICROS_PER_DOLLAR
    requires WithinCap(fills, cap) && TotalQuantity(fills) <= quantity
    requires Settle(Buy, fills, 0, terms).Success?
    ensures Settle(Buy, fills, 0, terms).value.posted == 0
    ensures Settle(Buy, fills, 0, terms).value.accumulator == 0
  {
    if fills != [] {
      var earlier, fill := fills[..|fills| - 1], fills[|fills| - 1];
      FreeFillsCostNothing(earlier, cap, quantity, terms);
      FreeFill(fill, terms);
    }
  }

  lemma FreeFill(fill: Fill, terms: FeeTerms)
    requires fill.price <= MICROS_PER_DOLLAR
    requires fill.quantity == 0 || fill.price == 0
    ensures PrincipalProduct(fill) == 0
    ensures FillTradeFee(fill, terms) == Success(0)
  {
    var rate := terms.feeType.BaseRateMillionths(fill.role);
    TimesIsProduct(0, fill.quantity);
    TimesIsProduct(fill.price, 0);
    TimesIsProduct(0, MICROS_PER_DOLLAR);
    TimesIsProduct(rate, 0);
    TimesIsProduct(Times(rate, Curve(fill.price)), 0);
    TimesIsProduct(0, terms.multiplierMillionths);
  }

  // ---------------------------------------------------------------------------------------
  // The fast maximum
  // ---------------------------------------------------------------------------------------

  const UNIT: nat := 1_000_000_000_000_000_000

  /** The unrounded bound of `price`, times `UNIT`: a quadratic in the price, concave. */
  ghost function Height(price: nat, coefficient: nat): nat
    requires price <= MICROS_PER_DOLLAR
  {
    Times(UNIT, price) + Times(coefficient, Curve(price))
  }

  /** On the lattice of one residue, the rounded bound orders prices as the unrounded one does. */
  lemma {:induction false} BoundFollowsHeight(a: nat, b: nat, rate: nat, multiplier: nat)
    requires a <= MICROS_PER_DOLLAR && b <= MICROS_PER_DOLLAR && a % 100 == b % 100
    requires Height(a, Times(rate, multiplier)) <= Height(b, Times(rate, multiplier))
    ensures PriceBound(a, rate, multiplier) <= PriceBound(b, rate, multiplier)
  {
    hide *;
    if a <= b {
      SameResidue(a, b);
      BoundRises(a, (b - a) / 100, rate, multiplier);
    } else {
      SameResidue(b, a);
      BoundFalls(b, (a - b) / 100, rate, multiplier);
    }
  }

  lemma SameResidue(a: nat, b: nat)
    requires a <= b && a % 100 == b % 100
    ensures b == a + 100 * ((b - a) / 100)
  {
  }

  lemma {:induction false} BoundRises(a: nat, steps: nat, rate: nat, multiplier: nat)
    requires a + 100 * steps <= MICROS_PER_DOLLAR
    requires Height(a, Times(rate, multiplier)) <= Height(a + 100 * steps, Times(rate, multiplier))
    ensures PriceBound(a, rate, multiplier) <= PriceBound(a + 100 * steps, rate, multiplier)
  {
    RawFeeRises(a, steps, rate, multiplier);
    hide Times, RawFee, CeilDiv, Height;
    RoundedStepUp(RawFee(a, 1, rate, multiplier), RawFee(a + 100 * steps, 1, rate, multiplier), steps);
  }

  lemma {:induction false} RawFeeRises(a: nat, steps: nat, rate: nat, multiplier: nat)
    requires a + 100 * steps <= MICROS_PER_DOLLAR
    requires Height(a, Times(rate, multiplier)) <= Height(a + 100 * steps, Times(rate, multiplier))
    ensures RawFee(a, 1, rate, multiplier)
         <= RawFee(a + 100 * steps, 1, rate, multiplier) + Times(steps, FEE_DENOMINATOR)
  {
    hide Times, RawFee;
    RawFeeOfOne(a, rate, multiplier);
    RawFeeOfOne(a + 100 * steps, rate, multiplier);
    LatticeStep(a, steps);
  }

  lemma {:induction false} BoundFalls(b: nat, steps: nat, rate: nat, multiplier: nat)
    requires b + 100 * steps <= MICROS_PER_DOLLAR
    requires Height(b + 100 * steps, Times(rate, multiplier)) <= Height(b, Times(rate, multiplier))
    ensures PriceBound(b + 100 * steps, rate, multiplier) <= PriceBound(b, rate, multiplier)
  {
    RawFeeFalls(b, steps, rate, multiplier);
    hide Times, RawFee, CeilDiv, Height;
    RoundedStepDown(RawFee(b + 100 * steps, 1, rate, multiplier), RawFee(b, 1, rate, multiplier), steps);
  }

  lemma RawFeeFalls(b: nat, steps: nat, rate: nat, multiplier: nat)
    requires b + 100 * steps <= MICROS_PER_DOLLAR
    requires Height(b + 100 * steps, Times(rate, multiplier)) <= Height(b, Times(rate, multiplier))
    ensures RawFee(b + 100 * steps, 1, rate, multiplier) + Times(steps, FEE_DENOMINATOR)
         <= RawFee(b, 1, rate, multiplier)
  {
    hide Times, RawFee;
    RawFeeOfOne(b, rate, multiplier);
    RawFeeOfOne(b + 100 * steps, rate, multiplier);
    LatticeStep(b, steps);
  }

  lemma RoundedStepUp(x: nat, y: nat, steps: nat)
    requires x <= y + Times(steps, FEE_DENOMINATOR)
    ensures CeilDiv(x, FEE_DENOMINATOR) <= CeilDiv(y, FEE_DENOMINATOR) + steps
  {
    var q := CeilDiv(y, FEE_DENOMINATOR);
    TimesDistributes(q, steps, FEE_DENOMINATOR);
    CeilDivLeast(x, FEE_DENOMINATOR, q + steps);
  }

  lemma RoundedStepDown(x: nat, y: nat, steps: nat)
    requires x + Times(steps, FEE_DENOMINATOR) <= y
    ensures CeilDiv(x, FEE_DENOMINATOR) + steps <= CeilDiv(y, FEE_DENOMINATOR)
  {
    var q := CeilDiv(y, FEE_DENOMINATOR);
    TimesDistributes(q, 1, FEE_DENOMINATOR);
    TimesIsProduct(1, FEE_DENOMINATOR);
    TimesReflects(steps, q + 1, FEE_DENOMINATOR);
    TimesDistributes(q - steps, steps, FEE_DENOMINATOR);
    CeilDivLeast(x, FEE_DENOMINATOR, q - steps);
  }

  lemma LatticeStep(price: nat, steps: nat)
    ensures Times(UNIT, price + 100 * steps) == Times(UNIT, price) + Times(steps, FEE_DENOMINATOR)
  {
    TimesDistributes(price, 100 * steps, UNIT);
    TimesIsProduct(100, steps);
    TimesIsProduct(UNIT, 100);
    TimesAssociates(UNIT, 100, steps);
    TimesCommutes(FEE_DENOMINATOR, steps);
  }

  lemma RawFeeOfOne(price: nat, rate: nat, multiplier: nat)
    requires price <= MICROS_PER_DOLLAR
    ensures RawFee(price, 1, rate, multiplier) == Times(Times(rate, multiplier), Curve(price))
  {
    TimesIsProduct(Times(rate, Curve(price)), 1);
    TimesRearranges(rate, Curve(price), multiplier);
  }

  /** The difference of two heights, as a product. */
  lemma HeightDifference(a: nat, b: nat, coefficient: nat)
    requires a <= MICROS_PER_DOLLAR && b <= MICROS_PER_DOLLAR
    ensures Height(b, coefficient) - Height(a, coefficient)
         == (b - a) * (UNIT + coefficient * (MICROS_PER_DOLLAR - a - b))
  {
    TimesIsProduct(UNIT, a);
    TimesIsProduct(UNIT, b);
    TimesIsProduct(a, MICROS_PER_DOLLAR - a);
    TimesIsProduct(b, MICROS_PER_DOLLAR - b);
    TimesIsProduct(coefficient, Curve(a));
    TimesIsProduct(coefficient, Curve(b));
    var m := MICROS_PER_DOLLAR;
    assert b * (m - b) - a * (m - a) == (b - a) * (m - a - b);
    ScaledDifference(coefficient, b * (m - b), a * (m - a), b - a, m - a - b);
    SumOfProducts(b - a, UNIT, coefficient * (m - a - b));
  }

  lemma ScaledDifference(c: int, x: int, y: int, d: int, e: int)
    requires x - y == d * e
    ensures c * x - c * y == d * (c * e)
  {
    assert c * x - c * y == c * (x - y);
    assert c * (d * e) == d * (c * e);
  }

  lemma SumOfProducts(d: int, x: int, y: int)
    ensures d * (x + y) == d * x + d * y
  {
  }

  lemma ProductOfSigns(d: int, x: int)
    requires d >= 0
    ensures x >= 0 ==> d * x >= 0
    ensures x <= 0 ==> d * x <= 0
  {
  }

  /** `peak` is the whole part of the quadratic's vertex, or the cap when that comes first. */
  ghost predicate IsCappedPeak(peak: nat, cap: nat, coefficient: nat) {
    && peak <= cap
    && 2 * Times(coefficient, peak) <= 1_000_000 * coefficient + UNIT
    && (peak < cap ==> 1_000_000 * coefficient + UNIT < 2 * Times(coefficient, peak + 1))
  }

  lemma CappedPeakIsWithinCap(peak: nat, cap: nat, coefficient: nat)
    requires IsCappedPeak(peak, cap, coefficient)
    ensures peak <= cap
  {
  }

  lemma RisesToPeak(a: nat, b: nat, peak: nat, coefficient: nat)
    requires a <= b <= MICROS_PER_DOLLAR && b <= peak
    requires exists cap :: IsCappedPeak(peak, cap, coefficient)
    ensures Height(a, coefficient) <= Height(b, coefficient)
  {
    HeightDifference(a, b, coefficient);
    TimesMonotone(a + b, 2 * peak, coefficient);
    SlopeAsProduct(a, b, peak, coefficient);
    ProductOfSigns(b - a, UNIT + coefficient * (MICROS_PER_DOLLAR - a - b));
  }

  lemma FallsPastPeak(a: nat, b: nat, peak: nat, coefficient: nat)
    requires peak < a <= b <= MICROS_PER_DOLLAR
    requires exists cap :: peak < cap && IsCappedPeak(peak, cap, coefficient)
    ensures Height(a, coefficient) >= Height(b, coefficient)
  {
    HeightDifference(a, b, coefficient);
    TimesMonotone(2 * (peak + 1), a + b, coefficient);
    SlopeAsProduct(a, b, peak + 1, coefficient);
    ProductOfSigns(b - a, UNIT + coefficient * (MICROS_PER_DOLLAR - a - b));
  }

  lemma SlopeAsProduct(a: nat, b: nat, p: nat, coefficient: nat)
    ensures coefficient * (MICROS_PER_DOLLAR - a - b)
         == 1_000_000 * coefficient - Times(a + b, coefficient)
    ensures 2 * Times(coefficient, p) == Times(2 * p, coefficient)
  {
    hide Times;
    TimesIsProduct(a + b, coefficient);
    TimesIsProduct(coefficient, p);
    TimesIsProduct(2 * p, coefficient);
    var m := MICROS_PER_DOLLAR;
    assert coefficient * (m - (a + b)) == coefficient * m - coefficient * (a + b);
  }

  /** The largest price of `residue` at or below `limit`. */
  function LatticeFloor(residue: nat, limit: nat): (price: nat)
    requires residue < 100
    ensures price % 100 == residue
    ensures residue <= limit ==> price <= limit < price + 100
    ensures limit < residue ==> price == residue
  {
    if limit < residue then residue else residue + (limit - residue) / 100 * 100
  }

  /** The two prices checked for one residue bound every price of that residue up to the cap. */
  lemma {:induction false} CandidatesBoundResidue(cap: nat, peak: nat, price: nat, rate: nat, multiplier: nat)
    requires price <= cap <= MICROS_PER_DOLLAR && IsCappedPeak(peak, cap, Times(rate, multiplier))
    ensures var residue := price % 100;
            var lower := LatticeFloor(residue, peak);
            var upper := Min(lower + 100, LatticeFloor(residue, cap));
            && lower <= cap && upper <= cap
            && (|| PriceBound(price, rate, multiplier) <= PriceBound(lower, rate, multiplier)
                || PriceBound(price, rate, multiplier) <= PriceBound(upper, rate, multiplier))
  {
    hide Height, PriceBound, IsCappedPeak, Times;
    var c, residue := Times(rate, multiplier), price % 100;
    CappedPeakIsWithinCap(peak, cap, c);
    var lower := LatticeFloor(residue, peak);
    var upper := Min(lower + 100, LatticeFloor(residue, cap));
    if price <= lower && residue <= peak {
      RisesToPeak(price, lower, peak, c);
      BoundFollowsHeight(price, lower, rate, multiplier);
    } else if peak < residue {
      FallsPastPeak(lower, price, peak, c);
      BoundFollowsHeight(price, lower, rate, multiplier);
    } else {
      FallsPastPeak(upper, price, peak, c);
      BoundFollowsHeight(price, upper, rate, multiplier);
    }
  }

  /** A whole dollar's fee on one hundredth is far inside 64 bits, so no candidate is refused. */
  lemma FeeOfOneFits(price: nat, rate: nat, multiplier: nat)
    requires price <= MICROS_PER_DOLLAR && rate <= 70_000 && multiplier <= U64_MAX
    ensures TrueTradeFee(price, 1, rate, multiplier) <= U64_MAX
  {
    RawFeeOfOne(price, rate, multiplier);
    TimesMonotone(rate, 70_000, multiplier);
    TimesMonotone(multiplier, U64_MAX, 70_000);
    TimesIsProduct(70_000, U64_MAX);
    TimesMonotone(price, MICROS_PER_DOLLAR, MICROS_PER_DOLLAR - price);
    TimesMonotone(MICROS_PER_DOLLAR - price, MICROS_PER_DOLLAR, MICROS_PER_DOLLAR);
    TimesIsProduct(MICROS_PER_DOLLAR, MICROS_PER_DOLLAR);
    var widest := 70_000 * U64_MAX;
    TimesMonotone(Times(rate, multiplier), widest, Curve(price));
    TimesMonotone(Curve(price), 1_000_000_000_000, widest);
    TimesIsProduct(widest, 1_000_000_000_000);
    TimesIsProduct(U64_MAX, FEE_DENOMINATOR);
    CeilDivLeast(RawFee(price, 1, rate, multiplier), FEE_DENOMINATOR, U64_MAX);
  }

  /** The whole part of the vertex, or the cap. */
  method Peak(cap: nat, coefficient: nat) returns (peak: nat)
    ensures IsCappedPeak(peak, cap, coefficient)
  {
    if coefficient == 0 {
      TimesIsProduct(0, cap);
      return cap;
    }
    var n := 1_000_000 * coefficient + 1_000_000_000_000_000_000;
    var vertex := n / (2 * coefficient);
    QuotientBounds(n, 2 * coefficient);
    DoubledVertex(vertex, coefficient);
    peak := Min(vertex, cap);
    TimesMonotone(peak, vertex, coefficient);
  }

  lemma DoubledVertex(vertex: nat, coefficient: nat)
    ensures Times(vertex, 2 * coefficient) == 2 * Times(coefficient, vertex)
    ensures Times(coefficient, vertex + 1) == Times(coefficient, vertex) + coefficient
  {
    TimesDistributes(coefficient, coefficient, vertex);
    TimesCommutes(coefficient, vertex);
    TimesDistributes(vertex, 1, coefficient);
    TimesIsProduct(coefficient, 1);
  }

  /** Everything the candidates of the residues below `done` are known to bound. */
  ghost predicate BoundsResidues(bound: nat, cap: nat, rate: nat, multiplier: nat, done: nat)
    requires cap <= MICROS_PER_DOLLAR
  {
    forall p | 0 <= p <= cap && p % 100 < done :: PriceBound(p, rate, multiplier) <= bound
  }

  ghost predicate IsAttained(bound: nat, cap: nat, rate: nat, multiplier: nat)
    requires cap <= MICROS_PER_DOLLAR
  {
    bound == GridBound(cap) || exists p :: 0 <= p <= cap && PriceBound(p, rate, multiplier) == bound
  }

  /** The bound after one candidate price. */
  method RaiseToPrice(bound: nat, cap: nat, price: nat, rate: nat, multiplier: nat) returns (raised: FeeResult<nat>)
    requires price <= cap <= MICROS_PER_DOLLAR && multiplier <= U64_MAX && IsBaseRate(rate)
    requires IsAttained(bound, cap, rate, multiplier)
    ensures raised.Success?
    ensures raised.value == Max(bound, PriceBound(price, rate, multiplier))
    ensures IsAttained(raised.value, cap, rate, multiplier)
  {
    FeeOfOneFits(price, rate, multiplier);
    var fee := TradeFeeMicros(price, 1, rate, multiplier);
    if fee.Failure? {
      return Failure(InvalidInput);
    }
    return Success(Max(bound, price + 100 * fee.value));
  }

  lemma {:induction false} ResidueDone(
      bound: nat, raised: nat, cap: nat, peak: nat, residue: nat, rate: nat, multiplier: nat)
    requires residue < 100 && residue <= cap <= MICROS_PER_DOLLAR
    requires IsCappedPeak(peak, cap, Times(rate, multiplier))
    requires BoundsResidues(bound, cap, rate, multiplier, residue) && bound <= raised
    requires var lower := LatticeFloor(residue, peak);
             var upper := Min(lower + 100, LatticeFloor(residue, cap));
             && lower <= cap && upper <= cap
             && PriceBound(lower, rate, multiplier) <= raised && PriceBound(upper, rate, multiplier) <= raised
    ensures BoundsResidues(raised, cap, rate, multiplier, residue + 1)
  {
    hide IsCappedPeak, PriceBound, Times;
    forall p | 0 <= p <= cap && p % 100 < residue + 1
      ensures PriceBound(p, rate, multiplier) <= raised
    {
      if p % 100 == residue {
        CandidatesBoundResidue(cap, peak, p, rate, multiplier);
      }
    }
  }

  /** The bound after one residue's candidates: the lattice points around the peak, or the cap's. */
  method RaiseToCandidates(bound: nat, cap: nat, candidates: seq<nat>, rate: nat, multiplier: nat)
    returns (r: FeeResult<nat>)
    requires cap <= MICROS_PER_DOLLAR && multiplier <= U64_MAX && IsBaseRate(rate)
    requires forall i :: 0 <= i < |candidates| ==> candidates[i] <= cap
    requires IsAttained(bound, cap, rate, multiplier)
    ensures r.Success? && bound <= r.value && IsAttained(r.value, cap, rate, multiplier)
    ensures forall i :: 0 <= i < |candidates| ==> PriceBound(candidates[i], rate, multiplier) <= r.value
  {
    hide PriceBound, IsAttained;
    var perHundredth := bound;
    for k := 0 to |candidates|
      invariant bound <= perHundredth && IsAttained(perHundredth, cap, rate, multiplier)
      invariant forall i :: 0 <= i < k ==> PriceBound(candidates[i], rate, multiplier) <= perHundredth
    {
      var raised := RaiseToPrice(perHundredth, cap, candidates[k], rate, multiplier);
      if raised.Failure? {
        return raised;
      }
      perHundredth := raised.value;
    }
    return Success(perHundredth);
  }

  /** The greatest bound over every price, from at most two candidate prices per residue. */
  method MaximizePerHundredth(cap: nat, rate: nat, multiplier: nat) returns (r: FeeResult<nat>)
    requires cap <= MICROS_PER_DOLLAR && multiplier <= U64_MAX && IsBaseRate(rate)
    ensures r == Success(Max(GridBound(cap), GreatestBound(cap, rate, multiplier)))
  {
    hide IsCappedPeak, PriceBound, IsAttained, BoundsResidues, GreatestBound, Times;
    TimesIsProduct(rate, multiplier);
    var peak := Peak(cap, rate * multiplier);
    var perHundredth := GridBound(cap);
    NothingChecked(cap, rate, multiplier);
    for residue := 0 to Min(100, cap + 1)
      invariant GridBound(cap) <= perHundredth
      invariant IsAttained(perHundredth, cap, rate, multiplier)
      invariant BoundsResidues(perHundredth, cap, rate, multiplier, residue)
    {
      var candidates := Candidates(cap, residue, peak);
      CandidatesBoundResidue(cap, peak, residue, rate, multiplier);
      var raised := RaiseToCandidates(perHundredth, cap, candidates, rate, multiplier);
      if raised.Failure? {
        return raised;
      }
      assert PriceBound(candidates[0], rate, multiplier) <= raised.value;
      assert PriceBound(candidates[1], rate, multiplier) <= raised.value;
      ResidueDone(perHundredth, raised.value, cap, peak, residue, rate, multiplier);
      perHundredth := raised.value;
    }
    AttainedIsGreatest(perHundredth, cap, rate, multiplier);
    return Success(perHundredth);
  }

  function Candidates(cap: nat, residue: nat, peak: nat): (prices: seq<nat>)
    requires residue < 100 && residue <= cap
    ensures prices == [LatticeFloor(residue, peak), Min(LatticeFloor(residue, peak) + 100, LatticeFloor(residue, cap))]
  {
    var last := cap - (cap - residue) % 100;
    var lower := if peak < residue then residue else residue + (peak - residue) / 100 * 100;
    [lower, Min(lower + 100, last)]
  }

  lemma NothingChecked(cap: nat, rate: nat, multiplier: nat)
    requires cap <= MICROS_PER_DOLLAR
    ensures IsAttained(GridBound(cap), cap, rate, multiplier)
    ensures BoundsResidues(GridBound(cap), cap, rate, multiplier, 0)
  {
  }

  lemma AttainedIsGreatest(bound: nat, cap: nat, rate: nat, multiplier: nat)
    requires cap <= MICROS_PER_DOLLAR && GridBound(cap) <= bound
    requires IsAttained(bound, cap, rate, multiplier)
    requires BoundsResidues(bound, cap, rate, multiplier, Min(100, cap + 1))
    ensures bound == Max(GridBound(cap), GreatestBound(cap, rate, multiplier))
  {
    hide GreatestBound, PriceBound;
    GreatestBoundIsLeast(cap, rate, multiplier, bound);
    if bound != GridBound(cap) {
      var p :| 0 <= p <= cap && PriceBound(p, rate, multiplier) == bound;
      GreatestBoundIsUpper(cap, rate, multiplier, p);
    }
  }

  /** The reservation as the source computes it equals the brute-force reservation over every
      price up to the cap. */
  method ReserveDirectMemberBuyFee(cap: nat, quantity: nat, terms: FeeTerms) returns (r: FeeResult<nat>)
    requires cap <= U64_MAX && quantity <= U64_MAX && terms.Valid()
    ensures r == BuyFeeReservation(cap, quantity, terms)
  {
    hide Times, GreatestBound;
    if cap > 1_000_000 {
      return Failure(InvalidInput);
    }
    TimesIsProduct(quantity, cap);
    if quantity == 0 || cap == 0 {
      return Success(0);
    }
    var perHundredth := MaximizePerHundredth(cap, TopRate(terms), terms.multiplierMillionths);
    if perHundredth.Failure? {
      return perHundredth;
    }
    TimesIsProduct(quantity, perHundredth.value);
    CashCoversPrincipal(cap, quantity, terms);
    var bound := quantity * perHundredth.value;
    var cash := ((bound + 99) / 100 + 99 + 99) / 100 * 100;
    var principal := quantity * cap / 100;
    if cash - principal > U64_MAX {
      return Failure(InvalidInput);
    }
    return Success(cash - principal);
  }

  /** The cash bound grows with the cap and with the quantity. */
  lemma CashBoundIsMonotone(cap: nat, cap': nat, quantity: nat, quantity': nat, terms: FeeTerms)
    requires cap <= cap' <= MICROS_PER_DOLLAR && quantity <= quantity'
    ensures CashBound(cap, quantity, terms) <= CashBound(cap', quantity', terms)
  {
    hide PerHundredth, Times, GreatestBound;
    PerHundredthGrows(cap, cap', terms);
    TimesMonotone(PerHundredth(cap, terms), PerHundredth(cap', terms), quantity);
    TimesMonotone(quantity, quantity', PerHundredth(cap', terms));
  }

  lemma {:induction false} PerHundredthGrows(cap: nat, cap': nat, terms: FeeTerms)
    requires cap <= cap' <= MICROS_PER_DOLLAR
    ensures PerHundredth(cap, terms) <= PerHundredth(cap', terms)
  {
    hide GreatestBound, TopRate;
    GreatestBoundGrows(cap, cap', TopRate(terms), terms.multiplierMillionths);
  }

  lemma {:induction false} GreatestBoundGrows(cap: nat, cap': nat, rate: nat, multiplier: nat)
    requires cap <= cap' <= MICROS_PER_DOLLAR
    ensures GreatestBound(cap, rate, multiplier) <= GreatestBound(cap', rate, multiplier)
  {
    if cap < cap' {
      GreatestBoundGrows(cap, cap' - 1, rate, multiplier);
    }
  }

  // ---------------------------------------------------------------------------------------
  // Commitment
  // ---------------------------------------------------------------------------------------

  /** Principal at the cap, which must be exact, and reservation together; nothing is committed for no
      quantity or no price. */
  ghost function BuyCommitment(cap: nat, quantity: int, terms: FeeTerms): FeeResult<nat> {
    if quantity <= 0 || cap == 0 || Times(quantity, cap) % 100 != 0 || CapPrincipal(cap, quantity) > U64_MAX then
      Failure(InvalidInput)
    else
      var reservation := BuyFeeReservation(cap, quantity, terms);
      if reservation.Failure? || CapPrincipal(cap, quantity) + reservation.value > U64_MAX then
        Failure(InvalidInput)
      else Success(CapPrincipal(cap, quantity) + reservation.value)
  }

  method BuyCommitmentMicros(cap: nat, quantity: int, terms: FeeTerms) returns (r: FeeResult<nat>)
    requires cap <= U64_MAX && I64_MIN <= quantity <= I64_MAX && terms.Valid()
    ensures r == BuyCommitment(cap, quantity, terms)
  {
    if quantity < 0 || quantity == 0 || cap == 0 {
      return Failure(InvalidInput);
    }
    TimesIsProduct(quantity, cap);
    var product := quantity * cap;
    if product % 100 != 0 {
      return Failure(InvalidInput);
    }
    var principal := product / 100;
    if principal > U64_MAX {
      return Failure(InvalidInput);
    }
    var reservation := ReserveDirectMemberBuyFee(cap, quantity, terms);
    if reservation.Failure? || principal + reservation.value > U64_MAX {
      return Failure(InvalidInput);
    }
    return Success(principal + reservation.value);
  }

  ghost predicate ExactPrincipals(fills: seq<Fill>) {
    forall k :: 0 <= k < |fills| ==> PrincipalProduct(fills[k]) % 100 == 0
  }

  /** Principal and trade fee of a fill of a committed order leave room in 64 bits for rounding. */
  lemma CommittedFillHasRoom(fill: Fill, cap: nat, quantity: nat, terms: FeeTerms)
    requires BuyCommitment(cap, quantity, terms).Success?
    requires fill.price <= cap && fill.quantity <= quantity
    ensures fill.price <= cap <= MICROS_PER_DOLLAR
    ensures Principal(fill) + 99
          + TrueTradeFee(fill.price, fill.quantity, terms.feeType.BaseRateMillionths(fill.role),
                         terms.multiplierMillionths) <= U64_MAX
  {
    hide PerHundredth, TrueTradeFee, Times;
    LargeFillWithinBound(fill, terms, cap);
    TimesMonotone(fill.quantity, quantity, PerHundredth(cap, terms));
    CashCoversPrincipal(cap, quantity, terms);
  }

  lemma CommittedFillSucceeds(fill: Fill, accumulator: nat, cap: nat, quantity: nat, terms: FeeTerms)
    requires BuyCommitment(cap, quantity, terms).Success?
    requires fill.price <= cap && fill.quantity <= quantity
    requires PrincipalProduct(fill) % 100 == 0 && accumulator + 99 <= U64_MAX
    ensures FillFee(Buy, fill, accumulator, terms).Success?
    ensures FillFee(Buy, fill, accumulator, terms).value.accumulator <= accumulator + 99
  {
    hide TrueTradeFee, Times, BuyCommitment;
    CommittedFillHasRoom(fill, cap, quantity, terms);
  }

  /** A commitment holds at least a grid unit for each hundredth of the quantity. */
  lemma QuantityIsCommitted(cap: nat, quantity: nat, terms: FeeTerms)
    requires BuyCommitment(cap, quantity, terms).Success?
    ensures 100 * quantity + 99 <= BuyCommitment(cap, quantity, terms).value <= U64_MAX
  {
    hide PerHundredth, Times;
    GridBoundIsWithin(cap, terms);
    TimesMonotone(10_000, PerHundredth(cap, terms), quantity);
    TimesIsProduct(quantity, 10_000);
    CashCoversPrincipal(cap, quantity, terms);
  }

  /** A fill of nothing leaves the accumulator as it was. */
  lemma EmptyFillKeepsAccumulator(fill: Fill, accumulator: nat, terms: FeeTerms)
    requires fill.quantity == 0 && accumulator <= U64_MAX && FillFee(Buy, fill, accumulator, terms).Success?
    ensures FillFee(Buy, fill, accumulator, terms).value.accumulator == accumulator
  {
    var rate, multiplier := terms.feeType.BaseRateMillionths(fill.role), terms.multiplierMillionths;
    TimesIsProduct(fill.price, 0);
    TimesIsProduct(Times(rate, Curve(fill.price)), 0);
    TimesIsProduct(0, multiplier);
    CeilDivLeast(0, FEE_DENOMINATOR, 0);
    hide Times;
  }

  /** The fills of a committed order never fail for size: with exact principals, at or below the cap
      and within the quantity, every one is charged, however many they are. */
  lemma {:induction false} CommittedFillsSettle(fills: seq<Fill>, cap: nat, quantity: nat, terms: FeeTerms)
    requires BuyCommitment(cap, quantity, terms).Success?
    requires WithinCap(fills, cap) && ExactPrincipals(fills) && TotalQuantity(fills) <= quantity
    ensures Settle(Buy, fills, 0, terms).Success?
    ensures Settle(Buy, fills, 0, terms).value.accumulator <= 99 * TotalQuantity(fills)
  {
    hide FillFee, BuyCommitment, PrincipalProduct;
    if fills != [] {
      var earlier, fill := fills[..|fills| - 1], fills[|fills| - 1];
      CommittedFillsSettle(earlier, cap, quantity, terms);
      var accumulator := Settle(Buy, earlier, 0, terms).value.accumulator;
      QuantityIsCommitted(cap, quantity, terms);
      CommittedFillSucceeds(fill, accumulator, cap, quantity, terms);
      if fill.quantity == 0 {
        EmptyFillKeepsAccumulator(fill, accumulator, terms);
      }
    }
  }

  /** A commitment is enough: the fills of its order settle, and what they cost with the unfilled
      rest's principal at the cap stays within it. */
  lemma CommitmentCoversAnyFills(fills: seq<Fill>, cap: nat, quantity: nat, terms: FeeTerms)
    requires BuyCommitment(cap, quantity, terms).Success?
    requires WithinCap(fills, cap) && ExactPrincipals(fills) && TotalQuantity(fills) <= quantity
    ensures Settle(Buy, fills, 0, terms).Success?
    ensures -Settle(Buy, fills, 0, terms).value.posted + CapPrincipal(cap, quantity - TotalQuantity(fills))
         <= BuyCommitment(cap, quantity, terms).value
  {
    CommittedFillsSettle(fills, cap, quantity, terms);
    hide Settle, CapPrincipal, TotalQuantity;
    ReservationCoversAnyFills(fills, cap, quantity, terms);
  }
}
