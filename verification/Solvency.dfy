/**
 The cash of a decision's buys: what the provisional view reserves is what the Broker commits, and it
 pays for any later fills of those orders.
 */
module Solvency {
  import opened Arithmetic
  import opened Wrappers
  import opened Fees
  import opened Reservation
  import opened Wire
  import opened Admission
  import opened Validation

  /** Later fills of the decision's orders: each order's own, exact, at prices it permits and within its
      quantity. */
  ghost predicate PossibleFills(commands: seq<Command>, fills: seq<seq<Fill>>) {
    && |fills| == |commands|
    && forall i :: 0 <= i < |commands| && commands[i].Place? ==> OrderFills(commands[i].order, fills[i])
  }

  ghost predicate OrderFills(order: PlaceOrder, fills: seq<Fill>) {
    && (forall k :: 0 <= k < |fills| ==> Permits(order, fills[k].price)) && ExactPrincipals(fills)
    && TotalQuantity(fills) <= order.quantity
  }

  /** Whether the dearest price a buy may be filled at is `price`: its limit if it has one, else its price
      cap if it has one, else a dollar. */
  ghost predicate IsDearest(order: PlaceOrder, price: nat) {
    || order.limitPrice == Some(price)
    || (order.limitPrice == None && order.priceCap == Some(price))
    || (order.limitPrice == None && order.priceCap == None && price == 1_000_000)
  }

  ghost predicate Permits(order: PlaceOrder, price: nat) {
    forall dearest: nat :: IsDearest(order, dearest) ==> price <= dearest
  }

  lemma DearestIsTheCap(order: PlaceOrder, price: nat)
    ensures IsDearest(order, price) <==> price == CapOf(order)
    ensures Permits(order, price) <==> price <= CapOf(order)
  {
    assert IsDearest(order, CapOf(order));
  }

  lemma FillsAreWithinCap(order: PlaceOrder, fills: seq<Fill>)
    requires OrderFills(order, fills)
    ensures WithinCap(fills, CapOf(order))
  {
    hide CapOf, IsDearest, ExactPrincipals, TotalQuantity;
    forall k | 0 <= k < |fills|
      ensures fills[k].price <= CapOf(order)
    {
      DearestIsTheCap(order, fills[k].price);
    }
  }

  /** Every buy of a decision commits its exact principal at the dearest price it may be filled at, and
      the reservation for fees there; a sell commits nothing. */
  lemma {:induction false} BuysCommitAtTheirPrice(ctx: Context, commands: seq<Command>, n: nat, price: nat)
    requires Reachable(ctx, commands) && n < |commands| && commands[n].Place?
    requires IsDearest(commands[n].order, price)
    ensures var order, committed := commands[n].order, CommittedCash(ctx, commands[n].order);
      && (order.action.Sell? ==> committed == 0)
      && (order.action.Buy? ==>
            && FindMarket(ctx.markets, order.marketId).Some?
            && FindMarket(ctx.markets, order.marketId).value.feeTerms.Success?
            && var terms := FindMarket(ctx.markets, order.marketId).value.feeTerms.value;
               && BuyFeeReservation(price, order.quantity, terms).Success?
               && (order.quantity * price) % 100 == 0
               && committed == order.quantity * price / 100
                                 + BuyFeeReservation(price, order.quantity, terms).value)
  {
    hide Reachable, BuyFeeReservation;
    ReachableFacts(ctx, commands, n);
    DearestIsTheCap(commands[n].order, price);
    TimesIsProduct(commands[n].order.quantity, price);
  }

  /** What an order's fills cost: nothing for a sell. */
  ghost function OrderCost(ctx: Context, order: PlaceOrder, fills: seq<Fill>): int {
    var market := FindMarket(ctx.markets, order.marketId);
    if order.action.Sell? || market.None? || market.value.feeTerms.Failure? then 0
    else
      var settled := Settle(Buy, fills, 0, market.value.feeTerms.value);
      if settled.Failure? then 0 else 0 - settled.value.posted
  }

  ghost function TotalCost(ctx: Context, commands: seq<Command>, fills: seq<seq<Fill>>): int
    requires |fills| == |commands|
  {
    if commands == [] then 0
    else
      var n := |commands| - 1;
      TotalCost(ctx, commands[..n], fills[..n])
        + if commands[n].Place? then OrderCost(ctx, commands[n].order, fills[n]) else 0
  }

  /** Every buy's fills settle, and cost at most what was committed for it. */
  lemma OrderIsCovered(ctx: Context, order: PlaceOrder, fills: seq<Fill>)
    requires CommitmentOf(ctx, order).Success? && OrderFills(order, fills)
    ensures OrderCost(ctx, order, fills) <= CommittedCash(ctx, order)
    ensures order.action.Buy? ==>
              Settle(Buy, fills, 0, FindMarket(ctx.markets, order.marketId).value.feeTerms.value).Success?
  {
    FillsAreWithinCap(order, fills);
    hide Settle, WithinCap, ExactPrincipals, TotalQuantity;
    if order.action.Buy? {
      var terms := FindMarket(ctx.markets, order.marketId).value.feeTerms.value;
      CommitmentCoversAnyFills(fills, CapOf(order), order.quantity, terms);
    }
  }

  /** Solvency across a decision: whatever its admitted buys fill later costs at most what the
      decision committed. */
  lemma {:induction false} DecisionIsSolvent(ctx: Context, commands: seq<Command>, fills: seq<seq<Fill>>)
    requires Reachable(ctx, commands) && PossibleFills(commands, fills)
    ensures TotalCost(ctx, commands, fills) <= TotalCommitted(ctx, commands)
  {
    if commands != [] {
      var n := |commands| - 1;
      PrefixIsReachable(ctx, commands, n);
      DecisionIsSolvent(ctx, commands[..n], fills[..n]);
      if commands[n].Place? {
        ReachableFacts(ctx, commands, n);
        hide OrderCost, CommittedCash, OrderFills, CommitmentOf;
        OrderIsCovered(ctx, commands[n].order, fills[n]);
      }
    }
  }

  /** Whether the 64-bit totals hold every commitment. */
  ghost predicate Unsaturated(ctx: Context, commands: seq<Command>) {
    && ctx.finances.commitment + TotalCommitted(ctx, commands) <= U64_MAX
    && ctx.finances.reserved + TotalCommitted(ctx, commands) <= U64_MAX
  }

  /** Short of saturation the reserved cash grows by exactly the buys' commitments, which pays for any
      later fills; a saturated total stops at the largest 64-bit amount. */
  lemma {:induction false} ReservedCashPaysForFills(ctx: Context, commands: seq<Command>, fills: seq<seq<Fill>>)
    requires Reachable(ctx, commands) && PossibleFills(commands, fills)
    ensures var after := FinancesAfter(ctx, commands);
      && (Unsaturated(ctx, commands) ==>
            && after.commitment - ctx.finances.commitment == TotalCommitted(ctx, commands)
            && after.reserved - ctx.finances.reserved == TotalCommitted(ctx, commands)
            && TotalCost(ctx, commands, fills) <= after.reserved - ctx.finances.reserved)
      && (!Unsaturated(ctx, commands) ==> after.commitment == U64_MAX || after.reserved == U64_MAX)
  {
    hide TotalCost, TotalCommitted, Reachable, PossibleFills;
    DecisionIsSolvent(ctx, commands, fills);
  }

  /** The buying power is what may still be committed: an amount is within it exactly when neither the
      allowance nor the balance would be overdrawn by it. */
  lemma BuyingPowerIsWhatFits(f: Finances, amount: nat)
    requires amount > 0
    ensures amount <= f.BuyingPower() <==>
        f.commitment + amount <= f.allowance && f.reserved + amount <= f.balance
  {
  }

  /** Admitting another command never raises the buying power. */
  lemma BuyingPowerNeverRises(ctx: Context, commands: seq<Command>, n: nat)
    requires n <= |commands|
    ensures FinancesAfter(ctx, commands).BuyingPower() <= FinancesAfter(ctx, commands[..n]).BuyingPower()
  {
    CommittedCashGrows(ctx, commands, n);
    hide TotalCommitted;
  }

  lemma {:induction false} CommittedCashGrows(ctx: Context, commands: seq<Command>, n: nat)
    requires n <= |commands|
    ensures TotalCommitted(ctx, commands[..n]) <= TotalCommitted(ctx, commands)
  {
    if n < |commands| {
      assert commands[..|commands| - 1][..n] == commands[..n];
      CommittedCashGrows(ctx, commands[..|commands| - 1], n);
    } else {
      assert commands[..n] == commands;
    }
  }
}
