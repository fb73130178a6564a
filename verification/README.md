# Strategy Core: fees, decisions and encodings

A Dafny model of the parts of Strategy Core where a small slip would cost money or lose an order:

- **Fees** (`Arithmetic`, `Fees`, `Charges`, `Reservation`): exact trade fees, the posting grid with its
  per-order rounding accumulator, and the cash a buy reserves up front.
- **Decisions** (`Wire`, `PlanRows`, `Admission`, `Host`, `Validation`, `Fidelity`, `Paths`, `Solvency`): the
  host that admits a kernel's calls, and the validator of what comes out.
- **Order updates** (`Updates`, `Delivery`, `Transparency`, `Agreement`, `Deferral`, `Crowding`, `RunnerSection`,
  `Comparison`, `News`, `Transaction`, `Reuse`, `Disagreement`): the comparison that finds them, the order they
  are delivered in, the loop that saves, delivers, rolls back, defers or holds them, the runner section they
  leave, and the resident runner without rollback.
- **Results** (`Outputs`, `Evidence`): what a result keeps of logs, telemetry and update records.
- **Encodings** (`Digits`, `Decimals`, `Numerals`, `FixedDecimals`, `Canonical`, `Encoder`, `Maps`,
  `Conformance`): exact decimals and the canonical value format.

Code that works in place is modelled in place: the fee loops, the plan-row counter, the host (a class whose
fields are caches), the delivery loop, the validators with their growing sets, the shedding loop, the encoder
with its back-patched buffer. Each such method is proved against a specification function or a stated
property, and the theorems are about those.

The main results are these.

- No sequence of fills of a buy costs more than its floored principal plus its reservation
  (`ReservationCoversAnyFills`), and the reservation, computed from at most 200 candidate prices, is the one
  a check of every price would give (`ReserveDirectMemberBuyFee`).
- Every charge follows the fee schedule, in dollars, role by role (`FeeFollowsSchedule`), and a decision's buys
  commit enough for any later fills at prices their own terms permit (`DecisionIsSolvent`).
- What a call asks for is what is issued, tracked, shown and answered, or nothing is (`PlaceIsAsRequested`,
  `CancelIsAsRequested`, `CommandIsAsRequested`), and a place is built exactly when it is admissible
  (`OrderIsBuiltExactlyWhen`).
- In every state of the host each cached field is a replay of the commands issued, a rollback is a
  truncation, and every command that comes out validates (`AdmittedCommandsValidate`).
- A decision ends as if the updates that failed had never been delivered (`DecisionIsTransparent`), whatever
  failed, for any kernel and any faithful snapshot codec, and a resident run agrees with it exactly when
  nothing fails, for any codec at all (`DecisionsAgree`).
- No fill is lost: over any run of views and completed decisions, the fills told to a kernel or reported as lost are
  exactly those the Broker's records account for (`FillsAreAccountedFor`, `FinalFillsAreAccountedFor`).
- The runner section a decision leaves is always within its bounds (`SectionStaysWithinBounds`), and a
  decision's result fails validation for exactly six reasons, over every valid section and view
  (`ResultValidates`, `RunTransaction`, `Decide`).
- Why an update fails is told by its kernel's calls, the answers and the error: an update is deferred exactly when
  the kernel returns the last refusal for room and earlier units took that room (`DecisionsFailAsTold`). Updates are
  delivered the most deferred first and then in issue order, targets before their cancels
  (`DeliveryIsInDueOrder`).
- The update put off most often is in the unit delivered first, of which nothing is deferred for room again
  (`MostDeferredIsNotDeferred`).
- Canonical bytes are injective (`CanonicalBytesAreInjective`), the encoder produces exactly the format
  (`CanonicalBytes`), and decimals round trip (`Parse`, `PrintedDecimalsParse`).

Seven statements one might expect are not true of the code. Each is proved with its exact condition and a
witness.

- A scheduled timer's generation is `timer.` and the delivery id, and admission does not check its length: with
  a delivery id of more than 154 bytes a timer is admitted that result validation refuses, and the whole
  decision fails (`AdmittedCommandsValidate`, `GenerationIsValid`, `LongDeliveryIdBreaksTimers`). Context
  validation accepts any delivery id that is not empty; one that is no identifier fails every result.
- A place is checked against the client order ids of the section as the comparison leaves it, not of entries
  that a failed update brings back. A kernel that fails on a refused order's update and then places an order
  under the refused one's id leaves two entries with one id, and the decision fails validation, always
  (`SectionValidates`, `RunTransaction`). Some kernel does so exactly when the comparison drops a place whose
  update can fail and stay due, under an id the host accepts (`ReuseIsPossibleExactlyWhen`,
  `PlaceableIsAdmittedFirst`, `ReuseIsPossible`).
- An open order that no entry tracks is adopted whatever its client order id. If a tracked place has the id too,
  as when a forgotten order returns after its id was used again, no decision completes while both entries stay
  (`SectionValidates`, `AdoptionAlwaysFails`).
- A place's request is not compared with its order's quantity. If the Broker records more filled than the entry
  requested, the decision fails validation when its kernel handles the update, and does not when it fails on it
  (`SectionValidates`, `FillBeyondRequestFails`). A view that agrees with the section on client order ids and
  requests is harmless, whatever the kernel (`AgreeingViewsAlwaysValidate`).
- Comparing the same view again should tell nothing new. It does, in every decision, while the Broker's record
  says less filled than the Strategy was told (`NewsIsToldOnce`, `NewsIsRepeated`).
- The open-order caps are described as always sparing the rows to cancel everything open. They do for a lone
  cancel-all, but not for one issued after more than 62 (paper) or 1 (live) own places at the cap
  (`CapGuaranteesCancelAll`).
- The decimal parser is described as rejecting what needs more than 64 bits or the scale bound. It also
  refuses representable numbers whose digits leave 128 bits before trailing zeros are dropped, and zeros
  whose scale is below −38 (`Parse`, `OneWithZeros`, `RepresentableButRefused`).

A kernel is any deterministic program over the host's answers: its next action is a function of its state,
the event and the answers so far. The checkpoint codec is a pair of partial functions, faithful when a
snapshot that decodes gives back the state it was taken of. `dafny verify dfyconfig.toml` checks everything.

## Model

| member | source | states |
|---|---|---|
| `Fees.GcdDividesBoth` | native/strategy_core_kernel/src/fees.rs:384-388 | The divisor Euclid's loop ends with divides the denominator and the rate, so cancelling it changes no fee |
| `Fees.GreatestCommonDivisor` | native/strategy_core_kernel/src/fees.rs:384-388 | The in-place loop computes that common divisor of the denominator and the rate |
| `Fees.TradeFeeMicros` | native/strategy_core_kernel/src/fees.rs:375-403 | The fee computed over 128-bit intermediates is the exact ceiling of rate·p·(10^6−p)·q·multiplier/10^20, refused exactly when that ceiling exceeds 64 bits: no intermediate overflow refuses a representable fee |
| `Fees.ApplyFeeRounding` | native/strategy_core_kernel/src/fees.rs:185-215 | A posting is in whole $0.0001 units, is the revenue less the net fee, and net fee plus old accumulator equals trade fee plus new accumulator; the rebate is whole grid units, at most the accumulator and the fill's own fee; the one multiplication the code does not check overflows exactly when the floor to the grid passes the least 128-bit integer |
| `Fees.CalculateDirectMemberFillFee` | native/strategy_core_kernel/src/fees.rs:282-314 | One fill's charge: refused for a price above a dollar, an inexact or oversized principal or an oversized fee, else the rounding of its signed principal less its exact trade fee |
| `Fees.FeesAreConserved` | native/strategy_core_kernel/src/fees.rs:185-215 | Over any sequence of fills, buy or sell, from any accumulator: net fees plus the starting accumulator equal trade fees plus the final one, and the posted cash is revenue less net fees in whole grid units |
| `Charges.FeeFollowsSchedule` | native/strategy_core_kernel/src/fees.rs:282-314 | Every charge's trade fee is, in dollars rounded up to the microdollar, 0.07, 0.035 or 0.0175 times p(1−p) a contract times the multiplier, each curve and role written out, and zero for a maker under Quadratic and Flat; a buy pays exactly price times quantity besides its fee, a sell receives it |
| `Charges.MakingNeverCostsMore` | native/strategy_core_kernel/src/fees.rs:80-90 | A fill's trade fee as maker is at most its trade fee as taker, for every curve |
| `Charges.FillsAreCharged` | native/strategy_core_kernel/src/fees.rs:282-314 | A fill is charged exactly when its price is at most a dollar, its principal exact and within 64 bits, its fee within 64 bits and its posting not refused |
| `Charges.PostingFailsExactlyWhen` | native/strategy_core_kernel/src/fees.rs:185-215 | A posting is refused exactly when its cash leaves 128 bits, or net fee or accumulator 64 |
| `Charges.ExactFeeIsRoundedUp` | native/strategy_core_kernel/src/fees.rs:375-403 | The exact integer ceiling is the real-valued curve's dollars rounded up to the microdollar, at any rate |
| `Reservation.RoundingIsAmortised` | native/strategy_core_kernel/src/fees.rs:361-366 | With the potential min(accumulator, 99): either a fill's net fee is under one grid unit, or what it charges beyond the trade fee is paid for by the potential |
| `Reservation.FeeSplits` | native/strategy_core_kernel/src/fees.rs:361-366 | A fill's fee is at most its quantity times the rounded-up fee of one hundredth at the larger base rate |
| `Reservation.FillsWithinBound` | native/strategy_core_kernel/src/fees.rs:361-370 | Any fills of one buy cost at most their quantity times the per-hundredth bound, plus the potential still held |
| `Reservation.ReservationCoversAnyFills` | native/strategy_core_kernel/src/fees.rs:316-373 | Reservation soundness: after any fills at or below the cap, in any mix of roles, cash spent plus the unfilled rest's principal at the cap stays within the floored cap principal plus the reservation |
| `Reservation.CandidatesBoundResidue` | native/strategy_core_kernel/src/fees.rs:349-360 | On one residue modulo 100 the rounded bound is greatest at a lattice point next to the vertex, or at the cap's |
| `Reservation.GreatestBoundIsUpper` | native/strategy_core_kernel/src/fees.rs:345-360 | The specification's maximum is at least the bound at every integer price up to the cap |
| `Reservation.MaximizePerHundredth` | native/strategy_core_kernel/src/fees.rs:338-360 | The nested loops over at most 200 candidate prices compute the maximum of the grid bound and p + 100·fee(p, 1) over every integer price from 0 to the cap, and never fail |
| `Reservation.ReserveDirectMemberBuyFee` | native/strategy_core_kernel/src/fees.rs:322-373 | The computed reservation equals the one defined by the brute-force maximum, with the same refusals |
| `Reservation.CashBoundIsMonotone` | native/strategy_core_kernel/src/fees.rs:369-372 | Floored principal plus reservation never falls when the cap or the quantity grows |
| `Reservation.BuyCommitmentMicros` | native/strategy_core_kernel/src/fees.rs:237-265 | A buy's commitment is its exact principal at the cap plus the brute-force reservation; a non-positive quantity, a zero price, an inexact principal and an oversized sum are refused |
| `Reservation.CommitmentCoversAnyFills` | native/strategy_core_kernel/src/fees.rs:232-265 | The fills of a committed order, however many, never fail for size, and their cost with the unfilled rest's principal stays within the commitment |
| `PlanRows.DecisionPlanRows.Add` | native/strategy_core_v3/src/decision_v6.rs:2590-2639 | The in-place counter adds one command's rows; a cancel-all is charged for the active orders by the mode's formula and clears them |
| `PlanRows.CommandsCost` | native/strategy_core_v3/src/decision_v6.rs:2521-2662 | A place costs five rows, a cancel three or one of an order already final, a cancel-all by the mode's formula over the active orders; a decision with Broker commands four more, and one if it acknowledges |
| `PlanRows.CounterIsClosedForm` | native/strategy_core_v3/src/decision_v6.rs:2590-2639 | The incremental count equals a closed form in which each place and cancel counts once and each open order or own place is charged by at most one cancel-all |
| `PlanRows.TotalIsMonotone` | native/strategy_core_v3/src/decision_v6.rs:2570-2582 | No command lowers the total |
| `PlanRows.AcknowledgementsOnlyAdd` | native/strategy_core_v3/src/decision_v6.rs:2554-2582 | Counting with and without acknowledgements differs in nothing but the acknowledgement row, so admitting against the first is enough for a result of either kind |
| `PlanRows.UnitAloneNeedsNoMore` | native/strategy_core_v3/src/kernel_v6.rs:1046-1064 | Counting a delivery unit's commands alone never exceeds counting them after earlier commands |
| `PlanRows.CancelAllFitsIsTheCount` | native/strategy_core_v3/src/decision_v6.rs:2590-2639 | Whether a cancel-all after own places fits 512 rows is the counter's own verdict |
| `PlanRows.CapGuaranteesCancelAll` | native/strategy_core_v3/src/decision_v6.rs:109-124 | The open-order cap leaves room for a cancel-all whatever the split of orders exactly when at most 62 (paper) or 1 (live) of them are the decision's own places; a lone cancel-all always fits |
| `Host.KernelHost.constructor` | native/strategy_core_v3/src/kernel_v6.rs:851-905 | A fresh host has issued nothing and its caches are the context's |
| `Host.KernelHost.Save` | native/strategy_core_v3/src/kernel_v6.rs:912-923 | A save holds the commands and caches, each cache a replay of the saved commands |
| `Host.KernelHost.Restore` | native/strategy_core_v3/src/kernel_v6.rs:925-944 | A restore is truncation: the commands are the saved ones, every cache their replay again, and of the later outputs logs and recorded failures stay |
| `Host.KernelHost.BeginUpdate` | native/strategy_core_v3/src/kernel_v6.rs:953-960 | An update belongs to the unit under way, or starts one now; the last deferrable refusal is forgotten |
| `Host.KernelHost.CapacityError` | native/strategy_core_v3/src/kernel_v6.rs:970-988 | A refusal for room is deferrable exactly when earlier units issued something and the call would fit the unit alone |
| `Host.KernelHost.CheckResultBytes` | native/strategy_core_v3/src/kernel_v6.rs:1008-1032 | A command is refused exactly when the result with it would pass the encoded budget, deferrably when it would fit without the earlier units' commands and entries |
| `Host.KernelHost.IssueBrokerCommand` | native/strategy_core_v3/src/kernel_v6.rs:1040-1080 | A Broker command is checked against bytes, plan rows and the runner bound in that order, and appended with its entry and rows only if all hold |
| `Host.KernelHost.PlaceOrder` | native/strategy_core_v3/src/kernel_v6.rs:1082-1234 | A place is admitted or refused as the specification of the commands issued so far says; committed cash and the provisional order follow it |
| `Host.KernelHost.CancelOrder` | native/strategy_core_v3/src/kernel_v6.rs:1236-1352 | A cancel resolves to an order of this decision first, then to a context order, and marks it |
| `Host.KernelHost.CancelAllOrders` | native/strategy_core_v3/src/kernel_v6.rs:1354-1394 | A cancel-all needs a complete view and marks every open context order and own place |
| `Host.KernelHost.Request` | native/strategy_core_v3/src/kernel_v6.rs:1427-1494 | An external request is checked for its grant, timeout, path and bounds and for eight outstanding, in that order |
| `Host.KernelHost.WakeAt` | native/strategy_core_v3/src/kernel_v6.rs:1706-1728 | A timer call needs the grant, a valid unused key, an ordinal and a time in range |
| `Host.KernelHost.CancelTimer` | native/strategy_core_v3/src/kernel_v6.rs:1729-1745 | A timer cancel needs the grant, a valid unused key and a valid generation, and uses the key up |
| `Host.KernelHost.Handle` | native/strategy_core_v3/src/kernel_v6.rs:1542-1813 | Every kernel call keeps each cache a replay of the commands; its answer and the host's new state are a function of the commands issued so far, and a refused call changes no command or output |
| `Host.OwnEntriesOfPrefix` | native/strategy_core_v3/src/kernel_v6.rs:970-978 | The runner entries issued before a unit are those of the commands issued before it |
| `Fidelity.PlaceIsAsRequested` | native/strategy_core_v3/src/kernel_v6.rs:1082-1234 | A place call is refused and changes nothing issued, or issues exactly the order asked for, with ticker, action, side, type, quantity, prices, policy, flags, expiry and signals of the request and its own client id if it gave one; entry, provisional order and ticket say the same |
| `Fidelity.OrderIsBuiltExactlyWhen` | native/strategy_core_v3/src/kernel_v6.rs:1082-1194 | A place request becomes an order exactly when the Market is known, the terms agree, a buy can be committed, the cap of 192 or 168 open orders is not reached, and the client order id is valid, free and not of the host's prefix |
| `Fidelity.TermsAreAccepted` | native/strategy_core_v3/src/decision_v6.rs:2470-2515 | Prices, time policy and flags are accepted exactly when they agree, order type by order type |
| `Fidelity.CancelIsAsRequested` | native/strategy_core_v3/src/kernel_v6.rs:1236-1352 | A cancel call is refused and changes nothing issued, or cancels the decision's own order of that client id, and else a context order so named at the revision shown; its entry repeats that order |
| `Fidelity.CancelMatchesNothing` | native/strategy_core_v3/src/kernel_v6.rs:1241-1336 | With an ordinal to spare, a cancel finds no order exactly when neither the decision nor the context has one so named |
| `Fidelity.CommandIsAsRequested` | native/strategy_core_v3/src/kernel_v6.rs:1354-1745 | Cancel-alls, timers, external requests and stops are refused and change nothing issued, or issue exactly what was asked, a request only to a granted target |
| `Fidelity.RequestsAreAccepted` | native/strategy_core_v3/src/kernel_v6.rs:1427-1476 | An external request is refused for what it asks exactly when it is not granted, out of time or out of the bounds of its kind |
| `Fidelity.OwnOrdersAreShown` | native/strategy_core_v3/src/kernel_v6.rs:1339-1347 | The kernel sees each of the decision's places, in order, as being cancelled exactly when a later cancel names it or a later cancel-all covers it |
| `Fidelity.CancelledOrdersAreShown` | native/strategy_core_v3/src/kernel_v6.rs:1348-1350 | It sees a context order as being cancelled exactly when a cancel names it, or a cancel-all was issued and the order is open |
| `Paths.PathsOnlyAppend` | native/strategy_core_v3/src/decision_v6.rs:2451-2468 | The character-by-character check accepts exactly the paths whose route has no segment of dots and no encoded dot, start with one slash and are visible text without backslash or fragment |
| `Paths.IdentifiersAreMadeOf` | native/strategy_core_v3/src/decision_v6.rs:2983-2989 | An identifier is 1 to 160 ASCII letters, digits or the marks - . : _ |
| `Admission.Respond` | native/strategy_core_v3/src/kernel_v6.rs:1040-1080 | Whatever the call, commands and outputs only grow, and a refusal leaves both as they were |
| `Validation.ValidateInOrder` | native/strategy_core_v3/src/decision_v6.rs:2129-2176 | The validator's pass, growing its sets of client ids and timer keys, accepts exactly when each command is in bounds and agrees with those before it |
| `Validation.EachFollowsIsShape` | native/strategy_core_v3/src/decision_v6.rs:2129-2176 | That pass says what the declarative checks say: unique client ids and timer keys, and each same-decision cancel after its place |
| `Validation.ValidateShape` | native/strategy_core_v3/src/decision_v6.rs:2129-2176 | The checks of the commands among themselves accept exactly the commands of valid shape |
| `Validation.ValidateCommands` | native/strategy_core_v3/src/decision_v6.rs:2212-2306 | Result validation of commands accepts exactly: valid shape, issue-order ids, agreement with the context, at most 512 plan rows and the open-order cap |
| `Validation.ValidCommandsAreChecked` | native/strategy_core_v3/src/decision_v6.rs:2129-2304 | Validated commands agree with the context: known Markets, orders at their revision, a whole view for a cancel-all, granted timers and requests, and texts within bounds |
| `Validation.ReachableFacts` | native/strategy_core_v3/src/kernel_v6.rs:990-1494 | Each command of any run of calls and rollbacks passed the host's checks after exactly the commands before it |
| `Validation.ReachableCancelFollowsPlace` | native/strategy_core_v3/src/kernel_v6.rs:1236-1300 | A same-decision cancel follows the place it names |
| `Validation.AdmittedCommandsValidate` | native/strategy_core_v3/src/decision_v6.rs:2212-2306 | Host admission refines the validator: in any run the commands validate exactly when no timer is scheduled or the timer generation is a valid identifier |
| `Validation.GenerationIsValid` | native/strategy_core_v3/src/kernel_v6/native.rs:24-26 | The generation of a valid delivery id is a valid identifier exactly up to 154 bytes |
| `Validation.LongDeliveryIdBreaksTimers` | native/strategy_core_v3/src/kernel_v6.rs:1706-1728 | Over any valid longer delivery id the host admits a timer that result validation refuses |
| `Solvency.DecisionIsSolvent` | native/strategy_core_v3/src/kernel_v6.rs:1128-1141 | Whatever later fills of a decision's admitted buys cost, at prices their own terms permit (the limit price, else the price cap, else a dollar), their commitments cover it |
| `Solvency.ReservedCashPaysForFills` | native/strategy_core_v3/src/kernel_v6.rs:1211-1219 | Short of saturation, commitment and reserved cash grow by exactly the admitted buys' commitments, which pay for any later fills; saturated, one of them is the largest 64-bit amount |
| `Solvency.BuysCommitAtTheirPrice` | native/strategy_core_v3/src/kernel_v6.rs:1128-1141 | Every buy of a decision commits its exact principal at its limit price, else its price cap, else a dollar, plus the reservation there; a sell commits nothing |
| `Solvency.BuyingPowerIsWhatFits` | native/strategy_core_kernel/src/state.rs:1203-1214 | An amount is within the buying power exactly when committing it overdraws neither the allowance nor the unreserved balance |
| `Solvency.BuyingPowerNeverRises` | native/strategy_core_v3/src/kernel_v6.rs:1211-1219 | Admitting another command never raises the buying power the kernel sees |
| `Updates.UnitsDeliverTargetsFirst` | native/strategy_core_v3/src/kernel_v6/updates.rs:112-146 | Delivery units hold every candidate once, and never a cancel's update before its target's |
| `Updates.DeliveryOrderIsComplete` | native/strategy_core_v3/src/kernel_v6/updates.rs:112-146 | The delivery order holds each update exactly once and every target before its cancels |
| `Updates.DeliveryOrder` | native/strategy_core_v3/src/kernel_v6/updates.rs:121-146 | The loop that marks what is placed computes those units |
| `Updates.OldestTombstone` | native/strategy_core_v3/src/kernel_v6/updates.rs:257-270 | The tombstone evicted next goes before every other: pending ones last, then the oldest, then the first |
| `Updates.EvictTombstones` | native/strategy_core_v3/src/kernel_v6/updates.rs:257-275 | The loop that evicts one tombstone at a time keeps exactly the live entries and the tombstones that fewer than 32 others outlast, in order, and none goes that should outlast a kept one |
| `Updates.KeptWithLive` | native/strategy_core_v3/src/kernel_v6/updates.rs:256-275 | Live entries at the end, such as a decision's own, neither go nor change what goes |
| `Updates.Finalize` | native/strategy_core_v3/src/kernel_v6/updates.rs:202-277 | The section after delivery: a failed update's entry as it was with its counts, an abandoned or handled one as the comparison left it, the decision's own entries after them, tombstones evicted in turn |
| `Updates.FirstUnitIsMostDeferred` | native/strategy_core_v3/src/kernel_v6/updates.rs:121-142 | The first unit ends with an update deferred at least as often as any other |
| `Updates.DeliveryIsInDueOrder` | native/strategy_core_v3/src/kernel_v6/updates.rs:121-146 | Units follow the updates they are for, the most deferred first and then in issue order; before its update a unit holds only updates that must not follow it, in issue order, each of which would have been due later |
| `Updates.CancelsComeAfterPlaces` | native/strategy_core_v3/src/kernel_v6/updates.rs:148-173 | A cancel's update never comes before the update of a place under the client order id it names, nor a cancel-all's before that of a place issued earlier |
| `Updates.OldestAreEvicted` | native/strategy_core_v3/src/kernel_v6/updates.rs:253-277 | Of tombstones alike pending or not, one is evicted only if none kept vanished before it; a pending one only if every one kept is pending; 32 are left whenever any is evicted |
| `Updates.EntriesAfterAreSound` | native/strategy_core_v3/src/kernel_v6/updates.rs:211-255 | Every entry left is of its kind's shape and below both delivery limits, and no tombstone if more of it filled than was requested |
| `Transparency.RunSeesCommands` | native/strategy_core_v3/src/kernel_v6.rs:912-988 | A kernel's whole run, its error and the outputs it adds depend on the commands issued so far alone, not on the unit or on earlier outputs |
| `Transparency.RollbackIsTransparent` | native/strategy_core_v3/src/kernel_v6.rs:189-323 | Rollback transparency: over a faithful codec the loop ends with the kernel state, commands and telemetry of a run that delivers only the updates not in `failed`, in the same order, also when restoring fails and everything goes back |
| `Transparency.DeliveryTruncatesOrExtends` | native/strategy_core_v3/src/kernel_v6.rs:245-321 | A handled update extends the commands; a failed one leaves exactly those before it, or none once the loop stops |
| `Transparency.DeliveredCommandsAreReachable` | native/strategy_core_v3/src/kernel_v6.rs:189-323 | After any delivery, with any rollbacks, the commands are ones some sequence of calls issues |
| `Transparency.FailuresAreKept` | native/strategy_core_v3/src/kernel_v6.rs:204-323 | `failed` only grows |
| `Transparency.HandledCancelsFollowTheirTargets` | native/strategy_core_v3/src/kernel_v6.rs:209-226 | A cancel handled below the deferral bound has no target that failed anywhere in the decision, also when snapshots are wrong or cannot be restored |
| `Deferral.CommandsHaveRoom` | native/strategy_core_v3/src/kernel_v6.rs:1008-1080 | A command has room exactly when the result with it stays within 917,504 bytes, and if it goes to the Broker its plan rows within 512 and live entries, with those a failure brings back, below 256 |
| `Deferral.RefusalsAreRemembered` | native/strategy_core_v3/src/kernel_v6.rs:970-1080 | The host remembers a refusal for room, and no other, as deferrable exactly when earlier units issued something and the call would have fit their unit's commands alone: 64 commands, 8 requests, 512 plan rows or the encoded budget, whichever it was refused for |
| `Deferral.RunEndsWithRefusal` | native/strategy_core_v3/src/kernel_v6.rs:953-988 | What the host remembers after a run is told by the last call refused for room, the answers and the unit's start alone |
| `Deferral.UpdatesFailAsTold` | native/strategy_core_v3/src/kernel_v6.rs:206-321 | Why an update fails, from the kernel's calls, answers and error: a cancel's behind a failed target is held; an unsaved state counts; a returned error is a deferral exactly when it is the last refusal for room, earlier units took that room, and the update is no cancel's at its last deferral; every other error counts; without a restore every other update is rolled back |
| `Deferral.UpdatesLeaveAsTold` | native/strategy_core_v3/src/kernel_v6.rs:206-321 | Kernel and commands after a delivery: those of the run if handled, the restored snapshot over the commands before if it failed, a fresh start if that cannot be restored, unchanged if not delivered |
| `Deferral.UpdatesSayAsTold` | native/strategy_core_v3/src/kernel_v6.rs:209-305 | Outputs after a delivery: everything the kernel said, in order, with a warning if a target failed; or its logs alone, and the failure |
| `Deferral.FailuresCost` | native/strategy_core_v3/src/kernel_v6/updates.rs:203-251 | A deferral or hold keeps the attempts and adds one deferral, a counted failure adds one attempt and ends the row, a rollback costs nothing; the third or the eighth in a row leaves the entry as a handled update would |
| `Deferral.UnitSharesItsStart` | native/strategy_core_v3/src/kernel_v6.rs:200-207 | Every update of a delivery unit takes as earlier units' exactly the commands issued when the unit began |
| `Deferral.DecisionsFailAsTold` | native/strategy_core_v3/src/kernel_v6.rs:189-323 | Every update of a decision fails, leaves and says as its own delivery tells, and if it fails that is final |
| `Crowding.SecondIsDeferred` | native/strategy_core_v3/src/kernel_v6.rs:282-293 | Deferral happens: over a valid context and a faithful codec, the first update issues 64 commands and the second, refused for room it would have had alone, is deferred with its attempts unchanged |
| `Agreement.DecisionItemsAreValid` | native/strategy_core_v3/src/kernel_v6.rs:196-208 | The loop comes to each update once, targets first |
| `Agreement.NativeAndTransactionalAgree` | native/strategy_core_v3/src/kernel_v6/native.rs:83-89 | Whatever the codec does, the loop fails no update exactly when a resident run meets no kernel error and every snapshot on the way succeeds; both then leave the same commands, outputs and kernel |
| `Agreement.FirstUnitIsNotDeferred` | native/strategy_core_v3/src/kernel_v6/updates.rs:112-118 | In any decision, no update of the first delivery unit ends deferred: it meets no refusal that earlier updates are to blame for, and no later update changes how it failed |
| `Agreement.HeldBehindFailedTargets` | native/strategy_core_v3/src/kernel_v6.rs:206-227 | An update is held only behind a target's that failed on its own account, counted or deferred |
| `Agreement.MostDeferredIsNotDeferred` | native/strategy_core_v3/src/kernel_v6/updates.rs:112-146 | Progress: the unit delivered first holds an update deferred as often as any; none of it is deferred for room again, and a cancel of it is held only behind a counted failure of a target in the unit |
| `Agreement.CancelsAreAbandonedByCountedFailuresOnly` | native/strategy_core_v3/src/kernel_v6.rs:282-293 | A cancel's update is abandoned exactly by its third counted failure, never for being held or deferred |
| `RunnerSection.LiveAfterFailures` | native/strategy_core_v3/src/kernel_v6/updates.rs:183-193 | Whatever failed, at most the reserved number of live entries comes back |
| `RunnerSection.ReserveIsExact` | native/strategy_core_v3/src/kernel_v6/updates.rs:184-196 | A step is in the reserve exactly when failing on its update leaves one live entry more than handling it |
| `RunnerSection.IssuedEntriesFit` | native/strategy_core_v3/src/kernel_v6.rs:1067-1076 | A decision that issued Broker commands keeps 256 live entries even if every failed update came back |
| `RunnerSection.SectionStaysWithinBounds` | native/strategy_core_v3/src/decision_v6.rs:2016-2020 | The section after any decision holds at most 288 entries, 256 live ones when it issued a Broker command |
| `RunnerSection.ValidateSection` | native/strategy_core_v3/src/decision_v6.rs:2016-2070 | Checkpoint validation of the section accepts exactly bounded entries, each valid in counts, identifiers, quantities and its kind's shape, with unique command ids and unique place client ids |
| `RunnerSection.EntriesAreChecked` | native/strategy_core_v3/src/decision_v6.rs:2016-2070 | An entry is valid exactly when it carries what its kind must and nothing else, within its bounds |
| `RunnerSection.OwnEntriesAreValid` | native/strategy_core_v3/src/kernel_v6.rs:1192-1330 | The entries of a decision's own commands are valid, those of cancels with the fields of the orders they name |
| `RunnerSection.KeptClientIsNotReused` | native/strategy_core_v3/src/kernel_v6.rs:1168-1184 | A place never uses the client order id of an entry the comparison kept |
| `RunnerSection.PendingSurvives` | native/strategy_core_v3/src/kernel_v6/updates.rs:257-275 | With at most 32 pending tombstones, none of them is evicted |
| `RunnerSection.ReinstatedSurvives` | native/strategy_core_v3/src/kernel_v6/updates.rs:209-275 | The entry of a failed update that is not abandoned is always in the section left |
| `RunnerSection.SectionIsKeptAndOwn` | native/strategy_core_v3/src/kernel_v6/updates.rs:256-275 | The section left is what eviction keeps of the steps' entries, followed by the decision's own |
| `RunnerSection.SectionValidates` | native/strategy_core_v3/src/decision_v6.rs:2016-2070 | The section left validates but for exactly three reasons: a place reused the client order id of an order whose update failed after the comparison had dropped it, an order was adopted under the client order id of an entry that stays, or an entry stays filled beyond its request |
| `RunnerSection.ValidateTracking` | native/strategy_core_v3/src/decision_v6.rs:2122-2129 | Result validation accepts exactly acknowledgements that are valid, unrepeated, known to the context and of no tracked command, with every Broker command tracked |
| `RunnerSection.AcknowledgementsValidate` | native/strategy_core_v3/src/kernel_v6/updates.rs:509-534 | What a result acknowledges, whatever the section tracks, is valid exactly unless the external request answered has a Broker command's id |
| `RunnerSection.AcknowledgedExactly` | native/strategy_core_v3/src/kernel_v6/updates.rs:509-534 | A result acknowledges exactly the receipts and final orders no entry waits for, and the external request answered |
| `RunnerSection.DecisionIsTracked` | native/strategy_core_v3/src/decision_v6.rs:2181-2199 | Every Broker command of a decision has an entry in the section left, and no id acknowledged has one |
| `Transaction.Drive` | native/strategy_core_v3/src/kernel_v6.rs:258-262 | Driving the kernel call by call over the host is the specified run of its event |
| `Transaction.DeliverUpdate` | native/strategy_core_v3/src/kernel_v6.rs:205-321 | One round of the loop: held, not snapshotted, delivered, deferred or counted, or everything rolled back, as specified |
| `Transaction.DeliverUpdates` | native/strategy_core_v3/src/kernel_v6.rs:189-323 | The loop with its break is the specified delivery of the whole order |
| `Transaction.ValidateResult` | native/strategy_core_v3/src/decision_v6.rs:2092-2208 | Result validation: the delivery id and, of a completed result, the saved state's size, the commands, the section and what is tracked and acknowledged |
| `Transaction.RunTransaction` | native/strategy_core_v3/src/kernel_v6.rs:179-383 | A decision over compared steps fails exactly on an exhausted sequence, an unsaved state, or one of six reasons that its result cannot validate; else it is rejected exactly on a kernel error at the trigger, or completes with the sequence advanced by one and a result that validates |
| `Transaction.Decide` | native/strategy_core_v3/src/kernel_v6.rs:161-383 | The same from any valid section and view, the comparison included |
| `Transaction.ResultValidates` | native/strategy_core_v3/src/kernel_v6.rs:383-383 | An assembled result validates exactly when the delivery id is an identifier, the state has 1 to 131,072 bytes, no timer is scheduled under a generation that is no identifier, and none of the section's three reasons holds |
| `Transaction.RunNative` | native/strategy_core_v3/src/kernel_v6/native.rs:60-143 | The resident runner returns the commands, logs and telemetry of a plain run of all updates and the trigger, losing none, with what the section it leaves lets it acknowledge; it gives nothing on any kernel error |
| `Transaction.PlainDecisionIsFromKernel` | native/strategy_core_v3/src/kernel_v6/native.rs:114-136 | A resident run records no failure or warning of an update |
| `Transaction.NativeSectionValidates` | native/strategy_core_v3/src/kernel_v6/native.rs:98-110 | A resident decision tracks its Broker commands, and its section validates exactly unless the comparison alone breaks it, by an adopted order or a fill beyond the request |
| `Transaction.DecisionIsTransparent` | native/strategy_core_v3/src/kernel_v6.rs:189-324 | A whole decision ends in the kernel state, commands, telemetry and error of one to which the failed updates were never delivered |
| `Transaction.DecisionsAgree` | native/strategy_core_v3/src/kernel_v6/native.rs:60-135 | Whatever the codec does, resident and transactional decisions admit the same commands in the same order and end alike whenever the resident one meets no error and every snapshot succeeds |
| `Reuse.PlaceableIsAdmittedFirst` | native/strategy_core_v3/src/kernel_v6.rs:1168-1184 | For an id of the kernel's own, the host lets some calls place under it exactly when it would admit such a place as the first command |
| `Reuse.KeptClientsAlwaysValidate` | native/strategy_core_v3/src/kernel_v6.rs:1168-1184 | If every dropped place with an update still has an order under its client id, no order is adopted under the id of a place that may be left, and none is filled beyond its request, the section validates for every kernel and every codec |
| `Reuse.ReuseIsReusable` | native/strategy_core_v3/src/kernel_v6.rs:1168-1184 | Whatever the kernel and the codec, a reuse needs a dropped place whose update can fail and stay due, under an id the host lets the decision use |
| `Reuse.ReusableIsBroken` | native/strategy_core_v3/src/kernel_v6.rs:294-320 | For every such input some kernel and codec complete without a kernel error and cannot validate |
| `Reuse.ReuseIsPossibleExactlyWhen` | native/strategy_core_v3/src/kernel_v6.rs:1168-1184 | Both directions: which inputs some kernel breaks, as a condition on the context and the comparison alone |
| `Reuse.FaithfulReuse` | native/strategy_core_v3/src/kernel_v6.rs:278-296 | Below the third counted failure the codec may even be faithful |
| `Reuse.ReuseIsPossible` | native/strategy_core_v3/src/kernel_v6.rs:1168-1184 | There is such an input: one refused order, whose id is placed under again |
| `Comparison.Compare` | native/strategy_core_v3/src/kernel_v6/updates.rs:294-488 | The loops over entries and orders, with their count of what may be held, compute the specified steps |
| `Comparison.StepIsValid` | native/strategy_core_v3/src/kernel_v6/updates.rs:321-438 | The step of a valid entry is about the same command and sound; it is filled beyond the request exactly when the Broker's record of the place is |
| `Comparison.ValidSectionIsCompared` | native/strategy_core_v3/src/kernel_v6/updates.rs:453-461 | A valid section never holds too much to be compared: the refusal of a full one cannot happen in a transaction |
| `Comparison.ComparisonIsCoherent` | native/strategy_core_v3/src/kernel_v6/updates.rs:294-488 | Whatever valid section is compared with whatever valid view, the steps are as every theorem on decisions takes them: sound, of distinct commands, within 288 held entries and 32 tombstones |
| `Comparison.ComparisonIsDerived` | native/strategy_core_v3/src/kernel_v6.rs:168-180 | The context made of the view and the compared section is the one those theorems are about |
| `Comparison.FillsAreAccountedFor` | native/strategy_core_v3/src/kernel_v6/updates.rs:4-11 | Over any run of views, stale, truncated or out of order, and any failures: what an entry's fill grew by is exactly the fills its updates told or reported as lost |
| `Comparison.FinalFillsAreAccountedFor` | native/strategy_core_v3/src/kernel_v6/updates.rs:347-374 | When the Broker's final record ends a place, the fills told and reported add up to all that record says |
| `Comparison.NewsIsToldOnce` | native/strategy_core_v3/src/kernel_v6/updates.rs:349-374 | After a handled update the same view has news again exactly when the Broker's record says less filled than was told |
| `News.ShownOrderIsTold` | native/strategy_core_v3/src/kernel_v6/updates.rs:347-374 | A place whose order the view shows: an older record than the last is ignored; else the status is seen by the table, told exactly when status, fill or vanishing changed, with identity of the entry and quantities of the order, and the entry kept exactly while the order may change |
| `News.AbsentPlaceIsTold` | native/strategy_core_v3/src/kernel_v6/updates.rs:375-396 | A place the view does not show: told as refused and forgotten when a receipt says so; else told once as vanished with its last status, becoming a tombstone that ages a view at a time and ends with the sixteenth |
| `News.CancelIsTold` | native/strategy_core_v3/src/kernel_v6/updates.rs:398-436 | A cancel ends silently when accepted or when its order is final, is told with its order's current quantities when refused, and otherwise waits |
| `News.AbsenceNeedsAWholeNewerView` | native/strategy_core_v3/src/kernel_v6/updates.rs:322-346 | Over a truncated view, or one no newer than the command, nothing is told as vanished and no tombstone made |
| `News.OrdersAreAdopted` | native/strategy_core_v3/src/kernel_v6/updates.rs:445-493 | An older view than one seen adopts nothing; a newer one adopts every open untracked order while there is room, each entry as the order's record describes it |
| `Disagreement.AgreeingViewsAlwaysValidate` | native/strategy_core_v3/src/kernel_v6/updates.rs:440-482 | Over a view that agrees with the section on every place's client order id and request, and refuses none, every kernel and codec leave a section that validates |
| `Disagreement.AdoptionAlwaysFails` | native/strategy_core_v3/src/kernel_v6/updates.rs:462-482 | A valid section and view over which no decision of any kernel completes: an order adopted under a tracked client order id |
| `Disagreement.FillBeyondRequestFails` | native/strategy_core_v3/src/kernel_v6/updates.rs:361-372 | A valid section and view over which a decision fails exactly when its kernel handles the one update, of a fill beyond the request |
| `Disagreement.HandlingTheFillFails` | native/strategy_core_v3/src/kernel_v6/updates.rs:361-372 | There is such a kernel |
| `Disagreement.NewsIsRepeated` | native/strategy_core_v3/src/kernel_v6/updates.rs:349-374 | A valid entry and view whose comparison tells the same update again after it was handled |
| `Outputs.TruncateUtf8` | native/strategy_core_v3/src/kernel_v6.rs:2115-2123 | Text is cut at the last character boundary within the bound |
| `Outputs.OutputsAreConserved` | native/strategy_core_v3/src/kernel_v6.rs:1873-1977 | Every output is kept once, in order, where its kind may go, or counted as lost with its bytes, and the room pays exactly for what is kept |
| `Outputs.ListsStayWithinBounds` | native/strategy_core_v3/src/kernel_v6.rs:1878-1975 | Diagnostics, evidence and telemetry stay within their bounds, with room for two closing diagnostics |
| `Outputs.OutputsAreTold` | native/strategy_core_v3/src/kernel_v6.rs:1896-1945 | A log keeps its level when known and its words when they fit a diagnostic; a failure's severity and code say its kind, in words cut to fit |
| `Outputs.OutputsGoWhereTheyFit` | native/strategy_core_v3/src/kernel_v6.rs:1896-1960 | Each output goes to the first list with room, takes its text and 32 bytes (telemetry its own), and is lost and counted only where it does not fit |
| `Outputs.ResultLists.AppendOutputs` | native/strategy_core_v3/src/kernel_v6.rs:1873-1989 | The loop that fills the result keeps and counts exactly that, then appends the kernel error |
| `Outputs.ResultLists.FitResult` | native/strategy_core_v3/src/kernel_v6.rs:2005-2073 | Shedding terminates with a result that encodes, or with nothing left to shed; telemetry goes first, from its end, then logs; every loss is counted in one notice, each round sheds an eighth of a result that did not fit, and commands, entries and acknowledgements are untouched |
| `Outputs.Publish` | native/strategy_core_v3/src/kernel_v6.rs:375-385 | A finished result has at most 64 diagnostics, 64 evidence entries and 256 telemetry entries, its overflow notice included, its commands, entries and acknowledgements as they were; it fails to fit only with nothing left to shed |
| `Evidence.OrderUpdateEvidence` | native/strategy_core_v3/src/decision_v6.rs:2855-2879 | Greedy chunks are non-empty, within 64 KiB, concatenate to the records in order and leave no room for the next one's first record; packing fails exactly when some record does not fit a payload of its own |
| `Evidence.Encoded` | native/strategy_core_v3/src/decision_v6.rs:2881-2893 | A chunk is refused exactly when its length prefix and records pass 64 KiB |
| `Evidence.PrefixHoldsCount` | native/strategy_core_v3/src/decision_v6.rs:2881-2893 | A chunk's length prefix is one byte below 251, else a marker and the narrowest of two, four or eight bytes that holds the count |
| `Canonical.Be32Reads` | native/strategy_core_v3/src/lib.rs:301-309 | The four length bytes are big-endian |
| `Canonical.FramesArePrefixFree` | native/strategy_core_v3/src/lib.rs:301-309 | Equal framed bytes, whatever follows, mean equal tags, payloads and remainders |
| `Canonical.EncodingIsPrefixFree` | native/strategy_core_v3/src/lib.rs:343-393 | Value encodings are prefix-free and determine the value up to the normalization of its text |
| `Canonical.CanonicalBytesAreInjective` | native/strategy_core_v3/src/lib.rs:395-409 | Canonical bytes are equal exactly for equal normalized domains and equal values up to normalization |
| `Encoder.Encoder.Append` | native/strategy_core_v3/src/lib.rs:292-300 | An append is whole or not at all, within 1,048,576 bytes |
| `Encoder.Encoder.EndFrame` | native/strategy_core_v3/src/lib.rs:318-324 | The patched length is that of what was written since |
| `Encoder.Encoder.Encode` | native/strategy_core_v3/src/lib.rs:343-393 | The recursive encoder with back-patched lengths appends exactly the value's encoding, exactly when its nesting and length are within bounds and its text and decimals are sound |
| `Encoder.CanonicalBytes` | native/strategy_core_v3/src/lib.rs:395-409 | A constructed value has canonical bytes exactly when the domain is valid, the nesting at most 64 and the specified form at most 1,048,576 bytes; they are then that form |
| `Maps.MakeMap` | native/strategy_core_v3/src/lib.rs:208-238 | Keys are normalized within their bound, entries sorted by key and collisions refused; the map holds exactly the normalized entries |
| `Maps.OrderDoesNotMatter` | native/strategy_core_v3/src/lib.rs:208-238 | Permuting the input entries gives the same map or the same refusal |
| `Maps.MapsAreConstructed` | native/strategy_core_v3/src/lib.rs:208-238 | A map made of constructed values is constructed, so it has canonical bytes exactly when they fit |
| `Maps.KeysAreOrderedByBytes` | native/strategy_core_v3/src/lib.rs:222-234 | Map entries are in the order of their normalized key bytes: a prefix first, else the smaller byte where keys first differ |
| `Conformance.EncodingsRead` | native/strategy_core_v3/src/lib.rs:343-389 | Every encoding is a frame of the documented type letter whose payload reads as the value: shortest decimal digits, two's complement instants, scale and digits, counted items and entries in order |
| `Conformance.FormsRead` | native/strategy_core_v3/src/lib.rs:391-409 | Canonical bytes are the magic, profile version 1, the domain's frame and the value |
| `Conformance.BoundsRefuseOnlyTheUnencodable` | native/strategy_core_v3/src/lib.rs:186-215 | The bounds on the items of a list and the entries of a map refuse only values past the profile bound |
| `Conformance.NegativeInstant` | conformance/v3/vectors.json:49-57 | The corpus bytes of the instant before the epoch |
| `Conformance.FixedScalePrice` | conformance/v3/vectors.json:67-78 | The corpus bytes of 12.3400 at scale 4 |
| `Conformance.RefusedPrices` | conformance/v3/vectors.json:189-220 | The decimals the corpus refuses, each for its own reason |
| `FixedDecimals.FixedTextIsUnique` | native/strategy_core_v3/src/lib.rs:58-107 | At one scale, accepted fixed decimals of the same number are the same text |
| `FixedDecimals.FixedTextExists` | native/strategy_core_v3/src/lib.rs:58-107 | A number of units has an accepted text at a scale exactly when the scale is at most 18 and the number has at most 38 digits |
| `Decimals.Canonicalize` | native/strategy_core_kernel/src/decimal.rs:61-83 | The scaling loops find the canonical decimal of a number exactly when it has one |
| `Decimals.Parse` | native/strategy_core_kernel/src/decimal.rs:36-84 | A text is accepted exactly when it is well-formed, some canonical decimal is exactly the number denoted, and its digits, fraction and exponent fit the parser's integers (with a zero's scale from −38); the result is that decimal |
| `Decimals.CanonicalIsUnique` | native/strategy_core_kernel/src/decimal.rs:107-111 | Two canonical decimals of one number are equal |
| `Decimals.CanonicalWidth` | native/strategy_core_kernel/src/decimal.rs:107-111 | Canonical decimals have 64 signed bits of coefficient and a scale of at most 18, and no trailing fractional zero |
| `Decimals.SameNumberSameDecimal` | native/strategy_core_kernel/src/decimal.rs:36-84 | Accepted texts denote the same number exactly when they give the same decimal |
| `Decimals.PrintedDecimalsParse` | native/strategy_core_kernel/src/decimal.rs:131-147 | A printed canonical decimal is accepted, and denotes no other canonical decimal |
| `Decimals.ReadBack` | native/strategy_core_kernel/src/decimal.rs:131-147 | Printing and parsing gives the decimal back |
| `Decimals.RepresentableButRefused` | native/strategy_core_kernel/src/decimal.rs:64-66 | A zero with exponent 39 is representable and refused: the condition on zeros is needed |
| `Decimals.OneWithZeros` | native/strategy_core_kernel/src/decimal.rs:53-54 | A one with n zeros after its point is representable for every n, and accepted exactly up to 38 of them |
| `Numerals.NumeralsAreWellFormed` | native/strategy_core_kernel/src/decimal.rs:36-60 | Every text of a sign, digits, a fraction and an exponent, all but the digits optional, is well-formed and denotes its digits over the power of ten of its places |
| `Numerals.WellFormedIsANumeral` | native/strategy_core_kernel/src/decimal.rs:36-60 | Every well-formed text is written so |

## Left out

- Floating point: prices, averages and quantities given as doubles are integer microdollars and hundredths; a
  price outside [0, 1] dollars is refused before conversion.
- Transaction.RunTransaction: a kernel makes a bounded number of calls for an event; one that does not return
  counts as failed. The external request answered is taken to share no id with a Broker command
  (`Comparison.Reflects`), as ids are digests; `RunnerSection.AcknowledgementsValidate` says what happens
  otherwise.
- Transparency.RollbackIsTransparent: logs and recorded failures are not compared, since the code keeps them
  across a rollback on purpose.
- Error texts are kinds of error (`Wire.Reason`, `Admission.Message`); texts of different kinds differ. Text is a
  sequence of bytes.
- Order keys of the plan-row counter are a datatype rather than prefixed strings.
- Comparison.Compare: its notes are not modelled, and neither are the order fields it does not read.
- Transaction.RunTransaction and Transaction.Decide end with validation; `Outputs.Publish` models what follows,
  where a result that cannot be made to fit still fails the decision.
- Digests, fences and id derivation: command ids are a function of the ordinal, valid and injective for the
  first 64; derived client ids are a partial function of it.
- Encoded sizes of commands, entries, records and telemetry, and whether a result encodes, are parameters; only
  the list prefix of evidence is modelled by width.
- Normalization Form C with UTF-8 is a parameter from text to bytes; equality up to it is stated with it.
- `append_notes`, the projection of station, market, forecast and hourly-index data, events, and the accessors
  of positions and pending orders: field copies.
- The checkpoint's identity fields (codec, Strategy, digest): only its sequence, its state and the entries of
  its runner section are modelled. Result validation's bounds on evidence, diagnostics and telemetry are those
  of the lists in `Outputs`, not of `Transaction.ValidateResult`.
- Evidence.OrderUpdateEvidence: decoding evidence back into records is not modelled.
