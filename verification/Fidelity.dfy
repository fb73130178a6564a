/**
 What a kernel asks for is what the decision issues: the command, the runner entry that tracks it, the
 order the kernel sees afterwards, and the answer all say what the call said.
 */
module Fidelity {
  import opened Wrappers
  import opened Fees
  import opened Wire
  import opened PlanRows
  import opened Admission
  import opened Validation
  import opened Host

  // ---------------------------------------------------------------------------------------
  // Places
  // ---------------------------------------------------------------------------------------

  predicate SamePrice(price: Option<nat>, asked: Option<int>) {
    price.Some? == asked.Some? && (price.Some? ==> price.value == asked.value)
  }

  /** Whether the order is the one asked for, under the client order id asked for if there was one. */
  predicate AsRequested(request: PlaceRequest, order: PlaceOrder) {
    && order.marketId == request.ticker && order.action == request.action && order.side == request.side
    && order.orderType == request.orderType && order.quantity == request.quantity
    && SamePrice(order.limitPrice, request.limitPrice) && SamePrice(order.priceCap, request.priceCap)
    && order.timePolicy == request.timePolicy && order.postOnly == request.postOnly
    && order.expiresAfterMs == request.expiresAfterMs && order.reduceOnly == request.reduceOnly
    && order.signalType == request.signalType && order.signalMetadata == request.signalMetadata
    && order.metadata == ""
    && (request.clientId.Some? ==> request.clientId.value == order.clientId)
  }

  /** The order's identity: the ordinal's command id, and a client order id that is the kernel's own, not
      of the host's prefix, or else the one derived of the ordinal. */
  predicate IdentifiedBy(ctx: Context, n: nat, request: PlaceRequest, order: PlaceOrder) {
    && order.commandId == ctx.commandId(n)
    && if request.clientId.Some? then !("tv3" <= order.clientId) else ctx.derivedClientId(n) == Some(order.clientId)
  }

  /** The entry of a command just issued: nothing seen of it, nothing tried. */
  function UnseenEntry(
      commandId: string, kind: CommandKind, clientId: Option<string>, orderId: Option<string>,
      marketId: Option<string>, action: Option<OrderAction>, side: Option<ContractSide>, requested: nat, filled: nat,
      revision: nat): RunnerEntry
  {
    RunnerEntry(commandId, kind, clientId, orderId, marketId, action, side, requested, None, filled, 0, revision, false,
      0, 0, 0, 0)
  }

  /** Whether the decision is one place longer: by the order asked for, with its entry, its provisional
      order and its ticket. */
  ghost predicate PlacesOrder(
      ctx: Context, before: HostState, request: PlaceRequest, after: HostState, answer: Response)
  {
    exists order: PlaceOrder ::
      && after.commands == before.commands + [Place(order)]
      && AsRequested(request, order) && IdentifiedBy(ctx, |before.commands|, request, order)
      && Runner(ctx, after.commands) == Runner(ctx, before.commands) + [
           UnseenEntry(
             order.commandId, PlaceKind, Some(order.clientId), None, Some(request.ticker), Some(request.action),
             Some(request.side), request.quantity, 0, ctx.revision)]
      && Provisional(ctx, after.commands) == Provisional(ctx, before.commands) + [
           ProvisionalOrder(
             order.clientId, request.ticker, request.action, request.side, order.limitPrice, request.quantity,
             CommittedCash(ctx, order), false)]
      && answer == OrderTicket(order.commandId, order.clientId)
  }

  lemma OrderIsAsRequested(ctx: Context, commands: seq<Command>, request: PlaceRequest)
    requires OrderFor(ctx, commands, request).Success?
    ensures var order := OrderFor(ctx, commands, request).value;
            AsRequested(request, order) && IdentifiedBy(ctx, |commands|, request, order)
  {
    hide CommitmentOf, Provisional, ClientInUse, ValidCommand, PlaceOrderTermsError;
  }

  /** A place call is refused and changes nothing issued, or places exactly the order asked for. */
  lemma PlaceIsAsRequested(ctx: Context, h: HostState, request: PlaceRequest)
    requires h.Valid()
    ensures var (after, answer) := Respond(ctx, h, CallPlace(request));
      || (answer.Refusal? && after.commands == h.commands)
      || PlacesOrder(ctx, h, request, after, answer)
  {
    var (after, answer) := Respond(ctx, h, CallPlace(request));
    hide OrderFor, Issue, Provisional, OwnEntries, CommittedCash;
    if !answer.Refusal? {
      OrderIsAsRequested(ctx, h.commands, request);
      var order := OrderFor(ctx, h.commands, request).value;
      IssueAdmitsIts(ctx, h, Place(order));
      OneCommandMore(ctx, h.commands, Place(order));
    }
  }

  lemma IssueAdmitsIts(ctx: Context, h: HostState, command: Command)
    requires h.Valid() && command.IsBroker()
    ensures Issue(ctx, h, command).Admitted? ==> Issue(ctx, h, command).command == command
  {
    hide RowsAfter, Runner, Provisional, EntryFor, BytesWith, EarlierBytes;
  }

  lemma OneCommandMore(ctx: Context, commands: seq<Command>, command: Command)
    ensures Provisional(ctx, commands + [command]) == ProvisionalAfter(ctx, Provisional(ctx, commands), command)
    ensures CancellationRequested(ctx, commands + [command])
         == CancellationAfter(ctx, CancellationRequested(ctx, commands), command)
    ensures Runner(ctx, commands + [command]) == Runner(ctx, commands)
        + if command.IsBroker() then [EntryFor(ctx, Provisional(ctx, commands), command)] else []
  {
    ReplayOneMore(ctx, commands, command);
    ReplayViewOneMore(ctx, commands, command);
  }

  // ---------------------------------------------------------------------------------------
  // Which places are admitted
  // ---------------------------------------------------------------------------------------

  /** Whether price, price cap, time policy and flags go together: a limit order has a price and no cap, a
      market order no price and is not post-only; only a market buy may be capped, and a market sell is
      immediate; nothing immediate is post-only or expires. */
  predicate TermsAgree(order: PlaceOrder) {
    var immediate := order.timePolicy.ImmediateOrCancel? || order.timePolicy.FillOrKill?;
    && (order.orderType.LimitOrder? ==>
          order.limitPrice.Some? && order.limitPrice.value <= 1_000_000 && order.priceCap.None?)
    && (order.orderType.MarketOrder? ==> order.limitPrice.None? && !order.postOnly)
    && (order.orderType.MarketOrder? && order.action.Buy? ==>
          order.priceCap.Some? ==> 0 < order.priceCap.value <= 1_000_000)
    && (order.orderType.MarketOrder? && order.action.Sell? ==> order.priceCap.None? && immediate)
    && (immediate ==> !order.postOnly && order.expiresAfterMs.None?)
  }

  lemma TermsAreAccepted(order: PlaceOrder)
    ensures PlaceOrderTermsError(order).None? <==> TermsAgree(order)
  {
  }

  /** The client order id a place goes under: the kernel's own, unless it has the host's prefix, or else
      the derived one. */
  predicate GoesUnder(ctx: Context, n: nat, request: PlaceRequest, clientId: string) {
    if request.clientId.Some? then clientId == request.clientId.value && !("tv3" <= clientId)
    else ctx.derivedClientId(n) == Some(clientId)
  }

  /** Whether no order of the context, no place before and no entry goes under the client order id. */
  ghost predicate IsFree(ctx: Context, commands: seq<Command>, clientId: string) {
    && !Placed(commands, clientId)
    && (forall i :: 0 <= i < |ctx.orders| ==> ctx.orders[i].clientId != clientId)
    && forall i :: 0 <= i < |Runner(ctx, commands)| ==> Runner(ctx, commands)[i].clientId != Some(clientId)
  }

  /** What the host asks of the order itself and of the context, before room: a known Market, agreeing
      terms, a buy that can be committed, an open-order cap not reached, and a free and valid client order
      id. */
  ghost predicate Admissible(ctx: Context, commands: seq<Command>, order: PlaceOrder) {
    && (exists i :: 0 <= i < |ctx.markets| && ctx.markets[i].id == order.marketId)
    && order.quantity > 0 && TermsAgree(order) && CommitmentOf(ctx, order).Success?
    && OpenOrders(ctx.orders) + Places(commands) < (if ctx.mode.Paper? then 192 else 168)
    && ValidIdentifier(order.clientId) && |order.clientId| <= 128 && IsFree(ctx, commands, order.clientId)
    && InBounds(order)
  }

  /** The bounds of a place's fields. */
  predicate InBounds(order: PlaceOrder) {
    && ValidIdentifier(order.commandId) && ValidIdentifier(order.marketId)
    && order.quantity < 0x8000_0000_0000_0000 && |order.metadata| <= 65_536
    && (order.signalType.Some? ==> 0 < |order.signalType.value| <= 512)
    && (order.signalMetadata.Some? ==> 0 < |order.signalMetadata.value| <= 65_536)
    && (order.expiresAfterMs.Some? ==> order.expiresAfterMs.value > 0)
  }

  /** A place that is admissible but for these bounds is within them exactly when its command is. */
  lemma PlaceIsInBounds(order: PlaceOrder)
    requires order.quantity > 0 && TermsAgree(order) && ValidIdentifier(order.clientId) && |order.clientId| <= 128
    ensures ValidCommand(Place(order)) <==> InBounds(order)
  {
    TermsAreAccepted(order);
    hide ValidIdentifier, TermsAgree, PlaceOrderTermsError;
  }

  /** Whether the request asks for this order, and it is admissible as the decision's next command. */
  ghost predicate BecomesAdmissible(ctx: Context, commands: seq<Command>, request: PlaceRequest, order: PlaceOrder) {
    && AsRequested(request, order) && order.commandId == ctx.commandId(|commands|)
    && GoesUnder(ctx, |commands|, request, order.clientId) && Admissible(ctx, commands, order)
  }

  lemma FreeIsNotInUse(ctx: Context, commands: seq<Command>, clientId: string)
    ensures IsFree(ctx, commands, clientId) <==> !ClientInUse(ctx, commands, clientId)
  {
    IndexIsPlaced(ctx, commands, clientId);
    hide Provisional, Runner, Placed;
  }

  /** A request becomes an order exactly when the order it asks for is admissible. */
  lemma {:induction false} OrderIsBuiltExactlyWhen(ctx: Context, commands: seq<Command>, request: PlaceRequest)
    ensures OrderFor(ctx, commands, request).Success? <==>
      exists order :: BecomesAdmissible(ctx, commands, request, order)
  {
    if OrderFor(ctx, commands, request).Success? {
      BuiltIsAdmissible(ctx, commands, request);
    } else if order :| BecomesAdmissible(ctx, commands, request, order) {
      AdmissibleIsBuilt(ctx, commands, request, order);
    }
  }

  lemma OrderHasValidTerms(ctx: Context, commands: seq<Command>, request: PlaceRequest)
    requires OrderFor(ctx, commands, request).Success?
    ensures var order := OrderFor(ctx, commands, request).value;
            TermsAgree(order) && ValidProviderClientId(order.clientId)
  {
    var draft, order := Draft(request), OrderFor(ctx, commands, request).value;
    TermsAreAccepted(order);
    hide CommitmentOf, Provisional, ClientInUse, ValidCommand, PlaceOrderTermsError, ValidIdentifier, OpenOrders;
    assert PlaceOrderTermsError(draft) == PlaceOrderTermsError(order) by { SameTerms(draft, order); }
  }

  lemma SameTerms(a: PlaceOrder, b: PlaceOrder)
    requires b == a.(commandId := b.commandId, clientId := b.clientId)
    ensures PlaceOrderTermsError(a) == PlaceOrderTermsError(b)
  {
  }

  lemma BuiltIsAdmissible(ctx: Context, commands: seq<Command>, request: PlaceRequest)
    requires OrderFor(ctx, commands, request).Success?
    ensures BecomesAdmissible(ctx, commands, request, OrderFor(ctx, commands, request).value)
  {
    OrderIsAsRequested(ctx, commands, request);
    var order := OrderFor(ctx, commands, request).value;
    TermsAreAccepted(order);
    FreeIsNotInUse(ctx, commands, order.clientId);
    ProvisionalIsPlaces(ctx, commands);
    OrderHasValidTerms(ctx, commands, request);
    PlaceIsInBounds(order);
    hide CommitmentOf, Provisional, ClientInUse, ValidCommand, PlaceOrderTermsError, AsRequested, TermsAgree, IsFree,
      OpenOrders, Places, ValidIdentifier;
    var draft := Draft(request);
    assert PlaceOrderTermsError(draft) == PlaceOrderTermsError(order);
    assert CommitmentOf(ctx, draft) == CommitmentOf(ctx, order);
  }

  lemma AdmissibleIsBuilt(ctx: Context, commands: seq<Command>, request: PlaceRequest, order: PlaceOrder)
    requires BecomesAdmissible(ctx, commands, request, order)
    ensures OrderFor(ctx, commands, request).Success?
  {
    assert PriceInRange(request.limitPrice) && PriceInRange(request.priceCap);
    assert order == Draft(request).(commandId := order.commandId, clientId := order.clientId);
    TermsAreAccepted(order);
    PlaceIsInBounds(order);
    FreeIsNotInUse(ctx, commands, order.clientId);
    ProvisionalIsPlaces(ctx, commands);
    hide Provisional, ClientInUse, IsFree, OpenOrders, Places, ValidIdentifier, PlaceOrderTermsError, CommitmentOf,
      ValidCommand;
  }

  // ---------------------------------------------------------------------------------------
  // Cancels
  // ---------------------------------------------------------------------------------------

  /** Whether the decision placed the order of this client id. */
  ghost predicate Placed(commands: seq<Command>, clientId: string) {
    exists i :: 0 <= i < |commands| && commands[i].Place? && commands[i].order.clientId == clientId
  }

  predicate Names(named: CancelBy, order: BrokerOrder) {
    match named
    case OrderId(orderId) => order.orderId == orderId
    case ClientOrderId(clientId) => order.clientId == clientId
  }

  /** Whether the decision is one cancel longer, of an order it placed itself; the entry repeats that
      order. */
  ghost predicate CancelsOwn(ctx: Context, before: HostState, clientId: string, after: HostState) {
    var id := ctx.commandId(|before.commands|);
    && after.commands == before.commands + [Cancel(id, SameDecision(clientId))]
    && exists i ::
         && 0 <= i < |before.commands| && before.commands[i].Place?
         && before.commands[i].order.clientId == clientId
         && Runner(ctx, after.commands) == Runner(ctx, before.commands) + [
              OwnCancelEntry(ctx, id, before.commands[i].order)]
  }

  function OwnCancelEntry(ctx: Context, id: string, order: PlaceOrder): RunnerEntry {
    UnseenEntry(
      id, CancelKind, Some(order.clientId), None, Some(order.marketId), Some(order.action), Some(order.side),
      order.quantity, 0, ctx.revision)
  }

  /** Whether it is one cancel longer, of an order of the context at the revision shown there. */
  ghost predicate CancelsOpen(ctx: Context, before: HostState, order: BrokerOrder, after: HostState) {
    var id := ctx.commandId(|before.commands|);
    && after.commands == before.commands + [Cancel(id, ContextOrder(order.orderId, order.revision))]
    && Runner(ctx, after.commands) == Runner(ctx, before.commands) + [
         UnseenEntry(
           id, CancelKind, Some(order.clientId), Some(order.orderId), Some(order.marketId), Some(order.action),
           Some(order.side), order.quantity, order.filled, ctx.revision)]
  }

  /** Every order the kernel sees as its own is one of the decision's places. */
  lemma {:induction false} ProvisionalIsAPlace(ctx: Context, commands: seq<Command>, i: nat) returns (j: nat)
    requires i < |Provisional(ctx, commands)|
    ensures j < |commands| && commands[j].Place? && Places(commands[..j]) == i
    ensures var (seen, order) := (Provisional(ctx, commands)[i], commands[j].order);
            seen == ProvisionalOrder(
              order.clientId, order.marketId, order.action, order.side, order.limitPrice, order.quantity,
              CommittedCash(ctx, order), seen.cancellationRequested)
  {
    hide CommittedCash, Places;
    var earlier, last := commands[..|commands| - 1], commands[|commands| - 1];
    if i < |Provisional(ctx, earlier)| {
      j := ProvisionalIsAPlace(ctx, earlier, i);
      assert earlier[..j] == commands[..j];
    } else {
      j := |commands| - 1;
      ProvisionalIsPlaces(ctx, earlier);
    }
  }

  /** No two orders of a context share an id. */
  lemma FoundById(ctx: Context, i: nat)
    requires ctx.Valid() && i < |ctx.orders|
    ensures FindOrder(ctx.orders, ctx.orders[i].orderId) == Some(ctx.orders[i])
  {
    var found := FindOrder(ctx.orders, ctx.orders[i].orderId);
    var k :| 0 <= k < |ctx.orders| && Some(ctx.orders[k]) == found;
  }

  /** The context order a cancel resolves to. */
  lemma ContextTargetIsNamed(ctx: Context, commands: seq<Command>, named: CancelBy) returns (i: nat)
    requires ctx.Valid()
    requires var target := CancelTargetFor(ctx, commands, named); target.Some? && target.value.ContextOrder?
    ensures i < |ctx.orders| && Names(named, ctx.orders[i])
    ensures CancelTargetFor(ctx, commands, named) == Some(ContextOrder(ctx.orders[i].orderId, ctx.orders[i].revision))
    ensures FindOrder(ctx.orders, ctx.orders[i].orderId) == Some(ctx.orders[i])
  {
    hide Provisional, Context.Valid;
    var found := if named.OrderId? then FindOrder(ctx.orders, named.orderId)
                 else FindClient(ctx.orders, named.clientId);
    i :| 0 <= i < |ctx.orders| && ctx.orders[i] == found.value;
    FoundById(ctx, i);
  }

  lemma IndexIsPlaced(ctx: Context, commands: seq<Command>, clientId: string)
    ensures ClientIndex(Provisional(ctx, commands), clientId).Some? <==> Placed(commands, clientId)
  {
    ProvisionalIsPlaces(ctx, commands);
    hide Provisional;
    var provisional := Provisional(ctx, commands);
    if Placed(commands, clientId) {
      var j :| 0 <= j < |commands| && commands[j].Place? && commands[j].order.clientId == clientId;
      assert HasClient(provisional, commands[j].order.clientId);
    }
    var index := ClientIndex(provisional, clientId);
    if index.Some? {
      assert PlacedBefore(commands, |commands|, provisional[index.value].clientId);
    }
  }

  lemma TargetIsFound(ctx: Context, commands: seq<Command>, named: CancelBy)
    ensures CancelTargetFor(ctx, commands, named).None? <==>
      && (named.ClientOrderId? ==> !Placed(commands, named.clientId))
      && forall i :: 0 <= i < |ctx.orders| ==> !Names(named, ctx.orders[i])
  {
    hide Provisional, Placed;
    if named.ClientOrderId? {
      IndexIsPlaced(ctx, commands, named.clientId);
    }
  }

  lemma IssueIsNoMismatch(ctx: Context, h: HostState, named: CancelBy)
    requires h.Valid() && CancelTargetFor(ctx, h.commands, named).Some?
    ensures var target := CancelTargetFor(ctx, h.commands, named).value;
            Issue(ctx, h, Cancel(ctx.commandId(|h.commands|), target)) != Refused(Invalid(NoOrderMatches))
  {
    hide CancelTargetFor, RowsAfter, Runner, Provisional, EntryFor, BytesWith, EarlierBytes;
  }

  /** What an admitted cancel adds. */
  lemma CancelIsIssued(ctx: Context, h: HostState, named: CancelBy)
    requires h.Valid() && !Respond(ctx, h, CallCancel(named)).1.Refusal?
    ensures CancelTargetFor(ctx, h.commands, named).Some?
    ensures var (after, answer) := Respond(ctx, h, CallCancel(named));
      var command := Cancel(ctx.commandId(|h.commands|), CancelTargetFor(ctx, h.commands, named).value);
      && answer == Ticket(ctx.commandId(|h.commands|)) && after.commands == h.commands + [command]
      && Runner(ctx, after.commands)
           == Runner(ctx, h.commands) + [EntryFor(ctx, Provisional(ctx, h.commands), command)]
  {
    hide CancelTargetFor, Issue, Provisional, Runner, EntryFor;
    var command := Cancel(ctx.commandId(|h.commands|), CancelTargetFor(ctx, h.commands, named).value);
    IssueAdmitsIts(ctx, h, command);
    OneCommandMore(ctx, h.commands, command);
  }

  lemma OwnEntryRepeatsOrder(ctx: Context, commands: seq<Command>, id: string, clientId: string) returns (j: nat)
    requires ClientIndex(Provisional(ctx, commands), clientId).Some?
    ensures j < |commands| && commands[j].Place? && commands[j].order.clientId == clientId
    ensures EntryFor(ctx, Provisional(ctx, commands), Cancel(id, SameDecision(clientId)))
         == OwnCancelEntry(ctx, id, commands[j].order)
  {
    hide Provisional;
    j := ProvisionalIsAPlace(ctx, commands, ClientIndex(Provisional(ctx, commands), clientId).value);
  }

  /** A cancel is refused and changes nothing issued, or cancels an order of the decision itself if it
      placed one under the client order id named, and else an order of the context by that name. */
  lemma {:induction false} CancelIsAsRequested(ctx: Context, h: HostState, named: CancelBy)
    requires ctx.Valid() && h.Valid()
    ensures var (after, answer) := Respond(ctx, h, CallCancel(named));
      || (answer.Refusal? && after.commands == h.commands)
      || (answer == Ticket(ctx.commandId(|h.commands|))
          && if named.ClientOrderId? && Placed(h.commands, named.clientId) then
               CancelsOwn(ctx, h, named.clientId, after)
             else
               exists i ::
                 0 <= i < |ctx.orders| && Names(named, ctx.orders[i]) && CancelsOpen(ctx, h, ctx.orders[i], after))
  {
    hide Issue, Provisional, Runner, Context.Valid, Placed, Respond;
    var (after, answer) := Respond(ctx, h, CallCancel(named));
    if !answer.Refusal? {
      CancelIsIssued(ctx, h, named);
      var id := ctx.commandId(|h.commands|);
      if named.ClientOrderId? {
        IndexIsPlaced(ctx, h.commands, named.clientId);
      }
      if named.ClientOrderId? && Placed(h.commands, named.clientId) {
        var j := OwnEntryRepeatsOrder(ctx, h.commands, id, named.clientId);
        hide EntryFor, OwnCancelEntry;
        assert CancelsOwn(ctx, h, named.clientId, after);
      } else {
        var i := ContextTargetIsNamed(ctx, h.commands, named);
        hide CancelTargetFor;
        assert CancelsOpen(ctx, h, ctx.orders[i], after);
      }
    }
  }

  /** With an ordinal to spare, a cancel finds no order exactly when nothing it could name is there. */
  lemma CancelMatchesNothing(ctx: Context, h: HostState, named: CancelBy)
    requires h.Valid() && |h.commands| < MAX_STRATEGY_COMMANDS
    ensures Respond(ctx, h, CallCancel(named)).1 == Refusal(Invalid(NoOrderMatches)) <==>
      && (named.ClientOrderId? ==> !Placed(h.commands, named.clientId))
      && forall i :: 0 <= i < |ctx.orders| ==> !Names(named, ctx.orders[i])
  {
    TargetIsFound(ctx, h.commands, named);
    hide Placed, CancelTargetFor;
    if CancelTargetFor(ctx, h.commands, named).Some? {
      IssueIsNoMismatch(ctx, h, named);
    }
    hide Issue;
  }

  // ---------------------------------------------------------------------------------------
  // Everything else
  // ---------------------------------------------------------------------------------------

  /** The command any other call issues, and its answer. */
  ghost predicate IssuesAsked(ctx: Context, id: string, call: Call, command: Command, answer: Response) {
    match call
    case CallCancelAll => command == CancelAll(id) && answer == Ticket(id)
    case CallWakeAt(name, when) =>
      && command.ScheduleTimer? && command.commandId == id && command.scheduledAt == when
      && command.key == (if name.Some? then name.value else "kernel.wake")
      && command.generation == "timer." + ctx.deliveryId && command.semantics == ""
      && answer == TimerHandle(command.key, command.generation)
    case CallCancelTimer(key, generation) => command == CancelTimer(id, key, generation) && answer == Done
    case CallRequest(kind, target, payload, timeoutMs) =>
      && command == ExternalRequest(id, kind, target, payload, timeoutMs) && answer == Ticket(id)
      && (match kind
          case Http(_) => "http:" + target in ctx.grants
          case Program(_) => "command:" + target in ctx.grants)
    case CallStop(reason) => command == Stop(id, reason) && answer == Done
    case _ => false
  }

  /** What an external request must be: granted, in time, to a plainly named target, and within the bounds of
      its kind. */
  ghost predicate AcceptableRequest(ctx: Context, kind: RequestKind, target: string, payload: string, timeoutMs: nat) {
    && 0 < timeoutMs <= 120_000 && ValidIdentifier(target) && ':' !in target
    && match kind
       case Http(path) => "http:" + target in ctx.grants && ValidHttpPath(path) && |path| + |payload| <= 65_536
       case Program(args) =>
         && "command:" + target in ctx.grants && |args| <= 64
         && (forall i :: 0 <= i < |args| ==> '\0' !in args[i])
         && TotalLength(args) + |payload| <= 65_536
  }

  /** A request is refused for what it asks exactly when it is not acceptable. */
  lemma RequestsAreAccepted(ctx: Context, kind: RequestKind, target: string, payload: string, timeoutMs: nat)
    ensures RequestError(ctx, CallRequest(kind, target, payload, timeoutMs)).None?
       <==> AcceptableRequest(ctx, kind, target, payload, timeoutMs)
  {
    hide ValidIdentifier, ValidHttpPath, TotalLength;
  }

  /** Whether the decision is one such command longer, with an entry of its own if it goes to the Broker. */
  ghost predicate Issues(ctx: Context, before: HostState, call: Call, after: HostState, answer: Response) {
    var id := ctx.commandId(|before.commands|);
    && after.commands != [] && after.commands[..|after.commands| - 1] == before.commands
    && IssuesAsked(ctx, id, call, after.commands[|after.commands| - 1], answer)
    && Runner(ctx, after.commands) == Runner(ctx, before.commands)
         + if call.CallCancelAll? then
             [UnseenEntry(id, CancelAllKind, None, None, None, None, None, 0, 0, ctx.revision)]
           else []
  }

  lemma VerdictIsAsked(ctx: Context, h: HostState, call: Call)
    requires h.Valid() && IssuesCommand(call) && !call.CallPlace? && !call.CallCancel?
    requires Judge(ctx, h, call).Admitted?
    ensures var command := Judge(ctx, h, call).command;
      && IssuesAsked(ctx, ctx.commandId(|h.commands|), call, command, AnswerTo(command))
      && (command.IsBroker() <==> call.CallCancelAll?)
  {
    hide Runner, OwnEntries, Provisional, BytesWith, EarlierBytes, TimerKeys, ValidIdentifier, ValidHttpPath,
      ValidExternalRequest, RowsAfter, EntryFor;
  }

  /** Cancel-alls, timers, external requests and stops are refused and change nothing issued, or issue
      exactly what was asked. */
  lemma CommandIsAsRequested(ctx: Context, h: HostState, call: Call)
    requires h.Valid() && IssuesCommand(call) && !call.CallPlace? && !call.CallCancel?
    ensures var (after, answer) := Respond(ctx, h, call);
      || (answer.Refusal? && after.commands == h.commands)
      || Issues(ctx, h, call, after, answer)
  {
    hide Judge, Runner, Provisional, IssuesAsked;
    if Judge(ctx, h, call).Admitted? {
      VerdictIsAsked(ctx, h, call);
      var command := Judge(ctx, h, call).command;
      OneCommandMore(ctx, h.commands, command);
      AskedCancelAll(ctx, ctx.commandId(|h.commands|), call, command, AnswerTo(command));
    }
  }

  lemma AskedCancelAll(ctx: Context, id: string, call: Call, command: Command, answer: Response)
    requires IssuesAsked(ctx, id, call, command, answer)
    ensures call.CallCancelAll? ==> command == CancelAll(id)
  {
  }

  // ---------------------------------------------------------------------------------------
  // What the kernel sees of it
  // ---------------------------------------------------------------------------------------

  predicate CancelsOwnOrder(command: Command, clientId: string) {
    command.CancelAll? || (command.Cancel? && command.target == SameDecision(clientId))
  }

  /** Whether a command after the place at `j` cancels it. */
  ghost predicate CancelledAfter(commands: seq<Command>, j: nat)
    requires j < |commands| && commands[j].Place?
  {
    exists k :: j < k < |commands| && CancelsOwnOrder(commands[k], commands[j].order.clientId)
  }

  lemma CancelledOneMore(commands: seq<Command>, j: nat)
    requires j < |commands| - 1 && commands[j].Place?
    ensures CancelledAfter(commands, j) <==>
      || CancelledAfter(commands[..|commands| - 1], j)
      || CancelsOwnOrder(commands[|commands| - 1], commands[j].order.clientId)
  {
    var earlier := commands[..|commands| - 1];
    if CancelledAfter(earlier, j) {
      var k :| j < k < |earlier| && CancelsOwnOrder(earlier[k], earlier[j].order.clientId);
      assert CancelsOwnOrder(commands[k], commands[j].order.clientId);
    }
  }

  /** Each of a decision's places is among the orders its kernel sees, in order, and shown as being
      cancelled exactly when a later cancel names it or a later cancel-all covers it. */
  lemma {:induction false} OwnOrdersAreShown(ctx: Context, commands: seq<Command>, j: nat)
    requires DistinctClients(commands) && j < |commands| && commands[j].Place?
    ensures var i := Places(commands[..j]);
      && i < |Provisional(ctx, commands)|
      && Provisional(ctx, commands)[i].clientId == commands[j].order.clientId
      && (Provisional(ctx, commands)[i].cancellationRequested <==> CancelledAfter(commands, j))
  {
    hide CommittedCash, Places;
    var earlier, last := commands[..|commands| - 1], commands[|commands| - 1];
    if j == |earlier| {
      ProvisionalIsPlaces(ctx, earlier);
    } else {
      OwnOrdersAreShown(ctx, earlier, j);
      assert earlier[..j] == commands[..j] && earlier[j] == commands[j];
      CancelledOneMore(commands, j);
      if last.Cancel? && last.target.SameDecision? {
        MarkIsOfClient(ctx, earlier, Places(commands[..j]), last.target.clientId);
      }
    }
  }

  /** Marking a client order id marks its order alone. */
  lemma {:induction false} MarkIsOfClient(ctx: Context, commands: seq<Command>, i: nat, clientId: string)
    requires DistinctClients(commands) && i < |Provisional(ctx, commands)|
    ensures var seen := Provisional(ctx, commands);
      MarkClient(seen, clientId)[i]
        == if seen[i].clientId == clientId then seen[i].(cancellationRequested := true) else seen[i]
  {
    hide Provisional, Places;
    var seen := Provisional(ctx, commands);
    var index := ClientIndex(seen, clientId);
    if seen[i].clientId == clientId {
      var j := ProvisionalIsAPlace(ctx, commands, i);
      var k := ProvisionalIsAPlace(ctx, commands, index.value);
      assert commands[j].order.clientId == commands[k].order.clientId;
    }
  }

  /** Whether a cancel names the context order. */
  ghost predicate NamedByCancel(commands: seq<Command>, orderId: string) {
    exists k :: 0 <= k < |commands| && NamesOrder(commands[k], orderId)
  }

  predicate NamesOrder(command: Command, orderId: string) {
    command.Cancel? && command.target.ContextOrder? && command.target.orderId == orderId
  }

  ghost predicate CancelsAll(commands: seq<Command>) {
    exists k :: 0 <= k < |commands| && commands[k].CancelAll?
  }

  ghost predicate IsOpen(ctx: Context, orderId: string) {
    exists i :: 0 <= i < |ctx.orders| && ctx.orders[i].orderId == orderId && !ctx.orders[i].status.Terminal()
  }

  lemma OneMoreCancels(earlier: seq<Command>, last: Command, orderId: string)
    ensures NamedByCancel(earlier + [last], orderId) <==> NamedByCancel(earlier, orderId) || NamesOrder(last, orderId)
    ensures CancelsAll(earlier + [last]) <==> CancelsAll(earlier) || last.CancelAll?
  {
    var commands := earlier + [last];
    assert commands[|earlier|] == last && forall k :: 0 <= k < |earlier| ==> commands[k] == earlier[k];
    hide NamesOrder;
  }

  /** The context orders shown as being cancelled: those a cancel names, and with a cancel-all every open
      one. */
  lemma {:induction false} CancelledOrdersAreShown(ctx: Context, commands: seq<Command>, orderId: string)
    ensures orderId in CancellationRequested(ctx, commands)
       <==> NamedByCancel(commands, orderId) || (CancelsAll(commands) && IsOpen(ctx, orderId))
  {
    if commands != [] {
      var earlier, last := commands[..|commands| - 1], commands[|commands| - 1];
      CancelledOrdersAreShown(ctx, earlier, orderId);
      OneMoreCancels(earlier, last, orderId);
      assert commands == earlier + [last];
      hide NamedByCancel, CancelsAll;
      assert IsOpen(ctx, orderId) <==> orderId in OpenOrderIds(ctx.orders);
      hide IsOpen, OpenOrderIds;
    }
  }
}
