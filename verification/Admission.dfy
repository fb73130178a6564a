/**
 What the decision host is, as a function of the commands it has admitted: every cached part of its
 state is a replay of them, and each kernel call is admitted or refused from them alone.
 */
module Admission {
  import opened Arithmetic
  import opened Wrappers
  import opened Fees
  import opened Reservation
  import opened Wire
  import opened PlanRows

  // ---------------------------------------------------------------------------------------
  // Lookups
  // ---------------------------------------------------------------------------------------

  function FindMarket(markets: seq<Market>, id: string): (r: Option<Market>)
    ensures r.Some? ==> r.value in markets && r.value.id == id
    ensures r.None? ==> forall i :: 0 <= i < |markets| ==> markets[i].id != id
  {
    if markets == [] then None
    else if markets[0].id == id then Some(markets[0])
    else FindMarket(markets[1..], id)
  }

  function FindOrder(orders: seq<BrokerOrder>, orderId: string): (r: Option<BrokerOrder>)
    ensures r.Some? ==> r.value in orders && r.value.orderId == orderId
    ensures r.None? ==> forall i :: 0 <= i < |orders| ==> orders[i].orderId != orderId
  {
    if orders == [] then None
    else if orders[0].orderId == orderId then Some(orders[0])
    else FindOrder(orders[1..], orderId)
  }

  function FindClient(orders: seq<BrokerOrder>, clientId: string): (r: Option<BrokerOrder>)
    ensures r.Some? ==> r.value in orders && r.value.clientId == clientId
    ensures r.None? ==> forall i :: 0 <= i < |orders| ==> orders[i].clientId != clientId
  {
    if orders == [] then None
    else if orders[0].clientId == clientId then Some(orders[0])
    else FindClient(orders[1..], clientId)
  }

  // ---------------------------------------------------------------------------------------
  // Replay
  // ---------------------------------------------------------------------------------------

  /** How a kernel sees an order placed earlier in its own decision. */
  datatype ProvisionalOrder = ProvisionalOrder(
    clientId: string,
    ticker: string,
    action: OrderAction,
    side: ContractSide,
    limitPrice: Option<nat>,
    quantity: nat,
    commitment: nat,
    cancellationRequested: bool)

  /** The dearest price a buy may be filled at: its limit, else its price cap, else a dollar. */
  function CapOf(order: PlaceOrder): nat {
    if order.limitPrice.Some? then order.limitPrice.value
    else if order.priceCap.Some? then order.priceCap.value
    else MAX_PRICE_MICROS
  }

  /** What the Broker commits for an order: nothing for a sell. */
  ghost function CommitmentOf(ctx: Context, order: PlaceOrder): FeeResult<nat> {
    if order.action.Sell? then Success(0)
    else
      var market := FindMarket(ctx.markets, order.marketId);
      if market.None? || market.value.feeTerms.Failure? then Failure(InvalidInput)
      else BuyCommitment(CapOf(order), order.quantity, market.value.feeTerms.value)
  }

  ghost function CommittedCash(ctx: Context, order: PlaceOrder): nat {
    var r := CommitmentOf(ctx, order);
    if r.Success? then r.value else 0
  }

  ghost function ProvisionalOf(ctx: Context, order: PlaceOrder): ProvisionalOrder {
    ProvisionalOrder(order.clientId, order.marketId, order.action, order.side, order.limitPrice, order.quantity,
                     CommittedCash(ctx, order), false)
  }

  function ClientIndex(provisional: seq<ProvisionalOrder>, clientId: string): (r: Option<nat>)
    ensures r.Some? ==> r.value < |provisional| && provisional[r.value].clientId == clientId
    ensures r.None? ==> forall i :: 0 <= i < |provisional| ==> provisional[i].clientId != clientId
  {
    if provisional == [] then None
    else if provisional[0].clientId == clientId then Some(0)
    else
      var rest := ClientIndex(provisional[1..], clientId);
      if rest.None? then None else Some(rest.value + 1)
  }

  function MarkClient(provisional: seq<ProvisionalOrder>, clientId: string): seq<ProvisionalOrder> {
    var index := ClientIndex(provisional, clientId);
    if index.None? then provisional
    else provisional[index.value := provisional[index.value].(cancellationRequested := true)]
  }

  function MarkAll(provisional: seq<ProvisionalOrder>): seq<ProvisionalOrder> {
    seq(|provisional|, i requires 0 <= i < |provisional| => provisional[i].(cancellationRequested := true))
  }

  ghost function ProvisionalAfter(
      ctx: Context, before: seq<ProvisionalOrder>, command: Command): seq<ProvisionalOrder> {
    match command
    case Place(order) => before + [ProvisionalOf(ctx, order)]
    case Cancel(_, SameDecision(clientId)) => MarkClient(before, clientId)
    case CancelAll(_) => MarkAll(before)
    case _ => before
  }

  /** The decision's own orders after `commands`, in issue order. */
  ghost function Provisional(ctx: Context, commands: seq<Command>): seq<ProvisionalOrder> {
    if commands == [] then []
    else ProvisionalAfter(ctx, Provisional(ctx, commands[..|commands| - 1]), commands[|commands| - 1])
  }

  function OpenOrderIds(orders: seq<BrokerOrder>): set<string> {
    set i | 0 <= i < |orders| && !orders[i].status.Terminal() :: orders[i].orderId
  }

  function CancellationAfter(ctx: Context, before: set<string>, command: Command): set<string> {
    match command
    case Cancel(_, ContextOrder(orderId, _)) => before + {orderId}
    case CancelAll(_) => before + OpenOrderIds(ctx.orders)
    case _ => before
  }

  /** Context orders a cancel of the decision marked. */
  ghost function CancellationRequested(ctx: Context, commands: seq<Command>): set<string> {
    if commands == [] then {}
    else CancellationAfter(ctx, CancellationRequested(ctx, commands[..|commands| - 1]), commands[|commands| - 1])
  }

  ghost function TimerKeys(commands: seq<Command>): set<string> {
    set i | 0 <= i < |commands| && commands[i].IsTimer() :: commands[i].key
  }

  /** Cash committed by the decision's buys. */
  ghost function TotalCommitted(ctx: Context, commands: seq<Command>): nat {
    if commands == [] then 0
    else
      var last := commands[|commands| - 1];
      TotalCommitted(ctx, commands[..|commands| - 1]) + if last.Place? then CommittedCash(ctx, last.order) else 0
  }

  /** The finances after `commands`; 64-bit totals saturate. */
  ghost function FinancesAfter(ctx: Context, commands: seq<Command>): Finances {
    var committed := TotalCommitted(ctx, commands);
    ctx.finances.(
      commitment := Min(ctx.finances.commitment + committed, U64_MAX),
      reserved := Min(ctx.finances.reserved + committed, U64_MAX))
  }

  function NewEntry(ctx: Context, commandId: string, kind: CommandKind): RunnerEntry {
    RunnerEntry(commandId, kind, None, None, None, None, None, 0, None, 0, 0, ctx.revision, false, 0, 0, 0, 0)
  }

  /** The runner entry that tracks a Broker command issued with `provisional` before it. */
  function EntryFor(ctx: Context, provisional: seq<ProvisionalOrder>, command: Command): RunnerEntry
    requires command.IsBroker()
  {
    match command
    case Place(order) =>
      NewEntry(ctx, order.commandId, PlaceKind).(
        clientId := Some(order.clientId), marketId := Some(order.marketId), action := Some(order.action),
        side := Some(order.side), requested := order.quantity)
    case Cancel(commandId, ContextOrder(orderId, _)) =>
      var found := FindOrder(ctx.orders, orderId);
      if found.None? then NewEntry(ctx, commandId, CancelKind)
      else
        NewEntry(ctx, commandId, CancelKind).(
          clientId := Some(found.value.clientId), orderId := Some(found.value.orderId),
          marketId := Some(found.value.marketId), action := Some(found.value.action),
          side := Some(found.value.side), requested := found.value.quantity, filled := found.value.filled)
    case Cancel(commandId, SameDecision(clientId)) =>
      var index := ClientIndex(provisional, clientId);
      if index.None? then NewEntry(ctx, commandId, CancelKind)
      else
        var target := provisional[index.value];
        NewEntry(ctx, commandId, CancelKind).(
          clientId := Some(target.clientId), marketId := Some(target.ticker), action := Some(target.action),
          side := Some(target.side), requested := target.quantity)
    case CancelAll(commandId) => NewEntry(ctx, commandId, CancelAllKind)
  }

  /** The entries that track `commands`: one for each that goes to the Broker, in order. */
  ghost function OwnEntries(ctx: Context, commands: seq<Command>): seq<RunnerEntry> {
    if commands == [] then []
    else
      var earlier, last := commands[..|commands| - 1], commands[|commands| - 1];
      OwnEntries(ctx, earlier) + if last.IsBroker() then [EntryFor(ctx, Provisional(ctx, earlier), last)] else []
  }

  ghost function Runner(ctx: Context, commands: seq<Command>): seq<RunnerEntry> {
    ctx.runner + OwnEntries(ctx, commands)
  }

  ghost function StartRows(ctx: Context): Rows {
    EmptyRows(ctx.orders, ctx.Acknowledgeable() != [], ctx.mode)
  }

  ghost function RowsAfter(ctx: Context, commands: seq<Command>): Rows {
    CountRows(StartRows(ctx), commands, ctx.orders)
  }

  function Requests(commands: seq<Command>): nat {
    if commands == [] then 0
    else Requests(commands[..|commands| - 1]) + if commands[|commands| - 1].ExternalRequest? then 1 else 0
  }

  function LiveEntries(entries: seq<RunnerEntry>): nat {
    if entries == [] then 0
    else LiveEntries(entries[..|entries| - 1]) + if entries[|entries| - 1].vanished then 0 else 1
  }

  // ---------------------------------------------------------------------------------------
  // Calls and answers
  // ---------------------------------------------------------------------------------------

  /** Error texts a kernel may see or return. Texts of different kinds differ. */
  datatype Message =
    | CommandsFull
    | BytesFull
    | RowsFull(rows: nat)
    | RequestsFull
    | RunnerFull
    | OpenOrdersFull(cap: nat)
    | Invalid(reason: Reason)
    | DidNotReturn
    | Text(text: string)

  /** Prices are the request's dollars in microdollars; a price outside [0, 1] dollars is refused. */
  datatype PlaceRequest = PlaceRequest(
    ticker: string,
    action: OrderAction,
    side: ContractSide,
    orderType: OrderType,
    quantity: int64,
    limitPrice: Option<int>,
    priceCap: Option<int>,
    timePolicy: TimePolicy,
    postOnly: bool,
    expiresAfterMs: Option<int>,
    reduceOnly: bool,
    signalType: Option<string>,
    signalMetadata: Option<string>,
    clientId: Option<string>)

  datatype CancelBy = OrderId(orderId: string) | ClientOrderId(clientId: string)

  datatype Telemetry = Telemetry(name: string, value: int, fields: seq<(string, string)>)

  datatype Call =
    | CallPlace(request: PlaceRequest)
    | CallCancel(target: CancelBy)
    | CallCancelAll
    | CallWakeAt(name: Option<string>, when: int)
    | CallCancelTimer(key: string, generation: string)
    | CallRequest(kind: RequestKind, requestTarget: string, payload: string, timeoutMs: nat)
    | CallStop(reason: string)
    | CallLog(level: string, message: string)
    | CallTelemetry(entry: Telemetry)
    | CallView

  /** What a kernel can read of the decision so far. */
  datatype View = View(finances: Finances, provisional: seq<ProvisionalOrder>, cancellationRequested: set<string>)

  datatype Response =
    | Ticket(commandId: string)
    | OrderTicket(commandId: string, clientId: string)
    | TimerHandle(key: string, generation: string)
    | Done
    | Viewed(view: View)
    | Refusal(message: Message)

  /** Why an order update was not handled: counted, deferred for room, undone with the rest, or held
      behind its target's. */
  datatype Failure = Counted | Deferred | RolledBack | Held

  datatype Output =
    | LogOutput(level: string, message: string)
    | TelemetryOutput(entry: Telemetry)
    | UpdateError(step: nat, failure: Failure)
    | UpdateWarning(step: nat)

  /** The host's state. During an order update, `unit` counts the commands that precede its delivery
      unit; `deferrable` is the last refusal for room, if the unit was not to blame for it. */
  datatype HostState = HostState(
    commands: seq<Command>,
    outputs: seq<Output>,
    unit: Option<nat>,
    deferrable: Option<Message>)
  {
    ghost predicate Valid() {
      unit.Some? ==> unit.value <= |commands|
    }
  }

  /** Outputs that survive a rollback: logs and recorded failures. */
  function Retained(outputs: seq<Output>): seq<Output> {
    if outputs == [] then []
    else
      var last := outputs[|outputs| - 1];
      Retained(outputs[..|outputs| - 1]) + if last.LogOutput? || last.UpdateError? then [last] else []
  }

  /** The outputs after going back to when there were `length` of them. */
  function RolledBackOutputs(outputs: seq<Output>, length: nat): seq<Output> {
    var kept := if length <= |outputs| then length else |outputs|;
    outputs[..kept] + Retained(outputs[kept..])
  }

  // ---------------------------------------------------------------------------------------
  // Admission
  // ---------------------------------------------------------------------------------------

  /** A call's verdict. `NoRoom` means the decision is full; `deferrable` says that it would not be, had
      earlier units issued nothing. */
  datatype Verdict =
    | Admitted(command: Command)
    | Refused(message: Message)
    | NoRoom(message: Message, deferrable: bool)

  predicate IssuedBefore(unit: Option<nat>) {
    unit.Some? && unit.value > 0
  }

  function SumOfCommands(sizes: Sizes, commands: seq<Command>): nat {
    if commands == [] then 0
    else SumOfCommands(sizes, commands[..|commands| - 1]) + sizes.command(commands[|commands| - 1])
  }

  function SumOfEntries(sizes: Sizes, entries: seq<RunnerEntry>): nat {
    if entries == [] then 0
    else SumOfEntries(sizes, entries[..|entries| - 1]) + sizes.entry(entries[|entries| - 1])
  }

  /** The result's bytes with `command` and its entry added. */
  ghost function BytesWith(ctx: Context, commands: seq<Command>, command: Command, entry: Option<RunnerEntry>): nat {
    ctx.fixedBytes + ctx.sizes.commands(commands) + ctx.sizes.entries(Runner(ctx, commands))
      + ctx.sizes.command(command) + if entry.Some? then ctx.sizes.entry(entry.value) else 0
  }

  /** What earlier units' commands and entries take of those bytes. */
  ghost function EarlierBytes(ctx: Context, earlier: seq<Command>): nat {
    SumOfCommands(ctx.sizes, earlier) + SumOfEntries(ctx.sizes, OwnEntries(ctx, earlier))
  }

  ghost function CheckBytes(ctx: Context, h: HostState, command: Command, entry: Option<RunnerEntry>): Verdict
    requires h.Valid()
  {
    var bytes := BytesWith(ctx, h.commands, command, entry);
    if bytes <= RESULT_ENCODED_BUDGET_BYTES then Admitted(command)
    else
      NoRoom(BytesFull,
        && IssuedBefore(h.unit)
        && bytes - EarlierBytes(ctx, h.commands[..h.unit.value]) <= RESULT_ENCODED_BUDGET_BYTES)
  }

  /** Admission of a Broker command with its runner entry. */
  ghost function Issue(ctx: Context, h: HostState, command: Command): Verdict
    requires h.Valid() && command.IsBroker()
  {
    var sized := CheckBytes(ctx, h, command, Some(EntryFor(ctx, Provisional(ctx, h.commands), command)));
    if !sized.Admitted? then sized
    else
      var total := RowsAfter(ctx, h.commands).Plus(command, ctx.orders).Total();
      if total > MAX_DECISION_PLAN_ROWS then
        NoRoom(RowsFull(total),
          && IssuedBefore(h.unit)
          && RowsAfter(ctx, h.commands[h.unit.value..]).Plus(command, ctx.orders).Total() <= MAX_DECISION_PLAN_ROWS)
      else if LiveEntries(Runner(ctx, h.commands)) + ctx.reinstatableLive >= MAX_RUNNER_ENTRIES then
        Refused(RunnerFull)
      else Admitted(command)
  }

  function NextOrdinal(h: HostState): Option<Verdict> {
    if |h.commands| >= MAX_STRATEGY_COMMANDS then Some(NoRoom(CommandsFull, IssuedBefore(h.unit))) else None
  }

  predicate PriceInRange(price: Option<int>) {
    price.Some? ==> 0 <= price.value <= MAX_PRICE_MICROS
  }

  function Micros(price: Option<int>): Option<nat>
    requires PriceInRange(price)
  {
    if price.None? then None else Some(price.value)
  }

  /** The order a request asks for, before it has an identity. */
  function Draft(request: PlaceRequest): PlaceOrder
    requires request.quantity > 0 && PriceInRange(request.limitPrice) && PriceInRange(request.priceCap)
  {
    PlaceOrder("", request.ticker, request.action, request.side, request.orderType, request.quantity,
               Micros(request.limitPrice), Micros(request.priceCap), request.timePolicy, request.postOnly,
               request.expiresAfterMs, request.reduceOnly, "", request.signalType, request.signalMetadata, "")
  }

  ghost predicate ClientInUse(ctx: Context, commands: seq<Command>, clientId: string) {
    || (exists i :: 0 <= i < |Provisional(ctx, commands)| && Provisional(ctx, commands)[i].clientId == clientId)
    || (exists i :: 0 <= i < |ctx.orders| && ctx.orders[i].clientId == clientId)
    || (exists i :: 0 <= i < |Runner(ctx, commands)| && Runner(ctx, commands)[i].clientId == Some(clientId))
  }

  /** The client order id of a place at `ordinal`: the kernel's own, or the derived one. */
  function ClientIdFor(ctx: Context, ordinal: nat, request: PlaceRequest): Result<string, Message> {
    if request.clientId.Some? then
      if DERIVED_CLIENT_ID_PREFIX <= request.clientId.value then
        Result.Failure(Invalid(ReservedClientId))
      else Success(request.clientId.value)
    else
      var derived := ctx.derivedClientId(ordinal);
      if derived.None? then Result.Failure(Invalid(NoDerivedClientId))
      else Success(derived.value)
  }

  /** The order a place request becomes, checked in the host's order. */
  ghost function OrderFor(ctx: Context, commands: seq<Command>, request: PlaceRequest): Result<PlaceOrder, Message> {
    if FindMarket(ctx.markets, request.ticker).None? then
      Result.Failure(Invalid(UnknownMarket))
    else if request.quantity <= 0 then Result.Failure(Invalid(NoQuantity))
    else if !PriceInRange(request.limitPrice) then Result.Failure(Invalid(LimitPriceOutOfRange))
    else if !PriceInRange(request.priceCap) then Result.Failure(Invalid(PriceCapOutOfRange))
    else
      var draft := Draft(request);
      if PlaceOrderTermsError(draft).Some? then Result.Failure(Invalid(PlaceOrderTermsError(draft).value))
      else if CommitmentOf(ctx, draft).Failure? then Result.Failure(Invalid(NoCommitment))
      else if OpenOrders(ctx.orders) + |Provisional(ctx, commands)| >= MaxOpenOrders(ctx.mode) then
        Result.Failure(OpenOrdersFull(MaxOpenOrders(ctx.mode)))
      else
        var client := ClientIdFor(ctx, |commands|, request);
        if client.Failure? then Result.Failure(client.error)
        else if !ValidProviderClientId(client.value) then
          Result.Failure(Invalid(InvalidClientId))
        else if ClientInUse(ctx, commands, client.value) then
          Result.Failure(Invalid(ClientIdInUse))
        else
          var order := draft.(commandId := ctx.commandId(|commands|), clientId := client.value);
          if !ValidCommand(Place(order)) then Result.Failure(Invalid(CommandOutOfBounds))
          else Success(order)
  }

  /** The target of a cancel: an order of this decision by its client id first, else a context order. */
  ghost function CancelTargetFor(ctx: Context, commands: seq<Command>, target: CancelBy): Option<CancelTarget> {
    match target
    case OrderId(orderId) => ContextTarget(FindOrder(ctx.orders, orderId))
    case ClientOrderId(clientId) =>
      if ClientIndex(Provisional(ctx, commands), clientId).Some? then Some(SameDecision(clientId))
      else ContextTarget(FindClient(ctx.orders, clientId))
  }

  function ContextTarget(order: Option<BrokerOrder>): Option<CancelTarget> {
    if order.None? then None else Some(ContextOrder(order.value.orderId, order.value.revision))
  }

  /** Why a timer call may not use `key`. */
  ghost function TimerKeyError(ctx: Context, commands: seq<Command>, key: string): Option<Message> {
    if !ctx.timers then Some(Invalid(NoTimers))
    else if !ValidIdentifier(key) then Some(Invalid(InvalidTimerKey))
    else if key in TimerKeys(commands) then Some(Invalid(TimerKeyUsed))
    else None
  }

  function RequestError(ctx: Context, call: Call): Option<Message>
    requires call.CallRequest?
  {
    if !GrantsExternalRequest(ctx.grants, call.kind, call.requestTarget) then Some(Invalid(RequestNotGranted))
    else if call.timeoutMs == 0 || call.timeoutMs > MAX_EXTERNAL_REQUEST_TIMEOUT_MS then Some(Invalid(InvalidTimeout))
    else if call.kind.Http? && !ValidHttpPath(call.kind.path) then Some(Invalid(InvalidPath))
    else if !ValidExternalRequest(call.kind, call.requestTarget, call.payload, call.timeoutMs) then
      Some(Invalid(RequestOutOfBounds))
    else None
  }

  /** The verdict on a call that would issue a command. */
  ghost function Judge(ctx: Context, h: HostState, call: Call): Verdict
    requires h.Valid() && IssuesCommand(call)
  {
    var id := ctx.commandId(|h.commands|);
    match call
    case CallPlace(request) =>
      if NextOrdinal(h).Some? then NextOrdinal(h).value
      else
        var order := OrderFor(ctx, h.commands, request);
        if order.Failure? then Refused(order.error) else Issue(ctx, h, Place(order.value))
    case CallCancel(named) =>
      if NextOrdinal(h).Some? then NextOrdinal(h).value
      else
        var target := CancelTargetFor(ctx, h.commands, named);
        if target.None? then Refused(Invalid(NoOrderMatches)) else Issue(ctx, h, Cancel(id, target.value))
    case CallCancelAll =>
      if !ctx.ordersComplete then Refused(Invalid(TruncatedOrders))
      else if NextOrdinal(h).Some? then NextOrdinal(h).value
      else Issue(ctx, h, CancelAll(id))
    case CallWakeAt(name, when) =>
      var key := if name.Some? then name.value else DEFAULT_TIMER_KEY;
      if TimerKeyError(ctx, h.commands, key).Some? then Refused(TimerKeyError(ctx, h.commands, key).value)
      else if NextOrdinal(h).Some? then NextOrdinal(h).value
      else if !(0 <= when <= I64_MAX) then Refused(Invalid(TimerTimeOutOfRange))
      else CheckBytes(ctx, h, ScheduleTimer(id, key, when, ctx.TimerGeneration(), ""), None)
    case CallCancelTimer(key, generation) =>
      if TimerKeyError(ctx, h.commands, key).Some? then Refused(TimerKeyError(ctx, h.commands, key).value)
      else if !ValidIdentifier(generation) then Refused(Invalid(InvalidTimerGeneration))
      else if NextOrdinal(h).Some? then NextOrdinal(h).value
      else CheckBytes(ctx, h, CancelTimer(id, key, generation), None)
    case CallRequest(kind, target, payload, timeoutMs) =>
      if RequestError(ctx, call).Some? then Refused(RequestError(ctx, call).value)
      else if Requests(h.commands) >= MAX_OUTSTANDING_EXTERNAL_REQUESTS then
        NoRoom(RequestsFull,
          IssuedBefore(h.unit) && Requests(h.commands[h.unit.value..]) < MAX_OUTSTANDING_EXTERNAL_REQUESTS)
      else if NextOrdinal(h).Some? then NextOrdinal(h).value
      else CheckBytes(ctx, h, ExternalRequest(id, kind, target, payload, timeoutMs), None)
    case CallStop(reason) =>
      if NextOrdinal(h).Some? then NextOrdinal(h).value
      else if |reason| == 0 || |reason| > MAX_REASON_BYTES then Refused(Invalid(InvalidStopReason))
      else CheckBytes(ctx, h, Stop(id, reason), None)
  }

  predicate IssuesCommand(call: Call) {
    !call.CallLog? && !call.CallTelemetry? && !call.CallView?
  }

  /** The answer to an admitted command. */
  function AnswerTo(command: Command): Response {
    match command
    case Place(order) => OrderTicket(order.commandId, order.clientId)
    case ScheduleTimer(_, key, _, generation, _) => TimerHandle(key, generation)
    case CancelTimer(_, _, _) => Done
    case Stop(_, _) => Done
    case _ => Ticket(command.Id())
  }

  ghost function ViewOf(ctx: Context, commands: seq<Command>): View {
    View(FinancesAfter(ctx, commands), Provisional(ctx, commands), CancellationRequested(ctx, commands))
  }

  ghost function Settled(h: HostState, verdict: Verdict): (HostState, Response) {
    match verdict
    case Admitted(command) => (h.(commands := h.commands + [command]), AnswerTo(command))
    case Refused(message) => (h, Refusal(message))
    case NoRoom(message, deferrable) =>
      (h.(deferrable := if deferrable then Some(message) else None), Refusal(message))
  }

  /** The host's answer to any kernel call, and its state after it. */
  ghost function Respond(ctx: Context, h: HostState, call: Call): (r: (HostState, Response))
    requires h.Valid()
    ensures r.0.Valid() && r.0.unit == h.unit
    ensures h.commands <= r.0.commands && h.outputs <= r.0.outputs
    ensures r.1.Refusal? ==> r.0.commands == h.commands && r.0.outputs == h.outputs
  {
    match call
    case CallLog(level, message) => (h.(outputs := h.outputs + [LogOutput(level, message)]), Done)
    case CallTelemetry(entry) => (h.(outputs := h.outputs + [TelemetryOutput(entry)]), Done)
    case CallView => (h, Viewed(ViewOf(ctx, h.commands)))
    case _ => Settled(h, Judge(ctx, h, call))
  }
}
