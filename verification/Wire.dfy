/**
 The Decision V6 commands and views, and what result validation demands of commands. Text is a
 sequence of bytes, one `char` a byte. Prices are integer microdollars.
 */
module Wire {
  import opened Arithmetic
  import opened Wrappers
  import opened Fees

  const MAX_STRATEGY_COMMANDS: nat := 64
  const MAX_OUTSTANDING_EXTERNAL_REQUESTS: nat := 8
  const MAX_RUNNER_ENTRIES: nat := 256
  const MAX_TOMBSTONES: nat := 32
  const MAX_DELIVERY_ATTEMPTS: nat := 3
  const MAX_DELIVERY_DEFERRALS: nat := 8
  const TOMBSTONE_EXPIRY_VIEWS: nat := 16
  const MAX_KERNEL_CHECKPOINT_BYTES: nat := 131_072
  const MAX_COMMAND_RECEIPTS: nat := 256
  const MAX_BROKER_ORDERS: nat := 256
  const MAX_ACKNOWLEDGED_COMMANDS: nat := MAX_COMMAND_RECEIPTS + MAX_BROKER_ORDERS + 1
  const RESULT_ENCODED_BUDGET_BYTES: nat := 917_504
  const MAX_IDENTIFIER_BYTES: nat := 160
  const MAX_PROVIDER_CLIENT_ID_BYTES: nat := 128
  const MAX_SHORT_TEXT_BYTES: nat := 512
  const MAX_REASON_BYTES: nat := 4_096
  const MAX_COMMAND_METADATA_BYTES: nat := 65_536
  const MAX_TIMER_SEMANTICS_BYTES: nat := 16_384
  const MAX_EXTERNAL_REQUEST_BYTES: nat := 65_536
  const MAX_EXTERNAL_REQUEST_TIMEOUT_MS: nat := 120_000
  const MAX_HTTP_PATH_BYTES: nat := 2_048
  const MAX_COMMAND_REQUEST_ARGS: nat := 64
  const MAX_PRICE_MICROS: nat := 1_000_000
  const DERIVED_CLIENT_ID_PREFIX := "tv3"
  const DEFAULT_TIMER_KEY := "kernel.wake"
  const TIMER_GENERATION_PREFIX := "timer."

  datatype DeploymentMode = Paper | Live

  datatype ContractSide = Yes | No

  datatype OrderType = MarketOrder | LimitOrder

  datatype TimePolicy = GoodTillCanceled | ImmediateOrCancel | FillOrKill

  datatype CommandKind = PlaceKind | CancelKind | CancelAllKind

  /** Why a call is refused for what it asks. The source has a text for each. */
  datatype Reason =
    | ReservedClientId
    | NoDerivedClientId
    | UnknownMarket
    | NoQuantity
    | LimitPriceOutOfRange
    | PriceCapOutOfRange
    | NoCommitment
    | InvalidClientId
    | ClientIdInUse
    | CommandOutOfBounds
    | NoTimers
    | InvalidTimerKey
    | TimerKeyUsed
    | RequestNotGranted
    | InvalidTimeout
    | InvalidPath
    | RequestOutOfBounds
    | NoOrderMatches
    | TruncatedOrders
    | TimerTimeOutOfRange
    | InvalidTimerGeneration
    | InvalidStopReason
    | LimitOrderUnpriced
    | MarketOrderPriced
    | UnexpectedPriceCap
    | MarketSellResting
    | PostOnlyMarketOrder
    | PostOnlyImmediate
    | ExpiringImmediate

  // ---------------------------------------------------------------------------------------
  // Commands
  // ---------------------------------------------------------------------------------------

  datatype PlaceOrder = PlaceOrder(
    commandId: string,
    marketId: string,
    action: OrderAction,
    side: ContractSide,
    orderType: OrderType,
    quantity: nat,
    limitPrice: Option<nat>,
    priceCap: Option<nat>,
    timePolicy: TimePolicy,
    postOnly: bool,
    expiresAfterMs: Option<int>,
    reduceOnly: bool,
    clientId: string,
    signalType: Option<string>,
    signalMetadata: Option<string>,
    metadata: string)

  datatype CancelTarget =
    | ContextOrder(orderId: string, expectedRevision: nat)
    | SameDecision(clientId: string)

  datatype RequestKind =
    | Http(path: string)
    | Program(args: seq<string>)

  datatype Command =
    | Place(order: PlaceOrder)
    | Cancel(commandId: string, target: CancelTarget)
    | CancelAll(commandId: string)
    | ScheduleTimer(commandId: string, key: string, scheduledAt: nat, generation: string, semantics: string)
    | CancelTimer(commandId: string, key: string, generation: string)
    | Stop(commandId: string, reason: string)
    | ExternalRequest(commandId: string, kind: RequestKind, requestTarget: string, payload: string, timeoutMs: nat)
  {
    function Id(): string {
      if Place? then order.commandId else commandId
    }

    predicate IsBroker() {
      Place? || Cancel? || CancelAll?
    }

    predicate IsTimer() {
      ScheduleTimer? || CancelTimer?
    }
  }

  // ---------------------------------------------------------------------------------------
  // Views
  // ---------------------------------------------------------------------------------------

  /** A Broker order of the context, as far as commands refer to it. */
  datatype BrokerOrder = BrokerOrder(
    commandId: string,
    orderId: string,
    clientId: string,
    marketId: string,
    action: OrderAction,
    side: ContractSide,
    quantity: nat,
    filled: nat,
    remaining: nat,
    averagePrice: Option<nat>,
    fees: nat,
    rejection: Option<string>,
    status: OrderStatus,
    revision: nat)

  datatype OrderStatus =
    | DurablyAccepted
    | Dispatched
    | RestingStatus
    | PartiallyFilledStatus
    | FilledStatus
    | CancellationRequestedStatus
    | CancelledStatus
    | ExpiredStatus
    | RejectedStatus
    | RecoveryRequired
  {
    predicate Terminal() {
      FilledStatus? || CancelledStatus? || ExpiredStatus? || RejectedStatus?
    }
  }

  /** The last news of an order that its Strategy was given. */
  datatype SeenStatus =
    | SeenAccepted
    | SeenResting
    | SeenPartiallyFilled
    | SeenFilled
    | SeenCancelled
    | SeenExpired
    | SeenRefused(code: string, reason: string)
  {
    predicate Terminal() {
      SeenFilled? || SeenCancelled? || SeenExpired? || SeenRefused?
    }
  }

  /** What the runner section remembers of one order or command. A vanished entry is a tombstone:
      `vanishedRevision` is the view it disappeared in, `absentViews` how many later ones lacked it. */
  datatype RunnerEntry = RunnerEntry(
    commandId: string,
    kind: CommandKind,
    clientId: Option<string>,
    orderId: Option<string>,
    marketId: Option<string>,
    action: Option<OrderAction>,
    side: Option<ContractSide>,
    requested: nat,
    lastStatus: Option<SeenStatus>,
    filled: nat,
    orderRevision: nat,
    issuedRevision: nat,
    vanished: bool,
    vanishedRevision: nat,
    absentViews: nat,
    deliveryFailures: nat,
    deliveryDeferrals: nat)

  datatype Market = Market(id: string, feeTerms: FeeResult<FeeTerms>)

  datatype Finances = Finances(allowance: nat, commitment: nat, balance: nat, reserved: nat) {
    /** What is left to spend: the smaller of the remaining allowance and the unreserved balance. */
    function BuyingPower(): nat {
      var allowanceLeft := if allowance >= commitment then allowance - commitment else 0;
      var cashLeft := if balance >= reserved then balance - reserved else 0;
      if allowanceLeft <= cashLeft then allowanceLeft else cashLeft
    }
  }

  /** Encoded lengths, as the wire codec measures them. */
  datatype Sizes = Sizes(
    command: Command -> nat,
    entry: RunnerEntry -> nat,
    commands: seq<Command> -> nat,
    entries: seq<RunnerEntry> -> nat)

  /** The inputs of one decision. `runner` holds the entries left once the Broker's view has been
      compared, `receipts` the command ids with an outcome, `answeredRequest` the external request the
      trigger responds to, `fixedBytes` the result's size apart from commands and entries. A command's
      identities are functions of its ordinal. */
  datatype Context = Context(
    mode: DeploymentMode,
    orders: seq<BrokerOrder>,
    revision: nat,
    ordersComplete: bool,
    timers: bool,
    grants: seq<string>,
    markets: seq<Market>,
    deliveryId: string,
    finances: Finances,
    runner: seq<RunnerEntry>,
    receipts: seq<string>,
    answeredRequest: Option<string>,
    reinstatableLive: nat,
    fixedBytes: nat,
    commandId: nat -> string,
    derivedClientId: nat -> Option<string>,
    sizes: Sizes)
  {
    /** What context validation and the digest ids guarantee. */
    ghost predicate Valid() {
      && (forall i, j :: 0 <= i < j < |orders| ==> orders[i].orderId != orders[j].orderId)
      && (forall i :: 0 <= i < |orders| ==> ValidOrder(orders[i]))
      && (forall n: nat :: n < MAX_STRATEGY_COMMANDS ==> ValidIdentifier(commandId(n)))
      && (forall m: nat, n: nat :: m < n < MAX_STRATEGY_COMMANDS ==> commandId(m) != commandId(n))
      && (forall i :: 0 <= i < |markets| && markets[i].feeTerms.Success? ==> markets[i].feeTerms.value.Valid())
      && (forall i :: 0 <= i < |receipts| ==> ValidIdentifier(receipts[i]))
      && (answeredRequest.Some? ==> ValidIdentifier(answeredRequest.value))
      && |receipts| <= MAX_COMMAND_RECEIPTS && |orders| <= MAX_BROKER_ORDERS
      && Unrepeated(receipts + FinalOrders(orders))
      && finances.commitment <= U64_MAX && finances.reserved <= U64_MAX
    }

    /** Every id a result could acknowledge: receipts, final orders, and the request answered. */
    function Acknowledgeable(): seq<string> {
      receipts + FinalOrders(orders) + Answered()
    }

    function Answered(): seq<string> {
      if answeredRequest.Some? then [answeredRequest.value] else []
    }

    function TimerGeneration(): string {
      TIMER_GENERATION_PREFIX + deliveryId
    }
  }

  ghost predicate Unrepeated(ids: seq<string>) {
    forall i, j :: 0 <= i < j < |ids| ==> ids[i] != ids[j]
  }

  /** A Broker order as context validation admits it, in the fields modelled. */
  predicate ValidOrder(order: BrokerOrder) {
    && ValidIdentifier(order.commandId) && ValidIdentifier(order.orderId) && ValidIdentifier(order.clientId)
    && ValidIdentifier(order.marketId) && order.filled <= order.quantity && 0 < order.quantity <= I64_MAX
  }

  /** The commands of the orders that will not change again. */
  function FinalOrders(orders: seq<BrokerOrder>): seq<string> {
    if orders == [] then []
    else
      var last := orders[|orders| - 1];
      FinalOrders(orders[..|orders| - 1]) + if last.status.Terminal() then [last.commandId] else []
  }

  function OpenOrders(orders: seq<BrokerOrder>): nat {
    if orders == [] then 0
    else OpenOrders(orders[..|orders| - 1]) + if orders[|orders| - 1].status.Terminal() then 0 else 1
  }

  /** Plan rows: the most a decision may need, and what each command adds. */
  const MAX_DECISION_PLAN_ROWS: nat := 512
  const PLACE_ORDER_PLAN_ROWS: nat := 5
  const CANCEL_ORDER_PLAN_ROWS: nat := 3
  const CANCEL_ALL_ORDERS_PLAN_ROWS: nat := 3
  const COLLAPSED_PLACE_PLAN_ROWS: nat := 1
  const REFUSED_COMMAND_PLAN_ROWS: nat := 1
  const DECISION_PLAN_ROWS: nat := 4
  const ACKNOWLEDGEMENT_PLAN_ROWS: nat := 1

  function MaxOpenOrders(mode: DeploymentMode): nat {
    match mode
    case Paper => 192
    case Live => (MAX_DECISION_PLAN_ROWS - DECISION_PLAN_ROWS - ACKNOWLEDGEMENT_PLAN_ROWS - 3) / 3
  }

  // ---------------------------------------------------------------------------------------
  // Bounds of one command
  // ---------------------------------------------------------------------------------------

  predicate IdentifierByte(c: char) {
    'a' <= c <= 'z' || 'A' <= c <= 'Z' || '0' <= c <= '9' || c == '_' || c == '-' || c == '.' || c == ':'
  }

  predicate ValidIdentifier(value: string) {
    0 < |value| <= MAX_IDENTIFIER_BYTES && forall i :: 0 <= i < |value| ==> IdentifierByte(value[i])
  }

  predicate ValidProviderClientId(value: string) {
    ValidIdentifier(value) && |value| <= MAX_PROVIDER_CLIENT_ID_BYTES
  }

  predicate ValidOptionalText(value: Option<string>, maxBytes: nat) {
    value.Some? ==> 0 < |value.value| <= maxBytes
  }

  /** The first inconsistency among a place's prices, time policy and flags, if there is one. */
  function PlaceOrderTermsError(order: PlaceOrder): Option<Reason> {
    var immediate := order.timePolicy != GoodTillCanceled;
    if order.orderType.LimitOrder? && order.limitPrice.None? then
      Some(LimitOrderUnpriced)
    else if order.orderType.LimitOrder? && order.limitPrice.value > MAX_PRICE_MICROS then
      Some(LimitPriceOutOfRange)
    else if order.orderType.MarketOrder? && order.limitPrice.Some? then
      Some(MarketOrderPriced)
    else if order.action.Buy? && order.orderType.MarketOrder? && order.priceCap.Some?
         && !(1 <= order.priceCap.value <= MAX_PRICE_MICROS) then
      Some(PriceCapOutOfRange)
    else if (order.action.Sell? || order.orderType.LimitOrder?) && order.priceCap.Some? then
      Some(UnexpectedPriceCap)
    else if order.action.Sell? && order.orderType.MarketOrder? && !immediate then
      Some(MarketSellResting)
    else if order.postOnly && order.orderType.MarketOrder? then
      Some(PostOnlyMarketOrder)
    else if order.postOnly && immediate then
      Some(PostOnlyImmediate)
    else if order.expiresAfterMs.Some? && immediate then
      Some(ExpiringImmediate)
    else None
  }

  predicate ValidPlace(order: PlaceOrder) {
    && ValidIdentifier(order.marketId)
    && 0 < order.quantity <= I64_MAX
    && ValidProviderClientId(order.clientId)
    && |order.metadata| <= MAX_COMMAND_METADATA_BYTES
    && ValidOptionalText(order.signalType, MAX_SHORT_TEXT_BYTES)
    && ValidOptionalText(order.signalMetadata, MAX_COMMAND_METADATA_BYTES)
    && (order.expiresAfterMs.Some? ==> order.expiresAfterMs.value > 0)
    && PlaceOrderTermsError(order).None?
  }

  /** The part of a path before its query. */
  function Route(path: string): string {
    if path == [] || path[0] == '?' then [] else [path[0]] + Route(path[1..])
  }

  /** Whether the segment that starts at `i` is `.` or `..`. */
  predicate DotSegmentAt(route: string, i: nat) {
    || (i < |route| && route[i] == '.' && (i + 1 == |route| || route[i + 1] == '/'))
    || (i + 1 < |route| && route[i] == '.' && route[i + 1] == '.' && (i + 2 == |route| || route[i + 2] == '/'))
  }

  predicate EncodedDotAt(route: string, i: nat) {
    i + 2 < |route| && route[i] == '%' && route[i + 1] == '2' && (route[i + 2] == 'e' || route[i + 2] == 'E')
  }

  predicate ValidHttpPath(path: string) {
    var route := Route(path);
    && 0 < |path| <= MAX_HTTP_PATH_BYTES && path[0] == '/' && (|path| > 1 ==> path[1] != '/')
    && (forall i :: 0 <= i < |path| ==> '!' <= path[i] <= '~' && path[i] != '\\' && path[i] != '#')
    && (forall i :: 0 <= i < |route| ==> !EncodedDotAt(route, i))
    && (forall i :: 0 <= i < |route| && route[i] == '/' ==> !DotSegmentAt(route, i + 1))
  }

  function TotalLength(args: seq<string>): nat {
    if args == [] then 0 else TotalLength(args[..|args| - 1]) + |args[|args| - 1]|
  }

  predicate ValidExternalRequest(kind: RequestKind, target: string, payload: string, timeoutMs: nat) {
    && ValidIdentifier(target) && ':' !in target
    && 0 < timeoutMs <= MAX_EXTERNAL_REQUEST_TIMEOUT_MS
    && match kind
       case Http(path) =>
         ValidHttpPath(path) && |path| + |payload| <= MAX_EXTERNAL_REQUEST_BYTES
       case Program(args) =>
         && |args| <= MAX_COMMAND_REQUEST_ARGS
         && (forall i :: 0 <= i < |args| ==> '\0' !in args[i])
         && TotalLength(args) + |payload| <= MAX_EXTERNAL_REQUEST_BYTES
  }

  function GrantPrefix(kind: RequestKind): string {
    match kind
    case Http(_) => "http:"
    case Program(_) => "command:"
  }

  predicate GrantsExternalRequest(grants: seq<string>, kind: RequestKind, target: string) {
    GrantPrefix(kind) + target in grants
  }

  /** What validation demands of a command without looking at the others or at the context. */
  predicate ValidCommand(command: Command) {
    && ValidIdentifier(command.Id())
    && match command
       case Place(order) => ValidPlace(order)
       case Cancel(_, ContextOrder(orderId, _)) => ValidIdentifier(orderId)
       case Cancel(_, SameDecision(clientId)) => ValidProviderClientId(clientId)
       case CancelAll(_) => true
       case ScheduleTimer(_, key, _, generation, semantics) =>
         ValidIdentifier(key) && ValidIdentifier(generation) && |semantics| <= MAX_TIMER_SEMANTICS_BYTES
       case CancelTimer(_, key, generation) => ValidIdentifier(key) && ValidIdentifier(generation)
       case Stop(_, reason) => 0 < |reason| <= MAX_REASON_BYTES
       case ExternalRequest(_, kind, target, payload, timeoutMs) =>
         ValidExternalRequest(kind, target, payload, timeoutMs)
  }
}
