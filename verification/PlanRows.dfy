/**
 The rows an account plan needs for a decision: counted command by command, in closed form, and at the
 open-order caps, where a cancel-all may or may not fit.
 */
module PlanRows {
  import opened Arithmetic
  import opened Wire

  /** An order a cancel-all would cancel: an open context order or one of the decision's places. */
  datatype OrderKey = ContextKey(orderId: string) | OwnKey(clientId: string)

  /** The counter's value. */
  datatype Rows = Rows(rows: nat, brokerCommands: nat, acknowledgements: bool, mode: DeploymentMode,
      active: set<OrderKey>) {

    /** The plan rows counted; a decision that sends nothing to the Broker needs none. */
    function Total(): nat {
      if brokerCommands == 0 then 0
      else DECISION_PLAN_ROWS + rows + if acknowledgements then ACKNOWLEDGEMENT_PLAN_ROWS else 0
    }

    ghost function ContextKeys(): set<OrderKey> {
      set k | k in active && k.ContextKey?
    }

    /** Rows of a cancel-all over the active orders. */
    ghost function CancelAllRows(): nat {
      match mode
      case Paper => CANCEL_ALL_ORDERS_PLAN_ROWS + |active|
      case Live =>
        ActiveWithin();
        Max(CANCEL_ORDER_PLAN_ROWS * |ContextKeys()| + COLLAPSED_PLACE_PLAN_ROWS * (|active| - |ContextKeys()|),
            REFUSED_COMMAND_PLAN_ROWS)
    }

    lemma ActiveWithin()
      ensures |ContextKeys()| <= |active|
    {
      SubsetSize(ContextKeys(), active);
    }

    /** The counter after one more command. */
    ghost function Plus(command: Command, orders: seq<BrokerOrder>): Rows {
      if !command.IsBroker() then this
      else
        var next := this.(brokerCommands := brokerCommands + 1);
        match command
        case Place(order) =>
          next.(active := active + {OwnKey(order.clientId)}, rows := rows + PLACE_ORDER_PLAN_ROWS)
        case Cancel(_, target) => next.(rows := rows + CancelRows(target, orders))
        case _ => next.(active := {}, rows := rows + CancelAllRows())
    }
  }

  /** What each command costs: five rows a place, three a cancel but one of an order already final, and for a
      cancel-all three and one for each active order (paper), or three for each context order and one for
      each own place, at least one (live). A decision that sends nothing to the Broker needs no rows; any
      other four more, and one if it acknowledges. */
  lemma CommandsCost(r: Rows, command: Command, orders: seq<BrokerOrder>)
    ensures r.Plus(command, orders).rows - r.rows ==
      match command
      case Place(_) => 5
      case Cancel(_, SameDecision(_)) => 3
      case Cancel(_, ContextOrder(orderId, _)) =>
        if exists i :: 0 <= i < |orders| && orders[i].orderId == orderId && orders[i].status.Terminal() then 1 else 3
      case CancelAll(_) =>
        var contexts := |set k | k in r.active && k.ContextKey?|;
        if r.mode.Paper? then 3 + |r.active|
        else if r.active == {} then 1
        else 3 * contexts + (|r.active| - contexts)
      case _ => 0
    ensures r.Total() == if r.brokerCommands == 0 then 0 else 4 + r.rows + if r.acknowledgements then 1 else 0
  {
    r.ActiveWithin();
    if r.active == {} {
      assert r.ContextKeys() == {};
    } else {
      assert |r.active| > 0;
    }
  }

  lemma SubsetSize<T>(a: set<T>, b: set<T>)
    requires a <= b
    ensures |a| <= |b|
  {
    if a != {} {
      var x :| x in a;
      SubsetSize(a - {x}, b - {x});
    }
  }

  /** A cancel of an order already final is refused; every other cancel is admitted. */
  function CancelRows(target: CancelTarget, orders: seq<BrokerOrder>): nat {
    if target.ContextOrder? && exists i ::
        0 <= i < |orders| && orders[i].orderId == target.orderId && orders[i].status.Terminal()
    then REFUSED_COMMAND_PLAN_ROWS
    else CANCEL_ORDER_PLAN_ROWS
  }

  function OpenKeys(orders: seq<BrokerOrder>): set<OrderKey> {
    set i | 0 <= i < |orders| && !orders[i].status.Terminal() :: ContextKey(orders[i].orderId)
  }

  /** The counter before the first command. */
  function EmptyRows(orders: seq<BrokerOrder>, acknowledgements: bool, mode: DeploymentMode): Rows {
    Rows(0, 0, acknowledgements, mode, OpenKeys(orders))
  }

  /** The counter after `commands`, in issue order. */
  ghost function CountRows(start: Rows, commands: seq<Command>, orders: seq<BrokerOrder>): Rows {
    if commands == [] then start
    else CountRows(start, commands[..|commands| - 1], orders).Plus(commands[|commands| - 1], orders)
  }

  // ---------------------------------------------------------------------------------------
  // The counter in place
  // ---------------------------------------------------------------------------------------

  class DecisionPlanRows {
    var rows: nat
    var brokerCommands: nat
    var acknowledgements: bool
    var mode: DeploymentMode
    var active: set<OrderKey>

    ghost function Value(): Rows
      reads this
    {
      Rows(rows, brokerCommands, acknowledgements, mode, active)
    }

    constructor (orders: seq<BrokerOrder>, acknowledgements: bool, mode: DeploymentMode)
      ensures Value() == EmptyRows(orders, acknowledgements, mode)
    {
      this.rows := 0;
      this.brokerCommands := 0;
      this.acknowledgements := acknowledgements;
      this.mode := mode;
      this.active := OpenKeys(orders);
    }

    constructor Clone(other: DecisionPlanRows)
      ensures Value() == other.Value()
    {
      rows := other.rows;
      brokerCommands := other.brokerCommands;
      acknowledgements := other.acknowledgements;
      mode := other.mode;
      active := other.active;
    }

    method Total() returns (total: nat)
      ensures total == Value().Total()
    {
      if brokerCommands == 0 {
        return 0;
      }
      return DECISION_PLAN_ROWS + rows + if acknowledgements then ACKNOWLEDGEMENT_PLAN_ROWS else 0;
    }

    /** A copy of the counter with one command more; this one stays as it is. */
    method With(command: Command, orders: seq<BrokerOrder>) returns (next: DecisionPlanRows)
      ensures fresh(next) && next.Value() == Value().Plus(command, orders)
    {
      next := new DecisionPlanRows.Clone(this);
      next.Add(command, orders);
    }

    method Add(command: Command, orders: seq<BrokerOrder>)
      modifies this
      ensures Value() == old(Value()).Plus(command, orders)
    {
      var more: nat;
      match command {
        case Place(order) =>
          active := active + {OwnKey(order.clientId)};
          more := PLACE_ORDER_PLAN_ROWS;
        case Cancel(_, target) =>
          more := CancelRows(target, orders);
        case CancelAll(_) =>
          match mode {
            case Paper =>
              more := CANCEL_ALL_ORDERS_PLAN_ROWS + |active|;
            case Live =>
              Value().ActiveWithin();
              var contextOrders := |set k | k in active && k.ContextKey?|;
              var ownPlaces := |active| - contextOrders;
              more := Max(CANCEL_ORDER_PLAN_ROWS * contextOrders + COLLAPSED_PLACE_PLAN_ROWS * ownPlaces,
                          REFUSED_COMMAND_PLAN_ROWS);
          }
          active := {};
        case ScheduleTimer(_, _, _, _, _) => return;
        case CancelTimer(_, _, _) => return;
        case Stop(_, _) => return;
        case ExternalRequest(_, _, _, _, _) => return;
      }
      brokerCommands := brokerCommands + 1;
      rows := rows + more;
    }
  }

  // ---------------------------------------------------------------------------------------
  // Closed form
  // ---------------------------------------------------------------------------------------

  function Places(commands: seq<Command>): nat {
    if commands == [] then 0
    else Places(commands[..|commands| - 1]) + if commands[|commands| - 1].Place? then 1 else 0
  }

  function CancelAlls(commands: seq<Command>): nat {
    if commands == [] then 0
    else CancelAlls(commands[..|commands| - 1]) + if commands[|commands| - 1].CancelAll? then 1 else 0
  }

  /** Rows of the cancels of one order. */
  function SingleCancelRows(commands: seq<Command>, orders: seq<BrokerOrder>): nat {
    if commands == [] then 0
    else
      var last := commands[|commands| - 1];
      SingleCancelRows(commands[..|commands| - 1], orders) + if last.Cancel? then CancelRows(last.target, orders) else 0
  }

  /** Places issued before the last cancel-all: those some cancel-all covers. */
  function Covered(commands: seq<Command>): nat {
    if commands == [] then 0
    else if commands[|commands| - 1].CancelAll? then Places(commands[..|commands| - 1])
    else Covered(commands[..|commands| - 1])
  }

  /** Cancel-alls that found no order to cancel. */
  function IdleCancelAlls(commands: seq<Command>, open: nat): nat {
    if commands == [] then 0
    else
      var earlier := commands[..|commands| - 1];
      var idle := (open == 0 || CancelAlls(earlier) > 0) && Covered(earlier) == Places(earlier);
      IdleCancelAlls(earlier, open) + if commands[|commands| - 1].CancelAll? && idle then 1 else 0
  }

  /** The rows without a counter: each place and cancel once, and each open order and own place
      charged by at most one cancel-all. */
  function ClosedRows(mode: DeploymentMode, commands: seq<Command>, orders: seq<BrokerOrder>, open: nat): nat {
    var single := 5 * Places(commands) + SingleCancelRows(commands, orders);
    var swept := if CancelAlls(commands) == 0 then 0 else open;
    match mode
    case Paper => single + 3 * CancelAlls(commands) + swept + Covered(commands)
    case Live => single + 3 * swept + Covered(commands) + IdleCancelAlls(commands, open)
  }

  ghost predicate DistinctClients(commands: seq<Command>) {
    forall i, j :: 0 <= i < j < |commands| && commands[i].Place? && commands[j].Place? ==>
      commands[i].order.clientId != commands[j].order.clientId
  }

  ghost predicate DistinctOrders(orders: seq<BrokerOrder>) {
    forall i, j :: 0 <= i < j < |orders| ==> orders[i].orderId != orders[j].orderId
  }

  /** Own places no cancel-all covers yet. */
  ghost function Pending(commands: seq<Command>): set<OrderKey> {
    if commands == [] then {}
    else
      match commands[|commands| - 1]
      case Place(order) => Pending(commands[..|commands| - 1]) + {OwnKey(order.clientId)}
      case CancelAll(_) => {}
      case _ => Pending(commands[..|commands| - 1])
  }

  lemma {:induction false} PendingCount(commands: seq<Command>)
    requires DistinctClients(commands)
    ensures Covered(commands) <= Places(commands)
    ensures |Pending(commands)| == Places(commands) - Covered(commands)
    ensures forall k :: k in Pending(commands) ==>
      k.OwnKey? && exists i :: 0 <= i < |commands| && commands[i].Place? && commands[i].order.clientId == k.clientId
  {
    if commands != [] {
      PendingCount(commands[..|commands| - 1]);
    }
  }

  lemma {:induction false} OpenKeysCount(orders: seq<BrokerOrder>)
    requires DistinctOrders(orders)
    ensures |OpenKeys(orders)| == OpenOrders(orders)
  {
    if orders != [] {
      var earlier, last := orders[..|orders| - 1], orders[|orders| - 1];
      OpenKeysCount(earlier);
      OneOrderMore(earlier, last);
      assert orders == earlier + [last];
      hide OpenKeys;
    }
  }

  lemma OneOrderMore(earlier: seq<BrokerOrder>, last: BrokerOrder)
    requires DistinctOrders(earlier + [last])
    ensures OpenKeys(earlier + [last])
         == OpenKeys(earlier) + if last.status.Terminal() then {} else {ContextKey(last.orderId)}
    ensures ContextKey(last.orderId) !in OpenKeys(earlier)
  {
    var orders := earlier + [last];
    assert forall i :: 0 <= i < |earlier| ==> orders[i] == earlier[i];
    assert orders[|earlier|] == last;
  }

  /** The keys a cancel-all would cancel after `commands`, and how many are context orders. */
  ghost predicate ActiveIs(r: Rows, commands: seq<Command>, orders: seq<BrokerOrder>) {
    r.active == (if CancelAlls(commands) == 0 then OpenKeys(orders) else {}) + Pending(commands)
  }

  lemma SweepRows(r: Rows, commands: seq<Command>, orders: seq<BrokerOrder>)
    requires DistinctClients(commands) && DistinctOrders(orders) && ActiveIs(r, commands, orders)
    ensures Covered(commands) <= Places(commands)
    ensures var contexts := if CancelAlls(commands) == 0 then OpenOrders(orders) else 0;
            var own := Places(commands) - Covered(commands);
            r.CancelAllRows() == match r.mode
                                 case Paper => 3 + contexts + own
                                 case Live => Max(3 * contexts + own, 1)
  {
    hide OpenKeys, Pending, Places, Covered, CancelAlls, OpenOrders, DistinctClients, DistinctOrders;
    PendingCount(commands);
    OpenKeysCount(orders);
    OpenKeysAreContextKeys(orders);
    var contextKeys := if CancelAlls(commands) == 0 then OpenKeys(orders) else {};
    SplitKeys(r, contextKeys, Pending(commands));
  }

  lemma OpenKeysAreContextKeys(orders: seq<BrokerOrder>)
    ensures forall k :: k in OpenKeys(orders) ==> k.ContextKey?
  {
  }

  lemma SplitKeys(r: Rows, contextKeys: set<OrderKey>, ownKeys: set<OrderKey>)
    requires r.active == contextKeys + ownKeys
    requires (forall k :: k in contextKeys ==> k.ContextKey?) && (forall k :: k in ownKeys ==> k.OwnKey?)
    ensures r.ContextKeys() == contextKeys && |r.active| == |contextKeys| + |ownKeys|
  {
    assert contextKeys !! ownKeys;
  }

  /** The incremental counter computes the closed form. */
  lemma {:induction false} CounterIsClosedForm(
      commands: seq<Command>, orders: seq<BrokerOrder>, acknowledgements: bool, mode: DeploymentMode)
    requires DistinctClients(commands) && DistinctOrders(orders)
    ensures var r := CountRows(EmptyRows(orders, acknowledgements, mode), commands, orders);
      && r.rows == ClosedRows(mode, commands, orders, OpenOrders(orders))
      && r.acknowledgements == acknowledgements && r.mode == mode
      && ActiveIs(r, commands, orders)
  {
    if commands != [] {
      hide Rows.Plus, ClosedRows, ActiveIs;
      var earlier, last := commands[..|commands| - 1], commands[|commands| - 1];
      assert commands == earlier + [last];
      CounterIsClosedForm(earlier, orders, acknowledgements, mode);
      var before := CountRows(EmptyRows(orders, acknowledgements, mode), earlier, orders);
      PlusKeepsSettings(before, last, orders);
      if last.CancelAll? {
        CancelAllStep(before, earlier, last, orders);
      } else {
        SingleStep(before, commands, orders);
      }
    }
  }

  lemma PlusKeepsSettings(r: Rows, command: Command, orders: seq<BrokerOrder>)
    ensures r.Plus(command, orders).mode == r.mode
    ensures r.Plus(command, orders).acknowledgements == r.acknowledgements
  {
  }

  lemma CancelAllStep(before: Rows, earlier: seq<Command>, last: Command, orders: seq<BrokerOrder>)
    requires last.CancelAll? && DistinctClients(earlier) && DistinctOrders(orders)
    requires before.rows == ClosedRows(before.mode, earlier, orders, OpenOrders(orders))
    requires ActiveIs(before, earlier, orders)
    ensures before.Plus(last, orders).rows == ClosedRows(before.mode, earlier + [last], orders, OpenOrders(orders))
    ensures ActiveIs(before.Plus(last, orders), earlier + [last], orders)
  {
    hide Pending, OpenKeys, OpenOrders, Rows.CancelAllRows;
    var commands := earlier + [last];
    assert commands[..|commands| - 1] == earlier;
    PendingAfterCancelAll(earlier, last);
    CoveredWithin(earlier);
    SweepRows(before, earlier, orders);
  }

  lemma PendingAfterCancelAll(earlier: seq<Command>, last: Command)
    requires last.CancelAll?
    ensures Pending(earlier + [last]) == {}
  {
  }

  lemma SingleStep(before: Rows, commands: seq<Command>, orders: seq<BrokerOrder>)
    requires commands != [] && !commands[|commands| - 1].CancelAll?
    requires before.rows == ClosedRows(before.mode, commands[..|commands| - 1], orders, OpenOrders(orders))
    requires ActiveIs(before, commands[..|commands| - 1], orders)
    ensures var last := commands[|commands| - 1];
      && before.Plus(last, orders).rows == ClosedRows(before.mode, commands, orders, OpenOrders(orders))
      && ActiveIs(before.Plus(last, orders), commands, orders)
  {
    hide OpenKeys, OpenOrders;
  }

  lemma {:induction false} CoveredWithin(commands: seq<Command>)
    ensures Covered(commands) <= Places(commands)
    ensures CancelAlls(commands) == 0 ==> Covered(commands) == 0
  {
    if commands != [] {
      CoveredWithin(commands[..|commands| - 1]);
    }
  }

  // ---------------------------------------------------------------------------------------
  // Monotonicity
  // ---------------------------------------------------------------------------------------

  /** A command never lowers the total. */
  lemma TotalIsMonotone(r: Rows, command: Command, orders: seq<BrokerOrder>)
    ensures r.Total() <= r.Plus(command, orders).Total()
  {
    hide Rows.CancelAllRows, CancelRows;
  }

  /** The result's total without acknowledgements is at most the total with them. */
  lemma {:induction false} AcknowledgementsOnlyAdd(
      commands: seq<Command>, orders: seq<BrokerOrder>, mode: DeploymentMode)
    ensures CountRows(EmptyRows(orders, false, mode), commands, orders)
         == CountRows(EmptyRows(orders, true, mode), commands, orders).(acknowledgements := false)
  {
    if commands != [] {
      AcknowledgementsOnlyAdd(commands[..|commands| - 1], orders, mode);
      SweepIgnoresAcknowledgements(CountRows(EmptyRows(orders, true, mode), commands[..|commands| - 1], orders));
    }
  }

  lemma SweepIgnoresAcknowledgements(r: Rows)
    ensures r.(acknowledgements := false).CancelAllRows() == r.CancelAllRows()
  {
    assert r.(acknowledgements := false).ContextKeys() == r.ContextKeys();
  }

  lemma {:induction false} CountsAreAdditive(earlier: seq<Command>, unit: seq<Command>, orders: seq<BrokerOrder>)
    ensures Places(earlier + unit) == Places(earlier) + Places(unit)
    ensures CancelAlls(earlier + unit) == CancelAlls(earlier) + CancelAlls(unit)
    ensures SingleCancelRows(earlier + unit, orders)
        == SingleCancelRows(earlier, orders) + SingleCancelRows(unit, orders)
    ensures Covered(earlier + unit) == if CancelAlls(unit) == 0 then Covered(earlier)
        else Places(earlier) + Covered(unit)
  {
    if unit == [] {
      assert earlier + unit == earlier;
    } else {
      var most, all := unit[..|unit| - 1], earlier + unit;
      assert all[..|all| - 1] == earlier + most && all[|all| - 1] == unit[|unit| - 1];
      CountsAreAdditive(earlier, most, orders);
    }
  }

  /** Earlier places can make at most one of the unit's cancel-alls find something to cancel. */
  lemma {:induction false} IdleAfterEarlier(earlier: seq<Command>, unit: seq<Command>, open: nat)
    ensures IdleCancelAlls(unit, open)
         <= IdleCancelAlls(earlier + unit, open) + if Places(earlier) > 0 then 1 else 0
    ensures CancelAlls(unit) == 0 ==> IdleCancelAlls(unit, open) == 0
  {
    if unit != [] {
      var most, all := unit[..|unit| - 1], earlier + unit;
      assert all[..|all| - 1] == earlier + most && all[|all| - 1] == unit[|unit| - 1];
      IdleAfterEarlier(earlier, most, open);
      CountsAreAdditive(earlier, most, []);
      CoveredWithin(earlier);
      CoveredWithin(most);
    }
  }

  lemma {:induction false} BrokerCommandsCounted(
      start: Rows, earlier: seq<Command>, unit: seq<Command>, orders: seq<BrokerOrder>)
    ensures CountRows(start, unit, orders).brokerCommands <= CountRows(start, earlier + unit, orders).brokerCommands
  {
    hide Rows.CancelAllRows;
    if unit == [] {
      assert earlier + unit == earlier;
      BrokerCommandsGrow(start, earlier, orders);
    } else {
      var most, all := unit[..|unit| - 1], earlier + unit;
      assert all[..|all| - 1] == earlier + most && all[|all| - 1] == unit[|unit| - 1];
      BrokerCommandsCounted(start, earlier, most, orders);
    }
  }

  lemma {:induction false} BrokerCommandsGrow(start: Rows, commands: seq<Command>, orders: seq<BrokerOrder>)
    ensures start.brokerCommands <= CountRows(start, commands, orders).brokerCommands
  {
    hide Rows.CancelAllRows;
    if commands != [] {
      BrokerCommandsGrow(start, commands[..|commands| - 1], orders);
    }
  }

  /** Counting a delivery unit's commands alone never exceeds counting them after earlier ones: a
      refusal that the unit alone would also meet cannot be blamed on the earlier commands. */
  lemma UnitAloneNeedsNoMore(
      earlier: seq<Command>, unit: seq<Command>, orders: seq<BrokerOrder>, acknowledgements: bool, mode: DeploymentMode)
    requires DistinctClients(earlier + unit) && DistinctOrders(orders)
    ensures CountRows(EmptyRows(orders, acknowledgements, mode), unit, orders).Total()
         <= CountRows(EmptyRows(orders, acknowledgements, mode), earlier + unit, orders).Total()
  {
    assert DistinctClients(unit) by { ClientsOfSuffix(earlier, unit); }
    CounterIsClosedForm(unit, orders, acknowledgements, mode);
    CounterIsClosedForm(earlier + unit, orders, acknowledgements, mode);
    CountsAreAdditive(earlier, unit, orders);
    IdleAfterEarlier(earlier, unit, OpenOrders(orders));
    CoveredWithin(earlier);
    CoveredWithin(unit);
    BrokerCommandsCounted(EmptyRows(orders, acknowledgements, mode), earlier, unit, orders);
    hide CountRows, Places, CancelAlls, SingleCancelRows, Covered, IdleCancelAlls, OpenOrders;
  }

  lemma ClientsOfSuffix(earlier: seq<Command>, unit: seq<Command>)
    requires DistinctClients(earlier + unit)
    ensures DistinctClients(unit)
  {
    var all := earlier + unit;
    assert forall i :: 0 <= i < |unit| ==> unit[i] == all[|earlier| + i];
  }

  // ---------------------------------------------------------------------------------------
  // Cancel-all under the open-order caps
  // ---------------------------------------------------------------------------------------

  /** Whether rows are left for a cancel-all in a decision that placed `own` orders before it and did
      nothing else, with `open` orders in the context. */
  predicate CancelAllFits(mode: DeploymentMode, acknowledgements: bool, open: nat, own: nat) {
    var sweep := match mode
                 case Paper => 3 + open + own
                 case Live => Max(3 * open + own, 1);
    DECISION_PLAN_ROWS + (if acknowledgements then ACKNOWLEDGEMENT_PLAN_ROWS else 0) + 5 * own + sweep
      <= MAX_DECISION_PLAN_ROWS
  }

  /** `CancelAllFits` is the counter's verdict. */
  lemma CancelAllFitsIsTheCount(
      places: seq<Command>, last: Command, orders: seq<BrokerOrder>, acknowledgements: bool, mode: DeploymentMode)
    requires (forall i :: 0 <= i < |places| ==> places[i].Place?) && last.CancelAll?
    requires DistinctClients(places) && DistinctOrders(orders)
    ensures CancelAllFits(mode, acknowledgements, OpenOrders(orders), |places|)
       <==> CountRows(EmptyRows(orders, acknowledgements, mode), places, orders).Plus(last, orders).Total()
              <= MAX_DECISION_PLAN_ROWS
  {
    var before := CountRows(EmptyRows(orders, acknowledgements, mode), places, orders);
    CounterIsClosedForm(places, orders, acknowledgements, mode);
    OnlyPlaces(places, orders, OpenOrders(orders));
    SweepRows(before, places, orders);
    hide CountRows, Rows.CancelAllRows, OpenOrders;
  }

  lemma {:induction false} OnlyPlaces(places: seq<Command>, orders: seq<BrokerOrder>, open: nat)
    requires forall i :: 0 <= i < |places| ==> places[i].Place?
    ensures Places(places) == |places| && CancelAlls(places) == 0 && SingleCancelRows(places, orders) == 0
    ensures Covered(places) == 0 && IdleCancelAlls(places, open) == 0
  {
    if places != [] {
      OnlyPlaces(places[..|places| - 1], orders, open);
    }
  }

  /** The most own places a decision may carry and still be sure of a cancel-all at the cap. */
  function SafePlaces(mode: DeploymentMode): nat {
    match mode
    case Paper => 62
    case Live => 1
  }

  /** At the cap a cancel-all fits, however the orders divide, exactly while the decision's own places
      are at most `SafePlaces`; with none of its own it always does. */
  lemma CapGuaranteesCancelAll(mode: DeploymentMode, own: nat)
    requires own <= MaxOpenOrders(mode)
    ensures (forall open: nat :: open + own <= MaxOpenOrders(mode) ==> CancelAllFits(mode, true, open, own))
       <==> own <= SafePlaces(mode)
  {
    if own > SafePlaces(mode) {
      var open: nat := MaxOpenOrders(mode) - own;
      assert open + own <= MaxOpenOrders(mode) && !CancelAllFits(mode, true, open, own);
    }
  }
}
