/**
 The context handed to a kernel for one decision. Its fields are caches; the invariant is that each
 is a replay of the commands issued so far.
 */
module Host {
  import opened Arithmetic
  import opened Wrappers
  import opened Fees
  import opened Reservation
  import opened Wire
  import opened PlanRows
  import opened Admission

  /** Where a delivery unit starts in the lists of commands and of entries. */
  datatype UpdateStart = UpdateStart(commands: nat, entries: nat)

  /** A copy of the host's mutable fields, to go back to. */
  datatype SavedDecision = SavedDecision(
    finances: Finances,
    provisional: seq<ProvisionalOrder>,
    cancellationRequested: set<string>,
    commands: seq<Command>,
    runner: seq<RunnerEntry>,
    rows: DecisionPlanRows,
    timerKeys: set<string>,
    outputsLen: nat)
  {
    /** The saved caches replay the saved commands. */
    ghost predicate Valid(ctx: Context)
      reads rows
    {
      && finances == FinancesAfter(ctx, commands)
      && provisional == Provisional(ctx, commands)
      && cancellationRequested == CancellationRequested(ctx, commands)
      && runner == Runner(ctx, commands)
      && rows.Value() == RowsAfter(ctx, commands)
      && timerKeys == TimerKeys(commands)
    }
  }

  // ---------------------------------------------------------------------------------------
  // Replays of one more command
  // ---------------------------------------------------------------------------------------

  lemma ReplayOneMore(ctx: Context, commands: seq<Command>, command: Command)
    ensures var next := commands + [command];
      && RowsAfter(ctx, next) == RowsAfter(ctx, commands).Plus(command, ctx.orders)
      && Runner(ctx, next) == Runner(ctx, commands)
          + (if command.IsBroker() then [EntryFor(ctx, Provisional(ctx, commands), command)] else [])
      && TimerKeys(next) == TimerKeys(commands) + (if command.IsTimer() then {command.key} else {})
      && TotalCommitted(ctx, next) == TotalCommitted(ctx, commands)
          + (if command.Place? then CommittedCash(ctx, command.order) else 0)
  {
    hide Rows.Plus, EntryFor, Provisional, CommittedCash;
    var next := commands + [command];
    assert next[..|next| - 1] == commands && next[|next| - 1] == command;
    assert forall j :: 0 <= j < |commands| ==> next[j] == commands[j];
  }

  lemma ReplayViewOneMore(ctx: Context, commands: seq<Command>, command: Command)
    ensures Provisional(ctx, commands + [command]) == ProvisionalAfter(ctx, Provisional(ctx, commands), command)
    ensures CancellationRequested(ctx, commands + [command])
         == CancellationAfter(ctx, CancellationRequested(ctx, commands), command)
  {
    hide ProvisionalAfter, CancellationAfter;
    var next := commands + [command];
    assert next[..|next| - 1] == commands && next[|next| - 1] == command;
  }

  lemma {:induction false} OwnEntriesOfPrefix(ctx: Context, commands: seq<Command>, n: nat)
    requires n <= |commands|
    ensures OwnEntries(ctx, commands[..n]) <= OwnEntries(ctx, commands)
  {
    hide EntryFor, Provisional;
    if n < |commands| {
      assert commands[..|commands| - 1][..n] == commands[..n];
      OwnEntriesOfPrefix(ctx, commands[..|commands| - 1], n);
    } else {
      assert commands[..n] == commands;
    }
  }

  // ---------------------------------------------------------------------------------------
  // The host
  // ---------------------------------------------------------------------------------------

  class KernelHost {
    const ctx: Context
    var finances: Finances
    var provisional: seq<ProvisionalOrder>
    var cancellationRequested: set<string>
    var commands: seq<Command>
    var runner: seq<RunnerEntry>
    var rows: DecisionPlanRows
    const emptyRows: DecisionPlanRows
    var timerKeys: set<string>
    var outputs: seq<Output>
    var updateStart: Option<UpdateStart>
    var deferrable: Option<Message>

    ghost predicate Valid()
      reads this, rows, emptyRows
    {
      && ctx.Valid()
      && emptyRows.Value() == StartRows(ctx)
      && Saved().Valid(ctx)
      && (updateStart.Some? ==> ValidStart(updateStart.value))
    }

    ghost predicate ValidStart(start: UpdateStart)
      reads this
    {
      start.commands <= |commands| && start.entries == |ctx.runner| + |OwnEntries(ctx, commands[..start.commands])|
    }

    ghost function Saved(): SavedDecision
      reads this
    {
      SavedDecision(finances, provisional, cancellationRequested, commands, runner, rows, timerKeys, |outputs|)
    }

    /** The host's state without its caches. */
    ghost function State(): HostState
      reads this
    {
      HostState(commands, outputs, if updateStart.Some? then Some(updateStart.value.commands) else None, deferrable)
    }

    constructor (ctx: Context)
      requires ctx.Valid()
      ensures Valid() && this.ctx == ctx && State() == HostState([], [], None, None)
    {
      this.ctx := ctx;
      finances := ctx.finances;
      provisional := [];
      cancellationRequested := {};
      commands := [];
      runner := ctx.runner;
      rows := new DecisionPlanRows(ctx.orders, ctx.Acknowledgeable() != [], ctx.mode);
      emptyRows := new DecisionPlanRows(ctx.orders, ctx.Acknowledgeable() != [], ctx.mode);
      timerKeys := {};
      outputs := [];
      updateStart := None;
      deferrable := None;
      new;
      assert Runner(ctx, []) == ctx.runner;
    }

    // -------------------------------------------------------------------------------------
    // Rollback
    // -------------------------------------------------------------------------------------

    method Save() returns (saved: SavedDecision)
      requires Valid()
      ensures fresh(saved.rows) && saved.Valid(ctx)
      ensures saved.commands == commands && saved.outputsLen == |outputs|
    {
      var copy := new DecisionPlanRows.Clone(rows);
      saved := SavedDecision(finances, provisional, cancellationRequested, commands, runner, copy, timerKeys,
          |outputs|);
    }

    /** Goes back to a saved decision: the commands are the saved ones again, and every cache their
        replay. Telemetry and warnings since then describe work that never happened. */
    method Restore(saved: SavedDecision)
      requires Valid() && saved.Valid(ctx) && updateStart.None?
      modifies this
      ensures Valid()
      ensures State() == old(State()).(commands := saved.commands,
                                       outputs := RolledBackOutputs(old(outputs), saved.outputsLen))
    {
      hide Provisional, CancellationRequested, TimerKeys, RowsAfter, FinancesAfter, Runner, OwnEntries,
        RolledBackOutputs, Context.Valid, StartRows;
      finances := saved.finances;
      provisional := saved.provisional;
      cancellationRequested := saved.cancellationRequested;
      commands := saved.commands;
      runner := saved.runner;
      rows := saved.rows;
      timerKeys := saved.timerKeys;
      outputs := RolledBackOutputs(outputs, saved.outputsLen);
    }

    /** Opens an order update: of the unit under way if there is one, else of a new unit. */
    method BeginUpdate(unit: Option<UpdateStart>) returns (start: Option<UpdateStart>)
      requires Valid()
      requires unit.Some? ==> ValidStart(unit.value)
      modifies this
      ensures Valid() && start == updateStart && start.Some? && ValidStart(start.value)
          && (unit.Some? ==> start == unit)
      ensures unit.None? ==> start.value.commands == |commands|
      ensures State() == old(State()).(unit := Some(start.value.commands), deferrable := None)
    {
      assert commands[..|commands|] == commands;
      start := if unit.Some? then unit else Some(UpdateStart(|commands|, |runner|));
      updateStart := start;
      deferrable := None;
    }

    /** Closes the update and hands out the refusal that would make its failure a deferral. */
    method EndUpdate() returns (refusal: Option<Message>)
      requires Valid()
      modifies this
      ensures Valid() && refusal == old(deferrable)
      ensures State() == old(State()).(unit := None, deferrable := None)
    {
      updateStart := None;
      refusal := deferrable;
      deferrable := None;
    }

    /** Adds an output the runner itself reports. */
    method Report(output: Output)
      requires Valid()
      modifies this`outputs
      ensures Valid() && State() == old(State()).(outputs := old(outputs) + [output])
    {
      outputs := outputs + [output];
    }

    // -------------------------------------------------------------------------------------
    // Bounds
    // -------------------------------------------------------------------------------------

    /** Records a refusal for room: deferrable when earlier updates issued something and the call
        would fit the current unit alone. */
    method CapacityError(message: Message, alone: bool) returns (r: Message)
      modifies this`deferrable
      ensures r == message
      ensures deferrable == if IssuedBefore(State().unit) && alone then Some(message) else None
    {
      var issuedBefore := updateStart.Some? && updateStart.value.commands > 0;
      deferrable := if issuedBefore && alone then Some(message) else None;
      r := message;
    }

    method CheckOrdinal() returns (refusal: Option<Message>)
      requires Valid()
      modifies this`deferrable
      ensures Valid()
      ensures refusal.None? <==> Admission.NextOrdinal(old(State())).None?
      ensures refusal.None? ==> State() == old(State())
      ensures refusal.Some? ==>
        (State(), Refusal(refusal.value)) == Settled(old(State()), Admission.NextOrdinal(old(State())).value)
    {
      if |commands| >= MAX_STRATEGY_COMMANDS {
        var error := CapacityError(CommandsFull, true);
        return Some(error);
      }
      return None;
    }

    /** Refuses a command that, encoded with its entry, would not fit the result any more. */
    method CheckResultBytes(command: Command, entry: Option<RunnerEntry>) returns (refusal: Option<Message>)
      requires Valid()
      modifies this`deferrable
      ensures Valid()
      ensures refusal.None? <==> CheckBytes(ctx, old(State()), command, entry).Admitted?
      ensures refusal.None? ==> State() == old(State())
      ensures refusal.Some? ==>
        (State(), Refusal(refusal.value)) == Settled(old(State()), CheckBytes(ctx, old(State()), command, entry))
    {
      hide Provisional, CancellationRequested, TimerKeys, RowsAfter, FinancesAfter, Context.Valid, StartRows;
      var bytes := ctx.fixedBytes + ctx.sizes.commands(commands) + ctx.sizes.entries(runner)
        + ctx.sizes.command(command) + if entry.Some? then ctx.sizes.entry(entry.value) else 0;
      assert bytes == BytesWith(ctx, commands, command, entry);
      if bytes > RESULT_ENCODED_BUDGET_BYTES {
        var alone := false;
        if updateStart.Some? {
          var start := updateStart.value;
          OwnEntriesOfPrefix(ctx, commands, start.commands);
          assert runner[|ctx.runner|..start.entries] == OwnEntries(ctx, commands[..start.commands]);
          var earlier := SumOfCommands(ctx.sizes, commands[..start.commands])
            + SumOfEntries(ctx.sizes, runner[|ctx.runner|..start.entries]);
          alone := bytes - earlier <= RESULT_ENCODED_BUDGET_BYTES;
        }
        var error := CapacityError(BytesFull, alone);
        return Some(error);
      }
      return None;
    }

    /** What the plan rows of the current unit's commands alone would be with `command` added. */
    method RowsAlone(command: Command, start: UpdateStart) returns (total: nat)
      requires Valid() && ValidStart(start)
      ensures total == RowsAfter(ctx, commands[start.commands..]).Plus(command, ctx.orders).Total()
    {
      hide FinancesAfter, Provisional, CancellationRequested, TimerKeys, Runner, Rows.Plus, Rows.Total, Context.Valid,
        StartRows;
      var alone := new DecisionPlanRows.Clone(emptyRows);
      ghost var unit := commands[start.commands..];
      for i := start.commands to |commands|
        invariant alone.Value() == RowsAfter(ctx, unit[..i - start.commands])
        invariant fresh(alone)
      {
        var k := i - start.commands;
        assert unit[..k + 1][..k] == unit[..k] && unit[..k + 1][k] == commands[i];
        alone.Add(commands[i], ctx.orders);
      }
      assert unit[..|unit|] == unit;
      alone.Add(command, ctx.orders);
      total := alone.Total();
    }

    /** Appends a Broker command, its entry and its plan rows unless bytes, rows or live entries run out,
        in that order. What the kernel sees of its orders is left to the caller. */
    method IssueBrokerCommand(command: Command, entry: RunnerEntry) returns (refusal: Option<Message>)
      requires Valid() && command.IsBroker() && entry == EntryFor(ctx, provisional, command)
      modifies this
      ensures refusal.Some? ==>
        Valid() && (State(), Refusal(refusal.value)) == Settled(old(State()), Issue(ctx, old(State()), command))
      ensures refusal.None? ==>
        && Issue(ctx, old(State()), command) == Admitted(command)
        && commands == old(commands) + [command] && runner == old(runner) + [entry]
        && rows.Value() == RowsAfter(ctx, old(commands)).Plus(command, ctx.orders)
        && finances == old(finances) && provisional == old(provisional)
        && cancellationRequested == old(cancellationRequested) && timerKeys == old(timerKeys)
        && outputs == old(outputs) && updateStart == old(updateStart) && deferrable == old(deferrable)
    {
      hide Provisional, CancellationRequested, TimerKeys, RowsAfter, FinancesAfter, Rows.Plus, Rows.Total, EntryFor,
        BytesWith, EarlierBytes, Context.Valid, StartRows;
      refusal := CheckResultBytes(command, Some(entry));
      if refusal.Some? {
        return;
      }
      var next := rows.With(command, ctx.orders);
      var total := next.Total();
      if total > MAX_DECISION_PLAN_ROWS {
        var alone := false;
        if updateStart.Some? {
          var needed := RowsAlone(command, updateStart.value);
          alone := needed <= MAX_DECISION_PLAN_ROWS;
        }
        var error := CapacityError(RowsFull(total), alone);
        return Some(error);
      }
      if LiveEntries(runner) + ctx.reinstatableLive >= MAX_RUNNER_ENTRIES {
        return Some(RunnerFull);
      }
      rows := next;
      runner := runner + [entry];
      commands := commands + [command];
      return None;
    }

    /** Adds a timer, stop or external request command; the caller records a timer's key. */
    method PushCommand(command: Command) returns (refusal: Option<Message>)
      requires Valid() && !command.IsBroker()
      modifies this`commands, this`deferrable
      ensures refusal.None? <==> CheckBytes(ctx, old(State()), command, None).Admitted?
      ensures refusal.None? ==> commands == old(commands) + [command] && deferrable == old(deferrable)
      ensures refusal.Some? ==>
        Valid() && (State(), Refusal(refusal.value))
            == Settled(old(State()), CheckBytes(ctx, old(State()), command, None))
    {
      hide Provisional, CancellationRequested, TimerKeys, RowsAfter, FinancesAfter, Rows.Plus, BytesWith, EarlierBytes,
        Context.Valid, StartRows;
      refusal := CheckResultBytes(command, None);
      if refusal.None? {
        commands := commands + [command];
      }
    }

    /** A command that is no Broker command changes no cache but the timer keys. */
    lemma {:induction false} OnlyTimerKeys(before: seq<Command>, command: Command)
      requires !command.IsBroker()
      ensures var next := before + [command];
        && FinancesAfter(ctx, next) == FinancesAfter(ctx, before)
        && Provisional(ctx, next) == Provisional(ctx, before)
        && CancellationRequested(ctx, next) == CancellationRequested(ctx, before)
        && Runner(ctx, next) == Runner(ctx, before)
        && RowsAfter(ctx, next) == RowsAfter(ctx, before)
        && TimerKeys(next) == TimerKeys(before) + if command.IsTimer() then {command.key} else {}
      ensures forall k :: 0 <= k <= |before| ==> (before + [command])[..k] == before[..k]
    {
      hide Provisional, CancellationRequested, TimerKeys, RowsAfter, Runner, TotalCommitted, OwnEntries, EntryFor,
        Context.Valid, StartRows;
      ReplayOneMore(ctx, before, command);
      ReplayViewOneMore(ctx, before, command);
    }

    /** A cancel moves no cash and uses no timer key. */
    lemma {:induction false} CancelReplays(before: seq<Command>, command: Command)
      requires command.Cancel? || command.CancelAll?
      ensures var next := before + [command];
        && FinancesAfter(ctx, next) == FinancesAfter(ctx, before)
        && TimerKeys(next) == TimerKeys(before)
        && Provisional(ctx, next) == ProvisionalAfter(ctx, Provisional(ctx, before), command)
        && CancellationRequested(ctx, next) == CancellationAfter(ctx, CancellationRequested(ctx, before), command)
        && Runner(ctx, next) == Runner(ctx, before) + [EntryFor(ctx, Provisional(ctx, before), command)]
        && RowsAfter(ctx, next) == RowsAfter(ctx, before).Plus(command, ctx.orders)
      ensures forall k :: 0 <= k <= |before| ==> (before + [command])[..k] == before[..k]
    {
      hide Provisional, CancellationRequested, TimerKeys, RowsAfter, Runner, TotalCommitted, OwnEntries, EntryFor,
        Rows.Plus, ProvisionalAfter, CancellationAfter;
      ReplayOneMore(ctx, before, command);
      ReplayViewOneMore(ctx, before, command);
    }

    // -------------------------------------------------------------------------------------
    // Kernel calls
    // -------------------------------------------------------------------------------------

    method CheckTimerKey(key: string) returns (refusal: Option<Message>)
      requires Valid()
      ensures refusal == TimerKeyError(ctx, commands, key)
    {
      if !ctx.timers {
        return Some(Invalid(NoTimers));
      }
      if !ValidIdentifier(key) {
        return Some(Invalid(InvalidTimerKey));
      }
      if key in timerKeys {
        return Some(Invalid(TimerKeyUsed));
      }
      return None;
    }

    method WakeAt(name: Option<string>, when: int) returns (r: Response)
      requires Valid()
      modifies this
      ensures Valid()
      ensures (State(), r) == Settled(old(State()), Judge(ctx, old(State()), CallWakeAt(name, when)))
    {
      hide Provisional, CancellationRequested, TimerKeys, RowsAfter, FinancesAfter, Runner, CheckBytes, TimerKeyError,
        Context.Valid, StartRows;
      var key := if name.Some? then name.value else DEFAULT_TIMER_KEY;
      var refusal := CheckTimerKey(key);
      if refusal.Some? {
        return Refusal(refusal.value);
      }
      refusal := CheckOrdinal();
      if refusal.Some? {
        return Refusal(refusal.value);
      }
      if !(0 <= when <= I64_MAX) {
        return Refusal(Invalid(TimerTimeOutOfRange));
      }
      var generation := ctx.TimerGeneration();
      var command := ScheduleTimer(ctx.commandId(|commands|), key, when, generation, "");
      OnlyTimerKeys(commands, command);
      BytesVerdict(ctx, State(), command, None);
      refusal := PushCommand(command);
      if refusal.Some? {
        return Refusal(refusal.value);
      }
      timerKeys := timerKeys + {key};
      return TimerHandle(key, generation);
    }

    method CancelTimer(key: string, generation: string) returns (r: Response)
      requires Valid()
      modifies this
      ensures Valid()
      ensures (State(), r) == Settled(old(State()), Judge(ctx, old(State()), CallCancelTimer(key, generation)))
    {
      hide Provisional, CancellationRequested, TimerKeys, RowsAfter, FinancesAfter, Runner, CheckBytes, Context.Valid,
        StartRows;
      var refusal := CheckTimerKey(key);
      if refusal.Some? {
        return Refusal(refusal.value);
      }
      if !ValidIdentifier(generation) {
        return Refusal(Invalid(InvalidTimerGeneration));
      }
      refusal := CheckOrdinal();
      if refusal.Some? {
        return Refusal(refusal.value);
      }
      var command := Command.CancelTimer(ctx.commandId(|commands|), key, generation);
      OnlyTimerKeys(commands, command);
      BytesVerdict(ctx, State(), command, None);
      refusal := PushCommand(command);
      if refusal.Some? {
        return Refusal(refusal.value);
      }
      timerKeys := timerKeys + {key};
      return Done;
    }

    method Request(kind: RequestKind, target: string, payload: string, timeoutMs: nat) returns (r: Response)
      requires Valid()
      modifies this
      ensures Valid()
      ensures (State(), r)
          == Settled(old(State()), Judge(ctx, old(State()), CallRequest(kind, target, payload, timeoutMs)))
    {
      hide Provisional, CancellationRequested, TimerKeys, RowsAfter, FinancesAfter, Runner, CheckBytes, RequestError,
        Context.Valid, StartRows;
      var error := RequestError(ctx, CallRequest(kind, target, payload, timeoutMs));
      if error.Some? {
        return Refusal(error.value);
      }
      if Requests(commands) >= MAX_OUTSTANDING_EXTERNAL_REQUESTS {
        var alone := updateStart.Some?
          && Requests(commands[updateStart.value.commands..]) < MAX_OUTSTANDING_EXTERNAL_REQUESTS;
        var full := CapacityError(RequestsFull, alone);
        return Refusal(full);
      }
      var refusal := CheckOrdinal();
      if refusal.Some? {
        return Refusal(refusal.value);
      }
      var command := ExternalRequest(ctx.commandId(|commands|), kind, target, payload, timeoutMs);
      OnlyTimerKeys(commands, command);
      BytesVerdict(ctx, State(), command, None);
      refusal := PushCommand(command);
      if refusal.Some? {
        return Refusal(refusal.value);
      }
      return Ticket(command.commandId);
    }

    method Stop(reason: string) returns (r: Response)
      requires Valid()
      modifies this
      ensures Valid()
      ensures (State(), r) == Settled(old(State()), Judge(ctx, old(State()), CallStop(reason)))
    {
      hide Provisional, CancellationRequested, TimerKeys, RowsAfter, FinancesAfter, Runner, CheckBytes, Context.Valid,
        StartRows;
      var refusal := CheckOrdinal();
      if refusal.Some? {
        return Refusal(refusal.value);
      }
      if |reason| == 0 || |reason| > MAX_REASON_BYTES {
        return Refusal(Invalid(InvalidStopReason));
      }
      var command := Command.Stop(ctx.commandId(|commands|), reason);
      OnlyTimerKeys(commands, command);
      BytesVerdict(ctx, State(), command, None);
      refusal := PushCommand(command);
      if refusal.Some? {
        return Refusal(refusal.value);
      }
      return Done;
    }

    /** What the Broker commits for `order`: a sell commits nothing. */
    method CommitmentMicros(order: PlaceOrder) returns (r: FeeResult<nat>)
      requires ctx.Valid() && order.quantity <= I64_MAX
      requires (order.limitPrice.Some? ==> order.limitPrice.value <= MAX_PRICE_MICROS)
            && (order.priceCap.Some? ==> order.priceCap.value <= MAX_PRICE_MICROS)
      ensures r == CommitmentOf(ctx, order)
    {
      hide BuyCommitment;
      if order.action.Sell? {
        return Success(0);
      }
      var market := FindMarket(ctx.markets, order.marketId);
      if market.None? || market.value.feeTerms.Failure? {
        return Result.Failure(InvalidInput);
      }
      r := BuyCommitmentMicros(CapOf(order), order.quantity, market.value.feeTerms.value);
    }

    /** The order a place request becomes, and what it commits. */
    method BuildOrder(request: PlaceRequest) returns (r: Result<PlaceOrder, Message>, committed: nat)
      requires Valid()
      ensures r == OrderFor(ctx, commands, request)
      ensures r.Success? ==> committed == CommittedCash(ctx, r.value)
    {
      hide CancellationRequested, TimerKeys, RowsAfter, FinancesAfter, BuyCommitment, ValidCommand,
        PlaceOrderTermsError, OpenOrders;
      committed := 0;
      if FindMarket(ctx.markets, request.ticker).None? {
        return Result.Failure(Invalid(UnknownMarket)), 0;
      }
      if request.quantity <= 0 {
        return Result.Failure(Invalid(NoQuantity)), 0;
      }
      if !PriceInRange(request.limitPrice) {
        return Result.Failure(Invalid(LimitPriceOutOfRange)), 0;
      }
      if !PriceInRange(request.priceCap) {
        return Result.Failure(Invalid(PriceCapOutOfRange)), 0;
      }
      var draft := Draft(request);
      var terms := PlaceOrderTermsError(draft);
      if terms.Some? {
        return Result.Failure(Invalid(terms.value)), 0;
      }
      var commitment := CommitmentMicros(draft);
      if commitment.Failure? {
        return Result.Failure(Invalid(NoCommitment)), 0;
      }
      var cap := MaxOpenOrders(ctx.mode);
      if OpenOrders(ctx.orders) + |provisional| >= cap {
        return Result.Failure(OpenOrdersFull(cap)), 0;
      }
      var client := ClientIdFor(ctx, |commands|, request);
      if client.Failure? {
        return Result.Failure(client.error), 0;
      }
      if !ValidProviderClientId(client.value) {
        return Result.Failure(Invalid(InvalidClientId)), 0;
      }
      var inUse := (exists i :: 0 <= i < |provisional| && provisional[i].clientId == client.value)
        || (exists i :: 0 <= i < |ctx.orders| && ctx.orders[i].clientId == client.value)
        || (exists i :: 0 <= i < |runner| && runner[i].clientId == Some(client.value));
      assert inUse == ClientInUse(ctx, commands, client.value);
      if inUse {
        return Result.Failure(Invalid(ClientIdInUse)), 0;
      }
      var order := draft.(commandId := ctx.commandId(|commands|), clientId := client.value);
      if !ValidCommand(Place(order)) {
        return Result.Failure(Invalid(CommandOutOfBounds)), 0;
      }
      assert CommitmentOf(ctx, order) == CommitmentOf(ctx, draft);
      return Success(order), commitment.value;
    }

    method PlaceOrder(request: PlaceRequest) returns (r: Response)
      requires Valid()
      modifies this
      ensures Valid()
      ensures (State(), r) == Settled(old(State()), Judge(ctx, old(State()), CallPlace(request)))
    {
      hide Provisional, CancellationRequested, TimerKeys, RowsAfter, Runner, OrderFor, Issue, TotalCommitted,
        CommittedCash;
      var refusal := CheckOrdinal();
      if refusal.Some? {
        return Refusal(refusal.value);
      }
      var built, committed := BuildOrder(request);
      if built.Failure? {
        return Refusal(built.error);
      }
      var order := built.value;
      ReplayOneMore(ctx, commands, Place(order));
      ReplayViewOneMore(ctx, commands, Place(order));
      refusal := IssueBrokerCommand(Place(order), EntryFor(ctx, provisional, Place(order)));
      if refusal.Some? {
        return Refusal(refusal.value);
      }
      finances := finances.(commitment := Min(finances.commitment + committed, U64_MAX),
                            reserved := Min(finances.reserved + committed, U64_MAX));
      provisional := provisional + [
        ProvisionalOrder(order.clientId, order.marketId, order.action, order.side, order.limitPrice, order.quantity,
                         committed, false)];
      StartsKept(old(commands), Place(order));
      return OrderTicket(order.commandId, order.clientId);
    }

    /** The commands before a delivery unit are the same after one more. */
    lemma StartsKept(before: seq<Command>, command: Command)
      ensures forall k :: 0 <= k <= |before| ==> (before + [command])[..k] == before[..k]
    {
    }

    /** The order a cancel names, and its index among the decision's own when it is one of them. */
    method ResolveTarget(named: CancelBy) returns (target: Option<CancelTarget>, index: Option<nat>)
      requires Valid()
      ensures target == CancelTargetFor(ctx, commands, named)
      ensures target.Some? && target.value.SameDecision? ==>
          index == ClientIndex(provisional, target.value.clientId) && index.Some?
      ensures target.Some? && target.value.ContextOrder? ==> index.None?
    {
      index := None;
      match named {
        case OrderId(orderId) =>
          target := ContextTarget(FindOrder(ctx.orders, orderId));
        case ClientOrderId(clientId) =>
          index := ClientIndex(provisional, clientId);
          target := if index.Some? then Some(SameDecision(clientId))
              else ContextTarget(FindClient(ctx.orders, clientId));
      }
    }

    method CancelOrder(named: CancelBy) returns (r: Response)
      requires Valid()
      modifies this
      ensures Valid()
      ensures (State(), r) == Settled(old(State()), Judge(ctx, old(State()), CallCancel(named)))
    {
      hide Provisional, CancellationRequested, TimerKeys, RowsAfter, Runner, Issue, FinancesAfter, CancelTargetFor,
        EntryFor, Rows.Plus, Context.Valid, StartRows;
      var refusal := CheckOrdinal();
      if refusal.Some? {
        return Refusal(refusal.value);
      }
      var found, index := ResolveTarget(named);
      if found.None? {
        return Refusal(Invalid(NoOrderMatches));
      }
      var target := found.value;
      var command := Cancel(ctx.commandId(|commands|), target);
      CancelReplays(commands, command);
      refusal := IssueBrokerCommand(command, EntryFor(ctx, provisional, command));
      if refusal.Some? {
        return Refusal(refusal.value);
      }
      if index.Some? {
        provisional := provisional[index.value := provisional[index.value].(cancellationRequested := true)];
      } else {
        cancellationRequested := cancellationRequested + {target.orderId};
      }
      return Ticket(command.commandId);
    }

    method CancelAllOrders() returns (r: Response)
      requires Valid()
      modifies this
      ensures Valid()
      ensures (State(), r) == Settled(old(State()), Judge(ctx, old(State()), CallCancelAll))
    {
      hide Provisional, CancellationRequested, TimerKeys, RowsAfter, Runner, Issue, FinancesAfter, EntryFor, Rows.Plus,
        Context.Valid, StartRows;
      if !ctx.ordersComplete {
        return Refusal(Invalid(TruncatedOrders));
      }
      var refusal := CheckOrdinal();
      if refusal.Some? {
        return Refusal(refusal.value);
      }
      var command := CancelAll(ctx.commandId(|commands|));
      CancelReplays(commands, command);
      refusal := IssueBrokerCommand(command, EntryFor(ctx, provisional, command));
      if refusal.Some? {
        return Refusal(refusal.value);
      }
      MarkOpenOrders();
      MarkOwnOrders();
      return Ticket(command.commandId);
    }

    /** Marks every open context order. */
    method MarkOpenOrders()
      modifies this`cancellationRequested
      ensures cancellationRequested == old(cancellationRequested) + OpenOrderIds(ctx.orders)
    {
      for i := 0 to |ctx.orders|
        invariant cancellationRequested == old(cancellationRequested) + OpenOrderIds(ctx.orders[..i])
      {
        assert forall j :: 0 <= j < i ==> ctx.orders[..i + 1][j] == ctx.orders[..i][j];
        assert ctx.orders[..i + 1][i] == ctx.orders[i];
        if !ctx.orders[i].status.Terminal() {
          cancellationRequested := cancellationRequested + {ctx.orders[i].orderId};
          assert OpenOrderIds(ctx.orders[..i + 1]) == OpenOrderIds(ctx.orders[..i]) + {ctx.orders[i].orderId};
        } else {
          assert OpenOrderIds(ctx.orders[..i + 1]) == OpenOrderIds(ctx.orders[..i]);
        }
      }
      assert ctx.orders[..|ctx.orders|] == ctx.orders;
    }

    /** Marks every order of this decision. */
    method MarkOwnOrders()
      modifies this`provisional
      ensures provisional == MarkAll(old(provisional))
    {
      for i := 0 to |provisional|
        invariant |provisional| == |old(provisional)|
        invariant provisional == MarkAll(old(provisional)[..i]) + old(provisional)[i..]
      {
        provisional := provisional[i := provisional[i].(cancellationRequested := true)];
      }
    }

    /** Answers one kernel call: the host's whole behaviour is `Respond`. */
    method Handle(call: Call) returns (r: Response)
      requires Valid()
      modifies this
      ensures Valid()
      ensures (State(), r) == Respond(ctx, old(State()), call)
    {
      hide Judge;
      match call {
        case CallPlace(request) => r := PlaceOrder(request);
        case CallCancel(named) => r := CancelOrder(named);
        case CallCancelAll => r := CancelAllOrders();
        case CallWakeAt(name, when) => r := WakeAt(name, when);
        case CallCancelTimer(key, generation) => r := CancelTimer(key, generation);
        case CallRequest(kind, target, payload, timeoutMs) => r := Request(kind, target, payload, timeoutMs);
        case CallStop(reason) => r := Stop(reason);
        case CallLog(level, message) =>
          outputs := outputs + [LogOutput(level, message)];
          r := Done;
        case CallTelemetry(entry) =>
          outputs := outputs + [TelemetryOutput(entry)];
          r := Done;
        case CallView =>
          r := Viewed(View(finances, provisional, cancellationRequested));
      }
    }
  }

  lemma BytesVerdict(ctx: Context, h: HostState, command: Command, entry: Option<RunnerEntry>)
    requires h.Valid()
    ensures CheckBytes(ctx, h, command, entry).Admitted? ==> CheckBytes(ctx, h, command, entry).command == command
  {
  }
}
