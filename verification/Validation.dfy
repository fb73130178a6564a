/**
 Result validation of a decision's commands, and the theorem that whatever the host admits
 validates: exactly, up to the bound on a scheduled timer's generation.
 */
module Validation {
  import opened Wrappers
  import opened Wire
  import opened PlanRows
  import opened Admission

  // ---------------------------------------------------------------------------------------
  // The validator
  // ---------------------------------------------------------------------------------------

  ghost predicate DistinctIds(commands: seq<Command>) {
    forall i, j :: 0 <= i < j < |commands| ==> commands[i].Id() != commands[j].Id()
  }

  ghost predicate DistinctTimerKeys(commands: seq<Command>) {
    forall i, j :: 0 <= i < j < |commands| && commands[i].IsTimer() && commands[j].IsTimer() ==>
      commands[i].key != commands[j].key
  }

  /** Whether some command before `i` places an order with `clientId`. */
  ghost predicate PlacedBefore(commands: seq<Command>, i: nat, clientId: string)
    requires i <= |commands|
  {
    exists j :: 0 <= j < i && commands[j].Place? && commands[j].order.clientId == clientId
  }

  /** What can be said of a decision's commands from their delivery id alone. */
  ghost predicate ValidShape(commands: seq<Command>, deliveryId: string) {
    && |commands| <= MAX_STRATEGY_COMMANDS
    && DistinctIds(commands)
    && Requests(commands) <= MAX_OUTSTANDING_EXTERNAL_REQUESTS
    && (forall i :: 0 <= i < |commands| ==> ValidCommand(commands[i]))
    && DistinctClients(commands)
    && DistinctTimerKeys(commands)
    && (forall i :: 0 <= i < |commands| && commands[i].Cancel? && commands[i].target.SameDecision? ==>
          PlacedBefore(commands, i, commands[i].target.clientId))
    && (forall i :: 0 <= i < |commands| && commands[i].ScheduleTimer? ==>
          commands[i].generation == TIMER_GENERATION_PREFIX + deliveryId)
  }

  /** What one command must agree with in the context. */
  predicate AgreesWithContext(ctx: Context, command: Command) {
    match command
    case Place(order) => exists i :: 0 <= i < |ctx.markets| && ctx.markets[i].id == order.marketId
    case Cancel(_, ContextOrder(orderId, revision)) =>
      exists i :: 0 <= i < |ctx.orders| && ctx.orders[i].orderId == orderId && ctx.orders[i].revision == revision
    case ScheduleTimer(_, _, _, _, _) => ctx.timers
    case CancelTimer(_, _, _) => ctx.timers
    case CancelAll(_) => ctx.ordersComplete
    case ExternalRequest(_, kind, target, _, _) => GrantsExternalRequest(ctx.grants, kind, target)
    case _ => true
  }

  /** Result validation's checks of commands; `acknowledges` when the result acknowledges anything. */
  ghost predicate ValidCommands(ctx: Context, commands: seq<Command>, acknowledges: bool) {
    && ValidShape(commands, ctx.deliveryId)
    && (forall i :: 0 <= i < |commands| ==> commands[i].Id() == ctx.commandId(i))
    && (forall i :: 0 <= i < |commands| ==> AgreesWithContext(ctx, commands[i]))
    && CountRows(EmptyRows(ctx.orders, acknowledges, ctx.mode), commands, ctx.orders).Total() <= MAX_DECISION_PLAN_ROWS
    && (Places(commands) > 0 ==> OpenOrders(ctx.orders) + Places(commands) <= MaxOpenOrders(ctx.mode))
  }

  // ---------------------------------------------------------------------------------------
  // The validator in place
  // ---------------------------------------------------------------------------------------

  method UniqueIds(commands: seq<Command>) returns (ok: bool)
    ensures ok <==> DistinctIds(commands)
  {
    var seen: set<string> := {};
    for i := 0 to |commands|
      invariant seen == set j | 0 <= j < i :: commands[j].Id()
      invariant forall j, k :: 0 <= j < k < i ==> commands[j].Id() != commands[k].Id()
    {
      if commands[i].Id() in seen {
        return false;
      }
      seen := seen + {commands[i].Id()};
    }
    return true;
  }

  ghost function ClientsOf(commands: seq<Command>, n: nat): set<string>
    requires n <= |commands|
  {
    set j | 0 <= j < n && commands[j].Place? :: commands[j].order.clientId
  }

  /** What the loop below checks of one command, given the client ids and timer keys before it. */
  predicate FollowsOthers(command: Command, deliveryId: string, clientIds: set<string>, timerKeys: set<string>) {
    && ValidCommand(command)
    && match command
       case Place(order) => order.clientId !in clientIds
       case Cancel(_, SameDecision(clientId)) => clientId in clientIds
       case ScheduleTimer(_, key, _, generation, _) =>
         generation == TIMER_GENERATION_PREFIX + deliveryId && key !in timerKeys
       case CancelTimer(_, key, _) => key !in timerKeys
       case _ => true
  }

  ghost predicate EachFollows(commands: seq<Command>, deliveryId: string, n: nat)
    requires n <= |commands|
  {
    forall i :: 0 <= i < n ==>
      FollowsOthers(commands[i], deliveryId, ClientsOf(commands, i), TimerKeys(commands[..i]))
  }

  /** Validation's pass over the commands, growing its key sets. */
  method ValidateInOrder(commands: seq<Command>, deliveryId: string) returns (ok: bool)
    ensures ok <==> EachFollows(commands, deliveryId, |commands|)
  {
    hide FollowsOthers;
    var clientIds: set<string> := {};
    var timerKeys: set<string> := {};
    for i := 0 to |commands|
      invariant clientIds == ClientsOf(commands, i) && timerKeys == TimerKeys(commands[..i])
      invariant EachFollows(commands, deliveryId, i)
    {
      if !FollowsOthers(commands[i], deliveryId, clientIds, timerKeys) {
        return false;
      }
      if commands[i].Place? {
        clientIds := clientIds + {commands[i].order.clientId};
      }
      TimerKeysStep(commands, i);
      if commands[i].IsTimer() {
        timerKeys := timerKeys + {commands[i].key};
      }
    }
    return true;
  }

  lemma TimerKeysStep(commands: seq<Command>, i: nat)
    requires i < |commands|
    ensures TimerKeys(commands[..i + 1])
         == TimerKeys(commands[..i]) + if commands[i].IsTimer() then {commands[i].key} else {}
  {
    var upTo, earlier := commands[..i + 1], commands[..i];
    assert forall j :: 0 <= j < i ==> upTo[j] == earlier[j];
    assert upTo[i] == commands[i];
  }

  /** The pass states the declarative checks. */
  lemma {:induction false} EachFollowsIsShape(commands: seq<Command>, deliveryId: string)
    ensures ValidShape(commands, deliveryId) <==>
      && |commands| <= MAX_STRATEGY_COMMANDS && DistinctIds(commands)
      && Requests(commands) <= MAX_OUTSTANDING_EXTERNAL_REQUESTS
      && EachFollows(commands, deliveryId, |commands|)
  {
    hide ValidCommand, DistinctIds, Requests;
    forall i | 0 <= i < |commands|
      ensures forall id :: id in ClientsOf(commands, i) <==> PlacedBefore(commands, i, id)
      ensures forall key :: key in TimerKeys(commands[..i]) <==> KeyedBefore(commands, i, key)
    {
      KeysBefore(commands, i);
    }
    if EachFollows(commands, deliveryId, |commands|) {
      forall i, j | 0 <= i < j < |commands| && commands[i].Place? && commands[j].Place?
        ensures commands[i].order.clientId != commands[j].order.clientId
      {
        assert PlacedBefore(commands, j, commands[i].order.clientId);
        assert FollowsOthers(commands[j], deliveryId, ClientsOf(commands, j), TimerKeys(commands[..j]));
      }
      forall i, j | 0 <= i < j < |commands| && commands[i].IsTimer() && commands[j].IsTimer()
        ensures commands[i].key != commands[j].key
      {
        assert KeyedBefore(commands, j, commands[i].key);
        assert FollowsOthers(commands[j], deliveryId, ClientsOf(commands, j), TimerKeys(commands[..j]));
      }
    }
  }

  ghost predicate KeyedBefore(commands: seq<Command>, i: nat, key: string)
    requires i <= |commands|
  {
    exists j :: 0 <= j < i && commands[j].IsTimer() && commands[j].key == key
  }

  lemma KeysBefore(commands: seq<Command>, i: nat)
    requires i <= |commands|
    ensures forall key :: key in TimerKeys(commands[..i]) <==> KeyedBefore(commands, i, key)
  {
    var earlier := commands[..i];
    assert forall j :: 0 <= j < i ==> earlier[j] == commands[j];
  }

  method CountRequests(commands: seq<Command>) returns (n: nat)
    ensures n == Requests(commands)
  {
    n := 0;
    for i := 0 to |commands|
      invariant n == Requests(commands[..i])
    {
      assert commands[..i + 1][..i] == commands[..i];
      if commands[i].ExternalRequest? {
        n := n + 1;
      }
    }
    assert commands[..|commands|] == commands;
  }

  method ValidateShape(commands: seq<Command>, deliveryId: string) returns (ok: bool)
    ensures ok <==> ValidShape(commands, deliveryId)
  {
    hide ValidShape, EachFollows, DistinctIds;
    EachFollowsIsShape(commands, deliveryId);
    if |commands| > MAX_STRATEGY_COMMANDS {
      return false;
    }
    var unique := UniqueIds(commands);
    if !unique {
      return false;
    }
    var requests := CountRequests(commands);
    if requests > MAX_OUTSTANDING_EXTERNAL_REQUESTS {
      return false;
    }
    ok := ValidateInOrder(commands, deliveryId);
  }

  /** The result's plan rows. */
  method DecisionRows(ctx: Context, commands: seq<Command>, acknowledges: bool) returns (total: nat)
    ensures total == CountRows(EmptyRows(ctx.orders, acknowledges, ctx.mode), commands, ctx.orders).Total()
  {
    hide EmptyRows, Rows.Plus, Rows.Total;
    ghost var start := EmptyRows(ctx.orders, acknowledges, ctx.mode);
    var rows := new DecisionPlanRows(ctx.orders, acknowledges, ctx.mode);
    for i := 0 to |commands|
      invariant rows.Value() == CountRows(start, commands[..i], ctx.orders)
    {
      assert commands[..i + 1][..i] == commands[..i];
      rows.Add(commands[i], ctx.orders);
    }
    assert commands[..|commands|] == commands;
    total := rows.Total();
  }

  /** Result validation of the commands against the context they answer. */
  method ValidateCommands(ctx: Context, commands: seq<Command>, acknowledges: bool) returns (ok: bool)
    ensures ok <==> ValidCommands(ctx, commands, acknowledges)
  {
    hide ValidShape, CountRows, AgreesWithContext;
    ok := ValidateShape(commands, ctx.deliveryId);
    if !ok {
      return;
    }
    for i := 0 to |commands|
      invariant forall j :: 0 <= j < i ==> commands[j].Id() == ctx.commandId(j)
    {
      if commands[i].Id() != ctx.commandId(i) {
        return false;
      }
    }
    for i := 0 to |commands|
      invariant forall j :: 0 <= j < i ==> AgreesWithContext(ctx, commands[j])
    {
      if !AgreesWithContext(ctx, commands[i]) {
        return false;
      }
    }
    var rows := DecisionRows(ctx, commands, acknowledges);
    if rows > MAX_DECISION_PLAN_ROWS {
      return false;
    }
    var places := Places(commands);
    ok := places == 0 || OpenOrders(ctx.orders) + places <= MaxOpenOrders(ctx.mode);
  }

  // ---------------------------------------------------------------------------------------
  // Reachable decisions
  // ---------------------------------------------------------------------------------------

  /** Commands some sequence of kernel calls issues: each was admitted after exactly those before it.
      A rollback leaves a prefix of them, which is one too. */
  ghost predicate Reachable(ctx: Context, commands: seq<Command>) {
    forall i :: 0 <= i < |commands| ==> IssuedAt(ctx, commands, i)
  }

  /** Some call issues the command at `i` in a host that issued those before it. */
  ghost predicate IssuedAt(ctx: Context, commands: seq<Command>, i: nat)
    requires i < |commands|
  {
    exists h: HostState, call :: Admits(ctx, h, call, commands[..i], commands[i])
  }

  ghost predicate Admits(ctx: Context, h: HostState, call: Call, earlier: seq<Command>, command: Command) {
    h.Valid() && h.commands == earlier && IssuesCommand(call) && Judge(ctx, h, call) == Admitted(command)
  }

  lemma PrefixIsReachable(ctx: Context, commands: seq<Command>, n: nat)
    requires Reachable(ctx, commands) && n <= |commands|
    ensures Reachable(ctx, commands[..n])
  {
    hide Admits;
    forall i | 0 <= i < n
      ensures IssuedAt(ctx, commands[..n], i)
    {
      assert IssuedAt(ctx, commands, i);
      assert commands[..n][..i] == commands[..i];
    }
  }

  lemma RespondAppends(ctx: Context, h: HostState, call: Call)
    requires h.Valid()
    ensures var next := Respond(ctx, h, call).0.commands;
      || next == h.commands
      || (IssuesCommand(call) && Judge(ctx, h, call).Admitted? && next == h.commands + [Judge(ctx, h, call).command])
  {
    hide Judge;
  }

  lemma {:induction false} OneMoreIsReachable(ctx: Context, h: HostState, call: Call)
    requires h.Valid() && Reachable(ctx, h.commands) && IssuesCommand(call) && Judge(ctx, h, call).Admitted?
    ensures Reachable(ctx, h.commands + [Judge(ctx, h, call).command])
  {
    hide Judge;
    var command := Judge(ctx, h, call).command;
    var n, next := |h.commands|, h.commands + [command];
    forall i | 0 <= i < |next|
      ensures IssuedAt(ctx, next, i)
    {
      if i < n {
        assert IssuedAt(ctx, h.commands, i);
        var g: HostState, c :| Admits(ctx, g, c, h.commands[..i], h.commands[i]);
        assert next[..i] == h.commands[..i];
        assert Admits(ctx, g, c, next[..i], next[i]);
      } else {
        assert next[..i] == h.commands;
        assert Admits(ctx, h, call, next[..i], next[i]);
      }
    }
  }

  /** Every answer keeps the decision reachable. */
  lemma {:induction false} RespondKeepsReachable(ctx: Context, h: HostState, call: Call)
    requires h.Valid() && Reachable(ctx, h.commands)
    ensures Reachable(ctx, Respond(ctx, h, call).0.commands)
  {
    hide Judge, Respond, Reachable;
    RespondAppends(ctx, h, call);
    if Respond(ctx, h, call).0.commands != h.commands {
      OneMoreIsReachable(ctx, h, call);
    }
  }

  // ---------------------------------------------------------------------------------------
  // What admission guarantees of one command
  // ---------------------------------------------------------------------------------------

  /** Everything the host checks of a command issued after `earlier`. */
  ghost predicate CommandFacts(ctx: Context, earlier: seq<Command>, command: Command) {
    && |earlier| < MAX_STRATEGY_COMMANDS
    && command.Id() == ctx.commandId(|earlier|)
    && AgreesWithContext(ctx, command)
    && (command.IsBroker() ==> RowsAfter(ctx, earlier).Plus(command, ctx.orders).Total() <= MAX_DECISION_PLAN_ROWS)
    && match command
       case Place(order) =>
         && ValidCommand(command)
         && !ClientInUse(ctx, earlier, order.clientId)
         && CommitmentOf(ctx, order).Success?
         && OpenOrders(ctx.orders) + |Provisional(ctx, earlier)| < MaxOpenOrders(ctx.mode)
       case Cancel(_, ContextOrder(orderId, _)) => FindOrder(ctx.orders, orderId).Some?
       case Cancel(_, SameDecision(clientId)) => ClientIndex(Provisional(ctx, earlier), clientId).Some?
       case CancelAll(_) => true
       case ScheduleTimer(_, key, _, generation, semantics) =>
         ValidIdentifier(key) && key !in TimerKeys(earlier) && generation == ctx.TimerGeneration() && semantics == ""
       case CancelTimer(_, key, generation) =>
         ValidIdentifier(key) && key !in TimerKeys(earlier) && ValidIdentifier(generation)
       case Stop(_, reason) => 0 < |reason| <= MAX_REASON_BYTES
       case ExternalRequest(_, kind, target, payload, timeoutMs) =>
         && ValidExternalRequest(kind, target, payload, timeoutMs)
         && Requests(earlier) < MAX_OUTSTANDING_EXTERNAL_REQUESTS
  }

  lemma {:induction false} FoundMarketIsListed(markets: seq<Market>, id: string)
    requires FindMarket(markets, id).Some?
    ensures exists i :: 0 <= i < |markets| && markets[i].id == id
  {
    if markets[0].id != id {
      FoundMarketIsListed(markets[1..], id);
      var i :| 0 <= i < |markets[1..]| && markets[1..][i].id == id;
      assert markets[i + 1].id == id;
    }
  }

  lemma IssuedWithinRows(ctx: Context, h: HostState, command: Command)
    requires h.Valid() && command.IsBroker() && Issue(ctx, h, command).Admitted?
    ensures Issue(ctx, h, command).command == command
    ensures RowsAfter(ctx, h.commands).Plus(command, ctx.orders).Total() <= MAX_DECISION_PLAN_ROWS
  {
  }

  lemma PlaceFacts(ctx: Context, h: HostState, request: PlaceRequest)
    requires h.Valid() && NextOrdinal(h).None?
    requires OrderFor(ctx, h.commands, request).Success?
    requires Issue(ctx, h, Place(OrderFor(ctx, h.commands, request).value)).Admitted?
    ensures CommandFacts(ctx, h.commands, Place(OrderFor(ctx, h.commands, request).value))
  {
    hide RowsAfter, Provisional, ClientInUse, ValidPlace, PlaceOrderTermsError, Issue, OpenOrders;
    var order := OrderFor(ctx, h.commands, request).value;
    IssuedWithinRows(ctx, h, Place(order));
    FoundMarketIsListed(ctx.markets, request.ticker);
  }

  lemma CancelFacts(ctx: Context, h: HostState, named: CancelBy)
    requires h.Valid() && NextOrdinal(h).None?
    requires CancelTargetFor(ctx, h.commands, named).Some?
    requires Issue(ctx, h, Cancel(ctx.commandId(|h.commands|), CancelTargetFor(ctx, h.commands, named).value)).Admitted?
    ensures CommandFacts(ctx, h.commands,
        Cancel(ctx.commandId(|h.commands|), CancelTargetFor(ctx, h.commands, named).value))
  {
    var command := Cancel(ctx.commandId(|h.commands|), CancelTargetFor(ctx, h.commands, named).value);
    IssuedWithinRows(ctx, h, command);
    if command.target.ContextOrder? {
      if named.ClientOrderId? {
        FoundClientIsFindable(ctx.orders, named.clientId);
      }
      assert FindOrder(ctx.orders, command.target.orderId).Some?;
    }
    hide RowsAfter, Provisional, Issue;
  }

  lemma {:induction false} FoundClientIsFindable(orders: seq<BrokerOrder>, clientId: string)
    requires FindClient(orders, clientId).Some?
    ensures FindOrder(orders, FindClient(orders, clientId).value.orderId).Some?
  {
    if orders[0].clientId != clientId {
      FoundClientIsFindable(orders[1..], clientId);
    }
  }

  /** An admitted command satisfies everything the host checks. */
  lemma {:induction false} AdmittedFacts(ctx: Context, h: HostState, call: Call)
    requires h.Valid() && IssuesCommand(call) && Judge(ctx, h, call).Admitted?
    ensures CommandFacts(ctx, h.commands, Judge(ctx, h, call).command)
  {
    hide OrderFor, Issue, RowsAfter, CancelTargetFor, BytesWith, EarlierBytes;
    match call
    case CallPlace(request) =>
      IssuedWithinRows(ctx, h, Place(OrderFor(ctx, h.commands, request).value));
      PlaceFacts(ctx, h, request);
    case CallCancel(named) =>
      IssuedWithinRows(ctx, h, Cancel(ctx.commandId(|h.commands|), CancelTargetFor(ctx, h.commands, named).value));
      CancelFacts(ctx, h, named);
    case CallCancelAll => IssuedWithinRows(ctx, h, CancelAll(ctx.commandId(|h.commands|)));
    case CallWakeAt(_, _) =>
    case CallCancelTimer(_, _) =>
    case CallRequest(_, _, _, _) =>
    case CallStop(_) =>
  }

  /** Each command of a reachable decision passed the host's checks after the commands before it. */
  lemma {:induction false} ReachableFacts(ctx: Context, commands: seq<Command>, i: nat)
    requires Reachable(ctx, commands) && i < |commands|
    ensures CommandFacts(ctx, commands[..i], commands[i])
  {
    hide CommandFacts, Judge;
    assert IssuedAt(ctx, commands, i);
    var h: HostState, call :| Admits(ctx, h, call, commands[..i], commands[i]);
    AdmittedFacts(ctx, h, call);
  }

  // ---------------------------------------------------------------------------------------
  // What admission guarantees of a whole decision
  // ---------------------------------------------------------------------------------------

  /** The provisional orders are the decision's places. */
  lemma {:induction false} ProvisionalIsPlaces(ctx: Context, commands: seq<Command>)
    ensures |Provisional(ctx, commands)| == Places(commands)
    ensures forall i :: 0 <= i < |Provisional(ctx, commands)| ==>
              PlacedBefore(commands, |commands|, Provisional(ctx, commands)[i].clientId)
    ensures forall j :: 0 <= j < |commands| && commands[j].Place? ==>
              HasClient(Provisional(ctx, commands), commands[j].order.clientId)
  {
    if commands != [] {
      var earlier, last := commands[..|commands| - 1], commands[|commands| - 1];
      var before, after := Provisional(ctx, earlier), Provisional(ctx, commands);
      ProvisionalIsPlaces(ctx, earlier);
      forall i | 0 <= i < |before|
        ensures after[i].clientId == before[i].clientId && PlacedBefore(commands, |commands|, after[i].clientId)
      {
        assert PlacedBefore(earlier, |earlier|, before[i].clientId);
        var j :| 0 <= j < |earlier| && earlier[j].Place? && earlier[j].order.clientId == before[i].clientId;
        assert commands[j] == earlier[j];
      }
      forall j | 0 <= j < |commands| && commands[j].Place?
        ensures HasClient(after, commands[j].order.clientId)
      {
        if j == |commands| - 1 {
          assert after[|after| - 1].clientId == commands[j].order.clientId;
        } else {
          assert HasClient(before, earlier[j].order.clientId);
          var i :| 0 <= i < |before| && before[i].clientId == commands[j].order.clientId;
          assert after[i].clientId == before[i].clientId;
        }
      }
    }
  }

  ghost predicate HasClient(provisional: seq<ProvisionalOrder>, clientId: string) {
    exists i :: 0 <= i < |provisional| && provisional[i].clientId == clientId
  }

  lemma {:induction false} ReachableClientsAreDistinct(ctx: Context, commands: seq<Command>)
    requires Reachable(ctx, commands)
    ensures DistinctClients(commands)
  {
    forall i, j | 0 <= i < j < |commands| && commands[i].Place? && commands[j].Place?
      ensures commands[i].order.clientId != commands[j].order.clientId
    {
      var earlier := commands[..j];
      ReachableFacts(ctx, commands, j);
      ProvisionalIsPlaces(ctx, earlier);
      assert earlier[i] == commands[i];
      assert HasClient(Provisional(ctx, earlier), commands[i].order.clientId);
    }
  }

  lemma {:induction false} ReachableTimerKeysAreDistinct(ctx: Context, commands: seq<Command>)
    requires Reachable(ctx, commands)
    ensures DistinctTimerKeys(commands)
  {
    forall i, j | 0 <= i < j < |commands| && commands[i].IsTimer() && commands[j].IsTimer()
      ensures commands[i].key != commands[j].key
    {
      ReachableFacts(ctx, commands, j);
      assert commands[..j][i] == commands[i];
    }
  }

  /** Outstanding requests are counted one by one. */
  /** What result validation holds every command to: a place's Market, a cancelled order at its revision, a
      whole view for a cancel-all, the timer grant, the request's own grant, and each one's bounds. */
  lemma ValidCommandsAreChecked(ctx: Context, commands: seq<Command>, acknowledges: bool, i: nat)
    requires ValidCommands(ctx, commands, acknowledges) && i < |commands|
    ensures commands[i].Id() == ctx.commandId(i) && ValidIdentifier(commands[i].Id()) && |commands| <= 64
    ensures match commands[i]
      case Place(order) => exists k :: 0 <= k < |ctx.markets| && ctx.markets[k].id == order.marketId
      case Cancel(_, ContextOrder(orderId, revision)) =>
        && ValidIdentifier(orderId)
        && exists k :: 0 <= k < |ctx.orders| && ctx.orders[k].orderId == orderId && ctx.orders[k].revision == revision
      case Cancel(_, SameDecision(clientId)) =>
        exists k :: 0 <= k < i && commands[k].Place? && commands[k].order.clientId == clientId
      case CancelAll(_) => ctx.ordersComplete
      case ScheduleTimer(_, key, _, generation, _) =>
        && ctx.timers && ValidIdentifier(key) && ValidIdentifier(generation)
        && generation == "timer." + ctx.deliveryId
      case CancelTimer(_, key, generation) => ctx.timers && ValidIdentifier(key) && ValidIdentifier(generation)
      case Stop(_, reason) => 0 < |reason| <= 4_096
      case ExternalRequest(_, Http(path), target, payload, _) =>
        "http:" + target in ctx.grants && ValidHttpPath(path) && |path| + |payload| <= 65_536
      case ExternalRequest(_, Program(args), target, payload, _) =>
        "command:" + target in ctx.grants && |args| <= 64 && TotalLength(args) + |payload| <= 65_536
  {
    hide ValidIdentifier, ValidHttpPath, TotalLength, ValidPlace, CountRows, OpenOrders, Places;
    assert AgreesWithContext(ctx, commands[i]) && ValidCommand(commands[i]);
  }

  lemma {:induction false} RequestsAreCounted(commands: seq<Command>)
    ensures Requests(commands) == |set i | 0 <= i < |commands| && commands[i].ExternalRequest?|
  {
    if commands != [] {
      var n := |commands| - 1;
      var earlier := set i | 0 <= i < n && commands[..n][i].ExternalRequest?;
      RequestsAreCounted(commands[..n]);
      assert (set i | 0 <= i < |commands| && commands[i].ExternalRequest?)
          == earlier + if commands[n].ExternalRequest? then {n} else {};
    }
  }

  lemma {:induction false} ReachableRequestsAreBounded(ctx: Context, commands: seq<Command>)
    requires Reachable(ctx, commands)
    ensures Requests(commands) <= MAX_OUTSTANDING_EXTERNAL_REQUESTS
  {
    if commands != [] {
      PrefixIsReachable(ctx, commands, |commands| - 1);
      ReachableRequestsAreBounded(ctx, commands[..|commands| - 1]);
      ReachableFacts(ctx, commands, |commands| - 1);
    }
  }

  lemma {:induction false} ReachableRowsFit(ctx: Context, commands: seq<Command>)
    requires Reachable(ctx, commands)
    ensures RowsAfter(ctx, commands).Total() <= MAX_DECISION_PLAN_ROWS
  {
    if commands != [] {
      PrefixIsReachable(ctx, commands, |commands| - 1);
      ReachableRowsFit(ctx, commands[..|commands| - 1]);
      ReachableFacts(ctx, commands, |commands| - 1);
    }
  }

  lemma {:induction false} ReachableOpenOrdersFit(ctx: Context, commands: seq<Command>)
    requires Reachable(ctx, commands)
    ensures Places(commands) > 0 ==> OpenOrders(ctx.orders) + Places(commands) <= MaxOpenOrders(ctx.mode)
  {
    if commands != [] {
      var earlier := commands[..|commands| - 1];
      PrefixIsReachable(ctx, commands, |earlier|);
      ReachableOpenOrdersFit(ctx, earlier);
      ReachableFacts(ctx, commands, |commands| - 1);
      ProvisionalIsPlaces(ctx, earlier);
    }
  }

  /** Whatever a same-decision cancel names has been placed before it. */
  lemma {:induction false} ReachableCancelFollowsPlace(ctx: Context, commands: seq<Command>, i: nat)
    requires Reachable(ctx, commands) && i < |commands|
    requires commands[i].Cancel? && commands[i].target.SameDecision?
    ensures PlacedBefore(commands, i, commands[i].target.clientId)
  {
    var earlier := commands[..i];
    ReachableFacts(ctx, commands, i);
    ProvisionalIsPlaces(ctx, earlier);
    var k := ClientIndex(Provisional(ctx, earlier), commands[i].target.clientId).value;
    assert PlacedBefore(earlier, |earlier|, Provisional(ctx, earlier)[k].clientId);
    var j :| 0 <= j < i && earlier[j].Place? && earlier[j].order.clientId == commands[i].target.clientId;
    assert commands[j] == earlier[j];
  }

  /** A command is within its own bounds, a scheduled timer exactly when its generation is. */
  lemma {:induction false} ReachableCommandIsValid(ctx: Context, commands: seq<Command>, i: nat)
    requires ctx.Valid() && Reachable(ctx, commands) && i < |commands|
    ensures ValidCommand(commands[i]) <==> (commands[i].ScheduleTimer? ==> ValidIdentifier(ctx.TimerGeneration()))
  {
    ReachableFacts(ctx, commands, i);
    if commands[i].Cancel? {
      if commands[i].target.SameDecision? {
        ReachableCancelFollowsPlace(ctx, commands, i);
        var j :| 0 <= j < i && commands[j].Place? && commands[j].order.clientId == commands[i].target.clientId;
        ReachableFacts(ctx, commands, j);
      } else {
        var found := FindOrder(ctx.orders, commands[i].target.orderId).value;
        assert ValidOrder(found);
      }
    }
  }

  ghost predicate SchedulesTimer(commands: seq<Command>) {
    exists i :: 0 <= i < |commands| && commands[i].ScheduleTimer?
  }

  /** Whatever the host admits validates, in any sequence of calls and rollbacks, exactly when it
      schedules no timer or the decision's timer generation is a valid identifier. */
  lemma {:induction false} AdmittedCommandsValidate(ctx: Context, commands: seq<Command>, acknowledges: bool)
    requires ctx.Valid() && Reachable(ctx, commands)
    requires acknowledges ==> ctx.Acknowledgeable() != []
    ensures ValidCommands(ctx, commands, acknowledges)
       <==> (SchedulesTimer(commands) ==> ValidIdentifier(ctx.TimerGeneration()))
  {
    hide Reachable, CommandFacts, ValidCommand, AgreesWithContext, CountRows, OpenOrders, Requests, ValidIdentifier;
    AdmittedAgree(ctx, commands);
    forall i | 0 <= i < |commands|
      ensures ValidCommand(commands[i]) <==> (commands[i].ScheduleTimer? ==> ValidIdentifier(ctx.TimerGeneration()))
    {
      ReachableCommandIsValid(ctx, commands, i);
    }
    forall i | 0 <= i < |commands| && commands[i].Cancel? && commands[i].target.SameDecision?
      ensures PlacedBefore(commands, i, commands[i].target.clientId)
    {
      ReachableCancelFollowsPlace(ctx, commands, i);
    }
    ReachableClientsAreDistinct(ctx, commands);
    ReachableTimerKeysAreDistinct(ctx, commands);
    ReachableRequestsAreBounded(ctx, commands);
    AcknowledgedRowsFit(ctx, commands, acknowledges);
    ReachableOpenOrdersFit(ctx, commands);
  }

  lemma {:induction false} AcknowledgedRowsFit(ctx: Context, commands: seq<Command>, acknowledges: bool)
    requires Reachable(ctx, commands) && (acknowledges ==> ctx.Acknowledgeable() != [])
    ensures CountRows(EmptyRows(ctx.orders, acknowledges, ctx.mode), commands, ctx.orders).Total()
        <= MAX_DECISION_PLAN_ROWS
  {
    ReachableRowsFit(ctx, commands);
    AcknowledgementsOnlyAdd(commands, ctx.orders, ctx.mode);
  }

  /** Counts, ids and agreement with the context. */
  lemma {:induction false} AdmittedAgree(ctx: Context, commands: seq<Command>)
    requires ctx.Valid() && Reachable(ctx, commands)
    ensures |commands| <= MAX_STRATEGY_COMMANDS && DistinctIds(commands)
    ensures forall i :: 0 <= i < |commands| ==>
      && commands[i].Id() == ctx.commandId(i)
      && AgreesWithContext(ctx, commands[i])
      && (commands[i].ScheduleTimer? ==> commands[i].generation == ctx.TimerGeneration())
  {
    forall i | 0 <= i < |commands|
      ensures i < MAX_STRATEGY_COMMANDS && commands[i].Id() == ctx.commandId(i) && AgreesWithContext(ctx, commands[i])
      ensures commands[i].ScheduleTimer? ==> commands[i].generation == ctx.TimerGeneration()
    {
      ReachableFacts(ctx, commands, i);
      assert |commands[..i]| == i;
    }
    if |commands| > MAX_STRATEGY_COMMANDS {
      ReachableFacts(ctx, commands, MAX_STRATEGY_COMMANDS);
    }
  }

  /** The generation of a valid delivery id is a valid identifier exactly up to 154 bytes. */
  lemma GenerationIsValid(deliveryId: string)
    requires ValidIdentifier(deliveryId)
    ensures ValidIdentifier(TIMER_GENERATION_PREFIX + deliveryId) <==> |deliveryId| <= 154
  {
    var generation := TIMER_GENERATION_PREFIX + deliveryId;
    assert generation[..6] == "timer." && generation[6..] == deliveryId;
    assert forall i :: 6 <= i < |generation| ==> generation[i] == deliveryId[i - 6];
  }

  /** A context over no orders and no markets, with timers, and the given delivery id. */
  ghost function TimerContext(deliveryId: string): Context {
    Context(Paper, [], 0, true, true, [], [], deliveryId, Finances(0, 0, 0, 0), [], [], None, 0, 0,
            (n: nat) => seq(n + 1, _ => '0'),
            (n: nat) => None,
            Sizes((c: Command) => 0, (e: RunnerEntry) => 0, (c: seq<Command>) => 0, (e: seq<RunnerEntry>) => 0))
  }

  lemma TimerContextIsValid(deliveryId: string)
    ensures TimerContext(deliveryId).Valid()
  {
    var ctx := TimerContext(deliveryId);
    forall m: nat, n: nat | m < n < MAX_STRATEGY_COMMANDS
      ensures ctx.commandId(m) != ctx.commandId(n)
    {
      assert |ctx.commandId(m)| == m + 1 && |ctx.commandId(n)| == n + 1;
    }
  }

  /** One timer, as the host answers the first call of a decision over `TimerContext`. */
  lemma TimerIsAdmitted(deliveryId: string)
    ensures var ctx := TimerContext(deliveryId);
            Reachable(ctx, [ScheduleTimer(ctx.commandId(0), DEFAULT_TIMER_KEY, 0, ctx.TimerGeneration(), "")])
  {
    var ctx := TimerContext(deliveryId);
    var h := HostState([], [], None, None);
    var call := CallWakeAt(None, 0);
    var command := ScheduleTimer(ctx.commandId(0), DEFAULT_TIMER_KEY, 0, ctx.TimerGeneration(), "");
    assert Judge(ctx, h, call) == Admitted(command);
    assert [command][..0] == [];
    assert Admits(ctx, h, call, [command][..0], [command][0]);
    assert IssuedAt(ctx, [command], 0);
  }

  /** The generation is not checked on admission: over any valid delivery id of more than 154 bytes,
      one timer is admitted that validation refuses. */
  lemma LongDeliveryIdBreaksTimers(deliveryId: string)
    requires ValidIdentifier(deliveryId) && |deliveryId| > 154
    ensures var ctx := TimerContext(deliveryId);
            && ctx.Valid()
            && exists commands :: Reachable(ctx, commands) && !ValidCommands(ctx, commands, false)
  {
    hide Reachable, ValidCommands, Context.Valid;
    TimerContextIsValid(deliveryId);
    var ctx := TimerContext(deliveryId);
    var commands := [ScheduleTimer(ctx.commandId(0), DEFAULT_TIMER_KEY, 0, ctx.TimerGeneration(), "")];
    TimerIsAdmitted(deliveryId);
    AdmittedCommandsValidate(ctx, commands, false);
    GenerationIsValid(deliveryId);
    assert commands[0].ScheduleTimer?;
    assert Reachable(ctx, commands) && !ValidCommands(ctx, commands, false);
  }
}
