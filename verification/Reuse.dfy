/**
 Client order ids reused in one decision: for which inputs some kernel, over some codec, leaves a
 runner section that does not validate. It brings back an entry the comparison had dropped, by failing
 on its update, and places another order under the entry's id.
 */
module Reuse {
  import opened Wrappers
  import opened Fees
  import opened Wire
  import opened PlanRows
  import opened Admission
  import opened Validation
  import opened Updates
  import opened Delivery
  import opened Transparency
  import opened Agreement
  import opened RunnerSection
  import opened Transaction

  // ---------------------------------------------------------------------------------------
  // The condition
  // ---------------------------------------------------------------------------------------

  /** Whether the comparison drops a place under `clientId` at step `i`, with an update to deliver. */
  predicate Drops(steps: seq<Step>, i: nat, clientId: string) {
    && HasUpdate(steps, i) && steps[i].next.None?
    && steps[i].previous.Some? && steps[i].previous.value.kind.PlaceKind?
    && steps[i].previous.value.clientId == Some(clientId)
  }

  /** Whether the host lets some calls place an order under `clientId`. */
  ghost predicate Placeable(ctx: Context, clientId: string) {
    exists commands :: Reachable(ctx, commands) && PlacedBefore(commands, |commands|, clientId)
  }

  ghost predicate OtherUpdate(steps: seq<Step>, i: nat) {
    exists k: nat :: k != i && HasUpdate(steps, k)
  }

  /** Whether step `i`'s update can fail and stay due: by a counted failure below the limit, or rolled
      back because another update failed. */
  ghost predicate Repeatable(steps: seq<Step>, i: nat, clientId: string) {
    && Drops(steps, i, clientId)
    && (steps[i].previous.value.deliveryFailures + 1 < MAX_DELIVERY_ATTEMPTS || OtherUpdate(steps, i))
  }

  ghost predicate Reusable(ctx: Context, steps: seq<Step>) {
    exists i: nat, clientId :: Repeatable(steps, i, clientId) && Placeable(ctx, clientId)
  }

  /** An id the host lets a kernel place under is a valid one of no order and no entry kept. */
  lemma {:induction false} PlaceableIsFree(ctx: Context, clientId: string)
    requires Placeable(ctx, clientId)
    ensures ValidProviderClientId(clientId)
    ensures forall k :: 0 <= k < |ctx.orders| ==> ctx.orders[k].clientId != clientId
    ensures forall k :: 0 <= k < |ctx.runner| ==> ctx.runner[k].clientId != Some(clientId)
  {
    hide Reachable, Provisional, OwnEntries, ValidProviderClientId;
    var commands: seq<Command> :| Reachable(ctx, commands) && PlacedBefore(commands, |commands|, clientId);
    var j :| 0 <= j < |commands| && commands[j].Place? && commands[j].order.clientId == clientId;
    ReachableFacts(ctx, commands, j);
    forall k | 0 <= k < |ctx.runner|
      ensures ctx.runner[k].clientId != Some(clientId)
    {
      assert Runner(ctx, commands[..j])[k] == ctx.runner[k];
    }
  }

  /** If the host would admit a place as the decision's first command, its id is placeable. */
  lemma {:induction false} AdmittedFirstIsPlaceable(ctx: Context, request: PlaceRequest)
    requires Judge(ctx, FRESH_HOST, CallPlace(request)).Admitted?
        && Judge(ctx, FRESH_HOST, CallPlace(request)).command.Place?
    ensures Placeable(ctx, Judge(ctx, FRESH_HOST, CallPlace(request)).command.order.clientId)
  {
    hide Judge;
    var command := Judge(ctx, FRESH_HOST, CallPlace(request)).command;
    NothingIsReachable(ctx);
    OneMoreIsReachable(ctx, FRESH_HOST, CallPlace(request));
    assert [] + [command] == [command] && [command][0].Place?;
    assert PlacedBefore([command], 1, command.order.clientId);
  }

  // ---------------------------------------------------------------------------------------
  // Placeable first or not at all
  // ---------------------------------------------------------------------------------------

  /** Whether a place under `clientId` would be admitted as the decision's first command. */
  ghost predicate AdmittedFirst(ctx: Context, clientId: string) {
    exists request: PlaceRequest :: AdmitsFirst(ctx, request, clientId)
  }

  ghost predicate AdmitsFirst(ctx: Context, request: PlaceRequest, clientId: string) {
    var verdict := Judge(ctx, FRESH_HOST, CallPlace(request));
    verdict.Admitted? && verdict.command.Place? && verdict.command.order.clientId == clientId
  }

  function Numbered(ctx: Context, order: PlaceOrder, n: nat): Command {
    Place(order.(commandId := ctx.commandId(n)))
  }

  /** What encoding does: longer lists are no shorter, and command ids are all of one length. */
  ghost predicate SizesGrow(ctx: Context) {
    && (forall a: seq<Command>, b: seq<Command> {:trigger ctx.sizes.commands(a), ctx.sizes.commands(b)} ::
          a <= b ==> ctx.sizes.commands(a) <= ctx.sizes.commands(b))
    && (forall a: seq<RunnerEntry>, b: seq<RunnerEntry> {:trigger ctx.sizes.entries(a), ctx.sizes.entries(b)} ::
          a <= b ==> ctx.sizes.entries(a) <= ctx.sizes.entries(b))
    && (forall order: PlaceOrder, m: nat, n: nat {:trigger Numbered(ctx, order, m), Numbered(ctx, order, n)} ::
          && ctx.sizes.command(Numbered(ctx, order, m)) == ctx.sizes.command(Numbered(ctx, order, n))
          && ctx.sizes.entry(EntryFor(ctx, [], Numbered(ctx, order, m)))
               == ctx.sizes.entry(EntryFor(ctx, [], Numbered(ctx, order, n))))
  }

  /** Derived client order ids start with the prefix reserved for them. */
  ghost predicate DerivedIdsArePrefixed(ctx: Context) {
    forall n: nat :: ctx.derivedClientId(n).Some? ==> DERIVED_CLIENT_ID_PREFIX <= ctx.derivedClientId(n).value
  }

  lemma PlaceWasAsked(ctx: Context, h: HostState, call: Call)
    requires h.Valid() && IssuesCommand(call) && Judge(ctx, h, call).Admitted? && Judge(ctx, h, call).command.Place?
    ensures call.CallPlace? && NextOrdinal(h).None?
    ensures OrderFor(ctx, h.commands, call.request) == Success(Judge(ctx, h, call).command.order)
    ensures Issue(ctx, h, Judge(ctx, h, call).command).Admitted?
  {
    hide OrderFor, CancelTargetFor, TimerKeyError, RequestError, RowsAfter, EntryFor, BytesWith, EarlierBytes, Requests,
      Runner, LiveEntries;
  }

  /** A place under an id of the kernel's own would be built the same as the first command. */
  lemma BuiltFirst(ctx: Context, earlier: seq<Command>, request: PlaceRequest)
    requires ctx.Valid() && DerivedIdsArePrefixed(ctx) && |earlier| < MAX_STRATEGY_COMMANDS
    requires OrderFor(ctx, earlier, request).Success?
    requires !(DERIVED_CLIENT_ID_PREFIX <= OrderFor(ctx, earlier, request).value.clientId)
    ensures OrderFor(ctx, [], request) == Success(OrderFor(ctx, earlier, request).value.(commandId := ctx.commandId(0)))
    ensures OrderFor(ctx, earlier, request).value.commandId == ctx.commandId(|earlier|)
  {
    var order := OrderFor(ctx, earlier, request).value;
    FreeEarlier(ctx, earlier, order.clientId);
    hide ClientInUse, CommitmentOf, FindMarket, ValidIdentifier, OpenOrders, Provisional, PlaceOrderTermsError;
    assert |Provisional(ctx, [])| <= |Provisional(ctx, earlier)| by {
      NothingProvisional(ctx);
    }
    assert ValidCommand(Place(order.(commandId := ctx.commandId(0))));
  }

  lemma NothingProvisional(ctx: Context)
    ensures Provisional(ctx, []) == []
  {
  }

  lemma FreeEarlier(ctx: Context, earlier: seq<Command>, clientId: string)
    requires !ClientInUse(ctx, earlier, clientId)
    ensures !ClientInUse(ctx, [], clientId)
  {
    hide OwnEntries;
    NothingProvisional(ctx);
    hide Provisional;
    assert OwnEntries(ctx, []) == [] by {
      NoOwnEntries(ctx);
    }
    forall i | 0 <= i < |Runner(ctx, [])|
      ensures Runner(ctx, [])[i].clientId != Some(clientId)
    {
      assert Runner(ctx, earlier)[i] == Runner(ctx, [])[i];
    }
  }

  lemma NoOwnEntries(ctx: Context)
    ensures OwnEntries(ctx, []) == []
  {
  }

  lemma BytesFitFirst(ctx: Context, h: HostState, order: PlaceOrder)
    requires h.Valid() && SizesGrow(ctx) && order.commandId == ctx.commandId(|h.commands|)
    requires CheckBytes(ctx, h, Place(order), Some(EntryFor(ctx, Provisional(ctx, h.commands), Place(order)))).Admitted?
    ensures var first := Numbered(ctx, order, 0);
            CheckBytes(ctx, FRESH_HOST, first, Some(EntryFor(ctx, Provisional(ctx, []), first)))
                == Admission.Admitted(first)
  {
    hide Provisional, OwnEntries;
    NoOwnEntries(ctx);
    var n := |h.commands|;
    assert Numbered(ctx, order, n) == Place(order);
    assert Numbered(ctx, order, 0) == Numbered(ctx, order, 0);
    assert Runner(ctx, []) <= Runner(ctx, h.commands) && [] <= h.commands;
    assert ctx.sizes.commands([]) <= ctx.sizes.commands(h.commands);
    assert ctx.sizes.entries(Runner(ctx, [])) <= ctx.sizes.entries(Runner(ctx, h.commands));
  }

  lemma {:induction false} RowsFitFirst(ctx: Context, earlier: seq<Command>, order: PlaceOrder)
    requires ctx.Valid() && DistinctClients(earlier + [Place(order)])
    ensures RowsAfter(ctx, []).Plus(Numbered(ctx, order, 0), ctx.orders).Total()
         <= RowsAfter(ctx, earlier).Plus(Place(order), ctx.orders).Total()
  {
    var all := earlier + [Place(order)];
    assert all[..|all| - 1] == earlier && [Place(order)][..0] == [];
    assert CountRows(StartRows(ctx), all, ctx.orders) == RowsAfter(ctx, earlier).Plus(Place(order), ctx.orders);
    assert CountRows(StartRows(ctx), [Place(order)], ctx.orders) == RowsAfter(ctx, []).Plus(Place(order), ctx.orders);
    hide CountRows;
    UnitAloneNeedsNoMore(earlier, [Place(order)], ctx.orders, ctx.Acknowledgeable() != [], ctx.mode);
  }

  lemma {:induction false} LiveFitFirst(ctx: Context, earlier: seq<Command>)
    ensures LiveEntries(Runner(ctx, [])) <= LiveEntries(Runner(ctx, earlier))
  {
    hide LiveOnly, OwnEntries, LiveEntries;
    NoOwnEntries(ctx);
    LiveEntriesAreLive(Runner(ctx, []));
    LiveEntriesAreLive(Runner(ctx, earlier));
    assert Runner(ctx, []) == ctx.runner;
    LiveOfSum(ctx.runner, OwnEntries(ctx, earlier));
  }

  /** A Broker command that passes the three bounds is admitted, and only then. */
  lemma IssueIsThreeBounds(ctx: Context, h: HostState, command: Command)
    requires h.Valid() && command.IsBroker()
    ensures var sized := CheckBytes(ctx, h, command, Some(EntryFor(ctx, Provisional(ctx, h.commands), command)));
            Issue(ctx, h, command).Admitted? <==>
              && sized.Admitted?
              && RowsAfter(ctx, h.commands).Plus(command, ctx.orders).Total() <= MAX_DECISION_PLAN_ROWS
              && LiveEntries(Runner(ctx, h.commands)) + ctx.reinstatableLive < MAX_RUNNER_ENTRIES
    ensures Issue(ctx, h, command).Admitted? ==> Issue(ctx, h, command).command == command
  {
    hide RowsAfter, EntryFor, BytesWith, EarlierBytes, Runner, LiveEntries, Provisional;
  }

  /** If the host ever lets a decision place under an id of the kernel's own, it does so at once. */
  lemma {:induction false} PlaceableIsAdmittedFirst(ctx: Context, clientId: string)
    requires ctx.Valid() && SizesGrow(ctx) && DerivedIdsArePrefixed(ctx) && !(DERIVED_CLIENT_ID_PREFIX <= clientId)
    ensures Placeable(ctx, clientId) <==> AdmittedFirst(ctx, clientId)
  {
    hide Reachable, Judge, SizesGrow, DerivedIdsArePrefixed, Context.Valid, Admits;
    if Placeable(ctx, clientId) {
      var commands: seq<Command> :| Reachable(ctx, commands) && PlacedBefore(commands, |commands|, clientId);
      var j :| 0 <= j < |commands| && commands[j].Place? && commands[j].order.clientId == clientId;
      IssuedIsAdmittedFirst(ctx, commands, j);
    }
    if AdmittedFirst(ctx, clientId) {
      var request: PlaceRequest :| AdmitsFirst(ctx, request, clientId);
      AdmittedFirstIsPlaceable(ctx, request);
    }
  }

  lemma {:induction false} IssuedIsAdmittedFirst(ctx: Context, commands: seq<Command>, j: nat)
    requires ctx.Valid() && SizesGrow(ctx) && DerivedIdsArePrefixed(ctx) && Reachable(ctx, commands)
    requires j < |commands| && commands[j].Place? && !(DERIVED_CLIENT_ID_PREFIX <= commands[j].order.clientId)
    ensures AdmittedFirst(ctx, commands[j].order.clientId)
  {
    hide Judge, SizesGrow, DerivedIdsArePrefixed, Context.Valid, OrderFor, Issue, CheckBytes, RowsAfter, Rows.Plus,
      Rows.Total, Runner, LiveEntries, EntryFor, Provisional, AdmitsFirst;
    assert IssuedAt(ctx, commands, j);
    var earlier, order := commands[..j], commands[j].order;
    var h: HostState, call :| Admits(ctx, h, call, earlier, commands[j]);
    PlaceWasAsked(ctx, h, call);
    BuiltFirst(ctx, earlier, call.request);
    PrefixIsReachable(ctx, commands, j + 1);
    ReachableClientsAreDistinct(ctx, commands[..j + 1]);
    assert commands[..j + 1] == earlier + [Place(order)];
    IssueIsThreeBounds(ctx, h, Place(order));
    BytesFitFirst(ctx, h, order);
    RowsFitFirst(ctx, earlier, order);
    LiveFitFirst(ctx, earlier);
    IssueIsThreeBounds(ctx, FRESH_HOST, Numbered(ctx, order, 0));
    FirstIsAdmitted(ctx, call.request, order.(commandId := ctx.commandId(0)));
    assert AdmitsFirst(ctx, call.request, order.clientId) by {
      AdmittedAsFirst(ctx, call.request, order.(commandId := ctx.commandId(0)));
    }
  }

  lemma FirstIsAdmitted(ctx: Context, request: PlaceRequest, order: PlaceOrder)
    requires OrderFor(ctx, [], request) == Success(order) && Issue(ctx, FRESH_HOST, Place(order)).Admitted?
    requires Issue(ctx, FRESH_HOST, Place(order)).command == Place(order)
    ensures Judge(ctx, FRESH_HOST, CallPlace(request)) == Admission.Admitted(Place(order))
  {
    hide OrderFor, Issue;
  }

  lemma AdmittedAsFirst(ctx: Context, request: PlaceRequest, order: PlaceOrder)
    requires Judge(ctx, FRESH_HOST, CallPlace(request)) == Admission.Admitted(Place(order))
    ensures AdmitsFirst(ctx, request, order.clientId)
  {
    hide Judge;
  }

  // ---------------------------------------------------------------------------------------
  // Necessary
  // ---------------------------------------------------------------------------------------

  lemma {:induction false} LoneItem(steps: seq<Step>, items: seq<Item>, i: nat)
    requires ValidItems(steps, items) && !OtherUpdate(steps, i)
    requires exists p :: 0 <= p < |items| && items[p].index == i
    ensures |items| == 1 && items[0].index == i
  {
    assert |items| > 1 ==> items[0].index != items[1].index;
    forall p | 0 <= p < |items|
      ensures items[p].index == i
    {
      assert HasUpdate(steps, items[p].index);
    }
  }

  lemma FirstItemFails<K>(env: Environment<K>, steps: seq<Step>, item: Item)
    requires HasUpdate(steps, item.index)
    ensures var failed := DeliverItem(env, steps, item, StartLoop(env)).failed;
            item.index in failed ==> failed[item.index].Counted? || failed[item.index].Deferred?
  {
    hide Handled, Targets, RolledBackOutputs;
  }

  /** A decision's only update can fail in one way. */
  lemma {:induction false} LoneFailureCounts<K>(env: Environment<K>, steps: seq<Step>, i: nat)
    requires ValidSteps(steps) && HasUpdate(steps, i) && !OtherUpdate(steps, i) && i in Delivered(env, steps).failed
    ensures Delivered(env, steps).failed[i].Counted?
  {
    hide DeliverItem, DeliveryUnits, ItemsOf, OtherUpdate;
    DecisionItemsAreValid(steps);
    var items := ItemsOf(DeliveryUnits(steps));
    LoneItem(steps, items, i);
    LoneUnitIsNotDeferred(env, steps, items);
    FirstItemFails(env, steps, items[0]);
    assert items[..|items| - 1] == [];
  }

  /** Whatever the kernel and the codec, a reuse needs a reusable id. */
  lemma {:induction false} ReuseIsReusable<K>(env: Environment<K>, steps: seq<Step>)
    requires Coherent(steps)
    requires ReusesClient(steps, Delivered(env, steps).failed, Triggered(env, steps).0.commands)
    ensures Reusable(env.ctx, steps)
  {
    hide Handled, Deliver, DeliveryUnits, ItemsOf, Reachable, OtherUpdate;
    var commands, failed := Triggered(env, steps).0.commands, Delivered(env, steps).failed;
    var i: nat, j: nat :| Reuses(steps, failed, commands, i, j);
    var clientId := commands[j].order.clientId;
    TriggeredIsReachable(env, steps);
    DecisionItemsAreValid(steps);
    FailuresHaveUpdates(env, steps, ItemsOf(DeliveryUnits(steps)));
    if !OtherUpdate(steps, i) {
      LoneFailureCounts(env, steps, i);
    }
    assert PlacedBefore(commands, |commands|, clientId);
    assert Repeatable(steps, i, clientId) && Placeable(env.ctx, clientId);
  }

  /** Whether a section's place that may be left has the client order id of an adopted order. */
  predicate AdoptionShares(steps: seq<Step>, i: nat, j: nat) {
    && i < |steps| && j < |steps| && steps[j].Adopted()
    && steps[i].previous.Some? && (steps[i].next.Some? || steps[i].update.Some?)
    && SameClient(steps[i].previous.value, steps[j].next.value)
  }

  /** Over inputs that drop no place with an update unless an order still has its client id, adopt no
      order under the client id of a place that may be left, and leave none filled beyond its request,
      the section validates for every kernel and every codec. */
  lemma {:induction false} KeptClientsAlwaysValidate<K>(
      env: Environment<K>, steps: seq<Step>, entries: seq<RunnerEntry>)
    requires env.ctx.Valid() && Coherent(steps) && DerivedFor(env.ctx, steps)
    requires Finalized(steps, Delivered(env, steps).failed, OwnEntries(env.ctx, Triggered(env, steps).0.commands),
        entries)
    requires forall i: nat, clientId :: Drops(steps, i, clientId) ==>
               exists k :: 0 <= k < |env.ctx.orders| && env.ctx.orders[k].clientId == clientId
    requires forall i: nat, j: nat :: !AdoptionShares(steps, i, j)
    requires forall i :: 0 <= i < |steps| && steps[i].next.Some? ==> !Overfilled(steps[i].next.value)
    ensures ValidSection(entries)
  {
    hide Handled, Deliver, DeliveryUnits, ItemsOf, Reachable, OtherUpdate, Finalized, Coherent, DerivedFor,
      Context.Valid, Drops, ReusesClient, AdoptsTracked, Overfills, ValidSection, Placeable, AdoptionShares;
    StepsAreValid(steps);
    DecisionItemsAreValid(steps);
    var failed, commands := Delivered(env, steps).failed, Triggered(env, steps).0.commands;
    FailuresHaveUpdates(env, steps, ItemsOf(DeliveryUnits(steps)));
    TriggeredIsReachable(env, steps);
    SectionValidates(env.ctx, steps, failed, commands, entries);
    if ReusesClient(steps, failed, commands) {
      ReuseIsReusable(env, steps);
      var i: nat, clientId :| Repeatable(steps, i, clientId) && Placeable(env.ctx, clientId);
      assert Drops(steps, i, clientId);
      PlaceableIsFree(env.ctx, clientId);
    }
    if AdoptsTracked(steps, failed) {
      AdoptionIsShared(steps, failed);
    }
    if Overfills(steps, failed) {
      OverfillIsNext(steps, failed);
    }
  }

  lemma {:induction false} AdoptionIsShared(steps: seq<Step>, failed: map<nat, Failure>)
    requires Coherent(steps) && FailedHaveUpdates(steps, failed) && AdoptsTracked(steps, failed)
    ensures exists i: nat, j: nat :: AdoptionShares(steps, i, j)
  {
    hide KeptAfter, ValidEntry, SoundEntry, HeldEntries, VanishedBefore;
    var i: nat, j: nat :| AdoptsBeside(steps, failed, i, j);
    EntryKeepsIdentity(steps, failed, i);
    assert AdoptionShares(steps, i, j);
  }

  lemma {:induction false} OverfillIsNext(steps: seq<Step>, failed: map<nat, Failure>)
    requires ValidSteps(steps) && Overfills(steps, failed)
    ensures exists i :: 0 <= i < |steps| && steps[i].next.Some? && Overfilled(steps[i].next.value)
  {
    hide SoundEntry;
    var i: nat :| LeavesOverfilled(steps, failed, i);
    assert steps[i].Valid();
  }

  // ---------------------------------------------------------------------------------------
  // Sufficient
  // ---------------------------------------------------------------------------------------

  /** A kernel that handles `handled` updates, fails on the next, and makes `calls` on the trigger. Its
      codec restores no snapshot, or each faithfully. */
  ghost function Breaking(ctx: Context, calls: seq<Call>, handled: nat, restores: bool): Environment<nat> {
    Environment(ctx, FailingKernel(calls, handled), Snapshots(restores))
  }

  ghost function FailingKernel(calls: seq<Call>, handled: nat): Kernel<nat> {
    Kernel(
      (state: nat, event: Event, answers: seq<Response>) =>
        if event.OrderUpdate? then
          var next: nat := state + 1;
          if state == handled then Finish(state, Some(Text("not now"))) else Finish(next, None)
        else if |answers| < |calls| then Invoke(calls[|answers|])
        else Finish(state, None),
      (state: nat, event: Event) => |calls|)
  }

  ghost function Snapshots(restores: bool): Codec<nat> {
    Codec(
      (k: nat) => Some([k]),
      (s: seq<int>) => if restores && |s| == 1 && s[0] >= 0 then Some(s[0] as nat) else None,
      0)
  }

  /** Whether `calls` issue `commands`, one each. */
  ghost predicate Issues(ctx: Context, calls: seq<Call>, commands: seq<Command>) {
    |calls| == |commands| && forall n :: 0 <= n < |calls| ==> IssuedBy(ctx, calls[n], commands, n)
  }

  ghost predicate IssuedBy(ctx: Context, call: Call, commands: seq<Command>, n: nat)
    requires n < |commands|
  {
    exists h: HostState :: Admits(ctx, h, call, commands[..n], commands[n])
  }

  lemma {:induction false} CallsOf(ctx: Context, commands: seq<Command>) returns (calls: seq<Call>)
    requires Reachable(ctx, commands)
    ensures Issues(ctx, calls, commands)
  {
    hide Admits;
    calls := [];
    for n := 0 to |commands|
      invariant |calls| == n && forall m :: 0 <= m < n ==> IssuedBy(ctx, calls[m], commands, m)
    {
      assert IssuedAt(ctx, commands, n);
      var h: HostState, call :| Admits(ctx, h, call, commands[..n], commands[n]);
      assert IssuedBy(ctx, call, commands, n);
      calls := calls + [call];
    }
  }

  /** The host admits a call again over the same commands. */
  lemma {:induction false} AdmitsAgain(
      ctx: Context, g: HostState, h: HostState, call: Call, commands: seq<Command>, command: Command)
    requires Admits(ctx, g, call, commands, command) && h.Valid() && h.commands == commands
    ensures Respond(ctx, h, call).0.commands == commands + [command]
  {
    hide Judge;
    JudgeSeesCommands(ctx, g, h, call);
  }

  /** On the trigger the kernel makes its calls again, and the host admits them again. */
  lemma {:induction false} TriggerReplays(
      env: Environment<nat>, calls: seq<Call>, commands: seq<Command>, h: HostState, state: nat, answers: seq<Response>)
    requires exists handled: nat, restores :: env == Breaking(env.ctx, calls, handled, restores)
    requires Issues(env.ctx, calls, commands) && |answers| <= |calls|
    requires h.Valid() && h.commands == commands[..|answers|]
    ensures var (after, kernel, error) := RunEvent(env, h, state, Trigger, answers, |calls| - |answers|);
            after.commands == commands && kernel == state && error.None?
    decreases |calls| - |answers|
  {
    hide Respond, Admits;
    var n := |answers|;
    if n < |calls| {
      assert IssuedBy(env.ctx, calls[n], commands, n);
      var g: HostState :| Admits(env.ctx, g, calls[n], commands[..n], commands[n]);
      AdmitsAgain(env.ctx, g, h, calls[n], commands[..n], commands[n]);
      var (next, answer) := Respond(env.ctx, h, calls[n]);
      assert commands[..n + 1] == commands[..n] + [commands[n]];
      TriggerReplays(env, calls, commands, next, state, answers + [answer]);
    } else {
      assert commands[..n] == commands;
    }
  }

  lemma BreakingHandles(
      ctx: Context, calls: seq<Call>, handled: nat, restores: bool, h: HostState, state: nat, update: UpdateRecord)
    requires h.Valid()
    ensures var env := Breaking(ctx, calls, handled, restores);
            Handled(env, h, state, OrderUpdate(update)) ==
              if state == handled then (h, state, Some(Text("not now"))) else (h, state + 1, None)
  {
  }

  /** Before the one it fails on, the kernel handles every update. */
  lemma {:induction false} HandlesFirst(
      ctx: Context, calls: seq<Call>, handled: nat, steps: seq<Step>, items: seq<Item>)
    requires ValidItems(steps, items) && |items| <= handled
    ensures var loop := Deliver(Breaking(ctx, calls, handled, false), steps, items);
            loop.failed == map[] && !loop.stopped && loop.kernel == |items| && loop.host.commands == []
  {
    hide Handled, Targets, RolledBackOutputs, Undone;
    if items != [] {
      var env, n := Breaking(ctx, calls, handled, false), |items| - 1;
      HandlesFirst(ctx, calls, handled, steps, items[..n]);
      var loop := Deliver(env, steps, items[..n]);
      var start := if items[n].first || loop.unitStart.None? then 0 else loop.unitStart.value;
      BreakingHandles(ctx, calls, handled, false, loop.host.(unit := Some(start), deferrable := None), n,
          steps[items[n].index].update.value);
    }
  }

  lemma FailingStops(ctx: Context, calls: seq<Call>, handled: nat, steps: seq<Step>, index: nat, loop: Loop<nat>)
    requires HasUpdate(steps, index) && loop.Valid() && !loop.stopped && loop.failed == map[] && loop.kernel == handled
    ensures var after := DeliverOne(Breaking(ctx, calls, handled, false), steps, index, loop);
            after.stopped && after.failed == AllRolledBack(steps, map[index := Counted]) && after.kernel == 0
                && after.host.commands == []
  {
    hide Handled, Targets, RolledBackOutputs;
    var start := if loop.unitStart.Some? then loop.unitStart.value else |loop.host.commands|;
    BreakingHandles(ctx, calls, handled, false, loop.host.(unit := Some(start), deferrable := None), handled,
        steps[index].update.value);
    assert map[][index := Counted] == map[index := Counted];
  }

  /** Over a codec that restores nothing, everything fails with the update the kernel fails on. */
  lemma {:induction false} EverythingGoesBack(
      ctx: Context, calls: seq<Call>, handled: nat, steps: seq<Step>, items: seq<Item>)
    requires ValidItems(steps, items) && handled < |items|
    ensures var loop := Deliver(Breaking(ctx, calls, handled, false), steps, items);
      && loop.failed == AllRolledBack(steps, map[items[handled].index := Counted])
      && loop.kernel == 0 && loop.host.commands == []
  {
    hide DeliverOne, AllRolledBack, Deliver;
    var env := Breaking(ctx, calls, handled, false);
    HandlesFirst(ctx, calls, handled, steps, items[..handled]);
    var loop := Deliver(env, steps, items[..handled]);
    DeliverOneMore(env, steps, items, handled);
    FailingStops(ctx, calls, handled, steps, items[handled].index,
                 if items[handled].first then loop.(unitStart := None) else loop);
    StoppedStays(env, steps, items, handled + 1);
  }

  /** Over a faithful codec, a kernel that fails on every update has each place's counted. */
  lemma {:induction false} EveryPlaceCounts(ctx: Context, calls: seq<Call>, steps: seq<Step>, items: seq<Item>)
    requires ValidItems(steps, items)
    ensures var loop := Deliver(Breaking(ctx, calls, 0, true), steps, items);
      && !loop.stopped && loop.kernel == 0 && loop.host.commands == []
      && forall p :: 0 <= p < |items| && !steps[items[p].index].IsCancel() && steps[items[p].index].previous.Some? ==>
           items[p].index in loop.failed && loop.failed[items[p].index].Counted?
  {
    hide DeliverOne;
    if items != [] {
      var env, n := Breaking(ctx, calls, 0, true), |items| - 1;
      EveryPlaceCounts(ctx, calls, steps, items[..n]);
      var loop := Deliver(env, steps, items[..n]);
      FailingCounts(ctx, calls, steps, items[n].index, if items[n].first then loop.(unitStart := None) else loop);
      FailuresOfOne(env, steps, items[n].index, if items[n].first then loop.(unitStart := None) else loop);
      assert forall p :: 0 <= p < n ==> items[..n][p] == items[p] && items[p].index != items[n].index;
    }
  }

  lemma {:induction false} FailingCounts(ctx: Context, calls: seq<Call>, steps: seq<Step>, index: nat, loop: Loop<nat>)
    requires HasUpdate(steps, index) && loop.Valid() && !loop.stopped && loop.kernel == 0 && loop.host.commands == []
    ensures var after := DeliverOne(Breaking(ctx, calls, 0, true), steps, index, loop);
      && !after.stopped && after.kernel == 0 && after.host.commands == []
      && (!steps[index].IsCancel() && steps[index].previous.Some? ==>
          index in after.failed && after.failed[index].Counted?)
  {
    hide Handled, Targets, RolledBackOutputs;
    var start := if loop.unitStart.Some? then loop.unitStart.value else |loop.host.commands|;
    BreakingHandles(ctx, calls, 0, true, loop.host.(unit := Some(start), deferrable := None), 0,
        steps[index].update.value);
    if OutOfOrder(steps, index, loop.failed) {
      PlaceHasNoTarget(steps, index, Targets(steps, index)[0]);
    }
  }

  /** A decision that completes without a kernel error, with a state that validates, and cannot validate
      for its section. */
  ghost predicate Broken<K>(env: Environment<K>, steps: seq<Step>)
    requires ValidSteps(steps)
  {
    var (host, kernel, error) := Triggered(env, steps);
    && error.None? && env.codec.encode(kernel).Some? && ValidState(env.codec.encode(kernel).value)
    && ReusesClient(steps, Delivered(env, steps).failed, host.commands)
  }

  lemma {:induction false} TriggerBreaks(
      env: Environment<nat>, steps: seq<Step>, calls: seq<Call>, commands: seq<Command>, i: nat, clientId: string)
    requires ValidSteps(steps) && (exists handled: nat, restores :: env == Breaking(env.ctx, calls, handled, restores))
    requires Issues(env.ctx, calls, commands) && PlacedBefore(commands, |commands|, clientId)
    requires var loop := Delivered(env, steps);
      && loop.kernel == 0 && loop.host.commands == []
      && Drops(steps, i, clientId) && i in loop.failed && !Abandoned(steps[i], loop.failed[i])
    ensures Broken(env, steps)
  {
    hide Delivered, RunEvent, Abandoned, Issues;
    var loop := Delivered(env, steps);
    assert commands[..0] == [];
    assert |calls| == |commands| by {
      IssuesAsMany(env.ctx, calls, commands);
    }
    TriggerReplays(env, calls, commands, loop.host, 0, []);
    var j :| 0 <= j < |commands| && commands[j].Place? && commands[j].order.clientId == clientId;
    assert Reuses(steps, loop.failed, commands, i, j);
  }

  lemma IssuesAsMany(ctx: Context, calls: seq<Call>, commands: seq<Command>)
    requires Issues(ctx, calls, commands)
    ensures |calls| == |commands|
  {
  }

  /** For every reusable input there are a kernel and a codec that break the decision. */
  lemma {:induction false} ReusableIsBroken(ctx: Context, steps: seq<Step>) returns (env: Environment<nat>)
    requires Coherent(steps) && Reusable(ctx, steps)
    ensures env.ctx == ctx && Broken(env, steps)
  {
    hide Reachable, Issues, Deliver, DeliveryUnits, ItemsOf, Broken, AllRolledBack, Coherent, OtherUpdate;
    StepsAreValid(steps);
    var i: nat, clientId :| Repeatable(steps, i, clientId) && Placeable(ctx, clientId);
    var commands: seq<Command> :| Reachable(ctx, commands) && PlacedBefore(commands, |commands|, clientId);
    var calls := CallsOf(ctx, commands);
    DecisionItemsAreValid(steps);
    var items := ItemsOf(DeliveryUnits(steps));
    var handled := AnotherItem(steps, items, i);
    env := Breaking(ctx, calls, handled, false);
    EverythingGoesBack(ctx, calls, handled, steps, items);
    GoneBackIsRepeated(steps, i, clientId, items[handled].index);
    TriggerBreaks(env, steps, calls, commands, i, clientId);
  }

  /** The position of another item, or of the only one. */
  lemma AnotherItem(steps: seq<Step>, items: seq<Item>, i: nat) returns (p: nat)
    requires ValidItems(steps, items) && HasUpdate(steps, i)
    requires forall x: nat :: HasUpdate(steps, x) <==> exists q :: 0 <= q < |items| && items[q].index == x
    ensures p < |items| && (items[p].index == i ==> !OtherUpdate(steps, i))
  {
    if OtherUpdate(steps, i) {
      var k: nat :| k != i && HasUpdate(steps, k);
      p :| 0 <= p < |items| && items[p].index == k;
    } else {
      p :| 0 <= p < |items| && items[p].index == i;
    }
  }

  lemma GoneBackIsRepeated(steps: seq<Step>, i: nat, clientId: string, index: nat)
    requires ValidSteps(steps) && Repeatable(steps, i, clientId) && (index == i ==> !OtherUpdate(steps, i))
    ensures var failed := AllRolledBack(steps, map[index := Counted]);
            i in failed && !Abandoned(steps[i], failed[i])
  {
    hide OtherUpdate, ValidEntryShape, ValidIdentifier;
    assert steps[i].Valid();
  }

  /** A faithful codec does not help below the limit of counted failures. */
  lemma {:induction false} FaithfulReuse(
      ctx: Context, steps: seq<Step>, i: nat, clientId: string) returns (env: Environment<nat>)
    requires Coherent(steps) && Drops(steps, i, clientId) && Placeable(ctx, clientId)
    requires steps[i].previous.value.deliveryFailures + 1 < MAX_DELIVERY_ATTEMPTS
    ensures env.ctx == ctx && Faithful(env.codec) && Broken(env, steps)
  {
    hide Reachable, Issues, Deliver, DeliveryUnits, ItemsOf, Broken, Coherent;
    StepsAreValid(steps);
    var commands: seq<Command> :| Reachable(ctx, commands) && PlacedBefore(commands, |commands|, clientId);
    var calls := CallsOf(ctx, commands);
    DecisionItemsAreValid(steps);
    env := Breaking(ctx, calls, 0, true);
    EveryPlaceCounts(ctx, calls, steps, ItemsOf(DeliveryUnits(steps)));
    TriggerBreaks(env, steps, calls, commands, i, clientId);
  }

  /** A runner section that cannot validate is possible exactly over the reusable inputs: a place dropped
      with an update that can be delivered again, under an id the host lets the decision use. */
  lemma {:induction false} ReuseIsPossibleExactlyWhen(ctx: Context, steps: seq<Step>)
    requires Coherent(steps)
    ensures (exists env: Environment<nat> :: env.ctx == ctx && Broken(env, steps)) <==> Reusable(ctx, steps)
  {
    hide Reusable, Coherent;
    StepsAreValid(steps);
    if Reusable(ctx, steps) {
      var env := ReusableIsBroken(ctx, steps);
      assert env.ctx == ctx && Broken(env, steps);
    }
    forall env: Environment<nat> | env.ctx == ctx && Broken(env, steps)
      ensures Reusable(ctx, steps)
    {
      ReuseIsReusable(env, steps);
    }
  }

  /** A broken decision fails validation, whatever its checkpoint's sequence. */
  lemma BrokenCannotValidate<K>(env: Environment<K>, steps: seq<Step>)
    requires ValidSteps(steps) && Broken(env, steps)
    ensures CannotValidate(env, steps)
  {
    hide Delivered, Handled;
  }

  // ---------------------------------------------------------------------------------------
  // A reusable input
  // ---------------------------------------------------------------------------------------

  ghost const REQUEST: PlaceRequest :=
    PlaceRequest("m", Sell, Yes, LimitOrder, 100, Some(500_000), None, GoodTillCanceled, false, None, false, None,
        None, Some("x"))

  /** The refused order under the same id, dropped by the comparison with an update to deliver. */
  ghost const REFUSED: RunnerEntry :=
    RunnerEntry("c", PlaceKind, Some("x"), None, Some("m"), Some(Sell), Some(Yes), 100, None, 0, 0, 0, false, 0, 0, 0,
        0)

  ghost const NEWS: UpdateRecord :=
    UpdateRecord("c", PlaceKind, Some("x"), None, Some("m"), Some(Sell), Some(Yes), SeenRefused("r", "r"), 100, 0, 0,
                 0, None, 0, true, false)

  ghost const STEPS: seq<Step> := [Step(Some(REFUSED), None, Some(NEWS))]

  ghost function ReuseContext(): Context {
    TimerContext("d").(markets := [Market("m", Result.Failure(InvalidInput))], reinstatableLive := 1)
  }

  ghost const ORDER: PlaceOrder :=
    PlaceOrder(ReuseContext().commandId(0), "m", Sell, Yes, LimitOrder, 100, Some(500_000), None, GoodTillCanceled,
               false, None, false, "x", None, None, "")

  lemma OrderIsBuilt()
    ensures OrderFor(ReuseContext(), [], REQUEST) == Success(ORDER)
  {
    var ctx := ReuseContext();
    SellCommitsNothing(ctx);
    OrderIsValid();
    assert FindMarket(ctx.markets, "m").Some?;
    assert !ClientInUse(ctx, [], "x");
    hide CommitmentOf, ValidIdentifier, ClientInUse, FindMarket, ValidPlace;
  }

  lemma OrderIsValid()
    ensures ValidCommand(Place(ORDER)) && ValidProviderClientId("x")
  {
    assert ValidIdentifier("m") && ValidIdentifier("x") && ValidIdentifier(ORDER.commandId);
  }

  lemma SellCommitsNothing(ctx: Context)
    ensures CommitmentOf(ctx, Draft(REQUEST)) == Success(0)
  {
  }

  lemma {:induction false} OrderIsAdmitted()
    ensures Judge(ReuseContext(), FRESH_HOST, CallPlace(REQUEST)) == Admitted(Place(ORDER))
  {
    hide OrderFor, Rows.Total, Rows.Plus;
    OrderIsBuilt();
    OneRowFits();
    assert Runner(ReuseContext(), []) == [];
  }

  lemma OneRowFits()
    ensures RowsAfter(ReuseContext(), []).Plus(Place(ORDER), []).Total() <= MAX_DECISION_PLAN_ROWS
  {
    assert OpenOrders([]) == 0;
  }

  lemma IdsAreNew(n: nat)
    ensures ReuseContext().commandId(n) != "c"
  {
    assert ReuseContext().commandId(n)[0] == '0';
  }

  lemma ReuseContextIsValid()
    ensures ReuseContext().Valid()
  {
    TimerContextIsValid("d");
    hide TimerContext;
  }

  lemma StepsAreCoherent()
    ensures Coherent(STEPS)
  {
    assert ValidIdentifier("c") && ValidIdentifier("x") && ValidIdentifier("m");
    assert STEPS[0].Valid();
    assert HeldEntries(STEPS, 1) == HeldEntries(STEPS, 0) + 1;
    assert VanishedBefore(STEPS, 1) == VanishedBefore(STEPS, 0);
  }

  lemma ReuseStepsAreDerived()
    ensures DerivedFor(ReuseContext(), STEPS)
  {
    assert NextEntries(STEPS, 1) == NextEntries(STEPS, 0);
    assert ReinstatableLive(STEPS, 1) == ReinstatableLive(STEPS, 0) + 1;
    assert ReuseContext().runner == [] && ReuseContext().reinstatableLive == 1 && ReuseContext().answeredRequest.None?;
    hide ReuseContext, TimerContext;
    forall n: nat, i | n < MAX_STRATEGY_COMMANDS && 0 <= i < |STEPS| && Subject(STEPS[i]).Some?
      ensures ReuseContext().commandId(n) != Subject(STEPS[i]).value.commandId
    {
      IdsAreNew(n);
    }
  }

  /** The reuse happens: over a valid context and a faithful codec, a decision that completes without a
      kernel error cannot validate. */
  lemma {:induction false} ReuseIsPossible() returns (env: Environment<nat>)
    ensures env.ctx.Valid() && Coherent(STEPS) && DerivedFor(env.ctx, STEPS)
    ensures Faithful(env.codec) && Broken(env, STEPS) && CannotValidate(env, STEPS)
  {
    hide DerivedFor, Coherent, Context.Valid, Faithful, Broken, CannotValidate, Judge, Placeable;
    StepsAreCoherent();
    ReuseContextIsValid();
    ReuseStepsAreDerived();
    OrderIsAdmitted();
    AdmittedFirstIsPlaceable(ReuseContext(), REQUEST);
    assert Drops(STEPS, 0, "x");
    env := FaithfulReuse(ReuseContext(), STEPS, 0, "x");
    StepsAreValid(STEPS);
    BrokenCannotValidate(env, STEPS);
  }
}
