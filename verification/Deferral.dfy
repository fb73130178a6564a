/**
 Why an order update fails, and what that costs it: told from the calls its kernel made, the answers it
 was given and the error it returned.
 */
module Deferral {
  import opened Wrappers
  import opened Wire
  import opened Admission
  import opened Updates
  import opened Delivery
  import opened Transparency
  import opened Agreement
  import opened RunnerSection

  // ---------------------------------------------------------------------------------------
  // What a kernel's calls met
  // ---------------------------------------------------------------------------------------

  /** One call of a run: the commands issued before it, the call, and the host's answer. */
  datatype Exchange = Exchange(issued: seq<Command>, call: Call, answer: Response)

  /** The calls a kernel makes for an event, in order. */
  ghost function Exchanges<K>(
      env: Environment<K>, h: HostState, state: K, event: Event, answers: seq<Response>, fuel: nat): seq<Exchange>
    requires h.Valid()
    decreases fuel
  {
    var action := env.kernel.act(state, event, answers);
    if action.Finish? || fuel == 0 then []
    else
      var (h', answer) := Respond(env.ctx, h, action.call);
      [Exchange(h.commands, action.call, answer)] + Exchanges(env, h', state, event, answers + [answer], fuel - 1)
  }

  /** Whether a call was refused for room in the decision. */
  predicate RefusedForRoom(e: Exchange) {
    && e.answer.Refusal?
    && var message := e.answer.message;
       message.CommandsFull? || message.BytesFull? || message.RowsFull? || message.RequestsFull?
  }

  /** The command a call asks for, if it names one: what the decision would issue, had it the room. */
  ghost function AskedFor(ctx: Context, issued: seq<Command>, call: Call): Option<Command> {
    var id := ctx.commandId(|issued|);
    match call
    case CallPlace(request) =>
      var order := OrderFor(ctx, issued, request);
      if order.Success? then Some(Place(order.value)) else None
    case CallCancel(named) =>
      var target := CancelTargetFor(ctx, issued, named);
      if target.Some? then Some(Cancel(id, target.value)) else None
    case CallCancelAll => Some(CancelAll(id))
    case CallWakeAt(name, when) =>
      if when < 0 then None
      else
        Some(ScheduleTimer(
          id, if name.Some? then name.value else DEFAULT_TIMER_KEY, when, ctx.TimerGeneration(), ""))
    case CallCancelTimer(key, generation) => Some(CancelTimer(id, key, generation))
    case CallRequest(kind, target, payload, timeoutMs) => Some(ExternalRequest(id, kind, target, payload, timeoutMs))
    case CallStop(reason) => Some(Stop(id, reason))
    case _ => None
  }

  /** The encoded size of the result with that command and its entry. */
  ghost function BytesAskedFor(ctx: Context, issued: seq<Command>, command: Command): nat {
    ctx.fixedBytes + ctx.sizes.commands(issued) + ctx.sizes.entries(Runner(ctx, issued)) + ctx.sizes.command(command)
      + if command.IsBroker() then ctx.sizes.entry(EntryFor(ctx, Provisional(ctx, issued), command)) else 0
  }

  /** What earlier units' commands and entries take is the sum of their encoded sizes, one by one. */
  lemma {:induction false} SizesAdd(
      sizes: Sizes, a: seq<Command>, command: Command, e: seq<RunnerEntry>, entry: RunnerEntry)
    ensures SumOfCommands(sizes, a + [command]) == SumOfCommands(sizes, a) + sizes.command(command)
    ensures SumOfEntries(sizes, e + [entry]) == SumOfEntries(sizes, e) + sizes.entry(entry)
    ensures SumOfCommands(sizes, []) == 0 && SumOfEntries(sizes, []) == 0
  {
    assert (a + [command])[..|a|] == a && (e + [entry])[..|e|] == e;
  }

  /** Whether the refused call would have fit had the delivery unit's own commands, those from `start` on,
      been the only ones issued. */
  ghost predicate FitsUnitAlone(ctx: Context, e: Exchange, start: nat)
    requires start <= |e.issued| && RefusedForRoom(e)
  {
    var earlier, own := e.issued[..start], e.issued[start..];
    var command := AskedFor(ctx, e.issued, e.call);
    match e.answer.message
    case CommandsFull => |own| < 64
    case RequestsFull => Requests(own) < 8
    case RowsFull(_) => command.Some? && RowsAfter(ctx, own).Plus(command.value, ctx.orders).Total() <= 512
    case _ =>
      && command.Some?
      && BytesAskedFor(ctx, e.issued, command.value)
           <= 917_504 + SumOfCommands(ctx.sizes, earlier) + SumOfEntries(ctx.sizes, OwnEntries(ctx, earlier))
  }

  /** Whether the refusal at `k` is the last for room that the run met. */
  ghost predicate IsLastForRoom(run: seq<Exchange>, k: nat) {
    && k < |run| && RefusedForRoom(run[k])
    && forall j :: k < j < |run| ==> !RefusedForRoom(run[j])
  }

  /** Whether earlier delivery units took the room this one needed: they issued something, and the last
      refusal for room would not have been given to the unit alone. */
  ghost predicate CrowdedOut(ctx: Context, run: seq<Exchange>, start: nat, refusal: Message) {
    && start > 0
    && exists k: nat ::
         && IsLastForRoom(run, k) && run[k].answer == Refusal(refusal)
         && start <= |run[k].issued| && FitsUnitAlone(ctx, run[k], start)
  }

  // ---------------------------------------------------------------------------------------
  // One refusal
  // ---------------------------------------------------------------------------------------

  /** The room a verdict denies, and whether the unit alone would have it. */
  ghost predicate DeniesRoom(ctx: Context, h: HostState, command: Command, verdict: Verdict)
    requires h.Valid()
  {
    match verdict
    case Admitted(admitted) => admitted == command && |h.commands| < 64
    case Refused(message) => message.RunnerFull?
    case NoRoom(message, deferrable) =>
      && (message.BytesFull? || message.RowsFull?)
      && (deferrable <==>
            && IssuedBefore(h.unit)
            && var earlier, own := h.commands[..h.unit.value], h.commands[h.unit.value..];
               if message.RowsFull? then RowsAfter(ctx, own).Plus(command, ctx.orders).Total() <= 512
               else BytesAskedFor(ctx, h.commands, command)
                      <= 917_504 + SumOfCommands(ctx.sizes, earlier)
                           + SumOfEntries(ctx.sizes, OwnEntries(ctx, earlier)))
  }

  lemma CheckDeniesRoom(ctx: Context, h: HostState, command: Command)
    requires h.Valid() && !command.IsBroker() && |h.commands| < 64
    ensures DeniesRoom(ctx, h, command, CheckBytes(ctx, h, command, None))
  {
    hide Runner, OwnEntries, SumOfCommands, SumOfEntries, RowsAfter;
  }

  /** A command has room exactly when the result with it stays within the encoded budget, and if it goes to the
      Broker its plan rows within 512 and the live entries, those failures bring back included, below 256. */
  lemma CommandsHaveRoom(ctx: Context, h: HostState, command: Command)
    requires h.Valid()
    ensures command.IsBroker() ==>
      (Issue(ctx, h, command).Admitted? <==>
         && BytesAskedFor(ctx, h.commands, command) <= 917_504
         && RowsAfter(ctx, h.commands).Plus(command, ctx.orders).Total() <= 512
         && |LiveOnly(Runner(ctx, h.commands))| + ctx.reinstatableLive < 256)
    ensures !command.IsBroker() ==>
      (CheckBytes(ctx, h, command, None).Admitted? <==> BytesAskedFor(ctx, h.commands, command) <= 917_504)
  {
    LiveEntriesAreLive(Runner(ctx, h.commands));
    hide Runner, LiveOnly, LiveEntries, OwnEntries, SumOfCommands, SumOfEntries, RowsAfter, EntryFor, Provisional;
  }

  lemma IssueDeniesRoom(ctx: Context, h: HostState, command: Command)
    requires h.Valid() && command.IsBroker() && |h.commands| < 64
    ensures DeniesRoom(ctx, h, command, Issue(ctx, h, command))
  {
    hide Runner, OwnEntries, SumOfCommands, SumOfEntries, RowsAfter, EntryFor, Provisional;
  }

  /** The host forgets nothing but remembers a refusal for room, as deferrable exactly when earlier units
      took it. */
  ghost predicate RemembersRefusal(ctx: Context, h: HostState, call: Call)
    requires h.Valid()
  {
    var (after, answer) := Respond(ctx, h, call);
    var e := Exchange(h.commands, call, answer);
    && |after.commands| <= 64
    && (!RefusedForRoom(e) ==> after.deferrable == h.deferrable)
    && (RefusedForRoom(e) ==>
          after.deferrable ==
            if h.unit.Some? && h.unit.value > 0 && FitsUnitAlone(ctx, e, h.unit.value) then Some(answer.message)
            else None)
  }

  lemma NoOrdinalIsRemembered(ctx: Context, h: HostState, call: Call)
    requires h.Valid() && |h.commands| == 64 && IssuesCommand(call) && Judge(ctx, h, call) == NextOrdinal(h).value
    ensures RemembersRefusal(ctx, h, call)
  {
    hide Judge, AskedFor, RowsAfter, Requests, BytesAskedFor, SumOfCommands, SumOfEntries, OwnEntries;
  }

  lemma RequestsAreRemembered(ctx: Context, h: HostState, call: Call)
    requires h.Valid() && |h.commands| <= 64 && call.CallRequest?
    requires RequestError(ctx, call).None? && Requests(h.commands) >= MAX_OUTSTANDING_EXTERNAL_REQUESTS
    ensures RemembersRefusal(ctx, h, call)
  {
    hide RequestError, Requests, BytesAskedFor, SumOfCommands, SumOfEntries, OwnEntries, RowsAfter;
  }

  lemma VerdictIsRemembered(ctx: Context, h: HostState, call: Call, command: Command)
    requires h.Valid() && |h.commands| < 64 && IssuesCommand(call)
    requires AskedFor(ctx, h.commands, call) == Some(command)
    requires DeniesRoom(ctx, h, command, Judge(ctx, h, call))
    ensures RemembersRefusal(ctx, h, call)
  {
    hide Judge, AskedFor, RowsAfter, Requests, BytesAskedFor, SumOfCommands, SumOfEntries, OwnEntries;
  }

  lemma PlainRefusalIsRemembered(ctx: Context, h: HostState, call: Call)
    requires h.Valid() && |h.commands| <= 64 && IssuesCommand(call)
    requires var verdict := Judge(ctx, h, call);
      && verdict.Refused?
      && (verdict.message.Invalid? || verdict.message.RunnerFull? || verdict.message.OpenOrdersFull?)
    ensures RemembersRefusal(ctx, h, call)
  {
    hide Judge;
  }

  lemma OrderErrorIsPlain(ctx: Context, commands: seq<Command>, request: PlaceRequest)
    requires OrderFor(ctx, commands, request).Failure?
    ensures var error := OrderFor(ctx, commands, request).error; error.Invalid? || error.OpenOrdersFull?
  {
    hide CommitmentOf, ClientInUse, ValidCommand, PlaceOrderTermsError, Provisional;
  }

  lemma RefusalsAreRemembered(ctx: Context, h: HostState, call: Call)
    requires h.Valid() && |h.commands| <= 64
    ensures RemembersRefusal(ctx, h, call)
  {
    var asked := AskedFor(ctx, h.commands, call);
    match call
    case CallLog(_, _) =>
    case CallTelemetry(_) =>
    case CallView =>
    case CallPlace(request) =>
      if |h.commands| == 64 {
        NoOrdinalIsRemembered(ctx, h, call);
      } else if asked.None? {
        OrderErrorIsPlain(ctx, h.commands, request);
        PlainRefusalIsRemembered(ctx, h, call);
      } else {
        IssueDeniesRoom(ctx, h, asked.value);
        VerdictIsRemembered(ctx, h, call, asked.value);
      }
    case CallCancel(_) =>
      BrokerCallIsRemembered(ctx, h, call);
    case CallCancelAll =>
      BrokerCallIsRemembered(ctx, h, call);
    case _ =>
      OwnCallIsRemembered(ctx, h, call);
  }

  lemma BrokerCallIsRemembered(ctx: Context, h: HostState, call: Call)
    requires h.Valid() && |h.commands| <= 64 && (call.CallCancel? || call.CallCancelAll?)
    ensures RemembersRefusal(ctx, h, call)
  {
    hide Issue, CancelTargetFor, DeniesRoom, RemembersRefusal;
    var asked := AskedFor(ctx, h.commands, call);
    if call.CallCancelAll? && !ctx.ordersComplete {
      PlainRefusalIsRemembered(ctx, h, call);
    } else if |h.commands| == 64 {
      NoOrdinalIsRemembered(ctx, h, call);
    } else if asked.None? {
      PlainRefusalIsRemembered(ctx, h, call);
    } else {
      IssueDeniesRoom(ctx, h, asked.value);
      VerdictIsRemembered(ctx, h, call, asked.value);
    }
  }

  lemma OwnCallIsRemembered(ctx: Context, h: HostState, call: Call)
    requires h.Valid() && |h.commands| <= 64
    requires call.CallWakeAt? || call.CallCancelTimer? || call.CallRequest? || call.CallStop?
    ensures RemembersRefusal(ctx, h, call)
  {
    hide CheckBytes, TimerKeyError, RequestError, DeniesRoom, RemembersRefusal, Requests, ValidIdentifier;
    var verdict := Judge(ctx, h, call);
    if verdict.Refused? {
      OwnRefusalIsPlain(ctx, h, call);
      PlainRefusalIsRemembered(ctx, h, call);
    } else if call.CallRequest? && Requests(h.commands) >= MAX_OUTSTANDING_EXTERNAL_REQUESTS {
      RequestsAreRemembered(ctx, h, call);
    } else if |h.commands| == 64 {
      NoOrdinalIsRemembered(ctx, h, call);
    } else {
      var command := AskedFor(ctx, h.commands, call).value;
      CheckDeniesRoom(ctx, h, command);
      VerdictIsRemembered(ctx, h, call, command);
    }
  }

  lemma OwnRefusalIsPlain(ctx: Context, h: HostState, call: Call)
    requires h.Valid() && |h.commands| <= 64
    requires call.CallWakeAt? || call.CallCancelTimer? || call.CallRequest? || call.CallStop?
    requires Judge(ctx, h, call).Refused?
    ensures Judge(ctx, h, call).message.Invalid?
  {
    hide BytesWith, EarlierBytes, Requests, ValidIdentifier, TimerKeys, ValidHttpPath, ValidExternalRequest;
  }

  // ---------------------------------------------------------------------------------------
  // One run
  // ---------------------------------------------------------------------------------------

  /** What a refusal for room leaves remembered: itself, if it is earlier units' doing. */
  ghost function Remembered(ctx: Context, e: Exchange, start: nat): Option<Message>
    requires RefusedForRoom(e)
  {
    if start > 0 && start <= |e.issued| && FitsUnitAlone(ctx, e, start) then Some(e.answer.message) else None
  }

  ghost predicate NoneForRoom(run: seq<Exchange>) {
    forall k :: 0 <= k < |run| ==> !RefusedForRoom(run[k])
  }

  function StartOf(h: HostState): nat {
    if h.unit.Some? then h.unit.value else 0
  }

  /** The refusal that a run from `h` ends with: what its last refusal for room leaves. */
  ghost predicate EndsWithRefusal(ctx: Context, h: HostState, run: seq<Exchange>, after: HostState) {
    && (forall k: nat :: IsLastForRoom(run, k) ==> after.deferrable == Remembered(ctx, run[k], StartOf(h)))
    && (NoneForRoom(run) ==> after.deferrable == h.deferrable)
  }

  lemma OneCallEarlier(
      ctx: Context, h: HostState, h': HostState, first: Exchange, rest: seq<Exchange>, after: HostState)
    requires h'.unit == h.unit && EndsWithRefusal(ctx, h', rest, after)
    requires !RefusedForRoom(first) ==> h'.deferrable == h.deferrable
    requires RefusedForRoom(first) ==> h'.deferrable == Remembered(ctx, first, StartOf(h))
    ensures EndsWithRefusal(ctx, h, [first] + rest, after)
  {
    hide RefusedForRoom, Remembered, NoneForRoom;
    var run := [first] + rest;
    forall k: nat | IsLastForRoom(run, k)
      ensures after.deferrable == Remembered(ctx, run[k], StartOf(h))
    {
      RestOfLast(first, rest, k);
    }
    if NoneForRoom(run) {
      RestOfNone(first, rest);
    }
  }

  lemma RestOfNone(first: Exchange, rest: seq<Exchange>)
    requires NoneForRoom([first] + rest)
    ensures NoneForRoom(rest) && !RefusedForRoom(first)
  {
    hide RefusedForRoom;
    var run := [first] + rest;
    assert run[0] == first && forall j :: 0 <= j < |rest| ==> run[j + 1] == rest[j];
  }

  lemma RestOfLast(first: Exchange, rest: seq<Exchange>, k: nat)
    requires IsLastForRoom([first] + rest, k)
    ensures k == 0 ==> ([first] + rest)[k] == first && RefusedForRoom(first) && NoneForRoom(rest)
    ensures k > 0 ==> k <= |rest| && ([first] + rest)[k] == rest[k - 1] && IsLastForRoom(rest, k - 1)
  {
    hide RefusedForRoom;
    var run := [first] + rest;
    forall j | 0 <= j < |rest| && k < j + 1
      ensures !RefusedForRoom(rest[j])
    {
      assert run[j + 1] == rest[j];
    }
  }

  /** What the host remembers of a run is told by its calls and answers alone. */
  lemma {:induction false} RunEndsWithRefusal<K>(
      env: Environment<K>, h: HostState, state: K, event: Event, answers: seq<Response>, fuel: nat)
    requires h.Valid() && |h.commands| <= 64
    ensures var after := RunEvent(env, h, state, event, answers, fuel).0;
      && EndsWithRefusal(env.ctx, h, Exchanges(env, h, state, event, answers, fuel), after)
      && |after.commands| <= 64
    decreases fuel
  {
    hide Respond, RefusedForRoom, FitsUnitAlone, EndsWithRefusal;
    var action := env.kernel.act(state, event, answers);
    if action.Finish? || fuel == 0 {
      NothingMet(env.ctx, h);
    } else {
      var (h', answer) := Respond(env.ctx, h, action.call);
      RefusalsAreRemembered(env.ctx, h, action.call);
      RunEndsWithRefusal(env, h', state, event, answers + [answer], fuel - 1);
      OneCallEarlier(env.ctx, h, h', Exchange(h.commands, action.call, answer),
                     Exchanges(env, h', state, event, answers + [answer], fuel - 1),
                     RunEvent(env, h', state, event, answers + [answer], fuel - 1).0);
    }
  }

  lemma NothingMet(ctx: Context, h: HostState)
    ensures EndsWithRefusal(ctx, h, [], h)
  {
  }

  // ---------------------------------------------------------------------------------------
  // One update
  // ---------------------------------------------------------------------------------------

  /** The commands that precede the unit of the next delivery. */
  function UnitStartOf<K>(loop: Loop<K>): nat {
    if loop.unitStart.Some? then loop.unitStart.value else |loop.host.commands|
  }

  /** The host as a delivery begins. */
  function Begun<K>(loop: Loop<K>): HostState {
    loop.host.(unit := Some(UnitStartOf(loop)), deferrable := None)
  }

  /** The calls the kernel makes as the update at `index` is delivered. */
  ghost function CallsOn<K>(env: Environment<K>, steps: seq<Step>, index: nat, loop: Loop<K>): seq<Exchange>
    requires HasUpdate(steps, index) && loop.Valid()
  {
    var event := OrderUpdate(steps[index].update.value);
    Exchanges(env, Begun(loop), loop.kernel, event, [], env.kernel.calls(loop.kernel, event))
  }

  /** The error it returns, if it does. */
  ghost function ErrorOn<K>(env: Environment<K>, steps: seq<Step>, index: nat, loop: Loop<K>): Option<Message>
    requires HasUpdate(steps, index) && loop.Valid()
  {
    Handled(env, Begun(loop), loop.kernel, OrderUpdate(steps[index].update.value)).2
  }

  /** Whether the update waits behind a failed one of its targets: it is a cancel's, and fewer than seven
      decisions in a row put it off. */
  ghost predicate Waits<K>(steps: seq<Step>, index: nat, loop: Loop<K>)
    requires HasUpdate(steps, index)
  {
    && steps[index].previous.Some? && steps[index].previous.value.deliveryDeferrals < 7
    && exists t :: t in Targets(steps, index) && t in loop.failed
  }

  /** Whether the update is a cancel's that may not be put off once more. */
  predicate IsCancelAtBound(steps: seq<Step>, index: nat)
    requires HasUpdate(steps, index)
  {
    && steps[index].previous.Some? && !steps[index].previous.value.kind.PlaceKind?
    && steps[index].previous.value.deliveryDeferrals >= 7
  }

  /** How a delivery fails, as its steps, calls, answers and error tell. */
  ghost predicate FailsAsTold<K>(env: Environment<K>, steps: seq<Step>, index: nat, loop: Loop<K>, after: Loop<K>)
    requires HasUpdate(steps, index) && loop.Valid()
  {
    var error := ErrorOn(env, steps, index, loop);
    if Waits(steps, index, loop) then !after.stopped && after.failed == loop.failed[index := Held]
    else if env.codec.encode(loop.kernel).None? then !after.stopped && after.failed == loop.failed[index := Counted]
    else if error.None? then !after.stopped && after.failed == loop.failed
    else if env.codec.decode(env.codec.encode(loop.kernel).value).Some? then
      && !after.stopped
      && after.failed == loop.failed[
           index :=
             if !IsCancelAtBound(steps, index)
                && CrowdedOut(env.ctx, CallsOn(env, steps, index, loop), UnitStartOf(loop), error.value)
             then Deferred else Counted]
    else
      && after.stopped && index in after.failed && after.failed[index] == Counted
      && forall x: nat :: x != index ==>
           && (x in after.failed <==> x in loop.failed || HasUpdate(steps, x))
           && (x in after.failed ==> after.failed[x] == if x in loop.failed then loop.failed[x] else RolledBack)
  }

  /** What a delivery leaves of kernel and commands: those of the run if the update was handled; the state
      restored from its snapshot, over the commands before, if it failed; a fresh start if that cannot be
      restored; and nothing new if it was not delivered. */
  ghost predicate LeftAsTold<K>(env: Environment<K>, steps: seq<Step>, index: nat, loop: Loop<K>, after: Loop<K>)
    requires HasUpdate(steps, index) && loop.Valid()
  {
    var (host, kernel, error) := Handled(env, Begun(loop), loop.kernel, OrderUpdate(steps[index].update.value));
    var snapshot := env.codec.encode(loop.kernel);
    if Waits(steps, index, loop) || snapshot.None? then
      after.kernel == loop.kernel && after.host.commands == loop.host.commands
    else if error.None? then after.kernel == kernel && after.host.commands == host.commands
    else if env.codec.decode(snapshot.value).Some? then
      && after.kernel == env.codec.decode(snapshot.value).value && after.host.commands == loop.host.commands
    else after.kernel == env.codec.start && after.host.commands == []
  }

  lemma {:induction false} UpdatesLeaveAsTold<K>(env: Environment<K>, steps: seq<Step>, index: nat, loop: Loop<K>)
    requires HasUpdate(steps, index) && loop.Valid() && !loop.stopped
    ensures LeftAsTold(env, steps, index, loop, DeliverOne(env, steps, index, loop))
  {
    hide RunEvent, Targets, RolledBackOutputs, OutOfOrder, Waits, FailureFor;
    WaitsAsTold(steps, index, loop);
  }

  lemma LastIsUnique(run: seq<Exchange>, j: nat, k: nat)
    requires IsLastForRoom(run, j) && IsLastForRoom(run, k)
    ensures j == k
  {
  }

  lemma {:induction false} SomeIsLast(run: seq<Exchange>, n: nat) returns (k: nat)
    requires n < |run| && RefusedForRoom(run[n])
    ensures IsLastForRoom(run, k)
    decreases |run| - n
  {
    hide RefusedForRoom;
    if j :| n < j < |run| && RefusedForRoom(run[j]) {
      k := SomeIsLast(run, j);
    } else {
      k := n;
    }
  }

  /** The refusal remembered is the error returned exactly when earlier units crowded the call out. */
  lemma RememberedIsCrowdedOut(ctx: Context, h: HostState, run: seq<Exchange>, after: HostState, error: Message)
    requires h.unit.Some? && h.deferrable.None? && EndsWithRefusal(ctx, h, run, after)
    ensures after.deferrable == Some(error) <==> CrowdedOut(ctx, run, h.unit.value, error)
  {
    hide FitsUnitAlone, RefusedForRoom;
    if n :| 0 <= n < |run| && RefusedForRoom(run[n]) {
      var k := SomeIsLast(run, n);
      forall j: nat | IsLastForRoom(run, j)
        ensures j == k
      {
        LastIsUnique(run, j, k);
      }
      RefusalHasAnswer(run[k]);
    }
  }

  lemma RefusalHasAnswer(e: Exchange)
    requires RefusedForRoom(e)
    ensures e.answer == Refusal(e.answer.message)
  {
  }

  lemma WaitsAsTold<K>(steps: seq<Step>, index: nat, loop: Loop<K>)
    requires HasUpdate(steps, index)
    ensures OutOfOrder(steps, index, loop.failed) && steps[index].Deferral() < MAX_DELIVERY_DEFERRALS
       <==> Waits(steps, index, loop)
  {
    hide Targets;
    var targets := Targets(steps, index);
    if i :| 0 <= i < |targets| && targets[i] in loop.failed {
      PlaceHasNoTarget(steps, index, targets[i]);
    }
  }

  /** Why an update fails, or does not: a cancel's that waits behind a failed target is held; a state that
      cannot be saved counts; an error is a deferral exactly when the kernel returned the last refusal for
      room, which earlier delivery units took, and the update is no cancel's at its last deferral; every
      other error counts. When the kernel cannot be restored after one, every other update is rolled back. */
  lemma {:induction false} UpdatesFailAsTold<K>(env: Environment<K>, steps: seq<Step>, index: nat, loop: Loop<K>)
    requires HasUpdate(steps, index) && loop.Valid() && !loop.stopped && |loop.host.commands| <= 64
    ensures FailsAsTold(env, steps, index, loop, DeliverOne(env, steps, index, loop))
    ensures |DeliverOne(env, steps, index, loop).host.commands| <= 64
  {
    hide RunEvent, Targets, RolledBackOutputs, OutOfOrder, Waits, CrowdedOut, EndsWithRefusal, Exchanges;
    WaitsAsTold(steps, index, loop);
    var event := OrderUpdate(steps[index].update.value);
    var (after, kernel, error) := Handled(env, Begun(loop), loop.kernel, event);
    RunEndsWithRefusal(env, Begun(loop), loop.kernel, event, [], env.kernel.calls(loop.kernel, event));
    if error.Some? {
      RememberedIsCrowdedOut(env.ctx, Begun(loop), CallsOn(env, steps, index, loop), after, error.value);
    }
  }

  // ---------------------------------------------------------------------------------------
  // What the entry keeps of it
  // ---------------------------------------------------------------------------------------

  /** The entry a step leaves once its update is done with: as the comparison left it, its counts cleared
      if there was an update. */
  ghost predicate LeavesSeen(step: Step, entry: Option<RunnerEntry>) {
    && (step.next.None? ==> entry.None?)
    && (step.next.Some? && step.update.None? ==> entry == step.next)
    && (step.next.Some? && step.update.Some? ==>
          entry == Some(step.next.value.(deliveryFailures := 0, deliveryDeferrals := 0)))
  }

  /** A deferral or hold costs the entry one of eight in a row and no attempt; a counted failure costs one
      of three attempts and ends the row; a rollback costs nothing. The third or eighth abandons the
      update, which then counts as seen, as one that did not fail. */
  lemma FailuresCost(step: Step, failure: Option<Failure>)
    requires step.Valid() && step.update.Some?
    ensures var (was, entry) := (step.previous.value, EntryAfter(step, failure));
      match failure
      case None => LeavesSeen(step, entry)
      case Some(Counted) =>
        if was.deliveryFailures + 1 == 3 then LeavesSeen(step, entry)
        else entry == Some(was.(deliveryFailures := was.deliveryFailures + 1, deliveryDeferrals := 0))
      case Some(RolledBack) => entry == Some(was)
      case Some(_) =>
        if was.deliveryDeferrals + 1 == 8 then LeavesSeen(step, entry)
        else entry == Some(was.(deliveryDeferrals := was.deliveryDeferrals + 1))
  {
    hide ValidIdentifier, ValidEntryShape;
  }

  // ---------------------------------------------------------------------------------------
  // What is said of it
  // ---------------------------------------------------------------------------------------

  /** A kernel's logs and, unless only logs are asked for, telemetry, in the order of its calls. */
  function SaidIn(run: seq<Exchange>, onlyLogs: bool): seq<Output> {
    if run == [] then []
    else
      (match run[0].call
       case CallLog(level, message) => [LogOutput(level, message)]
       case CallTelemetry(entry) => if onlyLogs then [] else [TelemetryOutput(entry)]
       case _ => [])
      + SaidIn(run[1..], onlyLogs)
  }

  lemma NothingSaid()
    ensures SaidIn([], false) == []
  {
  }

  /** What one call adds to the outputs. */
  function Said(call: Call): seq<Output> {
    match call
    case CallLog(level, message) => [LogOutput(level, message)]
    case CallTelemetry(entry) => [TelemetryOutput(entry)]
    case _ => []
  }

  lemma CallAdds(ctx: Context, h: HostState, call: Call)
    requires h.Valid()
    ensures Respond(ctx, h, call).0.outputs == h.outputs + Said(call)
  {
    hide Judge, ViewOf;
  }

  lemma CallSays(ctx: Context, h: HostState, call: Call, rest: seq<Exchange>)
    requires h.Valid()
    ensures var (after, answer) := Respond(ctx, h, call);
      after.outputs + SaidIn(rest, false) == h.outputs + SaidIn([Exchange(h.commands, call, answer)] + rest, false)
  {
    CallAdds(ctx, h, call);
    hide Respond;
    SaidFirst(Exchange(h.commands, call, Respond(ctx, h, call).1), rest);
    hide SaidIn, Said;
  }

  lemma SaidFirst(first: Exchange, rest: seq<Exchange>)
    ensures SaidIn([first] + rest, false) == Said(first.call) + SaidIn(rest, false)
  {
    assert ([first] + rest)[1..] == rest;
  }

  lemma {:induction false} RunSays<K>(
      env: Environment<K>, h: HostState, state: K, event: Event, answers: seq<Response>, fuel: nat)
    requires h.Valid()
    ensures RunEvent(env, h, state, event, answers, fuel).0.outputs
         == h.outputs + SaidIn(Exchanges(env, h, state, event, answers, fuel), false)
    decreases fuel
  {
    hide Respond, SaidIn;
    var action := env.kernel.act(state, event, answers);
    if action.Invoke? && fuel > 0 {
      var (h', answer) := Respond(env.ctx, h, action.call);
      RunSays(env, h', state, event, answers + [answer], fuel - 1);
      CallSays(env.ctx, h, action.call, Exchanges(env, h', state, event, answers + [answer], fuel - 1));
    } else {
      assert SaidIn([], false) == [] by { NothingSaid(); }
    }
  }

  lemma {:induction false} RetainedOfSum(a: seq<Output>, b: seq<Output>)
    ensures Retained(a + b) == Retained(a) + Retained(b)
  {
    if b == [] {
      assert a + b == a;
    } else {
      assert (a + b)[..|a + b| - 1] == a + b[..|b| - 1];
      RetainedOfSum(a, b[..|b| - 1]);
    }
  }

  lemma RetainedOfOne(output: Output)
    ensures Retained([output]) == if output.LogOutput? || output.UpdateError? then [output] else []
  {
    assert [output][..0] == [];
  }

  lemma {:induction false} LogsAreRetained(run: seq<Exchange>)
    ensures Retained(SaidIn(run, false)) == SaidIn(run, true)
  {
    if run != [] {
      LogsAreRetained(run[1..]);
      hide Retained;
      match run[0].call
      case CallLog(level, message) =>
        RetainedOfOne(LogOutput(level, message));
        RetainedOfSum([LogOutput(level, message)], SaidIn(run[1..], false));
      case CallTelemetry(entry) =>
        RetainedOfOne(TelemetryOutput(entry));
        RetainedOfSum([TelemetryOutput(entry)], SaidIn(run[1..], false));
      case _ =>
        assert SaidIn(run, false) == SaidIn(run[1..], false);
    }
  }

  /** What a delivery adds to the outputs: everything the kernel says if it handles the update, with a
      warning if a target's failed before it; its logs and the failure if it does not. */
  ghost predicate SaysAsTold<K>(env: Environment<K>, steps: seq<Step>, index: nat, loop: Loop<K>, after: Loop<K>)
    requires HasUpdate(steps, index) && loop.Valid()
  {
    var run := CallsOn(env, steps, index, loop);
    && (index !in after.failed ==>
          after.host.outputs == loop.host.outputs + SaidIn(run, false)
            + if exists t :: t in Targets(steps, index) && t in loop.failed then [UpdateWarning(index)] else [])
    && (index in after.failed && !after.stopped ==>
          after.host.outputs == loop.host.outputs
            + (if Waits(steps, index, loop) || env.codec.encode(loop.kernel).None? then [] else SaidIn(run, true))
            + [UpdateError(index, after.failed[index])])
  }

  lemma {:induction false} UpdatesSayAsTold<K>(env: Environment<K>, steps: seq<Step>, index: nat, loop: Loop<K>)
    requires HasUpdate(steps, index) && loop.Valid() && !loop.stopped && index !in loop.failed
    ensures SaysAsTold(env, steps, index, loop, DeliverOne(env, steps, index, loop))
  {
    hide RunEvent, Targets, Waits, Exchanges, SaidIn, Retained, FailureFor;
    WaitsAsTold(steps, index, loop);
    TargetFailedAsTold(steps, index, loop);
    hide OutOfOrder;
    var event := OrderUpdate(steps[index].update.value);
    var after := Handled(env, Begun(loop), loop.kernel, event).0;
    RunSays(env, Begun(loop), loop.kernel, event, [], env.kernel.calls(loop.kernel, event));
    LogsAreRetained(CallsOn(env, steps, index, loop));
    assert after.outputs[..|loop.host.outputs|] == loop.host.outputs;
    assert after.outputs[|loop.host.outputs|..] == SaidIn(CallsOn(env, steps, index, loop), false);
  }

  lemma TargetFailedAsTold<K>(steps: seq<Step>, index: nat, loop: Loop<K>)
    requires HasUpdate(steps, index)
    ensures OutOfOrder(steps, index, loop.failed) <==> exists t :: t in Targets(steps, index) && t in loop.failed
  {
    hide Targets;
    var targets := Targets(steps, index);
    if t :| t in targets && t in loop.failed {
      var i :| 0 <= i < |targets| && targets[i] == t;
    }
  }

  // ---------------------------------------------------------------------------------------
  // A decision
  // ---------------------------------------------------------------------------------------

  /** The loop as it comes to its item `p`. */
  ghost function Before<K>(env: Environment<K>, steps: seq<Step>, items: seq<Item>, p: nat): (loop: Loop<K>)
    requires ValidItems(steps, items) && p < |items|
    ensures loop.Valid()
  {
    var loop := Deliver(env, steps, items[..p]);
    if items[p].first then loop.(unitStart := None) else loop
  }

  lemma {:induction false} FewCommands<K>(env: Environment<K>, steps: seq<Step>, items: seq<Item>)
    requires ValidItems(steps, items)
    ensures |Deliver(env, steps, items).host.commands| <= 64
  {
    hide DeliverOne;
    if items != [] {
      var earlier, item := items[..|items| - 1], items[|items| - 1];
      FewCommands(env, steps, earlier);
      var loop := Deliver(env, steps, earlier);
      if !loop.stopped {
        UpdatesFailAsTold(env, steps, item.index, if item.first then loop.(unitStart := None) else loop);
      }
    }
  }

  lemma OthersAreKept<K>(env: Environment<K>, steps: seq<Step>, index: nat, loop: Loop<K>, after: Loop<K>, x: nat)
    requires HasUpdate(steps, index) && loop.Valid() && FailsAsTold(env, steps, index, loop, after)
    requires x in loop.failed && x != index
    ensures x in after.failed && after.failed[x] == loop.failed[x]
  {
    hide Waits, CrowdedOut, CallsOn, ErrorOn, IsCancelAtBound;
  }

  /** A failure is final: whatever is delivered later, it stays, and of its kind. */
  lemma {:induction false} FailureIsFinal<K>(env: Environment<K>, steps: seq<Step>, items: seq<Item>, n: nat, x: nat)
    requires ValidItems(steps, items) && n <= |items| && x in Deliver(env, steps, items[..n]).failed
    ensures var (loop, end) := (Deliver(env, steps, items[..n]), Deliver(env, steps, items));
            x in end.failed && end.failed[x] == loop.failed[x]
  {
    hide DeliverOne, FailsAsTold, FailedAreItems, StoppedFailed;
    if n < |items| {
      var earlier, item := items[..|items| - 1], items[|items| - 1];
      assert earlier[..n] == items[..n];
      FailureIsFinal(env, steps, earlier, n, x);
      var loop := Deliver(env, steps, earlier);
      if !loop.stopped {
        FewCommands(env, steps, earlier);
        FailuresAreItems(env, steps, earlier);
        assert items == earlier + [item];
        NotYetFailed(steps, earlier, item, loop);
        var begun := if item.first then loop.(unitStart := None) else loop;
        UpdatesFailAsTold(env, steps, item.index, begun);
        OthersAreKept(env, steps, item.index, begun, DeliverOne(env, steps, item.index, begun), x);
      }
    } else {
      assert items[..n] == items;
    }
  }

  /** Every update of a decision fails, or does not, as its own delivery tells, and if it fails that is
      final. */
  lemma {:induction false} DecisionsFailAsTold<K>(env: Environment<K>, steps: seq<Step>, items: seq<Item>, p: nat)
    requires ValidItems(steps, items) && p < |items| && !Deliver(env, steps, items[..p]).stopped
    ensures var (before, after, index, end) :=
        (Before(env, steps, items, p), Deliver(env, steps, items[..p + 1]), items[p].index, Deliver(env, steps, items));
      && FailsAsTold(env, steps, index, before, after) && SaysAsTold(env, steps, index, before, after)
      && LeftAsTold(env, steps, index, before, after)
      && (index in after.failed ==> index in end.failed && end.failed[index] == after.failed[index])
  {
    hide DeliverOne, FailsAsTold, SaysAsTold, LeftAsTold;
    FewCommands(env, steps, items[..p]);
    FailuresAreItems(env, steps, items[..p]);
    assert items[..p + 1] == items[..p] + [items[p]];
    assert items[..p + 1][..p] == items[..p];
    NotYetFailed(steps, items[..p], items[p], Deliver(env, steps, items[..p]));
    var before := Before(env, steps, items, p);
    UpdatesFailAsTold(env, steps, items[p].index, before);
    UpdatesSayAsTold(env, steps, items[p].index, before);
    UpdatesLeaveAsTold(env, steps, items[p].index, before);
    if items[p].index in Deliver(env, steps, items[..p + 1]).failed {
      FailureIsFinal(env, steps, items, p + 1, items[p].index);
    }
  }

  // ---------------------------------------------------------------------------------------
  // Units
  // ---------------------------------------------------------------------------------------

  lemma {:induction false} ItemsOfSum(a: seq<seq<nat>>, b: seq<seq<nat>>)
    ensures ItemsOf(a + b) == ItemsOf(a) + ItemsOf(b)
  {
    hide UnitItems;
    if a == [] {
      assert a + b == b;
    } else {
      assert (a + b)[1..] == a[1..] + b;
      ItemsOfSum(a[1..], b);
    }
  }

  /** How many items come before a unit's. */
  function Offset(units: seq<seq<nat>>, u: nat): nat
    requires u <= |units|
  {
    |ItemsOf(units[..u])|
  }

  lemma ItemOfUnit(units: seq<seq<nat>>, u: nat, k: nat)
    requires u < |units| && k < |units[u]|
    ensures Offset(units, u) + k < |ItemsOf(units)|
    ensures var item := ItemsOf(units)[Offset(units, u) + k]; item.index == units[u][k] && (item.first <==> k == 0)
  {
    hide ItemsOf;
    ItemsOfSum(units[..u], units[u..]);
    ItemsOfSum([units[u]], units[u + 1..]);
    assert units == units[..u] + units[u..] && units[u..] == [units[u]] + units[u + 1..];
    OneUnit(units[u]);
  }

  lemma OneUnit(unit: seq<nat>)
    ensures ItemsOf([unit]) == UnitItems(unit)
  {
    assert [unit][1..] == [];
  }

  /** Whether a unit that began when `start` commands were issued goes on. */
  predicate GoesOn<K>(loop: Loop<K>, start: nat) {
    loop.unitStart == Some(start) || (loop.unitStart.None? && |loop.host.commands| == start)
  }

  lemma DeliveryGoesOn<K>(env: Environment<K>, steps: seq<Step>, index: nat, loop: Loop<K>, start: nat)
    requires HasUpdate(steps, index) && loop.Valid() && !loop.stopped && GoesOn(loop, start)
    ensures var after := DeliverOne(env, steps, index, loop); after.stopped || GoesOn(after, start)
  {
    hide RunEvent, Targets, RolledBackOutputs, OutOfOrder;
  }

  /** All updates of a delivery unit share its start: whichever of them is delivered, the commands taken for
      earlier units' are those issued when the unit began. */
  lemma {:induction false} UnitSharesItsStart<K>(
      env: Environment<K>, steps: seq<Step>, units: seq<seq<nat>>, u: nat, k: nat)
    requires ValidItems(steps, ItemsOf(units)) && u < |units| && k < |units[u]|
    requires Offset(units, u) + k < |ItemsOf(units)|
    requires !Deliver(env, steps, ItemsOf(units)[..Offset(units, u) + k]).stopped
    ensures UnitStartOf(Before(env, steps, ItemsOf(units), Offset(units, u) + k))
         == |Deliver(env, steps, ItemsOf(units)[..Offset(units, u)]).host.commands|
  {
    hide DeliverOne, ItemsOf, Offset;
    UnitGoesOn(env, steps, units, u, k);
  }

  lemma {:induction false} UnitGoesOn<K>(env: Environment<K>, steps: seq<Step>, units: seq<seq<nat>>, u: nat, k: nat)
    requires ValidItems(steps, ItemsOf(units)) && u < |units| && k < |units[u]|
    requires Offset(units, u) + k < |ItemsOf(units)|
    requires !Deliver(env, steps, ItemsOf(units)[..Offset(units, u) + k]).stopped
    ensures GoesOn(
              Before(env, steps, ItemsOf(units), Offset(units, u) + k),
              |Deliver(env, steps, ItemsOf(units)[..Offset(units, u)]).host.commands|)
  {
    hide DeliverOne, ItemsOf, Offset;
    var items, o := ItemsOf(units), Offset(units, u);
    ItemOfUnit(units, u, k);
    if k > 0 {
      ItemOfUnit(units, u, k - 1);
      assert items[..o + k][..o + k - 1] == items[..o + k - 1];
      var before := Before(env, steps, items, o + k - 1);
      UnitGoesOn(env, steps, units, u, k - 1);
      DeliveryGoesOn(env, steps, items[o + k - 1].index, before, |Deliver(env, steps, items[..o]).host.commands|);
    }
  }
}
