/**
 One decision over the host: the kernel is driven call by call, the order updates are delivered, the
 trigger follows, and the result is assembled.
 */
module Transaction {
  import opened Arithmetic
  import opened Wrappers
  import opened Wire
  import opened Admission
  import opened Validation
  import opened Host
  import opened Updates
  import opened Delivery
  import opened Transparency
  import opened Agreement
  import opened RunnerSection
  import opened Comparison
  import Outputs

  // ---------------------------------------------------------------------------------------
  // Driving the kernel
  // ---------------------------------------------------------------------------------------

  /** Runs the kernel for one event over the host. */
  method Drive<K>(
      env: Environment<K>, host: KernelHost, state: K, event: Event) returns (next: K, error: Option<Message>)
    requires host.Valid() && host.ctx == env.ctx
    modifies host
    ensures host.Valid()
    ensures (host.State(), next, error) == Handled(env, old(host.State()), state, event)
  {
    hide Respond, Context.Valid, SavedDecision.Valid;
    var answers: seq<Response> := [];
    var fuel := env.kernel.calls(state, event);
    while true
      invariant host.Valid()
      invariant RunEvent(env, host.State(), state, event, answers, fuel)
          == Handled(env, old(host.State()), state, event)
      decreases fuel
    {
      var action := env.kernel.act(state, event, answers);
      if action.Finish? {
        return action.state, action.error;
      }
      if fuel == 0 {
        return state, Some(DidNotReturn);
      }
      var answer := host.Handle(action.call);
      answers := answers + [answer];
      fuel := fuel - 1;
    }
  }

  // ---------------------------------------------------------------------------------------
  // The delivery loop
  // ---------------------------------------------------------------------------------------

  /** The loop's variables as the specification's state. */
  ghost function LoopOf<K>(
      host: KernelHost, kernel: K, failed: map<nat, Failure>, unitStart: Option<UpdateStart>, stopped: bool): Loop<K>
    reads host
  {
    Loop(kernel, host.State(), failed, if unitStart.Some? then Some(unitStart.value.commands) else None, stopped)
  }

  /** Between updates: no update is under way, and the current unit began at a valid point. */
  ghost predicate Between<K>(env: Environment<K>, host: KernelHost, unitStart: Option<UpdateStart>)
    reads host, host.rows, host.emptyRows
  {
    && host.Valid() && host.ctx == env.ctx && host.updateStart.None?
    && (unitStart.Some? ==> host.ValidStart(unitStart.value))
  }

  /** Marks every update that has not failed as rolled back. */
  method RollBackAll(steps: seq<Step>, failed: map<nat, Failure>) returns (all: map<nat, Failure>)
    ensures all == AllRolledBack(steps, failed)
  {
    all := failed;
    for i := 0 to |steps|
      invariant forall x: nat :: x in all <==> x in failed || (x < i && steps[x].update.Some?)
      invariant forall x: nat :: x in all ==> all[x] == if x in failed then failed[x] else RolledBack
    {
      if steps[i].update.Some? && i !in all {
        all := all[i := RolledBack];
      }
    }
  }

  /** Looks for a target's update among the failures. */
  method FailedTarget(steps: seq<Step>, index: nat, failed: map<nat, Failure>) returns (found: bool)
    requires index < |steps|
    ensures found == OutOfOrder(steps, index, failed)
  {
    hide Targets;
    var targets := Targets(steps, index);
    for i := 0 to |targets|
      invariant forall j :: 0 <= j < i ==> targets[j] !in failed
    {
      if targets[i] in failed {
        return true;
      }
    }
    return false;
  }

  /** Undoes a failed delivery in place. `loop` and `after` are the states around it, for the
      specification. */
  method Undo<K>(
      env: Environment<K>, host: KernelHost, steps: seq<Step>, index: nat, before: map<nat, Failure>,
      unit: Option<UpdateStart>, saved: SavedDecision, start: SavedDecision, snapshot: seq<int>,
      refusal: Option<Message>, error: Message, ghost loop: Loop<K>, ghost after: HostState)
    returns (kernel: K, failed: map<nat, Failure>, unitStart: Option<UpdateStart>, stopped: bool)
    requires Between(env, host, unit) && HasUpdate(steps, index)
    requires saved.Valid(env.ctx) && start.Valid(env.ctx) && start.commands == [] && start.outputsLen == 0
    requires loop.Valid() && loop.host.outputs <= after.outputs && !loop.stopped
    requires loop.host.commands == saved.commands && |loop.host.outputs| == saved.outputsLen && loop.failed == before
    requires loop.unitStart == if unit.Some? then Some(unit.value.commands) else None
    requires host.State() == after.(unit := None, deferrable := None) && refusal == after.deferrable
    requires unit.Some? ==>
      && unit.value.commands <= |saved.commands| <= |host.commands|
      && saved.commands[..unit.value.commands] == host.commands[..unit.value.commands]
    modifies host
    ensures Between(env, host, unitStart)
    ensures LoopOf(host, kernel, failed, unitStart, stopped) == Undone(env, steps, index, loop, after, snapshot, error)
  {
    hide AllRolledBack, RolledBackOutputs, SavedDecision.Valid, OwnEntries, FailureFor;
    host.Restore(saved);
    unitStart, stopped := unit, false;
    var restored := env.codec.decode(snapshot);
    if restored.Some? {
      kernel := restored.value;
      var failure := FailureFor(steps[index], refusal, error);
      failed := before[index := failure];
      host.Report(UpdateError(index, failure));
    } else {
      kernel := env.codec.start;
      host.Restore(start);
      failed := RollBackAll(steps, before[index := Counted]);
      host.Report(UpdateError(index, Counted));
      unitStart, stopped := None, true;
    }
  }

  /** Delivers one update between a save and, when the kernel fails on it, a restore. */
  method DeliverUpdate<K>(
      env: Environment<K>, host: KernelHost, steps: seq<Step>, index: nat, state: K, before: map<nat, Failure>,
      unit: Option<UpdateStart>, start: SavedDecision)
    returns (kernel: K, failed: map<nat, Failure>, unitStart: Option<UpdateStart>, stopped: bool)
    requires Between(env, host, unit) && HasUpdate(steps, index)
    requires start.Valid(env.ctx) && start.commands == [] && start.outputsLen == 0
    modifies host
    ensures Between(env, host, unitStart)
    ensures LoopOf(host, kernel, failed, unitStart, stopped)
         == DeliverOne(env, steps, index, old(LoopOf(host, state, before, unit, false)))
  {
    hide Handled, OutOfOrder, Undone, SavedDecision.Valid, OwnEntries, KernelHost.Valid;
    kernel, failed, unitStart, stopped := state, before, unit, false;
    var step := steps[index];
    var outOfOrder := FailedTarget(steps, index, before);
    if outOfOrder && step.Deferral() < MAX_DELIVERY_DEFERRALS {
      failed := failed[index := Held];
      host.Report(UpdateError(index, Held));
      return;
    }
    var snapshot := env.codec.encode(state);
    if snapshot.None? {
      failed := failed[index := Counted];
      host.Report(UpdateError(index, Counted));
      return;
    }
    var saved := host.Save();
    unitStart := host.BeginUpdate(unit);
    ghost var begun := host.State();
    var next, error := Drive(env, host, state, OrderUpdate(step.update.value));
    ghost var after := host.State();
    var refusal := host.EndUpdate();
    assert host.commands[..unitStart.value.commands] == begun.commands[..unitStart.value.commands];
    if error.None? {
      kernel := next;
      if outOfOrder {
        host.Report(UpdateWarning(index));
      }
    } else {
      ghost var loop := old(LoopOf(host, state, before, unit, false)).(unitStart := Some(unitStart.value.commands));
      kernel, failed, unitStart, stopped :=
        Undo(env, host, steps, index, before, unitStart, saved, start, snapshot.value, refusal, error.value, loop,
            after);
    }
  }

  /** Nothing more is delivered once the loop stops. */
  lemma {:induction false} StoppedStays<K>(env: Environment<K>, steps: seq<Step>, items: seq<Item>, n: nat)
    requires ValidItems(steps, items) && n <= |items| && Deliver(env, steps, items[..n]).stopped
    ensures Deliver(env, steps, items) == Deliver(env, steps, items[..n])
  {
    hide DeliverOne;
    if n < |items| {
      assert items[..|items| - 1][..n] == items[..n];
      StoppedStays(env, steps, items[..|items| - 1], n);
    } else {
      assert items[..n] == items;
    }
  }

  lemma DeliverOneMore<K>(env: Environment<K>, steps: seq<Step>, items: seq<Item>, n: nat)
    requires ValidItems(steps, items) && n < |items| && !Deliver(env, steps, items[..n]).stopped
    ensures var loop := Deliver(env, steps, items[..n]);
            Deliver(env, steps, items[..n + 1]) ==
              DeliverOne(env, steps, items[n].index, if items[n].first then loop.(unitStart := None) else loop)
  {
    hide DeliverOne;
    assert items[..n + 1][..n] == items[..n];
  }

  /** The loop of a whole decision. */
  ghost function Delivered<K>(env: Environment<K>, steps: seq<Step>): (loop: Loop<K>)
    requires ValidSteps(steps)
    ensures loop.Valid()
  {
    DecisionItemsAreValid(steps);
    Deliver(env, steps, ItemsOf(DeliveryUnits(steps)))
  }

  method DeliverItems<K>(env: Environment<K>, host: KernelHost, steps: seq<Step>, items: seq<Item>)
    returns (kernel: K, failed: map<nat, Failure>)
    requires host.Valid() && host.ctx == env.ctx && host.State() == FRESH_HOST && ValidItems(steps, items)
    modifies host
    ensures host.Valid()
    ensures var loop := Deliver(env, steps, items);
            kernel == loop.kernel && failed == loop.failed && host.State() == loop.host
  {
    hide DeliverOne, Deliver, SavedDecision.Valid, KernelHost.Valid, KernelHost.ValidStart;
    var start := host.Save();
    var unitStart: Option<UpdateStart> := None;
    var stopped := false;
    kernel, failed := env.codec.start, map[];
    DeliverNothing(env, steps);
    for n := 0 to |items|
      invariant Between(env, host, unitStart) && !stopped && start.Valid(env.ctx)
      invariant LoopOf(host, kernel, failed, unitStart, stopped) == Deliver(env, steps, items[..n])
    {
      DeliverOneMore(env, steps, items, n);
      if items[n].first {
        unitStart := None;
      }
      kernel, failed, unitStart, stopped :=
          DeliverUpdate(env, host, steps, items[n].index, kernel, failed, unitStart, start);
      if stopped {
        StoppedStays(env, steps, items, n + 1);
        return;
      }
    }
    assert items[..|items|] == items;
  }

  lemma DeliverNothing<K>(env: Environment<K>, steps: seq<Step>)
    ensures Deliver(env, steps, []) == StartLoop(env)
  {
  }

  /** Delivers every order update of the decision, in delivery order. */
  method DeliverUpdates<K>(env: Environment<K>, host: KernelHost, steps: seq<Step>)
    returns (kernel: K, failed: map<nat, Failure>)
    requires host.Valid() && host.ctx == env.ctx && host.State() == FRESH_HOST && ValidSteps(steps)
    modifies host
    ensures host.Valid()
    ensures var loop := Delivered(env, steps);
            kernel == loop.kernel && failed == loop.failed && host.State() == loop.host
  {
    hide Deliver, KernelHost.Valid, ItemsOf, DeliveryUnits;
    DecisionItemsAreValid(steps);
    var units := DeliveryOrder(steps);
    kernel, failed := DeliverItems(env, host, steps, ItemsOf(units));
  }

  // ---------------------------------------------------------------------------------------
  // The result
  // ---------------------------------------------------------------------------------------

  datatype Disposition =
    | Completed(sequence: nat, state: seq<int>, commands: seq<Command>, acknowledged: seq<string>,
        entries: seq<RunnerEntry>)
    | Rejected(error: Message)

  datatype DecisionResult = DecisionResult(disposition: Disposition, outputs: seq<Output>)

  datatype TransactionError = SequenceExhausted | StateNotSaved | InvalidResult

  /** Host, kernel and kernel error once the trigger has followed the order updates. */
  ghost function Triggered<K>(env: Environment<K>, steps: seq<Step>): (r: (HostState, K, Option<Message>))
    requires ValidSteps(steps)
    ensures r.0.Valid()
  {
    var loop := Delivered(env, steps);
    Handled(env, loop.host, loop.kernel, Trigger)
  }

  lemma {:induction false} TriggeredIsReachable<K>(env: Environment<K>, steps: seq<Step>)
    requires ValidSteps(steps)
    ensures Reachable(env.ctx, Triggered(env, steps).0.commands)
  {
    hide Handled, Reachable, Deliver;
    var loop := Delivered(env, steps);
    DecisionItemsAreValid(steps);
    DeliveredCommandsAreReachable(env, steps, ItemsOf(DeliveryUnits(steps)));
    HandledKeepsReachable(env, loop.host, loop.kernel, Trigger);
  }

  predicate ValidState(state: seq<int>) {
    0 < |state| <= MAX_KERNEL_CHECKPOINT_BYTES
  }

  /** Result validation, as far as results are modelled. A rejected result carries nothing of its own. */
  ghost predicate ValidResult(ctx: Context, disposition: Disposition) {
    && ValidIdentifier(ctx.deliveryId)
    && match disposition
       case Rejected(_) => true
       case Completed(_, state, commands, acknowledged, entries) =>
         && ValidState(state) && ValidCommands(ctx, commands, acknowledged != [])
         && ValidSection(entries) && ValidTracking(ctx, commands, acknowledged, entries)
  }

  method ValidateResult(ctx: Context, disposition: Disposition) returns (ok: bool)
    ensures ok <==> ValidResult(ctx, disposition)
  {
    hide ValidCommands, ValidSection, ValidTracking, ValidIdentifier;
    ok := ValidIdentifier(ctx.deliveryId);
    match disposition
    case Rejected(_) =>
    case Completed(_, state, commands, acknowledged, entries) =>
      var validCommands := ValidateCommands(ctx, commands, acknowledged != []);
      var validSection := ValidateSection(entries);
      var validTracking := ValidateTracking(ctx, commands, acknowledged, entries);
      ok := ok && ValidState(state) && validCommands && validSection && validTracking;
  }

  /** Why an assembled result fails validation: a delivery id that is no identifier, or in a completed
      decision a saved state that is empty or too long, a scheduled timer whose generation is no valid
      identifier, or a runner section with a reused client order id, an order adopted beside an entry of
      its own client order id, or an entry filled beyond its request. */
  ghost predicate CannotValidate<K>(env: Environment<K>, steps: seq<Step>)
    requires ValidSteps(steps)
  {
    var (host, kernel, error) := Triggered(env, steps);
    var failed := Delivered(env, steps).failed;
    || !ValidIdentifier(env.ctx.deliveryId)
    || (error.None? && env.codec.encode(kernel).Some? && !(0 < |env.codec.encode(kernel).value| <= 131_072))
    || (error.None? && SchedulesTimer(host.commands) && !ValidIdentifier(env.ctx.TimerGeneration()))
    || (error.None? && ReusesClient(steps, failed, host.commands))
    || (error.None? && AdoptsTracked(steps, failed))
    || (error.None? && Overfills(steps, failed))
  }

  /** The checkpoint after this one, advanced by exactly one. */
  function NextSequence(sequence: Option<nat>): Option<nat> {
    if sequence.None? then Some(1)
    else if sequence.value >= U64_MAX then None
    else Some(sequence.value + 1)
  }

  /** Whether no 64-bit number follows the checkpoint's. */
  predicate IsExhausted(sequence: Option<nat>) {
    sequence.Some? && sequence.value >= 0xFFFF_FFFF_FFFF_FFFF
  }

  /** What a completed decision's result carries. */
  ghost predicate CompletedAs<K>(env: Environment<K>, steps: seq<Step>, disposition: Disposition)
    requires ValidSteps(steps)
  {
    var (host, kernel, error) := Triggered(env, steps);
    && error.None? && disposition.Completed?
    && env.codec.encode(kernel) == Some(disposition.state)
    && disposition.commands == host.commands
    && disposition.acknowledged == Acknowledgements(env.ctx, disposition.entries)
    && Finalized(steps, Delivered(env, steps).failed, OwnEntries(env.ctx, host.commands), disposition.entries)
  }

  /** How a decision over these steps ends: with an exhausted sequence, an unsaved state, a result that
      cannot validate, a rejection when the kernel fails on the trigger, or completed. */
  ghost predicate EndsAs<K>(
      env: Environment<K>, steps: seq<Step>, sequence: Option<nat>, r: Result<DecisionResult, TransactionError>)
    requires ValidSteps(steps)
  {
    var (host, kernel, error) := Triggered(env, steps);
    && (r == Result.Failure(SequenceExhausted) <==> error.None? && IsExhausted(sequence))
    && (r == Result.Failure(StateNotSaved) <==>
          error.None? && !IsExhausted(sequence) && env.codec.encode(kernel).None?)
    && (r == Result.Failure(InvalidResult) <==>
          && (error.None? ==> !IsExhausted(sequence) && env.codec.encode(kernel).Some?)
          && CannotValidate(env, steps))
    && (r.Success? ==> ValidResult(env.ctx, r.value.disposition) && r.value.outputs == host.outputs)
    && (r.Success? && error.Some? ==> r.value.disposition == Rejected(error.value))
    && (r.Success? && error.None? ==>
          && CompletedAs(env, steps, r.value.disposition)
          && r.value.disposition.sequence == if sequence.None? then 1 else sequence.value + 1)
  }

  /** One decision, from its updates to its validated result. It is rejected, with neither commands nor
      acknowledgements, when the kernel fails on the trigger. */
  method RunTransaction<K>(env: Environment<K>, steps: seq<Step>, sequence: Option<nat>)
    returns (r: Result<DecisionResult, TransactionError>)
    requires env.ctx.Valid() && Coherent(steps) && DerivedFor(env.ctx, steps)
    ensures EndsAs(env, steps, sequence, r)
  {
    hide Handled, Deliver, DeliveryUnits, ItemsOf, Coherent, DerivedFor, ValidResult, Finalized, ReusesClient,
      AdoptsTracked, Overfills, CannotValidate, KernelHost.Valid, Reachable, OwnEntries, Context.Valid,
      Acknowledgements, EntriesAfter;
    var host := new KernelHost(env.ctx);
    StepsAreValid(steps);
    var kernel, failed := DeliverUpdates(env, host, steps);
    var error: Option<Message>;
    kernel, error := Drive(env, host, kernel, Trigger);
    var disposition: Disposition;
    if error.Some? {
      disposition := Rejected(error.value);
      RejectionValidates(env, steps);
    } else {
      var issued := IssuedEntries(host);
      var entries := Finalize(steps, failed, issued);
      var acknowledged := Acknowledgements(env.ctx, entries);
      var next := NextSequence(sequence);
      if next.None? {
        return Result.Failure(SequenceExhausted);
      }
      var state := env.codec.encode(kernel);
      if state.None? {
        return Result.Failure(StateNotSaved);
      }
      disposition := Completed(next.value, state.value, host.commands, acknowledged, entries);
      ResultValidates(env, steps, disposition);
    }
    var valid := ValidateResult(env.ctx, disposition);
    if !valid {
      return Result.Failure(InvalidResult);
    }
    return Success(DecisionResult(disposition, host.outputs));
  }

  /** A whole decision, from the checkpoint's section and the view: it ends as the decision over the steps
      compared, and a valid section never holds too much for that. */
  method Decide<K>(env: Environment<K>, section: Section, view: BrokerView, sequence: Option<nat>)
    returns (r: Result<DecisionResult, TransactionError>)
    requires env.ctx.Valid() && view.Valid() && ValidSection(section.entries) && Reflects(env.ctx, section, view)
    ensures Compared(section, view).Some? && Coherent(Compared(section, view).value)
    ensures EndsAs(env, Compared(section, view).value, sequence, r)
  {
    hide EndsAs, Compared, Coherent, DerivedFor, Reflects, ValidSection, Context.Valid, BrokerView.Valid;
    var steps := Compare(section, view);
    ComparisonIsCoherent(section, view);
    ComparisonIsDerived(env.ctx, section, view);
    StepsAreValid(steps.value);
    r := RunTransaction(env, steps.value, sequence);
  }

  lemma RejectionValidates<K>(env: Environment<K>, steps: seq<Step>)
    requires ValidSteps(steps) && Triggered(env, steps).2.Some?
    ensures ValidResult(env.ctx, Rejected(Triggered(env, steps).2.value)) <==> !CannotValidate(env, steps)
  {
    hide ValidIdentifier, Handled, Delivered;
  }

  /** Splits the entries of this decision's commands off the host's. */
  method IssuedEntries(host: KernelHost) returns (issued: seq<RunnerEntry>)
    requires host.Valid()
    ensures issued == OwnEntries(host.ctx, host.commands)
  {
    hide OwnEntries;
    issued := host.runner[|host.ctx.runner|..];
  }

  /** Only an update that was delivered fails. */
  lemma FailuresHaveUpdates<K>(env: Environment<K>, steps: seq<Step>, items: seq<Item>)
    requires ValidItems(steps, items)
    ensures FailedHaveUpdates(steps, Deliver(env, steps, items).failed)
  {
    hide DeliverOne, FailedHaveUpdates;
    if items == [] {
      NoFailureHasNoUpdate(steps);
    } else {
      FailuresHaveUpdates(env, steps, items[..|items| - 1]);
      var item, loop := items[|items| - 1], Deliver(env, steps, items[..|items| - 1]);
      if !loop.stopped {
        FailureHasUpdate(env, steps, item.index, if item.first then loop.(unitStart := None) else loop);
      }
    }
  }

  lemma NoFailureHasNoUpdate(steps: seq<Step>)
    ensures FailedHaveUpdates(steps, map[])
  {
  }

  lemma FailureHasUpdate<K>(env: Environment<K>, steps: seq<Step>, index: nat, loop: Loop<K>)
    requires HasUpdate(steps, index) && loop.Valid() && FailedHaveUpdates(steps, loop.failed)
    ensures FailedHaveUpdates(steps, DeliverOne(env, steps, index, loop).failed)
  {
    hide Handled, Targets, RolledBackOutputs;
  }

  /** An assembled result validates exactly when none of the reasons against it holds. */
  lemma {:induction false} ResultValidates<K>(env: Environment<K>, steps: seq<Step>, disposition: Disposition)
    requires env.ctx.Valid() && Coherent(steps) && DerivedFor(env.ctx, steps)
    requires CompletedAs(env, steps, disposition)
    ensures ValidResult(env.ctx, disposition) <==> !CannotValidate(env, steps)
  {
    hide Handled, Deliver, DeliveryUnits, ItemsOf, DerivedFor, ValidCommands, ValidSection, ValidTracking, ReusesClient,
      AdoptsTracked, Overfills, EvictedInTurn, SchedulesTimer, ValidIdentifier, Reachable, OwnEntries, Context.Valid,
      EntriesAfter, LiveOnly, Acknowledgements, Finalized;
    var commands, entries, failed := disposition.commands, disposition.entries, Delivered(env, steps).failed;
    DecisionItemsAreValid(steps);
    FailuresHaveUpdates(env, steps, ItemsOf(DeliveryUnits(steps)));
    TriggeredIsReachable(env, steps);
    DecisionIsTracked(env.ctx, steps, failed, commands, entries);
    AdmittedCommandsValidate(env.ctx, commands, disposition.acknowledged != []);
    SectionValidates(env.ctx, steps, failed, commands, entries);
  }

  // ---------------------------------------------------------------------------------------
  // Resident runs
  // ---------------------------------------------------------------------------------------

  /** What a resident decision returns, with the kernel and the section it leaves. */
  datatype NativeDecision<K> = NativeDecision(
    kernel: K,
    commands: seq<Command>,
    acknowledged: seq<string>,
    diagnostics: seq<Outputs.Line>,
    telemetry: seq<Telemetry>,
    entries: seq<RunnerEntry>)

  /** The updates in delivery order. */
  ghost function DeliveryIndices(steps: seq<Step>): seq<nat> {
    Indices(ItemsOf(DeliveryUnits(steps)))
  }

  /** A resident run of a whole decision: nothing on any kernel error. */
  ghost function PlainDecision<K>(env: Environment<K>, steps: seq<Step>): (r: Option<(HostState, K)>)
    ensures r.Some? ==> r.value.0.Valid()
  {
    var updated := PlainRun(env, steps, DeliveryIndices(steps));
    if updated.None? then None
    else
      var (host, kernel, error) := Handled(env, updated.value.0, updated.value.1, Trigger);
      if error.Some? then None else Some((host, kernel))
  }

  lemma PlainRunStops<K>(env: Environment<K>, steps: seq<Step>, indices: seq<nat>, n: nat)
    requires n <= |indices| && PlainRun(env, steps, indices[..n]).None?
    ensures PlainRun(env, steps, indices).None?
    decreases |indices|
  {
    hide Handled;
    if n < |indices| {
      assert indices[..|indices| - 1][..n] == indices[..n];
      PlainRunStops(env, steps, indices[..|indices| - 1], n);
    } else {
      assert indices[..n] == indices;
    }
  }

  lemma PlainRunOfNothing<K>(env: Environment<K>, steps: seq<Step>)
    ensures PlainRun(env, steps, []) == Some((FRESH_HOST, env.codec.start))
  {
  }

  /** Outputs of the kernel itself: a resident run records no update's failure. */
  ghost predicate FromKernel(outputs: seq<Output>) {
    forall i :: 0 <= i < |outputs| ==> outputs[i].LogOutput? || outputs[i].TelemetryOutput?
  }

  lemma {:induction false} RunAddsFromKernel<K>(
      env: Environment<K>, h: HostState, state: K, event: Event, answers: seq<Response>, fuel: nat)
    requires h.Valid() && FromKernel(h.outputs)
    ensures FromKernel(RunEvent(env, h, state, event, answers, fuel).0.outputs)
    decreases fuel
  {
    hide Judge;
    var action := env.kernel.act(state, event, answers);
    if action.Invoke? && fuel > 0 {
      var (h', answer) := Respond(env.ctx, h, action.call);
      RunAddsFromKernel(env, h', state, event, answers + [answer], fuel - 1);
    }
  }

  lemma {:induction false} PlainRunIsFromKernel<K>(env: Environment<K>, steps: seq<Step>, indices: seq<nat>)
    requires PlainRun(env, steps, indices).Some?
    ensures FromKernel(PlainRun(env, steps, indices).value.0.outputs)
    ensures Reachable(env.ctx, PlainRun(env, steps, indices).value.0.commands)
  {
    hide RunEvent, Reachable;
    if indices == [] {
      NothingIsReachable(env.ctx);
    } else {
      var earlier, update := indices[..|indices| - 1], steps[indices[|indices| - 1]].update.value;
      PlainRunIsFromKernel(env, steps, earlier);
      var (host, kernel) := PlainRun(env, steps, earlier).value;
      var event := OrderUpdate(update);
      RunAddsFromKernel(env, host, kernel, event, [], env.kernel.calls(kernel, event));
      HandledKeepsReachable(env, host, kernel, event);
    }
  }

  /** A resident decision reports no update: its outputs are the kernel's logs and telemetry. */
  lemma {:induction false} PlainDecisionIsFromKernel<K>(env: Environment<K>, steps: seq<Step>)
    requires PlainDecision(env, steps).Some?
    ensures FromKernel(PlainDecision(env, steps).value.0.outputs)
    ensures Reachable(env.ctx, PlainDecision(env, steps).value.0.commands)
  {
    hide RunEvent, Reachable, PlainRun;
    PlainRunIsFromKernel(env, steps, DeliveryIndices(steps));
    var (host, kernel) := PlainRun(env, steps, DeliveryIndices(steps)).value;
    RunAddsFromKernel(env, host, kernel, Trigger, [], env.kernel.calls(kernel, Trigger));
    HandledKeepsReachable(env, host, kernel, Trigger);
  }

  /** A log as a resident decision's diagnostic: of any length, wrapped only if its level is unknown or
      its text empty. */
  function LogLine(r: Outputs.Rendering, level: string, message: string): Outputs.Line {
    var known := Outputs.ValidLevel(level);
    Outputs.Line(if known then level else "info", Outputs.KERNEL_LOG,
      if known && message != "" then message else r.wrapped(level, message))
  }

  lemma NativeLogsAreTold(r: Outputs.Rendering, level: string, message: string)
    ensures var (line, known) := (LogLine(r, level, message), level in {"error", "warn", "info", "debug"});
      && line.code == "kernel_log" && line.severity == (if known then level else "info")
      && line.text == if known && message != "" then message else r.wrapped(level, message)
  {
  }

  /** The logs among the outputs as diagnostics, in order. */
  ghost function LogLines(r: Outputs.Rendering, outputs: seq<Output>): seq<Outputs.Line> {
    if outputs == [] then []
    else
      var last := outputs[|outputs| - 1];
      LogLines(r, outputs[..|outputs| - 1]) + if last.LogOutput? then [LogLine(r, last.level, last.message)] else []
  }

  /** The telemetry entries among the outputs, in order. */
  ghost function EntriesOf(outputs: seq<Output>): seq<Telemetry> {
    if outputs == [] then []
    else
      var last := outputs[|outputs| - 1];
      EntriesOf(outputs[..|outputs| - 1]) + if last.TelemetryOutput? then [last.entry] else []
  }

  /** Splits the outputs; none is lost. */
  method SplitOutputs(
      r: Outputs.Rendering, outputs: seq<Output>) returns (diagnostics: seq<Outputs.Line>, telemetry: seq<Telemetry>)
    requires FromKernel(outputs)
    ensures diagnostics == LogLines(r, outputs) && telemetry == EntriesOf(outputs)
    ensures |diagnostics| + |telemetry| == |outputs|
  {
    diagnostics, telemetry := [], [];
    for i := 0 to |outputs|
      invariant diagnostics == LogLines(r, outputs[..i]) && telemetry == EntriesOf(outputs[..i])
      invariant |diagnostics| + |telemetry| == i
    {
      assert outputs[..i + 1][..i] == outputs[..i];
      match outputs[i]
      case LogOutput(level, message) => diagnostics := diagnostics + [LogLine(r, level, message)];
      case TelemetryOutput(entry) => telemetry := telemetry + [entry];
      case _ => assert false;
    }
    assert outputs[..|outputs|] == outputs;
  }

  /** Runs a resident kernel over the host: no snapshots, no rollback; an error ends it with nothing
      returned. */
  method RunNative<K>(env: Environment<K>, steps: seq<Step>, rendering: Outputs.Rendering)
    returns (r: Option<NativeDecision<K>>)
    requires env.ctx.Valid() && ValidSteps(steps)
    ensures r.Some? <==> PlainDecision(env, steps).Some?
    ensures r.Some? ==>
      var (host, kernel) := PlainDecision(env, steps).value;
      && r.value.kernel == kernel && r.value.commands == host.commands
      && r.value.diagnostics == LogLines(rendering, host.outputs) && r.value.telemetry == EntriesOf(host.outputs)
      && |r.value.diagnostics| + |r.value.telemetry| == |host.outputs|
      && Finalized(steps, map[], OwnEntries(env.ctx, host.commands), r.value.entries)
      && r.value.acknowledged == Acknowledgements(env.ctx, r.value.entries)
  {
    hide Handled, DeliveryUnits, ItemsOf, Finalized, KernelHost.Valid, OwnEntries, PlainRun, FromKernel,
      Acknowledgements, Reachable;
    var host := new KernelHost(env.ctx);
    var kernel := env.codec.start;
    var units := DeliveryOrder(steps);
    DecisionItemsAreValid(steps);
    var items := ItemsOf(units);
    ghost var indices := DeliveryIndices(steps);
    assert PlainRun(env, steps, indices[..0]) == Some((FRESH_HOST, kernel)) by { PlainRunOfNothing(env, steps); }
    for n := 0 to |items|
      invariant host.Valid() && host.ctx == env.ctx
      invariant PlainRun(env, steps, indices[..n]) == Some((host.State(), kernel))
    {
      var error: Option<Message>;
      assert indices[..n + 1] == indices[..n] + [items[n].index];
      PlainRunOneMore(env, steps, indices[..n], items[n].index);
      kernel, error := Drive(env, host, kernel, OrderUpdate(steps[items[n].index].update.value));
      if error.Some? {
        PlainRunStops(env, steps, indices, n + 1);
        return None;
      }
    }
    assert indices[..|items|] == indices;
    var error: Option<Message>;
    kernel, error := Drive(env, host, kernel, Trigger);
    if error.Some? {
      return None;
    }
    PlainDecisionIsFromKernel(env, steps);
    var issued := IssuedEntries(host);
    var entries := Finalize(steps, map[], issued);
    var acknowledged := Acknowledgements(env.ctx, entries);
    var diagnostics, telemetry := SplitOutputs(rendering, host.outputs);
    return Some(NativeDecision(kernel, host.commands, acknowledged, diagnostics, telemetry, entries));
  }

  /** A resident decision tracks its Broker commands, and the section it leaves validates unless the
      comparison alone breaks it: nothing is brought back, so nothing is reused. */
  lemma {:induction false} NativeSectionValidates<K>(env: Environment<K>, steps: seq<Step>, entries: seq<RunnerEntry>)
    requires env.ctx.Valid() && Coherent(steps) && DerivedFor(env.ctx, steps) && PlainDecision(env, steps).Some?
    requires Finalized(steps, map[], OwnEntries(env.ctx, PlainDecision(env, steps).value.0.commands), entries)
    ensures ValidSection(entries) <==> !AdoptsTracked(steps, map[]) && !Overfills(steps, map[])
    ensures ValidTracking(env.ctx, PlainDecision(env, steps).value.0.commands, Acknowledgements(env.ctx, entries),
        entries)
  {
    hide PlainDecision, Finalized, Context.Valid, Coherent, DerivedFor, ValidSection, ValidTracking, Acknowledgements,
      Reachable, AdoptsTracked, Overfills;
    var commands := PlainDecision(env, steps).value.0.commands;
    PlainDecisionIsFromKernel(env, steps);
    SectionValidates(env.ctx, steps, map[], commands, entries);
    DecisionIsTracked(env.ctx, steps, map[], commands, entries);
  }

  // ---------------------------------------------------------------------------------------
  // Whole decisions
  // ---------------------------------------------------------------------------------------

  /** A decision ends as if the updates that failed had never been delivered: its kernel state, commands,
      telemetry and error are those of a plain run of the others followed by the trigger. */
  lemma {:induction false} DecisionIsTransparent<K(!new)>(env: Environment<K>, steps: seq<Step>)
    requires Faithful(env.codec) && ValidSteps(steps)
    ensures var survivors := Survivors(ItemsOf(DeliveryUnits(steps)), Delivered(env, steps).failed);
            var plain := PlainRun(env, steps, survivors);
      && plain.Some?
      && var (expected, kernel, error) := Handled(env, plain.value.0, plain.value.1, Trigger);
         var actual := Triggered(env, steps);
         && actual.1 == kernel && actual.2 == error && actual.0.commands == expected.commands
         && TelemetryOf(actual.0.outputs) == TelemetryOf(expected.outputs)
  {
    hide RunEvent, Deliver, DeliveryUnits, ItemsOf, Survivors, PlainRun, TelemetryOf;
    DecisionItemsAreValid(steps);
    var items := ItemsOf(DeliveryUnits(steps));
    RollbackIsTransparent(env, steps, items);
    var loop := Delivered(env, steps);
    var plain := PlainRun(env, steps, Survivors(items, loop.failed)).value;
    SameTelemetry(env, plain.0, loop.host, loop.kernel, Trigger);
  }

  lemma SameTelemetry<K>(env: Environment<K>, g: HostState, h: HostState, kernel: K, event: Event)
    requires g.Valid() && h.Valid() && g.commands == h.commands && TelemetryOf(g.outputs) == TelemetryOf(h.outputs)
    ensures var ((a, s, e), (b, t, f)) := (Handled(env, g, kernel, event), Handled(env, h, kernel, event));
      && s == t && e == f && a.commands == b.commands && TelemetryOf(a.outputs) == TelemetryOf(b.outputs)
  {
    hide RunEvent, TelemetryOf;
    RunSeesCommands(env, g, h, kernel, event, [], env.kernel.calls(kernel, event));
    TelemetryAppended(g.outputs, Handled(env, g, kernel, event).0.outputs);
    TelemetryAppended(h.outputs, Handled(env, h, kernel, event).0.outputs);
  }

  /** Over the same views and kernel, a resident run and a transaction admit the same commands in the
      same order, and end in the same kernel state, whenever the resident run meets no kernel error and
      every snapshot on the way succeeds; exactly then the transaction fails no update and its trigger
      meets no kernel error. The result may still fail for its own state or section. */
  lemma DecisionsAgree<K>(env: Environment<K>, steps: seq<Step>)
    requires ValidSteps(steps)
    ensures var loop, clean := Delivered(env, steps), RunsClean(env, steps, ItemsOf(DeliveryUnits(steps)));
      && (clean && PlainDecision(env, steps).Some? <==>
            loop.failed == map[] && !loop.stopped && Triggered(env, steps).2.None?)
      && (clean && PlainDecision(env, steps).Some? ==>
            var (host, kernel) := PlainDecision(env, steps).value;
            && Triggered(env, steps).1 == kernel
            && Triggered(env, steps).0.commands == host.commands && Triggered(env, steps).0.outputs == host.outputs)
  {
    hide Handled, Deliver, DeliveryUnits, ItemsOf, PlainRun;
    DecisionItemsAreValid(steps);
    var items := ItemsOf(DeliveryUnits(steps));
    NativeAndTransactionalAgree(env, steps, items);
    if RunsClean(env, steps, items) {
      var loop, plain := Delivered(env, steps), PlainRun(env, steps, Indices(items)).value;
      SameOutputs(env, plain.0, loop.host, loop.kernel, Trigger);
    }
  }
}
