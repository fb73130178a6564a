/**
 What the delivery loop guarantees over any kernel: rollback is transparent, a cancel follows its
 target, failures are never forgotten, and a resident run without failures admits the same commands.
 */
module Transparency {
  import opened Wrappers
  import opened Wire
  import opened Admission
  import opened Validation
  import opened Updates
  import opened Delivery

  // ---------------------------------------------------------------------------------------
  // A kernel sees only the commands
  // ---------------------------------------------------------------------------------------

  function Forgetting(verdict: Verdict): Verdict {
    if verdict.NoRoom? then verdict.(deferrable := false) else verdict
  }

  /** A verdict depends on the commands alone, but for whether a refusal is deferrable. */
  lemma JudgeSeesCommands(ctx: Context, g: HostState, h: HostState, call: Call)
    requires g.Valid() && h.Valid() && g.commands == h.commands && IssuesCommand(call)
    ensures Forgetting(Judge(ctx, g, call)) == Forgetting(Judge(ctx, h, call))
  {
    hide OrderFor, CancelTargetFor, TimerKeyError, RequestError, RowsAfter, EntryFor, BytesWith, EarlierBytes, Requests,
      Runner;
  }

  lemma {:induction false} RespondSeesCommands(ctx: Context, g: HostState, h: HostState, call: Call)
    requires g.Valid() && h.Valid() && g.commands == h.commands
    ensures var (g', a) := Respond(ctx, g, call);
            var (h', b) := Respond(ctx, h, call);
            && a == b && g'.commands == h'.commands
            && g'.outputs[|g.outputs|..] == h'.outputs[|h.outputs|..]
  {
    hide Judge;
    if IssuesCommand(call) {
      JudgeSeesCommands(ctx, g, h, call);
    }
  }

  /** A kernel's whole run depends on the commands alone, and so do the outputs it adds. */
  lemma {:induction false} RunSeesCommands<K>(
      env: Environment<K>, g: HostState, h: HostState, state: K, event: Event, answers: seq<Response>, fuel: nat)
    requires g.Valid() && h.Valid() && g.commands == h.commands
    ensures var (g', s, e) := RunEvent(env, g, state, event, answers, fuel);
            var (h', t, f) := RunEvent(env, h, state, event, answers, fuel);
            && s == t && e == f && g'.commands == h'.commands
            && g'.outputs[|g.outputs|..] == h'.outputs[|h.outputs|..]
    decreases fuel
  {
    hide Respond;
    var action := env.kernel.act(state, event, answers);
    if action.Invoke? && fuel > 0 {
      RespondSeesCommands(env.ctx, g, h, action.call);
      var (g1, a) := Respond(env.ctx, g, action.call);
      var (h1, b) := Respond(env.ctx, h, action.call);
      RunSeesCommands(env, g1, h1, state, event, answers + [a], fuel - 1);
      var g2 := RunEvent(env, g1, state, event, answers + [a], fuel - 1).0;
      var h2 := RunEvent(env, h1, state, event, answers + [a], fuel - 1).0;
      AppendedTwice(g.outputs, g1.outputs, g2.outputs);
      AppendedTwice(h.outputs, h1.outputs, h2.outputs);
    }
  }

  lemma AppendedTwice<T>(a: seq<T>, b: seq<T>, c: seq<T>)
    requires a <= b <= c
    ensures c[|a|..] == b[|a|..] + c[|b|..]
  {
  }

  // ---------------------------------------------------------------------------------------
  // Telemetry
  // ---------------------------------------------------------------------------------------

  function TelemetryOf(outputs: seq<Output>): seq<Output> {
    if outputs == [] then []
    else
      var last := outputs[|outputs| - 1];
      TelemetryOf(outputs[..|outputs| - 1]) + if last.TelemetryOutput? then [last] else []
  }

  lemma {:induction false} TelemetryOfSum(a: seq<Output>, b: seq<Output>)
    ensures TelemetryOf(a + b) == TelemetryOf(a) + TelemetryOf(b)
  {
    if b == [] {
      assert a + b == a;
    } else {
      assert (a + b)[..|a + b| - 1] == a + b[..|b| - 1];
      TelemetryOfSum(a, b[..|b| - 1]);
    }
  }

  lemma {:induction false} RetainedHasNoTelemetry(outputs: seq<Output>)
    ensures TelemetryOf(Retained(outputs)) == []
  {
    if outputs != [] {
      var earlier, last := outputs[..|outputs| - 1], outputs[|outputs| - 1];
      RetainedHasNoTelemetry(earlier);
      if last.LogOutput? || last.UpdateError? {
        TelemetryWithNotice(Retained(earlier), last);
      } else {
        assert Retained(outputs) == Retained(earlier);
      }
    }
  }

  lemma RollbackForgetsTelemetry(outputs: seq<Output>, length: nat)
    requires length <= |outputs|
    ensures TelemetryOf(RolledBackOutputs(outputs, length)) == TelemetryOf(outputs[..length])
  {
    RetainedHasNoTelemetry(outputs[length..]);
    TelemetryOfSum(outputs[..length], Retained(outputs[length..]));
  }

  lemma TelemetryWithNotice(outputs: seq<Output>, notice: Output)
    requires !notice.TelemetryOutput?
    ensures TelemetryOf(outputs + [notice]) == TelemetryOf(outputs)
  {
    assert (outputs + [notice])[..|outputs + [notice]| - 1] == outputs;
  }

  // ---------------------------------------------------------------------------------------
  // Plain delivery
  // ---------------------------------------------------------------------------------------

  /** Delivers the updates at `indices` in turn, without snapshots or rollback: nothing as soon as the
      kernel returns an error. This is how a resident kernel is run. */
  ghost function PlainRun<K>(env: Environment<K>, steps: seq<Step>, indices: seq<nat>): (r: Option<(HostState, K)>)
    ensures r.Some? ==> r.value.0.Valid() && r.value.0.unit.None?
  {
    if indices == [] then Some((FRESH_HOST, env.codec.start))
    else
      var before := PlainRun(env, steps, indices[..|indices| - 1]);
      if before.None? || !HasUpdate(steps, indices[|indices| - 1]) then None
      else
        var update := steps[indices[|indices| - 1]].update.value;
        var (host, kernel, error) := Handled(env, before.value.0, before.value.1, OrderUpdate(update));
        if error.Some? then None else Some((host, kernel))
  }

  /** The updates the decision handled, in delivery order. */
  ghost function Survivors(items: seq<Item>, failed: map<nat, Failure>): seq<nat> {
    if items == [] then []
    else
      var last := items[|items| - 1].index;
      Survivors(items[..|items| - 1], failed) + if last in failed then [] else [last]
  }

  lemma {:induction false} SurvivorsAreItems(steps: seq<Step>, items: seq<Item>, failed: map<nat, Failure>)
    requires ValidItems(steps, items)
    ensures forall p :: 0 <= p < |Survivors(items, failed)| ==> HasUpdate(steps, Survivors(items, failed)[p])
    ensures forall x: nat :: x in Survivors(items, failed) <==>
              x !in failed && exists p :: 0 <= p < |items| && items[p].index == x
  {
    if items != [] {
      var earlier := items[..|items| - 1];
      SurvivorsAreItems(steps, earlier, failed);
      var n := |items| - 1;
      forall x: nat | x in Survivors(items, failed)
        ensures exists p :: 0 <= p < |items| && items[p].index == x
      {
        if x in Survivors(earlier, failed) {
          var p :| 0 <= p < |earlier| && earlier[p].index == x;
          assert items[p].index == x;
        } else {
          assert items[n].index == x;
        }
      }
      forall p | 0 <= p < |items| && items[p].index !in failed
        ensures items[p].index in Survivors(items, failed)
      {
        if p < n {
          assert earlier[p].index == items[p].index;
        }
      }
    }
  }

  /** A failure of another update does not change which earlier ones survive. */
  lemma {:induction false} SurvivorsIgnoreOthers(
      items: seq<Item>, failed: map<nat, Failure>, index: nat, failure: Failure)
    requires forall p :: 0 <= p < |items| ==> items[p].index != index
    ensures Survivors(items, failed[index := failure]) == Survivors(items, failed)
  {
    if items != [] {
      SurvivorsIgnoreOthers(items[..|items| - 1], failed, index, failure);
    }
  }

  lemma {:induction false} NoSurvivors(items: seq<Item>, failed: map<nat, Failure>)
    requires forall p :: 0 <= p < |items| ==> items[p].index in failed
    ensures Survivors(items, failed) == []
  {
    if items != [] {
      NoSurvivors(items[..|items| - 1], failed);
    }
  }

  // ---------------------------------------------------------------------------------------
  // Rollback transparency
  // ---------------------------------------------------------------------------------------

  /** The loop's kernel, commands and telemetry are those of a plain run of the survivors. */
  ghost predicate Transparent<K>(env: Environment<K>, steps: seq<Step>, items: seq<Item>, loop: Loop<K>)
  {
    var plain := PlainRun(env, steps, Survivors(items, loop.failed));
    && plain.Some?
    && plain.value.1 == loop.kernel
    && plain.value.0.commands == loop.host.commands
    && TelemetryOf(plain.value.0.outputs) == TelemetryOf(loop.host.outputs)
  }

  /** Once stopped, every update has failed and nothing was issued. */
  ghost predicate StoppedClean<K>(env: Environment<K>, steps: seq<Step>, loop: Loop<K>) {
    loop.stopped ==>
      && (forall x: nat :: HasUpdate(steps, x) ==> x in loop.failed)
      && loop.kernel == env.codec.start && loop.host.commands == []
      && TelemetryOf(loop.host.outputs) == []
  }

  /** Until the loop stops, only updates it has come to have failed. */
  ghost predicate FailedAreItems<K>(items: seq<Item>, loop: Loop<K>) {
    !loop.stopped ==> forall x: nat :: x in loop.failed ==> exists p :: 0 <= p < |items| && items[p].index == x
  }

  /** A delivery that succeeds is the plain one. */
  lemma {:induction false} DeliveredIsPlain<K>(
      env: Environment<K>, plain: HostState, host: HostState, kernel: K, event: Event, start: nat)
    requires plain.Valid() && host.commands == plain.commands && start <= |host.commands|
    requires TelemetryOf(plain.outputs) == TelemetryOf(host.outputs)
    ensures var begun := host.(unit := Some(start), deferrable := None);
            var (a, s, e) := Handled(env, plain, kernel, event);
            var (b, t, f) := Handled(env, begun, kernel, event);
            && s == t && e == f && a.commands == b.commands && TelemetryOf(a.outputs) == TelemetryOf(b.outputs)
  {
    hide RunEvent, TelemetryOf;
    var begun := host.(unit := Some(start), deferrable := None);
    var a := Handled(env, plain, kernel, event).0;
    var b := Handled(env, begun, kernel, event).0;
    RunSeesCommands(env, plain, begun, kernel, event, [], env.kernel.calls(kernel, event));
    TelemetryAppended(plain.outputs, a.outputs);
    TelemetryAppended(begun.outputs, b.outputs);
  }

  lemma TelemetryAppended(before: seq<Output>, after: seq<Output>)
    requires before <= after
    ensures TelemetryOf(after) == TelemetryOf(before) + TelemetryOf(after[|before|..])
  {
    TelemetryOfSum(before, after[|before|..]);
    assert after == before + after[|before|..];
  }

  /** A failed update leaves the survivors' run as it was. */
  lemma ReportedIsTransparent<K>(
      env: Environment<K>, steps: seq<Step>, items: seq<Item>, item: Item, before: Loop<K>, after: Loop<K>,
      failure: Failure)
    requires ValidItems(steps, items + [item]) && ValidItems(steps, items)
    requires Transparent(env, steps, items, before)
    requires after.failed == before.failed[item.index := failure]
    requires after.kernel == before.kernel && after.host.commands == before.host.commands
    requires TelemetryOf(after.host.outputs) == TelemetryOf(before.host.outputs)
    ensures Transparent(env, steps, items + [item], after)
  {
    var all := items + [item];
    assert all[..|all| - 1] == items && all[|all| - 1] == item;
    forall p | 0 <= p < |items|
      ensures items[p].index != item.index
    {
      assert all[p] == items[p];
    }
    SurvivorsIgnoreOthers(items, before.failed, item.index, failure);
    hide PlainRun;
    assert Survivors(all, after.failed) == Survivors(items, before.failed);
  }

  /** A handled update joins the survivors. */
  lemma HandledIsTransparent<K>(
      env: Environment<K>, steps: seq<Step>, items: seq<Item>, item: Item, before: Loop<K>, after: Loop<K>)
    requires ValidItems(steps, items + [item]) && ValidItems(steps, items)
    requires Transparent(env, steps, items, before)
    requires HasUpdate(steps, item.index) && item.index !in before.failed && after.failed == before.failed
    requires var plain := PlainRun(env, steps, Survivors(items, before.failed)).value;
             var (host, kernel, error) := Handled(env, plain.0, plain.1, OrderUpdate(steps[item.index].update.value));
             && error.None? && after.kernel == kernel && after.host.commands == host.commands
             && TelemetryOf(after.host.outputs) == TelemetryOf(host.outputs)
    ensures Transparent(env, steps, items + [item], after)
  {
    hide Handled, PlainRun, TelemetryOf;
    var all := items + [item];
    assert all[..|all| - 1] == items && all[|all| - 1] == item;
    var survivors := Survivors(items, before.failed);
    assert Survivors(all, after.failed) == survivors + [item.index];
    PlainRunOneMore(env, steps, survivors, item.index);
  }

  lemma PlainRunOneMore<K>(env: Environment<K>, steps: seq<Step>, indices: seq<nat>, index: nat)
    requires PlainRun(env, steps, indices).Some? && HasUpdate(steps, index)
    ensures var before := PlainRun(env, steps, indices).value;
            var (host, kernel, error) := Handled(env, before.0, before.1, OrderUpdate(steps[index].update.value));
            PlainRun(env, steps, indices + [index]) == if error.Some? then None else Some((host, kernel))
  {
    hide Handled;
    assert (indices + [index])[..|indices|] == indices;
  }

  /** One step of the loop keeps it transparent. */
  lemma StepIsTransparent<K(!new)>(env: Environment<K>, steps: seq<Step>, items: seq<Item>, item: Item, loop: Loop<K>)
    requires Faithful(env.codec) && loop.Valid() && !loop.stopped
    requires ValidItems(steps, items + [item]) && ValidItems(steps, items) && HasUpdate(steps, item.index)
    requires item.index !in loop.failed
    requires Transparent(env, steps, items, loop)
    ensures var after := DeliverOne(env, steps, item.index, loop);
            if after.stopped then StoppedClean(env, steps, after) else Transparent(env, steps, items + [item], after)
  {
    hide Handled, Survivors, PlainRun, Targets, RolledBackOutputs, TelemetryOf;
    var index := item.index;
    var after := DeliverOne(env, steps, index, loop);
    var outOfOrder := OutOfOrder(steps, index, loop.failed);
    if outOfOrder && steps[index].Deferral() < MAX_DELIVERY_DEFERRALS {
      TelemetryWithNotice(loop.host.outputs, UpdateError(index, Held));
      ReportedIsTransparent(env, steps, items, item, loop, after, Held);
    } else if env.codec.encode(loop.kernel).None? {
      TelemetryWithNotice(loop.host.outputs, UpdateError(index, Counted));
      ReportedIsTransparent(env, steps, items, item, loop, after, Counted);
    } else {
      DeliveryIsTransparent(env, steps, items, item, loop);
    }
  }

  lemma {:induction false} DeliveryIsTransparent<K(!new)>(
      env: Environment<K>, steps: seq<Step>, items: seq<Item>, item: Item, loop: Loop<K>)
    requires Faithful(env.codec) && loop.Valid() && !loop.stopped
    requires ValidItems(steps, items + [item]) && ValidItems(steps, items) && HasUpdate(steps, item.index)
    requires item.index !in loop.failed
    requires Transparent(env, steps, items, loop)
    requires !(OutOfOrder(steps, item.index, loop.failed) && steps[item.index].Deferral() < MAX_DELIVERY_DEFERRALS)
    requires env.codec.encode(loop.kernel).Some?
    ensures var after := DeliverOne(env, steps, item.index, loop);
            if after.stopped then StoppedClean(env, steps, after) else Transparent(env, steps, items + [item], after)
  {
    hide Handled, Survivors, PlainRun, Targets, RolledBackOutputs, TelemetryOf;
    var index := item.index;
    var plain := PlainRun(env, steps, Survivors(items, loop.failed)).value;
    var start := if loop.unitStart.Some? then loop.unitStart.value else |loop.host.commands|;
    var begun := loop.host.(unit := Some(start), deferrable := None);
    var event := OrderUpdate(steps[index].update.value);
    var (after, kernel, error) := Handled(env, begun, loop.kernel, event);
    var next := DeliverOne(env, steps, index, loop);
    DeliveredIsPlain(env, plain.0, loop.host, loop.kernel, event, start);
    if error.None? {
      TelemetryWithNotice(after.outputs, UpdateWarning(index));
      assert after.outputs + [] == after.outputs;
      HandledIsTransparent(env, steps, items, item, loop, next);
    } else {
      UndoneIsTransparent(env, steps, items, item, loop.(unitStart := Some(start)), after, error.value);
    }
  }

  lemma UndoneIsTransparent<K(!new)>(
      env: Environment<K>, steps: seq<Step>, items: seq<Item>, item: Item, before: Loop<K>, after: HostState,
      error: Message)
    requires Faithful(env.codec) && before.Valid() && !before.stopped && before.host.outputs <= after.outputs
    requires ValidItems(steps, items + [item]) && ValidItems(steps, items) && HasUpdate(steps, item.index)
    requires Transparent(env, steps, items, before)
    requires env.codec.encode(before.kernel).Some?
    ensures var next := Undone(env, steps, item.index, before, after, env.codec.encode(before.kernel).value, error);
            if next.stopped then StoppedClean(env, steps, next) else Transparent(env, steps, items + [item], next)
  {
    hide Survivors, PlainRun, Targets, RolledBackOutputs, TelemetryOf;
    var index := item.index;
    var snapshot := env.codec.encode(before.kernel).value;
    var next := Undone(env, steps, index, before, after, snapshot, error);
    RollbackForgetsTelemetry(after.outputs, |before.host.outputs|);
    assert after.outputs[..|before.host.outputs|] == before.host.outputs;
    var rolledBack := RolledBackOutputs(after.outputs, |before.host.outputs|);
    if env.codec.decode(snapshot).Some? {
      var failure := FailureFor(steps[index], after.deferrable, error);
      TelemetryWithNotice(rolledBack, UpdateError(index, failure));
      ReportedIsTransparent(env, steps, items, item, before, next, failure);
    } else {
      RollbackForgetsTelemetry(rolledBack, 0);
      TelemetryWithNotice(RolledBackOutputs(rolledBack, 0), UpdateError(index, Counted));
      NoTelemetry();
    }
  }

  lemma NoTelemetry()
    ensures TelemetryOf([]) == []
  {
  }

  /** Rollback transparency: over a faithful codec, the loop ends with the kernel state, the commands
      and the telemetry of a run that delivers only the updates that did not fail, in the same order,
      whatever failed and however it was undone. The host's caches replay those commands. */
  lemma {:induction false} RollbackIsTransparent<K(!new)>(env: Environment<K>, steps: seq<Step>, items: seq<Item>)
    requires Faithful(env.codec) && ValidItems(steps, items)
    ensures var loop := Deliver(env, steps, items);
      && Transparent(env, steps, items, loop)
      && StoppedClean(env, steps, loop)
      && FailedAreItems(items, loop)
  {
    hide Transparent, StoppedClean, FailedAreItems, DeliverItem, PlainRun, TelemetryOf;
    if items == [] {
      StartIsTransparent(env, steps);
    } else {
      var earlier, item := items[..|items| - 1], items[|items| - 1];
      RollbackIsTransparent(env, steps, earlier);
      assert items == earlier + [item];
      TransparencyStep(env, steps, earlier, item, Deliver(env, steps, earlier));
    }
  }

  lemma StartIsTransparent<K>(env: Environment<K>, steps: seq<Step>)
    ensures var loop := StartLoop(env);
            Transparent(env, steps, [], loop) && StoppedClean(env, steps, loop) && FailedAreItems([], loop)
  {
  }

  lemma TransparencyStep<K(!new)>(env: Environment<K>, steps: seq<Step>, items: seq<Item>, item: Item, loop: Loop<K>)
    requires Faithful(env.codec) && loop.Valid()
    requires ValidItems(steps, items + [item]) && ValidItems(steps, items) && HasUpdate(steps, item.index)
    requires Transparent(env, steps, items, loop) && StoppedClean(env, steps, loop) && FailedAreItems(items, loop)
    ensures var after := DeliverItem(env, steps, item, loop);
      && Transparent(env, steps, items + [item], after)
      && StoppedClean(env, steps, after)
      && FailedAreItems(items + [item], after)
  {
    hide DeliverOne, Transparent;
    var all := items + [item];
    var after := DeliverItem(env, steps, item, loop);
    if loop.stopped {
      StoppedIsTransparent(env, steps, all, after);
    } else {
      var begun := if item.first then loop.(unitStart := None) else loop;
      SameRun(env, steps, items, loop, begun);
      NotYetFailed(steps, items, item, loop);
      StepIsTransparent(env, steps, items, item, begun);
      FailuresOfOne(env, steps, item.index, begun);
      FailedStayItems(items, item, loop, after);
      if after.stopped {
        StoppedIsTransparent(env, steps, all, after);
      }
    }
  }

  lemma SameRun<K>(env: Environment<K>, steps: seq<Step>, items: seq<Item>, a: Loop<K>, b: Loop<K>)
    requires Transparent(env, steps, items, a)
    requires b == a.(unitStart := b.unitStart)
    ensures Transparent(env, steps, items, b)
  {
  }

  lemma NotYetFailed<K>(steps: seq<Step>, items: seq<Item>, item: Item, loop: Loop<K>)
    requires ValidItems(steps, items + [item]) && FailedAreItems(items, loop) && !loop.stopped
    ensures item.index !in loop.failed
  {
    var all := items + [item];
    assert all[|items|] == item;
    assert forall p :: 0 <= p < |items| ==> all[p] == items[p];
  }

  /** One update fails at most itself, unless the loop stops. */
  lemma FailuresOfOne<K>(env: Environment<K>, steps: seq<Step>, index: nat, loop: Loop<K>)
    requires HasUpdate(steps, index) && loop.Valid() && !loop.stopped
    ensures var after := DeliverOne(env, steps, index, loop);
      && loop.failed.Keys <= after.failed.Keys
      && (!after.stopped ==>
            && after.failed.Keys <= loop.failed.Keys + {index}
            && forall x :: x in loop.failed && x != index ==> after.failed[x] == loop.failed[x])
  {
    hide Handled, Targets, RolledBackOutputs;
  }

  lemma FailedStayItems<K>(items: seq<Item>, item: Item, before: Loop<K>, after: Loop<K>)
    requires FailedAreItems(items, before) && !before.stopped
    requires !after.stopped ==> after.failed.Keys <= before.failed.Keys + {item.index}
    ensures FailedAreItems(items + [item], after)
  {
    var all := items + [item];
    assert all[|items|] == item;
    assert forall p :: 0 <= p < |items| ==> all[p] == items[p];
  }

  lemma StoppedIsTransparent<K>(env: Environment<K>, steps: seq<Step>, items: seq<Item>, loop: Loop<K>)
    requires ValidItems(steps, items) && loop.stopped && StoppedClean(env, steps, loop)
    ensures Transparent(env, steps, items, loop)
  {
    NoSurvivors(items, loop.failed);
    NoTelemetry();
  }

  // ---------------------------------------------------------------------------------------
  // The decision's commands stay admissible
  // ---------------------------------------------------------------------------------------

  lemma {:induction false} RunKeepsReachable<K>(
      env: Environment<K>, h: HostState, state: K, event: Event, answers: seq<Response>, fuel: nat)
    requires h.Valid() && Reachable(env.ctx, h.commands)
    ensures Reachable(env.ctx, RunEvent(env, h, state, event, answers, fuel).0.commands)
    decreases fuel
  {
    hide Respond, Reachable;
    var action := env.kernel.act(state, event, answers);
    if action.Invoke? && fuel > 0 {
      RespondKeepsReachable(env.ctx, h, action.call);
      var (h', a) := Respond(env.ctx, h, action.call);
      RunKeepsReachable(env, h', state, event, answers + [a], fuel - 1);
    }
  }

  lemma {:induction false} HandledKeepsReachable<K>(env: Environment<K>, h: HostState, state: K, event: Event)
    requires h.Valid() && Reachable(env.ctx, h.commands)
    ensures Reachable(env.ctx, Handled(env, h, state, event).0.commands)
  {
    hide RunEvent, Reachable;
    RunKeepsReachable(env, h, state, event, [], env.kernel.calls(state, event));
  }

  /** A handled update extends the commands; a failed one leaves exactly those before it, or none when
      the loop stops: a rollback is a truncation, whatever the kernel issued. */
  lemma DeliveryTruncatesOrExtends<K>(env: Environment<K>, steps: seq<Step>, index: nat, loop: Loop<K>)
    requires HasUpdate(steps, index) && loop.Valid() && !loop.stopped && index !in loop.failed
    ensures var after := DeliverOne(env, steps, index, loop);
      && (index !in after.failed ==> loop.host.commands <= after.host.commands)
      && (index in after.failed ==> after.host.commands == if after.stopped then [] else loop.host.commands)
  {
    hide Handled, Targets, RolledBackOutputs, AllRolledBack, FailureFor;
    var start := if loop.unitStart.Some? then loop.unitStart.value else |loop.host.commands|;
    var begun := loop.host.(unit := Some(start), deferrable := None);
    assert begun.Valid();
    StoppingFailsTheUpdate(steps, index, loop.failed);
  }

  lemma StoppingFailsTheUpdate(steps: seq<Step>, index: nat, failed: map<nat, Failure>)
    ensures index in AllRolledBack(steps, failed[index := Counted])
  {
  }

  lemma UndoneCommands<K>(env: Environment<K>, steps: seq<Step>, index: nat, before: Loop<K>, after: HostState,
      snapshot: seq<int>, error: Message)
    requires index < |steps| && before.Valid() && before.host.outputs <= after.outputs
    ensures var commands := Undone(env, steps, index, before, after, snapshot, error).host.commands;
            commands == before.host.commands || commands == []
  {
    hide RolledBackOutputs, AllRolledBack, FailureFor;
  }

  lemma {:induction false} DeliveryKeepsReachable<K>(env: Environment<K>, steps: seq<Step>, index: nat, loop: Loop<K>)
    requires HasUpdate(steps, index) && loop.Valid() && Reachable(env.ctx, loop.host.commands)
    ensures Reachable(env.ctx, DeliverOne(env, steps, index, loop).host.commands)
  {
    NothingIsReachable(env.ctx);
    hide Handled, Targets, Undone, Reachable;
    var start := if loop.unitStart.Some? then loop.unitStart.value else |loop.host.commands|;
    var begun := loop.host.(unit := Some(start), deferrable := None);
    var event := OrderUpdate(steps[index].update.value);
    HandledKeepsReachable(env, begun, loop.kernel, event);
    var (after, kernel, error) := Handled(env, begun, loop.kernel, event);
    var snapshot := env.codec.encode(loop.kernel);
    if snapshot.Some? && error.Some? {
      UndoneCommands(env, steps, index, loop.(unitStart := Some(start)), after, snapshot.value, error.value);
    }
  }

  lemma NothingIsReachable(ctx: Context)
    ensures Reachable(ctx, [])
  {
  }

  lemma {:induction false} DeliveredCommandsAreReachable<K>(env: Environment<K>, steps: seq<Step>, items: seq<Item>)
    requires ValidItems(steps, items)
    ensures Reachable(env.ctx, Deliver(env, steps, items).host.commands)
  {
    hide DeliverOne;
    if items == [] {
      NothingIsReachable(env.ctx);
    } else {
      hide Reachable;
      var loop := Deliver(env, steps, items[..|items| - 1]);
      DeliveredCommandsAreReachable(env, steps, items[..|items| - 1]);
      if !loop.stopped {
        var item := items[|items| - 1];
        DeliveryKeepsReachable(env, steps, item.index, if item.first then loop.(unitStart := None) else loop);
      }
    }
  }

  // ---------------------------------------------------------------------------------------
  // Failures
  // ---------------------------------------------------------------------------------------

  /** `failed` only grows. */
  lemma {:induction false} FailuresAreKept<K>(env: Environment<K>, steps: seq<Step>, items: seq<Item>, n: nat)
    requires ValidItems(steps, items) && n <= |items|
    ensures Deliver(env, steps, items[..n]).failed.Keys <= Deliver(env, steps, items).failed.Keys
  {
    hide DeliverOne;
    if n < |items| {
      var earlier := items[..|items| - 1];
      var loop := Deliver(env, steps, earlier);
      assert earlier[..n] == items[..n];
      FailuresAreKept(env, steps, earlier, n);
      if !loop.stopped {
        var item := items[|items| - 1];
        FailuresOfOne(env, steps, item.index, if item.first then loop.(unitStart := None) else loop);
      }
    } else {
      assert items[..n] == items;
    }
  }

  function Indices(items: seq<Item>): seq<nat> {
    seq(|items|, p requires 0 <= p < |items| => items[p].index)
  }

  /** A handled cancel below the deferral bound has no failed target among the items so far. */
  ghost predicate CancelsFollow(steps: seq<Step>, items: seq<Item>, failed: map<nat, Failure>)
    requires ValidItems(steps, items)
  {
    forall p ::
      0 <= p < |items| && items[p].index !in failed && steps[items[p].index].Deferral() < MAX_DELIVERY_DEFERRALS ==>
      !OutOfOrder(steps, items[p].index, failed)
  }

  /** Once stopped, every update has failed. */
  ghost predicate StoppedFailed<K>(steps: seq<Step>, loop: Loop<K>) {
    loop.stopped ==> forall x: nat :: HasUpdate(steps, x) ==> x in loop.failed
  }

  /** Whatever the codec does, the updates that failed are those come to, or all of them. */
  lemma {:induction false} FailuresAreItems<K>(env: Environment<K>, steps: seq<Step>, items: seq<Item>)
    requires ValidItems(steps, items)
    ensures FailedAreItems(items, Deliver(env, steps, items)) && StoppedFailed(steps, Deliver(env, steps, items))
  {
    hide DeliverOne;
    if items != [] {
      hide FailedAreItems;
      var earlier, item := items[..|items| - 1], items[|items| - 1];
      FailuresAreItems(env, steps, earlier);
      assert items == earlier + [item];
      FailuresStep(env, steps, earlier, item, Deliver(env, steps, earlier));
    }
  }

  lemma FailuresStep<K>(env: Environment<K>, steps: seq<Step>, items: seq<Item>, item: Item, loop: Loop<K>)
    requires HasUpdate(steps, item.index) && loop.Valid()
    requires FailedAreItems(items, loop) && StoppedFailed(steps, loop)
    ensures var after := DeliverItem(env, steps, item, loop);
            FailedAreItems(items + [item], after) && StoppedFailed(steps, after)
  {
    hide DeliverOne;
    if !loop.stopped {
      var begun := if item.first then loop.(unitStart := None) else loop;
      FailuresOfOne(env, steps, item.index, begun);
      StoppingFailsAll(env, steps, item.index, begun);
      FailedStayItems(items, item, loop, DeliverItem(env, steps, item, loop));
    }
  }

  /** Cancel follows target: over a delivery order with targets first, a cancel that is handled below the
      deferral bound has no target that failed anywhere in the decision, whatever the codec does. */
  lemma {:induction false} HandledCancelsFollowTheirTargets<K>(env: Environment<K>, steps: seq<Step>, items: seq<Item>)
    requires ValidItems(steps, items) && TargetsPrecede(steps, Indices(items), {})
    ensures CancelsFollow(steps, items, Deliver(env, steps, items).failed)
  {
    hide DeliverItem, Targets, TargetsPrecede, OutOfOrder, StoppedFailed, FailedAreItems;
    if items != [] {
      var earlier, item := items[..|items| - 1], items[|items| - 1];
      EarlierTargetsPrecede(steps, items);
      HandledCancelsFollowTheirTargets(env, steps, earlier);
      FailuresAreItems(env, steps, earlier);
      assert items == earlier + [item];
      CancelsFollowStep(env, steps, earlier, item, Deliver(env, steps, earlier));
    }
  }

  lemma EarlierTargetsPrecede(steps: seq<Step>, items: seq<Item>)
    requires items != [] && TargetsPrecede(steps, Indices(items), {})
    ensures TargetsPrecede(steps, Indices(items[..|items| - 1]), {})
  {
    hide Targets;
    var earlier := items[..|items| - 1];
    forall p | 0 <= p < |earlier|
      ensures Indices(items)[..p] == Indices(earlier)[..p] && Indices(items)[p] == Indices(earlier)[p]
    {
    }
  }

  lemma CancelsFollowStep<K>(env: Environment<K>, steps: seq<Step>, items: seq<Item>, item: Item, loop: Loop<K>)
    requires ValidItems(steps, items + [item]) && ValidItems(steps, items) && HasUpdate(steps, item.index)
    requires TargetsPrecede(steps, Indices(items + [item]), {})
    requires loop.Valid() && StoppedFailed(steps, loop) && FailedAreItems(items, loop)
    requires CancelsFollow(steps, items, loop.failed)
    ensures CancelsFollow(steps, items + [item], DeliverItem(env, steps, item, loop).failed)
  {
    hide DeliverOne, Targets, TargetsPrecede, OutOfOrder, Indices;
    var all := items + [item];
    var after := DeliverItem(env, steps, item, loop);
    if loop.stopped {
      EverythingFailed(steps, all, after.failed);
    } else {
      var begun := if item.first then loop.(unitStart := None) else loop;
      FailuresOfOne(env, steps, item.index, begun);
      HandledIsInOrder(env, steps, item.index, begun);
      if after.stopped {
        StoppingFailsAll(env, steps, item.index, begun);
        EverythingFailed(steps, all, after.failed);
      } else {
        LaterFailureKeepsOrder(steps, items, item, loop.failed, after.failed);
      }
    }
  }

  lemma EverythingFailed(steps: seq<Step>, items: seq<Item>, failed: map<nat, Failure>)
    requires ValidItems(steps, items)
    requires forall x: nat :: HasUpdate(steps, x) ==> x in failed
    ensures CancelsFollow(steps, items, failed)
  {
    hide OutOfOrder;
  }

  lemma StoppingFailsAll<K>(env: Environment<K>, steps: seq<Step>, index: nat, loop: Loop<K>)
    requires HasUpdate(steps, index) && loop.Valid() && !loop.stopped
    ensures var after := DeliverOne(env, steps, index, loop);
            after.stopped ==> forall x: nat :: HasUpdate(steps, x) ==> x in after.failed
  {
    hide Handled, Targets, RolledBackOutputs;
  }

  lemma LaterFailureKeepsOrder(
      steps: seq<Step>, items: seq<Item>, item: Item, before: map<nat, Failure>, after: map<nat, Failure>)
    requires ValidItems(steps, items + [item]) && ValidItems(steps, items)
    requires HasUpdate(steps, item.index) && TargetsPrecede(steps, Indices(items + [item]), {})
    requires CancelsFollow(steps, items, before)
    requires before.Keys <= after.Keys <= before.Keys + {item.index}
    requires item.index !in after && steps[item.index].Deferral() < MAX_DELIVERY_DEFERRALS ==>
        !OutOfOrder(steps, item.index, before)
    ensures CancelsFollow(steps, items + [item], after)
  {
    hide Targets, TargetsPrecede, OutOfOrder, Indices;
    var all := items + [item];
    forall p | 0 <= p < |all| && all[p].index !in after && steps[all[p].index].Deferral() < MAX_DELIVERY_DEFERRALS
      ensures !OutOfOrder(steps, all[p].index, after)
    {
      if p < |items| {
        assert all[p] == items[p];
      }
      LaterFailureIsNoTarget(steps, all, p, before, after);
    }
  }

  lemma HandledIsInOrder<K>(env: Environment<K>, steps: seq<Step>, index: nat, loop: Loop<K>)
    requires HasUpdate(steps, index) && loop.Valid()
    ensures index !in DeliverOne(env, steps, index, loop).failed && steps[index].Deferral() < MAX_DELIVERY_DEFERRALS ==>
              !OutOfOrder(steps, index, loop.failed)
  {
    hide Handled, Targets, RolledBackOutputs;
  }

  /** The last item's failure is not of a target of an earlier item, nor of its own. */
  lemma LaterFailureIsNoTarget(
      steps: seq<Step>, items: seq<Item>, p: nat, before: map<nat, Failure>, after: map<nat, Failure>)
    requires ValidItems(steps, items) && p < |items| && TargetsPrecede(steps, Indices(items), {})
    requires after.Keys <= before.Keys + {items[|items| - 1].index}
    requires items[p].index !in after
    requires !OutOfOrder(steps, items[p].index, before)
    ensures !OutOfOrder(steps, items[p].index, after)
  {
    hide Targets;
    var n := |items| - 1;
    var targets := Targets(steps, items[p].index);
    assert Indices(items)[p] == items[p].index;
    forall i | 0 <= i < |targets|
      ensures targets[i] !in after
    {
      assert targets[i] in targets;
      assert targets[i] in Indices(items)[..p];
      var q :| 0 <= q < p && Indices(items)[q] == targets[i];
      assert items[q].index == targets[i];
    }
  }
}
