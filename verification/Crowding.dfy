/**
 A decision in which one update takes the room another needs: deferral happens.
 */
module Crowding {
  import opened Wrappers
  import opened Fees
  import opened Wire
  import opened Admission
  import opened Validation
  import opened Updates
  import opened Delivery
  import opened Agreement
  import Reuse

  function Resting(commandId: string, clientId: string): Step {
    var entry := RunnerEntry(commandId, PlaceKind, Some(clientId), None, Some("m"), Some(Sell), Some(Yes), 100, None,
                             0, 0, 0, false, 0, 0, 0, 0);
    var seen := entry.(orderId := Some("o"), lastStatus := Some(SeenResting), orderRevision := 1);
    Step(Some(entry), Some(seen),
      Some(UpdateRecord(commandId, PlaceKind, Some(clientId), Some("o"), Some("m"), Some(Sell), Some(Yes), SeenResting,
                        100, 0, 100, 0, None, 0, false, false)))
  }

  /** Two places come to rest, each told by an update of its own. */
  ghost const STEPS: seq<Step> := [Resting("a", "x"), Resting("b", "y")]

  /** A kernel that stops its Strategy as often as the decision can say so when it hears of the first
      order, and once when it hears of the second, and returns what refuses it. */
  ghost function StoppingKernel(): Kernel<nat> {
    Kernel(
      (state: nat, event: Event, answers: seq<Response>) =>
        if event.Trigger? then Finish(state, None)
        else if answers != [] && answers[|answers| - 1].Refusal? then
          Finish(state, Some(answers[|answers| - 1].message))
        else if |answers| >= (if event.record.commandId == "a" then 64 else 1) then Finish(state, None)
        else Invoke(CallStop("stop")),
      (state: nat, event: Event) => 64)
  }

  ghost function StoppingEnvironment(): Environment<nat> {
    Environment(TimerContext("d"), StoppingKernel(), Reuse.Snapshots(true))
  }

  lemma StepsAreValid()
    ensures ValidSteps(STEPS)
  {
    assert ValidIdentifier("a") && ValidIdentifier("b") && ValidIdentifier("x") && ValidIdentifier("y");
    assert ValidIdentifier("m") && ValidIdentifier("o");
    hide ValidIdentifier;
  }

  lemma {:induction false} NeitherWasDeferred(deferrals: nat)
    ensures ByDeferrals(STEPS, deferrals) == [0, 1]
  {
    assert DeferredTimes(STEPS, deferrals, 1)
        == DeferredTimes(STEPS, deferrals, 0) + if deferrals == 0 then [0] else [];
    if deferrals > 0 {
      NeitherWasDeferred(deferrals - 1);
      assert DeferredTimes(STEPS, deferrals, 2) == [];
    }
  }

  lemma TwoItems()
    ensures ItemsOf(DeliveryUnits(STEPS)) == [Item(true, 0), Item(true, 1)]
  {
    NeitherWasDeferred(MAX_DELIVERY_DEFERRALS);
    PlacesHaveNoTargets(0);
    PlacesHaveNoTargets(1);
    UnitOfOne(0, [1], {});
    UnitOfOne(1, [], {0});
    hide Targets, ByDeferrals, Units, Members;
    TwoUnitsAsItems();
  }

  lemma UnitOfOne(c: nat, rest: seq<nat>, placed: set<nat>)
    requires c < 2 && c !in placed && InRange(rest, 2) && Targets(STEPS, c) == []
    ensures Units(STEPS, [c] + rest, placed) == [[c]] + Units(STEPS, rest, placed + {c})
    ensures Units(STEPS, [], {0, 1}) == [] && {0} + {1} == {0, 1} && {} + {0} == {0} && [0] + [1] == [0, 1]
  {
    hide Targets;
    assert ([c] + rest)[1..] == rest && ([c] + rest)[0] == c;
    assert Unplaced([], placed) + [c] == [c] && [c][0] == c && Members([c]) == {c};
  }

  lemma TwoUnitsAsItems()
    ensures ItemsOf([[0]] + ([[1]] + [])) == [Item(true, 0), Item(true, 1)]
  {
    assert ItemsOf([[1]]) == UnitItems([1]) + ItemsOf([]) == [Item(true, 1)];
    assert ([[0]] + ([[1]] + []))[1..] == [[1]];
  }

  lemma PlacesHaveNoTargets(index: nat)
    requires index < 2
    ensures Targets(STEPS, index) == []
  {
    if Targets(STEPS, index) != [] {
      PlaceHasNoTarget(STEPS, index, Targets(STEPS, index)[0]);
    }
  }

  /** Below the bound a stop is admitted. */
  lemma StopIsAdmitted(h: HostState)
    requires h.Valid() && |h.commands| < 64
    ensures var (after, answer) := Respond(TimerContext("d"), h, CallStop("stop"));
            answer == Done && |after.commands| == |h.commands| + 1
  {
  }

  lemma {:induction false} FirstFillsUp(h: HostState, answers: seq<Response>, fuel: nat)
    requires h.Valid() && |answers| + fuel == 64 && |h.commands| == |answers|
    requires answers != [] ==> answers[|answers| - 1] == Done
    ensures var (after, state, error) :=
        RunEvent(StoppingEnvironment(), h, 0, OrderUpdate(STEPS[0].update.value), answers, fuel);
      |after.commands| == 64 && state == 0 && error.None?
    decreases fuel
  {
    hide TimerContext, Respond;
    if fuel > 0 {
      StopIsAdmitted(h);
      var (after, answer) := Respond(TimerContext("d"), h, CallStop("stop"));
      FirstFillsUp(after, answers + [answer], fuel - 1);
    }
  }

  lemma SecondIsCrowdedOut(h: HostState)
    requires |h.commands| == 64 && h.unit == Some(64) && h.deferrable.None?
    ensures var (after, state, error) :=
        RunEvent(StoppingEnvironment(), h, 0, OrderUpdate(STEPS[1].update.value), [], 64);
      after == h.(deferrable := Some(CommandsFull)) && state == 0 && error == Some(CommandsFull)
  {
    hide TimerContext;
    var env, event := StoppingEnvironment(), OrderUpdate(STEPS[1].update.value);
    assert env.kernel.act(0, event, []) == Invoke(CallStop("stop"));
    var (after, answer) := Respond(env.ctx, h, CallStop("stop"));
    assert answer == Refusal(CommandsFull) && after == h.(deferrable := Some(CommandsFull));
    assert env.kernel.act(0, event, [answer]) == Finish(0, Some(CommandsFull));
    assert [] + [answer] == [answer];
  }

  lemma FirstIsHandled()
    ensures var (env, loop) := (StoppingEnvironment(), StartLoop(StoppingEnvironment()));
            var after := DeliverOne(env, STEPS, 0, loop);
      && after.failed == map[] && !after.stopped && after.kernel == 0
      && |after.host.commands| == 64 && after.host.unit.None? && after.Valid()
  {
    var env, loop := StoppingEnvironment(), StartLoop(StoppingEnvironment());
    PlacesHaveNoTargets(0);
    hide TimerContext, RunEvent, Targets;
    FirstFillsUp(loop.host.(unit := Some(0), deferrable := None), [], 64);
  }

  lemma SecondIsPutOff(loop: Loop<nat>)
    requires loop.Valid() && loop.failed == map[] && !loop.stopped && loop.kernel == 0 && loop.unitStart.None?
    requires |loop.host.commands| == 64
    ensures var after := DeliverOne(StoppingEnvironment(), STEPS, 1, loop);
            after.failed == map[1 := Deferred] && after.host.commands == loop.host.commands
  {
    PlacesHaveNoTargets(1);
    hide TimerContext, RunEvent, Targets, RolledBackOutputs;
    var env, event := StoppingEnvironment(), OrderUpdate(STEPS[1].update.value);
    SecondIsCrowdedOut(loop.host.(unit := Some(64), deferrable := None));
    assert env.kernel.calls(0, event) == 64;
    assert env.codec.encode(0) == Some([0]) && env.codec.decode([0]) == Some(0);
    assert !STEPS[1].IsCancel() && HasUpdate(STEPS, 1);
    hide StoppingEnvironment, STEPS;
  }

  /** Deferral happens: over a valid context and a faithful codec, the first update is handled and the
      second, which would have fit alone, put off once, its attempts as before. */
  lemma {:induction false} SecondIsDeferred() returns (env: Environment<nat>)
    ensures env.ctx.Valid() && Faithful(env.codec) && ValidSteps(STEPS)
    ensures ValidItems(STEPS, ItemsOf(DeliveryUnits(STEPS)))
    ensures var loop := Deliver(env, STEPS, ItemsOf(DeliveryUnits(STEPS)));
      && loop.failed == map[1 := Deferred] && |loop.host.commands| == 64
      && EntryAfter(STEPS[1], FailureOf(loop.failed, 1)) == Some(STEPS[1].previous.value.(deliveryDeferrals := 1))
  {
    env := StoppingEnvironment();
    TimerContextIsValid("d");
    StepsAreValid();
    TwoItems();
    hide TimerContext, DeliverOne, DeliveryUnits;
    var items := [Item(true, 0), Item(true, 1)];
    assert items[..1] == [items[0]] && items[..1][..0] == [];
    assert Deliver(env, STEPS, []) == StartLoop(env);
    FirstIsHandled();
    var loop := DeliverOne(env, STEPS, 0, StartLoop(env));
    assert Deliver(env, STEPS, items[..1]) == loop;
    SecondIsPutOff(loop.(unitStart := None));
  }
}
