/**
 What a decision's failures mean: a resident run agrees with the delivery loop exactly when nothing
 failed, the first delivery unit is never deferred, and no cancel is abandoned by deferral.
 */
module Agreement {
  import opened Wrappers
  import opened Wire
  import opened Admission
  import opened Updates
  import opened Delivery
  import opened Transparency

  // ---------------------------------------------------------------------------------------
  // The delivery order as items
  // ---------------------------------------------------------------------------------------

  function UnitItems(unit: seq<nat>): seq<Item> {
    seq(|unit|, p requires 0 <= p < |unit| => Item(p == 0, unit[p]))
  }

  function ItemsOf(units: seq<seq<nat>>): seq<Item> {
    if units == [] then [] else UnitItems(units[0]) + ItemsOf(units[1..])
  }

  lemma {:induction false} ItemsAreTheOrder(units: seq<seq<nat>>)
    ensures Indices(ItemsOf(units)) == Flattened(units)
  {
    if units != [] {
      ItemsAreTheOrder(units[1..]);
      var first, rest := UnitItems(units[0]), ItemsOf(units[1..]);
      assert Indices(first) == units[0];
      assert Indices(first + rest) == Indices(first) + Indices(rest);
    }
  }

  /** A decision's items are its updates, each once, with targets first. */
  lemma DecisionItemsAreValid(steps: seq<Step>)
    requires ValidSteps(steps)
    ensures var items := ItemsOf(DeliveryUnits(steps));
      && ValidItems(steps, items) && TargetsPrecede(steps, Indices(items), {})
      && forall x: nat :: HasUpdate(steps, x) <==> exists p :: 0 <= p < |items| && items[p].index == x
  {
    hide DeliveryUnits, TargetsPrecede, ItemsOf, Flattened;
    var items := ItemsOf(DeliveryUnits(steps));
    var order := Flattened(DeliveryUnits(steps));
    ItemsAreTheOrder(DeliveryUnits(steps));
    DeliveryOrderIsComplete(steps);
    assert |items| == |order|;
    forall p | 0 <= p < |items|
      ensures items[p].index == order[p] && HasUpdate(steps, order[p])
    {
      assert Indices(items)[p] == items[p].index;
      assert order[p] in order;
    }
    forall x: nat | HasUpdate(steps, x)
      ensures exists p :: 0 <= p < |items| && items[p].index == x
    {
      assert x in order;
      var p :| 0 <= p < |order| && order[p] == x;
      assert items[p].index == x;
    }
  }

  // ---------------------------------------------------------------------------------------
  // Resident and transactional runs
  // ---------------------------------------------------------------------------------------

  /** Delivering every item in turn neither meets a kernel error nor a state without a snapshot. */
  ghost predicate RunsClean<K>(env: Environment<K>, steps: seq<Step>, items: seq<Item>) {
    && PlainRun(env, steps, Indices(items)).Some?
    && forall n :: 0 <= n < |items| ==> SnapshotAt(env, steps, items, n)
  }

  /** The kernel's state before item `n` of a plain run has a snapshot. */
  ghost predicate SnapshotAt<K>(env: Environment<K>, steps: seq<Step>, items: seq<Item>, n: nat)
    requires n <= |items|
  {
    var plain := PlainRun(env, steps, Indices(items[..n]));
    plain.Some? ==> env.codec.encode(plain.value.1).Some?
  }

  lemma IndicesOneMore(items: seq<Item>)
    requires items != []
    ensures var indices := Indices(items);
      && indices != [] && indices[..|indices| - 1] == Indices(items[..|items| - 1])
      && indices[|indices| - 1] == items[|items| - 1].index
  {
  }

  lemma CleanPrefix<K>(env: Environment<K>, steps: seq<Step>, items: seq<Item>)
    requires items != [] && RunsClean(env, steps, items)
    ensures RunsClean(env, steps, items[..|items| - 1])
    ensures PlainRun(env, steps, Indices(items[..|items| - 1])).Some?
    ensures SnapshotAt(env, steps, items, |items| - 1)
  {
    hide Handled, Indices;
    var earlier := items[..|items| - 1];
    IndicesOneMore(items);
    assert PlainRun(env, steps, Indices(earlier)).Some?;
    hide PlainRun;
    forall n | 0 <= n < |earlier|
      ensures SnapshotAt(env, steps, earlier, n)
    {
      assert earlier[..n] == items[..n];
      assert SnapshotAt(env, steps, items, n);
    }
  }

  /** A clean plain run is the loop's: nothing fails, and host and kernel end alike. */
  lemma {:induction false} CleanRunIsDelivered<K>(env: Environment<K>, steps: seq<Step>, items: seq<Item>)
    requires ValidItems(steps, items) && RunsClean(env, steps, items)
    ensures var (loop, plain) := (Deliver(env, steps, items), PlainRun(env, steps, Indices(items)).value);
      && loop.failed == map[] && !loop.stopped
      && loop.kernel == plain.1 && loop.host.commands == plain.0.commands && loop.host.outputs == plain.0.outputs
  {
    hide DeliverItem, Handled, RunsClean;
    if items != [] {
      hide PlainRun;
      var earlier, item := items[..|items| - 1], items[|items| - 1];
      CleanPrefix(env, steps, items);
      CleanRunIsDelivered(env, steps, earlier);
      CleanItemIsDelivered(env, steps, items, Deliver(env, steps, earlier));
      assert item == items[|items| - 1];
    }
  }

  lemma CleanItemIsDelivered<K>(env: Environment<K>, steps: seq<Step>, items: seq<Item>, loop: Loop<K>)
    requires items != [] && ValidItems(steps, items) && RunsClean(env, steps, items)
    requires loop.Valid() && loop.failed == map[] && !loop.stopped
    requires var n := |items| - 1;
      && PlainRun(env, steps, Indices(items[..n])).Some?
      && var plain := PlainRun(env, steps, Indices(items[..n])).value;
         loop.kernel == plain.1 && loop.host.commands == plain.0.commands && loop.host.outputs == plain.0.outputs
    ensures var (after, plain) :=
        (DeliverItem(env, steps, items[|items| - 1], loop), PlainRun(env, steps, Indices(items)).value);
      && after.failed == map[] && !after.stopped
      && after.kernel == plain.1 && after.host.commands == plain.0.commands && after.host.outputs == plain.0.outputs
  {
    hide Handled, Targets, RolledBackOutputs, Indices;
    var item := items[|items| - 1];
    var before := PlainRun(env, steps, Indices(items[..|items| - 1])).value;
    CleanPrefix(env, steps, items);
    IndicesOneMore(items);
    var begun := if item.first then loop.(unitStart := None) else loop;
    var start := if begun.unitStart.Some? then begun.unitStart.value else |loop.host.commands|;
    var host := begun.host.(unit := Some(start), deferrable := None);
    var event := OrderUpdate(steps[item.index].update.value);
    assert !OutOfOrder(steps, item.index, begun.failed);
    SameOutputs(env, before.0, host, before.1, event);
    var after := Handled(env, host, loop.kernel, event).0;
    assert after.outputs + [] == after.outputs;
  }

  lemma SameOutputs<K>(env: Environment<K>, g: HostState, h: HostState, kernel: K, event: Event)
    requires g.Valid() && h.Valid() && g.commands == h.commands && g.outputs == h.outputs
    ensures var ((a, s, e), (b, t, f)) := (Handled(env, g, kernel, event), Handled(env, h, kernel, event));
      && s == t && e == f && a.commands == b.commands && a.outputs == b.outputs
  {
    hide RunEvent;
    RunSeesCommands(env, g, h, kernel, event, [], env.kernel.calls(kernel, event));
    var a, b := Handled(env, g, kernel, event).0, Handled(env, h, kernel, event).0;
    assert a.outputs == g.outputs + a.outputs[|g.outputs|..];
    assert b.outputs == h.outputs + b.outputs[|h.outputs|..];
  }

  /** Native and transactional runs agree: whatever the codec does, the loop fails no update exactly when
      a resident run meets no kernel error and every snapshot on the way succeeds; both then admit the
      same commands in the same order and leave the same kernel and outputs. */
  lemma {:induction false} NativeAndTransactionalAgree<K>(env: Environment<K>, steps: seq<Step>, items: seq<Item>)
    requires ValidItems(steps, items)
    ensures var loop := Deliver(env, steps, items);
      && (loop.failed == map[] && !loop.stopped <==> RunsClean(env, steps, items))
      && (RunsClean(env, steps, items) ==>
            var plain := PlainRun(env, steps, Indices(items)).value;
            loop.kernel == plain.1 && loop.host.commands == plain.0.commands && loop.host.outputs == plain.0.outputs)
  {
    hide Deliver, RunsClean, PlainRun;
    if RunsClean(env, steps, items) {
      CleanRunIsDelivered(env, steps, items);
    } else if Deliver(env, steps, items).failed == map[] && !Deliver(env, steps, items).stopped {
      NothingFailedIsClean(env, steps, items);
    }
  }

  /** If nothing failed, the items before the last ran clean, and so does the last after them. */
  lemma {:induction false} NothingFailedIsClean<K>(env: Environment<K>, steps: seq<Step>, items: seq<Item>)
    requires ValidItems(steps, items)
    requires Deliver(env, steps, items).failed == map[] && !Deliver(env, steps, items).stopped
    ensures RunsClean(env, steps, items)
  {
    if items == [] {
      NothingRunsClean(env, steps);
    } else {
      hide Deliver, PlainRun, Indices, RunsClean;
      var earlier := items[..|items| - 1];
      NothingFailedYet(env, steps, items);
      NothingFailedIsClean(env, steps, earlier);
      CleanRunIsDelivered(env, steps, earlier);
      LastItemRuns(env, steps, items);
      CleanWithLast(env, steps, items);
    }
  }

  lemma NothingRunsClean<K>(env: Environment<K>, steps: seq<Step>)
    ensures RunsClean(env, steps, [])
  {
  }

  lemma CleanWithLast<K>(env: Environment<K>, steps: seq<Step>, items: seq<Item>)
    requires items != [] && RunsClean(env, steps, items[..|items| - 1]) && SnapshotAt(env, steps, items, |items| - 1)
    requires PlainRun(env, steps, Indices(items)).Some?
    ensures RunsClean(env, steps, items)
  {
    hide PlainRun, Indices;
    var n := |items| - 1;
    forall m | 0 <= m < |items|
      ensures SnapshotAt(env, steps, items, m)
    {
      assert m < n ==> items[..m] == items[..n][..m] && SnapshotAt(env, steps, items[..n], m);
    }
  }

  lemma LastItemRuns<K>(env: Environment<K>, steps: seq<Step>, items: seq<Item>)
    requires items != [] && ValidItems(steps, items)
    requires Deliver(env, steps, items).failed == map[] && !Deliver(env, steps, items).stopped
    requires RunsClean(env, steps, items[..|items| - 1])
    ensures PlainRun(env, steps, Indices(items)).Some?
  {
    hide Handled, Indices, Targets, RolledBackOutputs;
    var earlier, item := items[..|items| - 1], items[|items| - 1];
    var loop := Deliver(env, steps, earlier);
    var plain := PlainRun(env, steps, Indices(earlier)).value;
    CleanRunIsDelivered(env, steps, earlier);
    IndicesOneMore(items);
    var begun := if item.first then loop.(unitStart := None) else loop;
    var start := if begun.unitStart.Some? then begun.unitStart.value else |loop.host.commands|;
    SameOutputs(env, plain.0, begun.host.(unit := Some(start), deferrable := None), plain.1,
        OrderUpdate(steps[item.index].update.value));
    assert item.index !in DeliverOne(env, steps, item.index, begun).failed;
  }

  /** If nothing failed, nothing had failed before the last item, and its snapshot was taken. */
  lemma NothingFailedYet<K>(env: Environment<K>, steps: seq<Step>, items: seq<Item>)
    requires items != [] && ValidItems(steps, items)
    requires Deliver(env, steps, items).failed == map[] && !Deliver(env, steps, items).stopped
    ensures var loop := Deliver(env, steps, items[..|items| - 1]);
            loop.failed == map[] && !loop.stopped && env.codec.encode(loop.kernel).Some?
  {
    hide Handled, Targets, RolledBackOutputs;
    var item := items[|items| - 1];
    var loop := Deliver(env, steps, items[..|items| - 1]);
    assert Deliver(env, steps, items) == DeliverItem(env, steps, item, loop);
    assert !loop.stopped;
    var begun := if item.first then loop.(unitStart := None) else loop;
    FailuresOfOne(env, steps, item.index, begun);
    assert loop.failed.Keys == {};
    NoSnapshotFails(env, steps, item.index, begun);
  }

  lemma NoSnapshotFails<K>(env: Environment<K>, steps: seq<Step>, index: nat, loop: Loop<K>)
    requires HasUpdate(steps, index) && loop.Valid()
    ensures env.codec.encode(loop.kernel).None? ==> index in DeliverOne(env, steps, index, loop).failed
  {
    hide Handled, Targets;
  }

  // ---------------------------------------------------------------------------------------
  // Deferral
  // ---------------------------------------------------------------------------------------

  /** Only a refusal met after earlier units issued something defers an update. */
  lemma DeferrableIsIssuedBefore(ctx: Context, h: HostState, call: Call)
    requires h.Valid() && (h.deferrable.Some? ==> IssuedBefore(h.unit))
    ensures var after := Respond(ctx, h, call).0;
            after.deferrable.Some? ==> IssuedBefore(after.unit)
  {
    hide OrderFor, CancelTargetFor, TimerKeyError, RequestError, RowsAfter, EntryFor, BytesWith, EarlierBytes, Requests,
      Runner;
  }

  lemma {:induction false} RunDefersAfterEarlier<K>(
      env: Environment<K>, h: HostState, state: K, event: Event, answers: seq<Response>, fuel: nat)
    requires h.Valid() && (h.deferrable.Some? ==> IssuedBefore(h.unit))
    ensures var after := RunEvent(env, h, state, event, answers, fuel).0;
            after.deferrable.Some? ==> IssuedBefore(after.unit)
    decreases fuel
  {
    hide Respond;
    var action := env.kernel.act(state, event, answers);
    if action.Invoke? && fuel > 0 {
      DeferrableIsIssuedBefore(env.ctx, h, action.call);
      var (h', a) := Respond(env.ctx, h, action.call);
      RunDefersAfterEarlier(env, h', state, event, answers + [a], fuel - 1);
    }
  }

  /** Whether no earlier delivery unit has issued anything. */
  ghost predicate FirstToIssue<K>(loop: Loop<K>) {
    loop.unitStart == Some(0) || (loop.unitStart.None? && loop.host.commands == [])
  }

  lemma UpdateOfFirstUnit<K>(env: Environment<K>, steps: seq<Step>, index: nat, loop: Loop<K>)
    requires HasUpdate(steps, index) && loop.Valid() && !loop.stopped && FirstToIssue(loop)
    requires forall i :: i in loop.failed ==> !loop.failed[i].Deferred?
    ensures var after := DeliverOne(env, steps, index, loop);
      && FirstToIssue(after)
      && forall i :: i in after.failed ==> !after.failed[i].Deferred?
  {
    hide RunEvent, Targets, RolledBackOutputs;
    var start := if loop.unitStart.Some? then loop.unitStart.value else |loop.host.commands|;
    var begun := loop.host.(unit := Some(start), deferrable := None);
    var event := OrderUpdate(steps[index].update.value);
    RunDefersAfterEarlier(env, begun, loop.kernel, event, [], env.kernel.calls(loop.kernel, event));
  }

  /** Items of one delivery unit alone: none of them is deferred. */
  lemma {:induction false} LoneUnitIsNotDeferred<K>(env: Environment<K>, steps: seq<Step>, items: seq<Item>)
    requires ValidItems(steps, items)
    requires forall p :: 0 < p < |items| ==> !items[p].first
    ensures var loop := Deliver(env, steps, items);
      && FirstToIssue(loop)
      && forall index :: index in loop.failed ==> !loop.failed[index].Deferred?
  {
    hide DeliverOne;
    if items != [] {
      var earlier, item := items[..|items| - 1], items[|items| - 1];
      LoneUnitIsNotDeferred(env, steps, earlier);
      var loop := Deliver(env, steps, earlier);
      if !loop.stopped {
        var begun := if item.first then loop.(unitStart := None) else loop;
        UpdateOfFirstUnit(env, steps, item.index, begun);
      }
    }
  }

  /** An update defers no update but itself. */
  lemma DefersNoOther<K>(env: Environment<K>, steps: seq<Step>, index: nat, loop: Loop<K>)
    requires HasUpdate(steps, index) && loop.Valid()
    ensures var after := DeliverOne(env, steps, index, loop);
            forall x :: x != index && x in after.failed && after.failed[x].Deferred? ==>
                x in loop.failed && loop.failed[x].Deferred?
  {
    hide Handled, Targets, RolledBackOutputs;
  }

  /** A decision's first delivery unit is never deferred: it meets no refusal that earlier updates are
      to blame for, and no later update changes how its failures count. `m` items belong to it. */
  lemma {:induction false} FirstUnitIsNotDeferred<K>(env: Environment<K>, steps: seq<Step>, items: seq<Item>, m: nat)
    requires ValidItems(steps, items) && m <= |items|
    requires forall p :: 0 < p < m ==> !items[p].first
    ensures var failed := Deliver(env, steps, items).failed;
            forall p :: 0 <= p < m && items[p].index in failed ==> !failed[items[p].index].Deferred?
  {
    hide DeliverOne;
    if m == |items| {
      LoneUnitIsNotDeferred(env, steps, items);
    } else {
      var earlier, item := items[..|items| - 1], items[|items| - 1];
      FirstUnitIsNotDeferred(env, steps, earlier, m);
      var loop := Deliver(env, steps, earlier);
      assert forall p :: 0 <= p < m ==> earlier[p] == items[p];
      if !loop.stopped {
        DefersNoOther(env, steps, item.index, if item.first then loop.(unitStart := None) else loop);
      }
    }
  }

  // ---------------------------------------------------------------------------------------
  // Holds
  // ---------------------------------------------------------------------------------------

  /** Whether a target of `x` failed, on its own account. */
  ghost predicate BehindFailed(steps: seq<Step>, failed: map<nat, Failure>, x: nat) {
    && x < |steps|
    && exists i :: 0 <= i < |Targets(steps, x)| && Targets(steps, x)[i] in failed
         && (failed[Targets(steps, x)[i]].Counted? || failed[Targets(steps, x)[i]].Deferred?)
  }

  ghost predicate HeldAreBehindFailed(steps: seq<Step>, failed: map<nat, Failure>) {
    forall x :: x in failed && failed[x].Held? ==> BehindFailed(steps, failed, x)
  }

  ghost predicate NoneRolledBack(failed: map<nat, Failure>) {
    forall x :: x in failed ==> !failed[x].RolledBack?
  }

  /** Later failures of others leave it so. */
  lemma StaysBehindFailed(steps: seq<Step>, before: map<nat, Failure>, after: map<nat, Failure>, x: nat)
    requires BehindFailed(steps, before, x)
    requires forall y :: y in before ==> y in after && after[y] == before[y]
    ensures BehindFailed(steps, after, x)
  {
    hide Targets;
    var i :| 0 <= i < |Targets(steps, x)| && Targets(steps, x)[i] in before
          && (before[Targets(steps, x)[i]].Counted? || before[Targets(steps, x)[i]].Deferred?);
    assert Targets(steps, x)[i] in after;
  }

  /** A failed target of a cancel failed on its own account: it is a place's, and those are never held. */
  lemma OutOfOrderIsBehindFailed(steps: seq<Step>, index: nat, failed: map<nat, Failure>)
    requires index < |steps| && OutOfOrder(steps, index, failed)
    requires HeldAreBehindFailed(steps, failed) && NoneRolledBack(failed)
    ensures BehindFailed(steps, failed, index)
  {
    hide Targets;
    var i :| 0 <= i < |Targets(steps, index)| && Targets(steps, index)[i] in failed;
    var t := Targets(steps, index)[i];
    assert failed[t].Held? ==> BehindFailed(steps, failed, t);
    TargetIsAPlace(steps, index, t);
  }

  /** What one delivery adds to the failures. */
  lemma FailureKinds<K>(env: Environment<K>, steps: seq<Step>, index: nat, loop: Loop<K>)
    requires HasUpdate(steps, index) && loop.Valid() && !loop.stopped && index !in loop.failed
    ensures var after := DeliverOne(env, steps, index, loop);
      && (forall x :: x in loop.failed ==> x in after.failed && after.failed[x] == loop.failed[x])
      && (forall x :: x in after.failed && x !in loop.failed && after.failed[x].Held? ==>
            x == index && OutOfOrder(steps, index, loop.failed))
      && (forall x :: !after.stopped && x in after.failed && x !in loop.failed ==> !after.failed[x].RolledBack?)
  {
    hide Handled, Targets, RolledBackOutputs, OutOfOrder;
  }

  lemma HoldsStep<K>(env: Environment<K>, steps: seq<Step>, index: nat, loop: Loop<K>)
    requires HasUpdate(steps, index) && loop.Valid() && !loop.stopped && index !in loop.failed
    requires HeldAreBehindFailed(steps, loop.failed) && NoneRolledBack(loop.failed)
    ensures var after := DeliverOne(env, steps, index, loop);
            HeldAreBehindFailed(steps, after.failed) && (!after.stopped ==> NoneRolledBack(after.failed))
  {
    hide DeliverOne, OutOfOrder, BehindFailed;
    var after := DeliverOne(env, steps, index, loop);
    FailureKinds(env, steps, index, loop);
    forall x | x in after.failed && after.failed[x].Held?
      ensures BehindFailed(steps, after.failed, x)
    {
      if x !in loop.failed {
        OutOfOrderIsBehindFailed(steps, index, loop.failed);
      }
      StaysBehindFailed(steps, loop.failed, after.failed, x);
    }
  }

  /** An update is held only behind a target's that failed on its own account, counted or deferred. */
  lemma {:induction false} HeldBehindFailedTargets<K>(env: Environment<K>, steps: seq<Step>, items: seq<Item>)
    requires ValidItems(steps, items)
    ensures var loop := Deliver(env, steps, items);
            HeldAreBehindFailed(steps, loop.failed) && (!loop.stopped ==> NoneRolledBack(loop.failed))
  {
    hide DeliverOne, BehindFailed;
    if items != [] {
      hide HeldAreBehindFailed, NoneRolledBack, FailedAreItems;
      var earlier, item := items[..|items| - 1], items[|items| - 1];
      HeldBehindFailedTargets(env, steps, earlier);
      var loop := Deliver(env, steps, earlier);
      if !loop.stopped {
        FailuresAreItems(env, steps, earlier);
        assert items == earlier + [item];
        NotYetFailed(steps, earlier, item, loop);
        HoldsStep(env, steps, item.index, if item.first then loop.(unitStart := None) else loop);
      }
    }
  }

  ghost predicate MostDeferred(steps: seq<Step>, index: nat) {
    HasUpdate(steps, index) && forall x: nat :: HasUpdate(steps, x) ==> steps[x].Deferrals() <= steps[index].Deferrals()
  }

  /** Whether a target of the unit's update at `p` comes before it in the unit and failed, counted. */
  ghost predicate BehindCounted(steps: seq<Step>, unit: seq<nat>, failed: map<nat, Failure>, p: nat)
    requires p < |unit|
  {
    && unit[p] < |steps|
    && exists q :: 0 <= q < p && unit[q] in Targets(steps, unit[p]) && unit[q] in failed && failed[unit[q]].Counted?
  }

  /** Progress: the update deferred most often is in the unit a decision delivers first. Nothing of that
      unit is deferred for room again, and a cancel of it is held only behind a target's counted failure. */
  lemma {:induction false} MostDeferredIsNotDeferred<K>(env: Environment<K>, steps: seq<Step>)
    requires ValidSteps(steps) && DeliveryUnits(steps) != []
    ensures ValidItems(steps, ItemsOf(DeliveryUnits(steps)))
    ensures var unit, failed := DeliveryUnits(steps)[0], Deliver(env, steps, ItemsOf(DeliveryUnits(steps))).failed;
      && (exists p :: 0 <= p < |unit| && MostDeferred(steps, unit[p]))
      && forall p :: 0 <= p < |unit| && unit[p] in failed ==>
           !failed[unit[p]].Deferred? && (failed[unit[p]].Held? ==> BehindCounted(steps, unit, failed, p))
  {
    hide Deliver, DeliveryUnits, Targets, TargetsPrecede, BehindCounted, HeldAreBehindFailed, NoneRolledBack;
    FirstUnitIsMostDeferred(steps);
    DecisionItemsAreValid(steps);
    var units := DeliveryUnits(steps);
    var items := ItemsOf(units);
    var failed := Deliver(env, steps, items).failed;
    assert items == UnitItems(units[0]) + ItemsOf(units[1..]);
    FirstUnitIsNotDeferred(env, steps, items, |units[0]|);
    HeldBehindFailedTargets(env, steps, items);
    assert MostDeferred(steps, units[0][|units[0]| - 1]);
    forall p | 0 <= p < |units[0]|
      ensures items[p].index == units[0][p]
    {
    }
    forall p | 0 <= p < |units[0]| && units[0][p] in failed && failed[units[0][p]].Held?
      ensures BehindCounted(steps, units[0], failed, p)
    {
      HeldInFirstUnit(steps, items, units[0], failed, p);
    }
  }

  lemma HeldInFirstUnit(steps: seq<Step>, items: seq<Item>, unit: seq<nat>, failed: map<nat, Failure>, p: nat)
    requires ValidItems(steps, items) && TargetsPrecede(steps, Indices(items), {})
    requires p < |unit| <= |items| && forall q :: 0 <= q < |unit| ==> items[q].index == unit[q]
    requires forall q :: 0 <= q < |unit| && items[q].index in failed ==> !failed[items[q].index].Deferred?
    requires HeldAreBehindFailed(steps, failed) && unit[p] in failed && failed[unit[p]].Held?
    ensures BehindCounted(steps, unit, failed, p)
  {
    hide Targets;
    var targets := Targets(steps, unit[p]);
    assert BehindFailed(steps, failed, unit[p]);
    var i :| 0 <= i < |targets| && targets[i] in failed
        && (failed[targets[i]].Counted? || failed[targets[i]].Deferred?);
    assert Indices(items)[p] == unit[p] && targets[i] in targets;
    assert targets[i] in Indices(items)[..p];
    var q :| 0 <= q < p && Indices(items)[q] == targets[i];
    assert items[q].index == targets[i] == unit[q];
  }

  /** A failure's deferrals are below the bound when it is a cancel's. */
  ghost predicate CancelsBelowBound(steps: seq<Step>, failed: map<nat, Failure>) {
    forall i :: i in failed && i < |steps| && steps[i].IsCancel() && (failed[i].Deferred? || failed[i].Held?) ==>
      steps[i].Deferral() < MAX_DELIVERY_DEFERRALS
  }

  lemma CancelStaysBelowBound<K>(env: Environment<K>, steps: seq<Step>, index: nat, loop: Loop<K>)
    requires HasUpdate(steps, index) && loop.Valid() && CancelsBelowBound(steps, loop.failed)
    ensures CancelsBelowBound(steps, DeliverOne(env, steps, index, loop).failed)
  {
    hide Handled, Targets, RolledBackOutputs;
  }

  lemma {:induction false} LoopKeepsCancelsBelowBound<K>(env: Environment<K>, steps: seq<Step>, items: seq<Item>)
    requires ValidItems(steps, items)
    ensures CancelsBelowBound(steps, Deliver(env, steps, items).failed)
  {
    hide DeliverOne, CancelsBelowBound;
    if items == [] {
      NoCancels(steps);
    } else {
      var earlier, item := items[..|items| - 1], items[|items| - 1];
      LoopKeepsCancelsBelowBound(env, steps, earlier);
      var loop := Deliver(env, steps, earlier);
      if !loop.stopped {
        CancelStaysBelowBound(env, steps, item.index, if item.first then loop.(unitStart := None) else loop);
      }
    }
  }

  lemma NoCancels(steps: seq<Step>)
    ensures CancelsBelowBound(steps, map[])
  {
  }

  /** No cancel's update is abandoned for being held or deferred: only its third counted failure does
      that. A place's update is abandoned by its eighth deferral too. */
  lemma {:induction false} CancelsAreAbandonedByCountedFailuresOnly<K>(
      env: Environment<K>, steps: seq<Step>, items: seq<Item>, index: nat)
    requires ValidItems(steps, items) && ValidSteps(steps) && index < |steps| && steps[index].IsCancel()
    requires index in Deliver(env, steps, items).failed
    ensures var failure := Deliver(env, steps, items).failed[index];
            Abandoned(steps[index], failure) <==>
              failure.Counted? && steps[index].previous.value.deliveryFailures + 1 == MAX_DELIVERY_ATTEMPTS
  {
    hide Deliver;
    LoopKeepsCancelsBelowBound(env, steps, items);
    assert steps[index].Valid();
  }
}
