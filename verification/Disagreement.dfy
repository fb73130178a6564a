/**
 Views that disagree with the runner section about an order: over one that does not, every kernel leaves
 a section that validates; two that do, and what becomes of every decision over them.
 */
module Disagreement {
  import opened Wrappers
  import opened Fees
  import opened Wire
  import opened Admission
  import opened Updates
  import opened Delivery
  import opened Agreement
  import opened RunnerSection
  import opened Comparison
  import opened Transaction
  import opened Reuse

  // ---------------------------------------------------------------------------------------
  // Views that agree
  // ---------------------------------------------------------------------------------------

  /** Whether the view and a place's entry agree: an order has its command exactly if it has its client
      order id, and is filled within its request; and no receipt refuses it. */
  ghost predicate AgreesOn(view: BrokerView, entry: RunnerEntry) {
    entry.kind.PlaceKind? ==>
      && (forall m :: 0 <= m < |view.orders| ==>
            (view.orders[m].commandId == entry.commandId <==> entry.clientId == Some(view.orders[m].clientId)))
      && !FilledBeyond(view, entry)
      && !(OutcomeOf(view.receipts, entry.commandId).Some?
          && OutcomeOf(view.receipts, entry.commandId).value.RefusedOutcome?)
  }

  ghost predicate Agrees(section: Section, view: BrokerView) {
    forall k :: 0 <= k < |section.entries| ==> AgreesOn(view, section.entries[k])
  }

  lemma DropHasOrder(view: BrokerView, entry: RunnerEntry)
    requires entry.kind.PlaceKind? && AgreesOn(view, entry)
    requires StepOf(view, entry).update.Some? && StepOf(view, entry).next.None?
    ensures exists m :: 0 <= m < |view.orders| && entry.clientId == Some(view.orders[m].clientId)
  {
    hide OutcomeOf;
  }

  /** Over a view that agrees with the section on every place, no kernel and no codec can leave a section
      that does not validate. */
  lemma {:induction false} AgreeingViewsAlwaysValidate<K>(
      env: Environment<K>, section: Section, view: BrokerView, entries: seq<RunnerEntry>)
    requires env.ctx.Valid() && view.Valid() && ValidSection(section.entries) && Reflects(env.ctx, section, view)
    requires Compared(section, view).Some? && Agrees(section, view)
    requires ValidSteps(Compared(section, view).value)
    requires var steps := Compared(section, view).value;
             Finalized(steps, Delivered(env, steps).failed, OwnEntries(env.ctx, Triggered(env, steps).0.commands),
                 entries)
    ensures ValidSection(entries)
  {
    hide StepOf, Compared, Coherent, DerivedFor, Finalized, Delivered, Triggered, ValidSection, Context.Valid,
      BrokerView.Valid, AgreesOn, Drops, AdoptionShares, Overfilled;
    var steps := Compared(section, view).value;
    ComparisonIsCoherent(section, view);
    ComparisonIsDerived(env.ctx, section, view);
    var from := ComparedInOrder(section, view);
    forall i: nat, clientId | Drops(steps, i, clientId)
      ensures exists k :: 0 <= k < |env.ctx.orders| && env.ctx.orders[k].clientId == clientId
    {
      DropsAgree(section, view, steps, from, i, clientId);
    }
    forall i: nat, j: nat
      ensures !AdoptionShares(steps, i, j)
    {
      AdoptionsAgree(section, view, steps, from, i, j);
    }
    forall i | 0 <= i < |steps| && steps[i].next.Some?
      ensures !Overfilled(steps[i].next.value)
    {
      FillsAgree(section, view, steps, from, i);
    }
    KeptClientsAlwaysValidate(env, steps, entries);
  }

  lemma {:induction false} ComparedInOrder(section: Section, view: BrokerView) returns (from: seq<nat>)
    requires Compared(section, view).Some?
    ensures InOrder(section, view, Compared(section, view).value, from)
  {
    hide InOrder, SectionSteps;
    from := StepsAreInOrder(section, view, if Fresh(section, view) then |view.orders| else 0);
  }

  lemma DropsAgree(section: Section, view: BrokerView, steps: seq<Step>, from: seq<nat>, i: nat, clientId: string)
    requires view.Valid() && ValidSection(section.entries) && Agrees(section, view)
        && InOrder(section, view, steps, from)
    requires Drops(steps, i, clientId)
    ensures exists m :: 0 <= m < |view.orders| && view.orders[m].clientId == clientId
  {
    hide StepOf, ValidSection, AgreesOn, BrokerView.Valid;
    assert StepFrom(section, view, steps, i, from[i]);
    if i < |section.entries| {
      StepHasFacts(section, view, steps, from, i);
      DropHasOrder(view, section.entries[i]);
    }
  }

  lemma AdoptionsAgree(section: Section, view: BrokerView, steps: seq<Step>, from: seq<nat>, i: nat, j: nat)
    requires view.Valid() && ValidSection(section.entries) && Agrees(section, view)
        && InOrder(section, view, steps, from)
    ensures !AdoptionShares(steps, i, j)
  {
    hide StepOf, ValidSection, BrokerView.Valid, FilledBeyond, OutcomeOf;
    if i < |section.entries| <= j < |steps| {
      assert StepFrom(section, view, steps, i, from[i]) && StepFrom(section, view, steps, j, from[j]);
      StepHasFacts(section, view, steps, from, i);
      assert AgreesOn(view, section.entries[i]) && section.entries[i].commandId in TrackedIds(section.entries);
    } else if i < |steps| && j < |steps| {
      assert StepFrom(section, view, steps, i, from[i]) && StepFrom(section, view, steps, j, from[j]);
      StepHasFacts(section, view, steps, from, j);
    }
  }

  lemma FillsAgree(section: Section, view: BrokerView, steps: seq<Step>, from: seq<nat>, i: nat)
    requires view.Valid() && ValidSection(section.entries) && Agrees(section, view)
        && InOrder(section, view, steps, from)
    requires i < |steps| && steps[i].next.Some?
    ensures !Overfilled(steps[i].next.value)
  {
    hide StepOf, OrderOf, OutcomeOf, LiveOnly;
    assert StepFrom(section, view, steps, i, from[i]);
    if i < |section.entries| {
      StepIsValid(view, section.entries[i]);
      assert AgreesOn(view, section.entries[i]);
    } else {
      AdoptionIsValid(view, view.orders[from[i]]);
    }
  }

  // ---------------------------------------------------------------------------------------
  // An order adopted under a tracked client order id
  // ---------------------------------------------------------------------------------------

  /** A place under "x" that no order record shows yet. */
  ghost const TRACKED: RunnerEntry :=
    RunnerEntry("c3", PlaceKind, Some("x"), None, Some("m"), Some(Sell), Some(Yes), 100, None, 0, 0, 1, false, 0, 0,
        0, 0)

  /** An older order under "x" that is open again: the section has forgotten it. */
  ghost const RETURNED: BrokerOrder :=
    BrokerOrder("c2", "o2", "x", "m", Sell, Yes, 100, 0, 100, None, 0, None, RestingStatus, 1)

  ghost const TRACKING: Section := Section(true, 1, [TRACKED])

  ghost const RETURNING: BrokerView := BrokerView([RETURNED], 2, false, [])

  ghost const ADOPTING: seq<Step> :=
      [Step(Some(TRACKED), Some(TRACKED), None), Step(None, Some(Adopt(RETURNED, 2)), None)]

  lemma ShortTextsAreIdentifiers()
    ensures ValidIdentifier("c") && ValidIdentifier("c2") && ValidIdentifier("c3") && ValidIdentifier("o2")
    ensures ValidIdentifier("x") && ValidIdentifier("m")
  {
  }

  lemma LoneEntryIsValidSection(entry: RunnerEntry)
    requires ValidEntry(entry) && !entry.vanished
    ensures ValidSection([entry])
  {
    hide ValidEntry;
    TombstonesOfOne(entry);
    hide Tombstones;
  }

  lemma TrackingAndReturningAreValid()
    ensures ValidSection(TRACKING.entries) && RETURNING.Valid()
  {
    ShortTextsAreIdentifiers();
    assert ValidEntry(TRACKED);
    LoneEntryIsValidSection(TRACKED);
    hide ValidSection;
  }

  lemma ReturnedIsAdopted()
    ensures Compared(TRACKING, RETURNING) == Some(ADOPTING)
  {
    var one := SectionSteps(TRACKING, RETURNING);
    assert OrderOf(RETURNING.orders, "c3") == OrderOf([], "c3") == None;
    assert one == [Step(Some(TRACKED), Some(TRACKED), None)];
    assert HeldEntries(one, 1) == HeldEntries(one, 0) + 1;
    assert TrackedIds(TRACKING.entries) == {"c3"} && "c2"[1] != "c3"[1];
    assert Adoptable(TRACKING, RETURNED) && HeldEntries(one, |one|) == 1;
    assert RETURNING.orders[0] == RETURNED && |RETURNING.orders| == 1;
    assert StepsWith(TRACKING, RETURNING, 0) == one;
    assert StepsWith(TRACKING, RETURNING, 1) == one + [Step(None, Some(Adopt(RETURNED, 2)), None)] == ADOPTING;
    assert Fresh(TRACKING, RETURNING);
  }

  lemma AdoptionStays(failed: map<nat, Failure>)
    requires FailedHaveUpdates(ADOPTING, failed)
    ensures AdoptsTracked(ADOPTING, failed)
  {
    var after := EntriesAfter(ADOPTING, failed, 2);
    assert EntryAfter(ADOPTING[0], FailureOf(failed, 0)) == Some(TRACKED);
    var k := StepsLeaveEntries(ADOPTING, failed, 2, 0);
    hide EntriesAfter;
    var pending := PendingIds(ADOPTING, failed, 2);
    hide PendingIds;
    assert Survives(after, pending, k);
    KeptHas(after, pending, |after|, TRACKED);
    assert TRACKED in KeptAfter(ADOPTING, failed);
    assert AdoptsBeside(ADOPTING, failed, 0, 1);
  }

  /** Section and view are valid, and there is no update to fail: whatever the kernel, the codec and the
      rest of the context, the decision is rejected or cannot validate. */
  lemma {:induction false} AdoptionAlwaysFails<K>(env: Environment<K>)
    ensures ValidSection(TRACKING.entries) && RETURNING.Valid()
    ensures Compared(TRACKING, RETURNING) == Some(ADOPTING) && Coherent(ADOPTING)
    ensures Triggered(env, ADOPTING).2.None? ==> CannotValidate(env, ADOPTING)
  {
    hide ValidSection, BrokerView.Valid, Compared, Coherent, Delivered, Triggered, AdoptsTracked;
    TrackingAndReturningAreValid();
    ReturnedIsAdopted();
    ComparisonIsCoherent(TRACKING, RETURNING);
    StepsAreValid(ADOPTING);
    AdoptionFails(env);
  }

  lemma AdoptionFails<K>(env: Environment<K>)
    requires Coherent(ADOPTING) && ValidSteps(ADOPTING)
    ensures Triggered(env, ADOPTING).2.None? ==> CannotValidate(env, ADOPTING)
  {
    hide Handled, Deliver, DeliveryUnits, ItemsOf, Coherent, AdoptsTracked;
    DecisionItemsAreValid(ADOPTING);
    FailuresHaveUpdates(env, ADOPTING, ItemsOf(DeliveryUnits(ADOPTING)));
    AdoptionStays(Delivered(env, ADOPTING).failed);
  }

  // ---------------------------------------------------------------------------------------
  // A fill beyond the request
  // ---------------------------------------------------------------------------------------

  ghost const SMALL: RunnerEntry :=
    RunnerEntry("c", PlaceKind, Some("x"), None, Some("m"), Some(Sell), Some(Yes), 100, None, 0, 0, 1, false, 0, 0, 0,
        0)

  /** The same command's order, of twice the quantity, with more filled than the entry's request. */
  ghost const LARGE: BrokerOrder :=
    BrokerOrder("c", "o2", "x", "m", Sell, Yes, 200, 150, 50, Some(500_000), 0, None, PartiallyFilledStatus, 1)

  ghost const ASKED: Section := Section(true, 1, [SMALL])

  ghost const FILLED: BrokerView := BrokerView([LARGE], 2, true, [])

  ghost const FILLING: seq<Step> := [OrderStep(SMALL, LARGE)]

  lemma LargeIsCompared()
    ensures ValidSection(ASKED.entries) && FILLED.Valid() && Compared(ASKED, FILLED) == Some(FILLING)
  {
    ShortTextsAreIdentifiers();
    assert ValidEntry(SMALL);
    LoneEntryIsValidSection(SMALL);
    hide ValidSection;
    var one := SectionSteps(ASKED, FILLED);
    assert OrderOf(FILLED.orders, "c") == Some(LARGE);
    assert one == FILLING;
    assert HeldEntries(one, 1) == HeldEntries(one, 0) + 1;
    assert SMALL.commandId in TrackedIds(ASKED.entries);
    assert StepsWith(ASKED, FILLED, 1) == one;
  }

  /** A kernel that handles the update dooms the decision; one that fails on it does not. */
  lemma {:induction false} FillBeyondRequestFails<K>(env: Environment<K>)
    ensures ValidSection(ASKED.entries) && FILLED.Valid()
    ensures Compared(ASKED, FILLED) == Some(FILLING) && Coherent(FILLING)
    ensures Overfills(FILLING, Delivered(env, FILLING).failed) <==> 0 !in Delivered(env, FILLING).failed
    ensures Triggered(env, FILLING).2.None? && 0 !in Delivered(env, FILLING).failed ==> CannotValidate(env, FILLING)
  {
    hide ValidSection, BrokerView.Valid, Compared, Coherent, Delivered, Triggered, Overfills;
    LargeIsCompared();
    ComparisonIsCoherent(ASKED, FILLED);
    StepsAreValid(FILLING);
    LargeOverfills(Delivered(env, FILLING).failed);
  }

  lemma LargeOverfills(failed: map<nat, Failure>)
    ensures Overfills(FILLING, failed) <==> 0 !in failed
  {
    if 0 !in failed {
      assert LeavesOverfilled(FILLING, failed, 0);
    } else {
      assert !Abandoned(FILLING[0], failed[0]);
      assert forall i :: LeavesOverfilled(FILLING, failed, i) ==> i == 0;
    }
  }

  lemma {:induction false} OneUpdate(items: seq<Item>)
    requires ValidItems(FILLING, items) && forall x: nat :: HasUpdate(FILLING, x) ==> exists p ::
        0 <= p < |items| && items[p].index == x
    ensures |items| == 1
  {
    assert HasUpdate(FILLING, 0);
    var p :| 0 <= p < |items| && items[p].index == 0;
    assert !OtherUpdate(FILLING, 0);
    LoneItem(FILLING, items, 0);
  }

  /** There is such a kernel: one that does nothing but handle the update. */
  lemma {:induction false} HandlingTheFillFails(ctx: Context)
    ensures ValidSteps(FILLING)
    ensures var env := Breaking(ctx, [], 1, false);
            Triggered(env, FILLING).2.None? && CannotValidate(env, FILLING)
  {
    hide Deliver, DeliveryUnits, ItemsOf, RunEvent, CannotValidate, ValidSection, BrokerView.Valid, Compared, Coherent,
      Overfills;
    var env := Breaking(ctx, [], 1, false);
    FillBeyondRequestFails(env);
    StepsAreValid(FILLING);
    DecisionItemsAreValid(FILLING);
    var items := ItemsOf(DeliveryUnits(FILLING));
    OneUpdate(items);
    HandlesFirst(ctx, [], 1, FILLING, items);
    var loop := Delivered(env, FILLING);
    TriggerReplays(env, [], [], loop.host, loop.kernel, []);
  }

  // ---------------------------------------------------------------------------------------
  // A fill taken back
  // ---------------------------------------------------------------------------------------

  ghost const TOLD: RunnerEntry :=
    SMALL.(orderId := Some("o2"), lastStatus := Some(SeenPartiallyFilled), filled := 50, orderRevision := 1)

  /** The order with less filled than the Strategy was told. */
  ghost const TAKEN_BACK: BrokerOrder := LARGE.(quantity := 100, filled := 40, remaining := 60, revision := 2)

  ghost const CORRECTED: BrokerView := BrokerView([TAKEN_BACK], 3, true, [])

  /** The same news again and again, of a view that does not change. */
  lemma NewsIsRepeated()
    ensures ValidEntry(TOLD) && CORRECTED.Valid()
    ensures var step := StepOf(CORRECTED, TOLD);
      && step.update.Some? && step.next.Some?
      && StepOf(CORRECTED, EntryAfter(step, None).value).update == step.update
  {
    ShortTextsAreIdentifiers();
    hide ValidIdentifier;
    assert OrderOf(CORRECTED.orders, "c") == Some(TAKEN_BACK);
  }
}
