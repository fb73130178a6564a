/**
 What the comparison of an entry with the Broker's view tells and keeps, said of views, receipts and
 entries alone. A view here shows each order and answers each command once.
 */
module News {
  import opened Wrappers
  import opened Fees
  import opened Wire
  import opened Updates
  import opened RunnerSection
  import opened Comparison

  /** A valid view with one answer at most for each command, and one order for each order id. */
  ghost predicate Unambiguous(view: BrokerView) {
    && view.Valid()
    && (forall i, j :: 0 <= i < j < |view.orders| ==> view.orders[i].orderId != view.orders[j].orderId)
    && (forall i, j :: 0 <= i < j < |view.receipts| ==> view.receipts[i].commandId != view.receipts[j].commandId)
  }

  ghost predicate Shows(view: BrokerView, commandId: string) {
    exists i :: 0 <= i < |view.orders| && view.orders[i].commandId == commandId
  }

  ghost predicate Answers(view: BrokerView, commandId: string) {
    exists i :: 0 <= i < |view.receipts| && view.receipts[i].commandId == commandId
  }

  lemma OrderIsFound(view: BrokerView, i: nat)
    requires view.Valid() && i < |view.orders|
    ensures OrderOf(view.orders, view.orders[i].commandId) == Some(view.orders[i])
  {
    var found := OrderOf(view.orders, view.orders[i].commandId);
    var k :| 0 <= k < |view.orders| && Some(view.orders[k]) == found;
  }

  lemma AnswerIsFound(view: BrokerView, i: nat)
    requires Unambiguous(view) && i < |view.receipts|
    ensures OutcomeOf(view.receipts, view.receipts[i].commandId) == Some(view.receipts[i].outcome)
  {
    var found := OutcomeOf(view.receipts, view.receipts[i].commandId);
    var k :| 0 <= k < |view.receipts| && view.receipts[k] == Receipt(view.receipts[i].commandId, found.value);
  }

  // ---------------------------------------------------------------------------------------
  // Orders the view shows
  // ---------------------------------------------------------------------------------------

  /** Which status the Strategy sees. A requested cancellation and a recovery are no news of their own: the
      last status stays, but for a fill. */
  ghost predicate Sees(order: BrokerOrder, last: Option<SeenStatus>, seen: SeenStatus) {
    && (order.status.DurablyAccepted? || order.status.Dispatched? ==> seen == SeenAccepted)
    && (order.status.RestingStatus? ==> seen == SeenResting)
    && (order.status.PartiallyFilledStatus? ==> seen == SeenPartiallyFilled)
    && (order.status.FilledStatus? ==> seen == SeenFilled)
    && (order.status.CancelledStatus? ==> seen == SeenCancelled)
    && (order.status.ExpiredStatus? ==> seen == SeenExpired)
    && (order.status.RejectedStatus? ==>
          && seen.SeenRefused? && seen.code == "provider_rejected"
          && (order.rejection.Some? && order.rejection.value != "" ==> Some(seen.reason) == order.rejection)
          && (order.rejection.None? || order.rejection.value == "" ==>
                seen.reason == "the provider rejected the order"))
    && (order.status.CancellationRequestedStatus? || order.status.RecoveryRequired? ==>
          if order.filled > 0 then seen == SeenPartiallyFilled
          else if last.None? then seen == SeenAccepted
          else Some(seen) == last)
  }

  /** The record that tells an order: identity as the entry has it, quantities as the order does, the fill
      since the last news, and final when the order will not change again. */
  ghost predicate TellsOrder(entry: RunnerEntry, order: BrokerOrder, seen: SeenStatus, news: UpdateRecord) {
    && news.commandId == entry.commandId && news.kind == entry.kind && news.clientId == entry.clientId
    && news.marketId == entry.marketId && news.action == entry.action && news.side == entry.side
    && news.orderId == Some(order.orderId) && news.status == seen
    && news.requested == order.quantity && news.filled == order.filled && news.remaining == order.remaining
    && (order.filled >= entry.filled ==> entry.filled + news.newlyFilled == order.filled)
    && (order.filled < entry.filled ==> news.newlyFilled == 0)
    && news.averagePrice == order.averagePrice && news.fees == order.fees
    && (news.isFinal <==> seen.SeenFilled? || seen.SeenCancelled? || seen.SeenExpired? || seen.SeenRefused?)
    && !news.vanished
  }

  /** The entry that remembers it: the order's id, status and revision, the greater fill, and no longer a
      tombstone; nothing else changes. */
  ghost predicate Remembers(entry: RunnerEntry, order: BrokerOrder, seen: SeenStatus, next: RunnerEntry) {
    && next == entry.(
         orderId := Some(order.orderId), lastStatus := Some(seen), orderRevision := order.revision,
         filled := next.filled, vanished := false, vanishedRevision := 0, absentViews := 0)
    && next.filled >= order.filled && next.filled >= entry.filled
    && (next.filled == order.filled || next.filled == entry.filled)
  }

  /** A place whose order the view shows: an older record than the last is ignored; else the change is
      told, if there is one, and the entry kept exactly while the order may change again. */
  lemma ShownOrderIsTold(view: BrokerView, entry: RunnerEntry, i: nat)
    requires view.Valid() && entry.kind.PlaceKind? && i < |view.orders|
    requires view.orders[i].commandId == entry.commandId
    requires entry.lastStatus.Some? ==> !entry.lastStatus.value.Terminal()
    ensures var (order, step) := (view.orders[i], StepOf(view, entry));
      && step.previous == Some(entry)
      && (order.revision < entry.orderRevision ==> step.next == Some(entry) && step.update.None?)
      && (order.revision >= entry.orderRevision ==>
            exists seen ::
              && Sees(order, entry.lastStatus, seen)
              && (step.update.Some? <==>
                    entry.vanished || entry.lastStatus != Some(seen) || entry.filled != order.filled)
              && (step.update.Some? ==> TellsOrder(entry, order, seen, step.update.value))
              && (step.next.Some? <==>
                    !(order.status.FilledStatus? || order.status.CancelledStatus? || order.status.ExpiredStatus?
                      || order.status.RejectedStatus?))
              && (step.next.Some? ==> Remembers(entry, order, seen, step.next.value)))
  {
    OrderIsFound(view, i);
    hide OrderOf, OutcomeOf, BrokerView.Valid, ValidIdentifier;
    var seen := StatusSeen(view.orders[i], entry.lastStatus);
    assert Sees(view.orders[i], entry.lastStatus, seen);
  }

  // ---------------------------------------------------------------------------------------
  // Commands the view does not show
  // ---------------------------------------------------------------------------------------

  /** The record that tells a command, always final: what the entry remembers, with the quantities of the
      order it is about while the view shows that, and otherwise nothing remaining. */
  ghost predicate TellsCommand(
      entry: RunnerEntry, status: SeenStatus, about: Option<BrokerOrder>, vanished: bool, news: UpdateRecord)
  {
    && news.commandId == entry.commandId && news.kind == entry.kind && news.clientId == entry.clientId
    && news.marketId == entry.marketId && news.action == entry.action && news.side == entry.side
    && news.status == status && news.isFinal && news.newlyFilled == 0 && news.vanished == vanished
    && (about.None? ==>
          && news.orderId == entry.orderId && news.requested == entry.requested && news.filled == entry.filled
          && news.remaining == 0 && news.averagePrice.None? && news.fees == 0)
    && (about.Some? ==>
          && news.orderId == Some(about.value.orderId) && news.requested == about.value.quantity
          && news.filled == about.value.filled && news.remaining == about.value.remaining
          && news.averagePrice == about.value.averagePrice && news.fees == about.value.fees)
  }

  /** Whether the entry's absence from the view says anything: the view is whole and newer than the
      command. */
  predicate SaysAbsent(view: BrokerView, entry: RunnerEntry) {
    view.complete && view.revision > entry.issuedRevision
  }

  /** What stays of an entry that is absent: the entry itself while absence says nothing; a tombstone of
      the view's revision at first; then one more absent view for each newer view, up to the sixteenth,
      which ends it. */
  ghost predicate Fades(view: BrokerView, entry: RunnerEntry, next: Option<RunnerEntry>) {
    && (!SaysAbsent(view, entry) ==> next == Some(entry))
    && (SaysAbsent(view, entry) && !entry.vanished ==>
          next == Some(entry.(vanished := true, vanishedRevision := view.revision, absentViews := 0)))
    && (SaysAbsent(view, entry) && entry.vanished ==>
          if view.revision <= entry.vanishedRevision then next == Some(entry)
          else if entry.absentViews >= 15 then next.None?
          else next == Some(entry.(absentViews := entry.absentViews + 1)))
  }

  /** A place the view does not show: told as refused, and forgotten, if a receipt says so; else told once
      as vanished, with its last status, when its absence first says something. */
  lemma AbsentPlaceIsTold(view: BrokerView, entry: RunnerEntry)
    requires Unambiguous(view) && entry.kind.PlaceKind? && !Shows(view, entry.commandId)
    ensures var step := StepOf(view, entry);
      && step.previous == Some(entry)
      && (forall i ::
            0 <= i < |view.receipts| && view.receipts[i].commandId == entry.commandId
              && view.receipts[i].outcome.RefusedOutcome? ==>
            && step.next.None? && step.update.Some?
            && TellsCommand(
                 entry, SeenRefused(view.receipts[i].outcome.code, view.receipts[i].outcome.reason), None, false,
                 step.update.value))
      && ((forall i :: 0 <= i < |view.receipts| && view.receipts[i].commandId == entry.commandId ==>
             view.receipts[i].outcome.AcceptedOutcome?) ==>
            && Fades(view, entry, step.next)
            && (step.update.Some? <==> !entry.vanished && SaysAbsent(view, entry))
            && (step.update.Some? ==>
                  TellsCommand(
                    entry, if entry.lastStatus.Some? then entry.lastStatus.value else SeenAccepted, None, true,
                    step.update.value)))
  {
    assert OrderOf(view.orders, entry.commandId).None?;
    forall i | 0 <= i < |view.receipts| && view.receipts[i].commandId == entry.commandId
      ensures OutcomeOf(view.receipts, entry.commandId) == Some(view.receipts[i].outcome)
    {
      AnswerIsFound(view, i);
    }
    hide OrderOf, Unambiguous;
    var outcome := OutcomeOf(view.receipts, entry.commandId);
    if outcome.Some? {
      var i :| 0 <= i < |view.receipts| && view.receipts[i] == Receipt(entry.commandId, outcome.value);
    }
    hide OutcomeOf;
  }

  /** Whether `order` is what a cancel's entry is about: the order of the id it remembers, or if the view
      shows none, of the client order id. */
  ghost predicate IsAbout(view: BrokerView, entry: RunnerEntry, order: BrokerOrder) {
    && order in view.orders
    && (entry.orderId == Some(order.orderId)
        || (entry.clientId == Some(order.clientId)
            && forall i :: 0 <= i < |view.orders| ==> entry.orderId != Some(view.orders[i].orderId)))
  }

  lemma TargetIsAbout(view: BrokerView, entry: RunnerEntry)
    requires Unambiguous(view)
    ensures var target := TargetOrder(view, entry);
      && (target.Some? ==> IsAbout(view, entry, target.value))
      && (forall order :: IsAbout(view, entry, order) ==> target == Some(order))
  {
    var target := TargetOrder(view, entry);
    forall order | IsAbout(view, entry, order)
      ensures target == Some(order)
    {
      var i :| 0 <= i < |view.orders| && view.orders[i] == order;
      var k :| 0 <= k < |view.orders| && view.orders[k] == target.value;
    }
  }

  /** A cancel ends silently when it was accepted, is told as refused when it was, ends silently too when
      the order it is about is final, and otherwise waits. */
  lemma CancelIsTold(view: BrokerView, entry: RunnerEntry)
    requires Unambiguous(view) && !entry.kind.PlaceKind?
    ensures var step := StepOf(view, entry);
      && step.previous == Some(entry)
      && (forall i :: 0 <= i < |view.receipts| && view.receipts[i].commandId == entry.commandId ==>
            && step.next.None?
            && match view.receipts[i].outcome
               case AcceptedOutcome => step.update.None?
               case RefusedOutcome(code, reason) =>
                 && step.update.Some?
                 && (forall order :: IsAbout(view, entry, order) ==>
                       TellsCommand(entry, SeenRefused(code, reason), Some(order), false, step.update.value))
                 && ((forall order :: !IsAbout(view, entry, order)) ==>
                       TellsCommand(entry, SeenRefused(code, reason), None, false, step.update.value)))
      && (!Answers(view, entry.commandId) ==>
            && step.update.None?
            && if entry.kind.CancelKind? && exists order :: IsAbout(view, entry, order) && order.status.Terminal() then
                 step.next.None?
               else Fades(view, entry, step.next))
  {
    TargetIsAbout(view, entry);
    forall i | 0 <= i < |view.receipts| && view.receipts[i].commandId == entry.commandId
      ensures OutcomeOf(view.receipts, entry.commandId) == Some(view.receipts[i].outcome)
    {
      AnswerIsFound(view, i);
    }
    if !Answers(view, entry.commandId) {
      assert OutcomeOf(view.receipts, entry.commandId).None?;
    }
    hide TargetOrder, OutcomeOf, Unambiguous, IsAbout;
  }

  /** Absence is no news over a truncated view, or one no newer than the command: nothing is told as
      vanished, and no tombstone made. */
  lemma AbsenceNeedsAWholeNewerView(view: BrokerView, entry: RunnerEntry)
    requires !view.complete || view.revision <= entry.issuedRevision
    ensures var step := StepOf(view, entry);
      && (step.update.Some? ==> !step.update.value.vanished)
      && (step.next.Some? && step.next.value.vanished ==> step.next == Some(entry))
  {
    hide OrderOf, OutcomeOf, TargetOrder, StatusSeen;
  }

  // ---------------------------------------------------------------------------------------
  // Adoption
  // ---------------------------------------------------------------------------------------

  /** The entry of an adopted order: a place as the order's record describes it, seen as it is now. */
  ghost predicate DescribesOrder(view: BrokerView, order: BrokerOrder, entry: RunnerEntry) {
    && entry.commandId == order.commandId && entry.kind.PlaceKind? && entry.clientId == Some(order.clientId)
    && entry.orderId == Some(order.orderId) && entry.marketId == Some(order.marketId)
    && entry.action == Some(order.action) && entry.side == Some(order.side) && entry.requested == order.quantity
    && entry.lastStatus.Some? && Sees(order, None, entry.lastStatus.value) && entry.filled == order.filled
    && entry.orderRevision == order.revision && entry.issuedRevision == view.revision
    && !entry.vanished && entry.vanishedRevision == 0 && entry.absentViews == 0
    && entry.deliveryFailures == 0 && entry.deliveryDeferrals == 0
  }

  ghost predicate Tracks(section: Section, commandId: string) {
    exists i :: 0 <= i < |section.entries| && section.entries[i].commandId == commandId
  }

  /** Whether the step adopts the order, which is open and which the section does not track. */
  ghost predicate Adopts(section: Section, view: BrokerView, order: BrokerOrder, step: Step) {
    && !Tracks(section, order.commandId)
    && !(order.status.FilledStatus? || order.status.CancelledStatus? || order.status.ExpiredStatus?
         || order.status.RejectedStatus?)
    && step.previous.None? && step.update.None? && step.next.Some? && DescribesOrder(view, order, step.next.value)
  }

  lemma TrackedIsTracked(section: Section, commandId: string)
    ensures Tracks(section, commandId) <==> commandId in TrackedIds(section.entries)
  {
  }

  lemma AdoptionDescribes(section: Section, view: BrokerView, order: BrokerOrder)
    requires Adoptable(section, order)
    ensures Adopts(section, view, order, Step(None, Some(Adopt(order, view.revision)), None))
  {
    TrackedIsTracked(section, order.commandId);
    hide TrackedIds, Tracks;
  }

  /** Whether one of the steps past the section's adopts the order. */
  ghost predicate IsAdopted(section: Section, view: BrokerView, steps: seq<Step>, order: BrokerOrder) {
    exists k :: |section.entries| <= k < |steps| && Adopts(section, view, order, steps[k])
  }

  lemma {:induction false} RoomAdoptsAll(section: Section, view: BrokerView, n: nat, m: nat)
    requires m < n <= |view.orders| && Adoptable(section, view.orders[m])
    requires var steps := StepsWith(section, view, n); HeldEntries(steps, |steps|) < MAX_RUNNER_SECTION_ENTRIES
    ensures IsAdopted(section, view, StepsWith(section, view, n), view.orders[m])
  {
    hide StepOf, Adopt, Adoptable, HeldEntries, Adopts, SectionSteps;
    var earlier := StepsWith(section, view, n - 1);
    var adoption := Step(None, Some(Adopt(view.orders[n - 1], view.revision)), None);
    HeldOneMore(earlier, adoption);
    var from := StepsAreInOrder(section, view, n - 1);
    if m == n - 1 {
      AdoptionDescribes(section, view, view.orders[m]);
      assert StepsWith(section, view, n)[|earlier|] == adoption;
    } else {
      RoomAdoptsAll(section, view, n - 1, m);
      var k :| |section.entries| <= k < |earlier| && Adopts(section, view, view.orders[m], earlier[k]);
      assert StepsWith(section, view, n)[k] == earlier[k];
    }
  }

  /** The steps of a decision: one for each entry of the section, and one for each order adopted. Nothing is
      adopted from a view older than one a seeded section has seen; from a newer one, every open order the
      section does not track is, while there is room. */
  lemma {:induction false} OrdersAreAdopted(section: Section, view: BrokerView)
    requires Compared(section, view).Some?
    ensures var steps := Compared(section, view).value;
      && |steps| >= |section.entries|
      && (forall k :: 0 <= k < |section.entries| ==> steps[k] == StepOf(view, section.entries[k]))
      && (section.seeded && view.revision <= section.newestViewRevision ==> |steps| == |section.entries|)
      && (forall k :: |section.entries| <= k < |steps| ==>
            exists m :: 0 <= m < |view.orders| && Adopts(section, view, view.orders[m], steps[k]))
      && ((!section.seeded || view.revision > section.newestViewRevision)
              && HeldEntries(steps, |steps|) < MAX_RUNNER_SECTION_ENTRIES ==>
            forall m ::
              0 <= m < |view.orders| && !view.orders[m].status.Terminal()
                && !Tracks(section, view.orders[m].commandId) ==>
              IsAdopted(section, view, steps, view.orders[m]))
  {
    hide StepOf, Adopt, HeldEntries, Adopts;
    var n := if Fresh(section, view) then |view.orders| else 0;
    var steps := StepsWith(section, view, n);
    assert Compared(section, view) == Some(steps);
    var from := StepsAreInOrder(section, view, n);
    forall k | |section.entries| <= k < |steps|
      ensures exists m :: 0 <= m < |view.orders| && Adopts(section, view, view.orders[m], steps[k])
    {
      assert StepFrom(section, view, steps, k, from[k]);
      AdoptionDescribes(section, view, view.orders[from[k]]);
    }
    forall k | 0 <= k < |section.entries|
      ensures steps[k] == StepOf(view, section.entries[k])
    {
      assert StepFrom(section, view, steps, k, from[k]);
    }
    forall m | n > 0 && 0 <= m < |view.orders| && !view.orders[m].status.Terminal()
        && !Tracks(section, view.orders[m].commandId) && HeldEntries(steps, |steps|) < MAX_RUNNER_SECTION_ENTRIES
      ensures IsAdopted(section, view, steps, view.orders[m])
    {
      TrackedIsTracked(section, view.orders[m].commandId);
      RoomAdoptsAll(section, view, n, m);
    }
  }
}
