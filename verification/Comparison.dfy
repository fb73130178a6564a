/**
 Where a decision's steps come from: the runner section of the checkpoint, compared with the Broker's
 view and the receipts. What the decision's theorems demand of steps is proved of these, and so is that
 no fill goes unaccounted for.
 */
module Comparison {
  import opened Arithmetic
  import opened Wrappers
  import opened Wire
  import opened Admission
  import opened Updates
  import opened RunnerSection

  const PROVIDER_REJECTED_CODE := "provider_rejected"
  const PROVIDER_REJECTED_REASON := "the provider rejected the order"

  datatype Outcome = AcceptedOutcome | RefusedOutcome(code: string, reason: string)

  /** How the Broker answered a command of which it keeps no order. */
  datatype Receipt = Receipt(commandId: string, outcome: Outcome)

  /** What a checkpoint remembers of orders and commands; nothing yet before the first decision. */
  datatype Section = Section(seeded: bool, newestViewRevision: nat, entries: seq<RunnerEntry>)

  /** The Broker's orders and the receipts at one revision; `complete` unless the host truncated it. */
  datatype BrokerView = BrokerView(orders: seq<BrokerOrder>, revision: nat, complete: bool, receipts: seq<Receipt>) {

    /** What context validation demands of it. */
    ghost predicate Valid() {
      && (forall i :: 0 <= i < |orders| ==> ValidOrder(orders[i]))
      && (forall i, j :: 0 <= i < j < |orders| ==>
            orders[i].commandId != orders[j].commandId && orders[i].clientId != orders[j].clientId)
    }
  }

  // ---------------------------------------------------------------------------------------
  // Lookups
  // ---------------------------------------------------------------------------------------

  function OrderOf(orders: seq<BrokerOrder>, commandId: string): (r: Option<BrokerOrder>)
    ensures r.Some? ==> r.value in orders && r.value.commandId == commandId
    ensures r.None? ==> forall i :: 0 <= i < |orders| ==> orders[i].commandId != commandId
  {
    if orders == [] then None
    else if orders[|orders| - 1].commandId == commandId then Some(orders[|orders| - 1])
    else OrderOf(orders[..|orders| - 1], commandId)
  }

  function OrderById(orders: seq<BrokerOrder>, orderId: string): (r: Option<BrokerOrder>)
    ensures r.Some? ==> r.value in orders && r.value.orderId == orderId
    ensures r.None? ==> forall i :: 0 <= i < |orders| ==> orders[i].orderId != orderId
  {
    if orders == [] then None
    else if orders[|orders| - 1].orderId == orderId then Some(orders[|orders| - 1])
    else OrderById(orders[..|orders| - 1], orderId)
  }

  function OrderByClient(orders: seq<BrokerOrder>, clientId: string): (r: Option<BrokerOrder>)
    ensures r.Some? ==> r.value in orders && r.value.clientId == clientId
    ensures r.None? ==> forall i :: 0 <= i < |orders| ==> orders[i].clientId != clientId
  {
    if orders == [] then None
    else if orders[|orders| - 1].clientId == clientId then Some(orders[|orders| - 1])
    else OrderByClient(orders[..|orders| - 1], clientId)
  }

  function OutcomeOf(receipts: seq<Receipt>, commandId: string): (r: Option<Outcome>)
    ensures r.Some? ==> Receipt(commandId, r.value) in receipts
    ensures r.None? ==> forall i :: 0 <= i < |receipts| ==> receipts[i].commandId != commandId
  {
    if receipts == [] then None
    else if receipts[|receipts| - 1].commandId == commandId then Some(receipts[|receipts| - 1].outcome)
    else OutcomeOf(receipts[..|receipts| - 1], commandId)
  }

  // ---------------------------------------------------------------------------------------
  // One entry
  // ---------------------------------------------------------------------------------------

  /** An order's status as news: a requested cancellation or a recovery is none of its own. */
  function StatusSeen(order: BrokerOrder, last: Option<SeenStatus>): SeenStatus {
    match order.status
    case DurablyAccepted => SeenAccepted
    case Dispatched => SeenAccepted
    case RestingStatus => SeenResting
    case PartiallyFilledStatus => SeenPartiallyFilled
    case FilledStatus => SeenFilled
    case CancelledStatus => SeenCancelled
    case ExpiredStatus => SeenExpired
    case RejectedStatus =>
      SeenRefused(
        PROVIDER_REJECTED_CODE,
        if order.rejection.Some? && order.rejection.value != "" then order.rejection.value
        else PROVIDER_REJECTED_REASON)
    case _ =>
      if order.filled > 0 then SeenPartiallyFilled
      else if last.Some? then last.value
      else SeenAccepted
  }

  function OrderNews(entry: RunnerEntry, order: BrokerOrder, status: SeenStatus): UpdateRecord {
    UpdateRecord(
      entry.commandId, entry.kind, entry.clientId, Some(order.orderId), entry.marketId, entry.action, entry.side,
      status,
      order.quantity, order.filled, order.remaining,
      if order.filled >= entry.filled then order.filled - entry.filled else 0,
      order.averagePrice, order.fees, status.Terminal(), false)
  }

  /** News of a command, final, with the quantities of its target if the Broker shows one. */
  function CommandNews(
      entry: RunnerEntry, status: SeenStatus, target: Option<BrokerOrder>, vanished: bool): UpdateRecord {
    UpdateRecord(
      entry.commandId, entry.kind, entry.clientId,
      if target.Some? then Some(target.value.orderId) else entry.orderId,
      entry.marketId, entry.action, entry.side, status,
      if target.Some? then target.value.quantity else entry.requested,
      if target.Some? then target.value.filled else entry.filled,
      if target.Some? then target.value.remaining else 0,
      0,
      if target.Some? then target.value.averagePrice else None,
      if target.Some? then target.value.fees else 0,
      true, vanished)
  }

  /** Whether the view says nothing by not showing the entry. */
  predicate AbsenceIsNoNews(view: BrokerView, entry: RunnerEntry) {
    view.revision <= entry.issuedRevision || !view.complete
  }

  /** What becomes of an entry the view does not show: it turns into a tombstone, which counts the views
      that lack it and expires. */
  function Absent(view: BrokerView, entry: RunnerEntry): Option<RunnerEntry> {
    if AbsenceIsNoNews(view, entry) then Some(entry)
    else if !entry.vanished then Some(entry.(vanished := true, vanishedRevision := view.revision, absentViews := 0))
    else if view.revision <= entry.vanishedRevision then Some(entry)
    else if entry.absentViews + 1 >= TOMBSTONE_EXPIRY_VIEWS then None
    else Some(entry.(absentViews := entry.absentViews + 1))
  }

  function Shown(entry: RunnerEntry, order: BrokerOrder, status: SeenStatus): RunnerEntry {
    entry.(
      orderId := Some(order.orderId), lastStatus := Some(status), filled := Max(order.filled, entry.filled),
      orderRevision := order.revision, vanished := false, vanishedRevision := 0, absentViews := 0)
  }

  /** A place against its own order record. */
  function OrderStep(entry: RunnerEntry, order: BrokerOrder): Step {
    if order.revision < entry.orderRevision then Step(Some(entry), Some(entry), None)
    else
      var status := StatusSeen(order, entry.lastStatus);
      var changed := entry.vanished || entry.lastStatus != Some(status) || entry.filled != order.filled;
      Step(
        Some(entry),
        if status.Terminal() then None else Some(Shown(entry, order, status)),
        if changed then Some(OrderNews(entry, order, status)) else None)
  }

  function PlaceStep(view: BrokerView, entry: RunnerEntry): Step {
    var order, outcome := OrderOf(view.orders, entry.commandId), OutcomeOf(view.receipts, entry.commandId);
    if order.Some? then OrderStep(entry, order.value)
    else if outcome.Some? && outcome.value.RefusedOutcome? then
      Step(Some(entry), None,
          Some(CommandNews(entry, SeenRefused(outcome.value.code, outcome.value.reason), None, false)))
    else
      var firstVanish := !entry.vanished && !AbsenceIsNoNews(view, entry);
      var status := if entry.lastStatus.Some? then entry.lastStatus.value else SeenAccepted;
      Step(Some(entry), Absent(view, entry), if firstVanish then Some(CommandNews(entry, status, None, true)) else None)
  }

  function TargetOrder(view: BrokerView, entry: RunnerEntry): Option<BrokerOrder> {
    var byId := if entry.orderId.Some? then OrderById(view.orders, entry.orderId.value) else None;
    if byId.Some? then byId
    else if entry.clientId.Some? then OrderByClient(view.orders, entry.clientId.value)
    else None
  }

  function CancelStep(view: BrokerView, entry: RunnerEntry): Step {
    var target, outcome := TargetOrder(view, entry), OutcomeOf(view.receipts, entry.commandId);
    if outcome.Some? && outcome.value.AcceptedOutcome? then Step(Some(entry), None, None)
    else if outcome.Some? then
      Step(Some(entry), None,
          Some(CommandNews(entry, SeenRefused(outcome.value.code, outcome.value.reason), target, false)))
    else if entry.kind.CancelKind? && target.Some? && target.value.status.Terminal() then Step(Some(entry), None, None)
    else Step(Some(entry), Absent(view, entry), None)
  }

  function StepOf(view: BrokerView, entry: RunnerEntry): Step {
    if entry.kind.PlaceKind? then PlaceStep(view, entry) else CancelStep(view, entry)
  }

  // ---------------------------------------------------------------------------------------
  // The whole section
  // ---------------------------------------------------------------------------------------

  function Adopt(order: BrokerOrder, revision: nat): RunnerEntry {
    RunnerEntry(
      order.commandId, PlaceKind, Some(order.clientId), Some(order.orderId), Some(order.marketId), Some(order.action),
      Some(order.side), order.quantity, Some(StatusSeen(order, None)), order.filled, order.revision, revision, false,
      0, 0, 0, 0)
  }

  function SectionSteps(section: Section, view: BrokerView): seq<Step> {
    seq(|section.entries|, i requires 0 <= i < |section.entries| => StepOf(view, section.entries[i]))
  }

  /** Whether the section may adopt orders from the view: an older one could show an order as it was
      before the Strategy saw its end. */
  predicate Fresh(section: Section, view: BrokerView) {
    !section.seeded || view.revision > section.newestViewRevision
  }

  /** Whether an open order that no entry tracks. */
  predicate Adoptable(section: Section, order: BrokerOrder) {
    !order.status.Terminal() && order.commandId !in TrackedIds(section.entries)
  }

  /** The section's steps, and those of the orders adopted among the first `n`, while there is room. */
  function StepsWith(section: Section, view: BrokerView, n: nat): seq<Step>
    requires n <= |view.orders|
  {
    if n == 0 then SectionSteps(section, view)
    else
      var steps := StepsWith(section, view, n - 1);
      if Adoptable(section, view.orders[n - 1]) && HeldEntries(steps, |steps|) < MAX_RUNNER_SECTION_ENTRIES then
        steps + [Step(None, Some(Adopt(view.orders[n - 1], view.revision)), None)]
      else steps
  }

  /** The steps of a decision, unless its section already holds too much. */
  function Compared(section: Section, view: BrokerView): Option<seq<Step>> {
    var steps := SectionSteps(section, view);
    if HeldEntries(steps, |steps|) > MAX_RUNNER_SECTION_ENTRIES then None
    else Some(if Fresh(section, view) then StepsWith(section, view, |view.orders|) else steps)
  }

  lemma {:induction false} HeldOfPrefix(steps: seq<Step>, more: seq<Step>, n: nat)
    requires n <= |steps|
    ensures HeldEntries(steps + more, n) == HeldEntries(steps, n)
  {
    if n > 0 {
      HeldOfPrefix(steps, more, n - 1);
    }
  }

  lemma HeldOneMore(steps: seq<Step>, step: Step)
    ensures HeldEntries(steps + [step], |steps| + 1)
         == HeldEntries(steps, |steps|) + if step.next.Some? || step.update.Some? then 1 else 0
  {
    HeldOfPrefix(steps, [step], |steps|);
  }

  /** Compares entry by entry, then adopts order by order, counting what the section may hold. */
  method Compare(section: Section, view: BrokerView) returns (r: Option<seq<Step>>)
    ensures r == Compared(section, view)
  {
    hide StepOf, Adopt;
    var steps: seq<Step> := [];
    var held := 0;
    for i := 0 to |section.entries|
      invariant steps == SectionSteps(section, view)[..i] && held == HeldEntries(steps, i)
    {
      var step := StepOf(view, section.entries[i]);
      HeldOneMore(steps, step);
      if step.next.Some? || step.update.Some? {
        held := held + 1;
      }
      steps := steps + [step];
    }
    assert steps == SectionSteps(section, view);
    if held > MAX_RUNNER_SECTION_ENTRIES {
      return None;
    }
    if !Fresh(section, view) {
      return Some(steps);
    }
    var tracked := TrackedIds(section.entries);
    for n := 0 to |view.orders|
      invariant steps == StepsWith(section, view, n) && held == HeldEntries(steps, |steps|)
    {
      var order := view.orders[n];
      if !order.status.Terminal() && order.commandId !in tracked && held < MAX_RUNNER_SECTION_ENTRIES {
        HeldOneMore(steps, Step(None, Some(Adopt(order, view.revision)), None));
        steps := steps + [Step(None, Some(Adopt(order, view.revision)), None)];
        held := held + 1;
      }
    }
    return Some(steps);
  }

  // ---------------------------------------------------------------------------------------
  // What it guarantees
  // ---------------------------------------------------------------------------------------

  /** Whether more filled, by the Broker's record of a place, than the Strategy asked for. */
  predicate FilledBeyond(view: BrokerView, entry: RunnerEntry) {
    && entry.kind.PlaceKind?
    && var order := OrderOf(view.orders, entry.commandId);
       order.Some? && order.value.revision >= entry.orderRevision && order.value.filled > entry.requested
  }

  lemma SeenIsFinalWithOrder(order: BrokerOrder, last: Option<SeenStatus>)
    requires last.Some? ==> !last.value.Terminal()
    ensures StatusSeen(order, last).Terminal() <==> order.status.Terminal()
  {
  }

  /** Every step of a valid entry is valid: it stays about the same command, and its fill is within the
      request unless the Broker's record is beyond it. */
  lemma StepIsValid(view: BrokerView, entry: RunnerEntry)
    requires view.Valid() && ValidEntry(entry)
    ensures var step := StepOf(view, entry);
      && step.Valid() && step.previous == Some(entry)
      && (step.next.Some? ==>
            && SameIdentity(entry, step.next.value)
            && (Overfilled(step.next.value) <==> FilledBeyond(view, entry)))
  {
    hide ValidIdentifier, StatusSeen;
    if entry.kind.PlaceKind? {
      var order := OrderOf(view.orders, entry.commandId);
      if order.Some? {
        assert ValidOrder(order.value);
      }
    }
  }

  lemma AdoptionIsValid(view: BrokerView, order: BrokerOrder)
    requires ValidOrder(order) && !order.status.Terminal()
    ensures Step(None, Some(Adopt(order, view.revision)), None).Valid()
    ensures !Overfilled(Adopt(order, view.revision))
  {
    hide ValidIdentifier;
    SeenIsFinalWithOrder(order, None);
    hide StatusSeen;
  }

  /** The `k`-th step: of the section's entry there, or of an adopted order. */
  ghost predicate StepFrom(section: Section, view: BrokerView, steps: seq<Step>, k: nat, m: nat)
    requires k < |steps|
  {
    if k < |section.entries| then steps[k] == StepOf(view, section.entries[k])
    else
      && m < |view.orders| && Adoptable(section, view.orders[m])
      && steps[k] == Step(None, Some(Adopt(view.orders[m], view.revision)), None)
  }

  /** Steps follow the section's order and then the orders', each adopted at most once. */
  ghost predicate InOrder(section: Section, view: BrokerView, steps: seq<Step>, from: seq<nat>) {
    && |section.entries| <= |steps| && |from| == |steps|
    && (forall k :: 0 <= k < |steps| ==> StepFrom(section, view, steps, k, from[k]))
    && (forall k, l :: |section.entries| <= k < l < |steps| ==> from[k] < from[l])
  }

  lemma {:induction false} StepsAreInOrder(section: Section, view: BrokerView, n: nat) returns (from: seq<nat>)
    requires n <= |view.orders|
    ensures InOrder(section, view, StepsWith(section, view, n), from)
    ensures forall k :: |section.entries| <= k < |from| ==> from[k] < n
  {
    hide StepOf, Adopt, HeldEntries, Adoptable;
    if n == 0 {
      from := seq(|section.entries|, i => 0);
    } else {
      var earlier := StepsWith(section, view, n - 1);
      from := StepsAreInOrder(section, view, n - 1);
      if StepsWith(section, view, n) != earlier {
        from := from + [n - 1];
      }
    }
  }

  lemma {:induction false} HeldIsBounded(section: Section, view: BrokerView, n: nat)
    requires n <= |view.orders|
    requires var steps := SectionSteps(section, view); HeldEntries(steps, |steps|) <= MAX_RUNNER_SECTION_ENTRIES
    ensures var steps := StepsWith(section, view, n); HeldEntries(steps, |steps|) <= MAX_RUNNER_SECTION_ENTRIES
  {
    hide StepOf, Adopt, Adoptable, HeldEntries;
    if n > 0 {
      HeldIsBounded(section, view, n - 1);
      var steps := StepsWith(section, view, n - 1);
      HeldOneMore(steps, Step(None, Some(Adopt(view.orders[n - 1], view.revision)), None));
    }
  }

  /** The tombstones before are the section's. */
  lemma {:induction false} VanishedAreTombstones(
      section: Section, view: BrokerView, steps: seq<Step>, from: seq<nat>, n: nat)
    requires InOrder(section, view, steps, from) && n <= |steps|
    requires forall k :: 0 <= k < |section.entries| ==>
        StepOf(view, section.entries[k]).previous == Some(section.entries[k])
    ensures VanishedBefore(steps, n)
         == Tombstones(section.entries[..if n <= |section.entries| then n else |section.entries|])
  {
    hide StepOf, Adopt, Tombstones, Adoptable;
    if n == 0 {
      NoTombstones();
    } else {
      VanishedAreTombstones(section, view, steps, from, n - 1);
      assert StepFrom(section, view, steps, n - 1, from[n - 1]);
      if n <= |section.entries| {
        TombstonesOneMore(section.entries[..n]);
        assert section.entries[..n][..n - 1] == section.entries[..n - 1];
      }
    }
  }

  lemma {:induction false} StepsAreCoherent(section: Section, view: BrokerView, steps: seq<Step>, from: seq<nat>)
    requires view.Valid() && ValidSection(section.entries) && InOrder(section, view, steps, from)
    requires HeldEntries(steps, |steps|) <= MAX_RUNNER_SECTION_ENTRIES
    ensures Coherent(steps)
  {
    hide StepOf, Adopt, Adoptable, HeldEntries, VanishedBefore, Tombstones, ValidEntry, SoundEntry, ValidOrder,
      BrokerView.Valid;
    forall k | 0 <= k < |steps|
      ensures steps[k].Valid()
      ensures steps[k].previous.Some? && steps[k].next.Some? ==>
          SameIdentity(steps[k].previous.value, steps[k].next.value)
    {
      StepHasFacts(section, view, steps, from, k);
    }
    forall k | 0 <= k < |section.entries|
      ensures StepOf(view, section.entries[k]).previous == Some(section.entries[k])
    {
      StepIsValid(view, section.entries[k]);
    }
    hide StepFrom;
    VanishedAreTombstones(section, view, steps, from, |steps|);
    assert section.entries[..|section.entries|] == section.entries;
    forall k, l | 0 <= k < l < |steps| && Subject(steps[k]).Some? && Subject(steps[l]).Some?
      ensures Subject(steps[k]).value.commandId != Subject(steps[l]).value.commandId
      ensures steps[k].previous.Some? == steps[l].previous.Some? ==>
                !SameClient(Subject(steps[k]).value, Subject(steps[l]).value)
    {
      SubjectsAreDistinct(section, view, steps, from, k, l);
    }
  }

  lemma StepHasFacts(section: Section, view: BrokerView, steps: seq<Step>, from: seq<nat>, k: nat)
    requires view.Valid() && ValidSection(section.entries) && InOrder(section, view, steps, from) && k < |steps|
    ensures steps[k].Valid()
    ensures steps[k].previous.Some? && steps[k].next.Some? ==>
        SameIdentity(steps[k].previous.value, steps[k].next.value)
    ensures k < |section.entries| ==> steps[k].previous == Some(section.entries[k])
  {
    hide StepOf, Adopt, Tombstones, ValidEntry, Step.Valid, ValidOrder;
    assert StepFrom(section, view, steps, k, from[k]);
    if k < |section.entries| {
      StepIsValid(view, section.entries[k]);
    } else {
      AdoptionIsValid(view, view.orders[from[k]]);
    }
  }

  lemma SubjectsAreDistinct(section: Section, view: BrokerView, steps: seq<Step>, from: seq<nat>, k: nat, l: nat)
    requires view.Valid() && ValidSection(section.entries) && InOrder(section, view, steps, from) && k < l < |steps|
    ensures Subject(steps[k]).Some? && Subject(steps[l]).Some? ==>
      && Subject(steps[k]).value.commandId != Subject(steps[l]).value.commandId
      && (steps[k].previous.Some? == steps[l].previous.Some? ==>
            !SameClient(Subject(steps[k]).value, Subject(steps[l]).value))
  {
    hide StepOf, Tombstones, ValidEntry, Step.Valid, ValidOrder;
    assert StepFrom(section, view, steps, k, from[k]) && StepFrom(section, view, steps, l, from[l]);
    StepHasFacts(section, view, steps, from, k);
    StepHasFacts(section, view, steps, from, l);
    if l >= |section.entries| > k {
      assert section.entries[k].commandId in TrackedIds(section.entries);
    }
  }

  lemma {:induction false} HeldAreSteps(steps: seq<Step>, n: nat)
    requires n <= |steps|
    ensures HeldEntries(steps, n) <= n
  {
    if n > 0 {
      HeldAreSteps(steps, n - 1);
    }
  }

  /** A valid section never holds too much to be compared. */
  lemma ValidSectionIsCompared(section: Section, view: BrokerView)
    requires ValidSection(section.entries)
    ensures Compared(section, view).Some?
  {
    hide StepOf, HeldEntries, Tombstones, ValidEntry;
    HeldAreSteps(SectionSteps(section, view), |section.entries|);
  }

  /** The comparison of a valid section with a valid view gives steps as the theorems on decisions take
      them. */
  lemma {:induction false} ComparisonIsCoherent(section: Section, view: BrokerView)
    requires view.Valid() && ValidSection(section.entries)
    ensures Compared(section, view).Some? && Coherent(Compared(section, view).value)
  {
    ValidSectionIsCompared(section, view);
    hide StepOf, Adopt, Coherent, HeldEntries, InOrder, BrokerView.Valid, ValidSection, SectionSteps;
    var n := if Fresh(section, view) then |view.orders| else 0;
    var from := StepsAreInOrder(section, view, n);
    HeldIsBounded(section, view, n);
    StepsAreCoherent(section, view, StepsWith(section, view, n), from);
  }

  // ---------------------------------------------------------------------------------------
  // The context of the decision
  // ---------------------------------------------------------------------------------------

  function ReceiptIds(receipts: seq<Receipt>): seq<string> {
    seq(|receipts|, i requires 0 <= i < |receipts| => receipts[i].commandId)
  }

  /** Whether no Broker command that the section or the view knows has this id. */
  ghost predicate NamesNone(section: Section, view: BrokerView, id: string) {
    id !in TrackedIds(section.entries) && forall i :: 0 <= i < |view.orders| ==> view.orders[i].commandId != id
  }

  /** Whether the context is made of the view and of the section as compared with it. The ids of its own
      commands and of the external request it answers are, as digests, those of no Broker command. */
  ghost predicate Reflects(ctx: Context, section: Section, view: BrokerView) {
    && ctx.orders == view.orders && ctx.revision == view.revision && ctx.ordersComplete == view.complete
    && ctx.receipts == ReceiptIds(view.receipts)
    && (Compared(section, view).Some? ==>
          var steps := Compared(section, view).value;
          ctx.runner == NextEntries(steps, |steps|) && ctx.reinstatableLive == ReinstatableLive(steps, |steps|))
    && (forall n: nat :: n < MAX_STRATEGY_COMMANDS ==> NamesNone(section, view, ctx.commandId(n)))
    && (ctx.answeredRequest.Some? ==>
          && NamesNone(section, view, ctx.answeredRequest.value)
          && ctx.answeredRequest.value !in ctx.receipts
          && forall n: nat :: n < MAX_STRATEGY_COMMANDS ==> ctx.commandId(n) != ctx.answeredRequest.value)
  }

  /** A step's command is the section's or one of the view's orders'. */
  lemma SubjectIsKnown(section: Section, view: BrokerView, steps: seq<Step>, from: seq<nat>, k: nat)
    requires view.Valid() && ValidSection(section.entries) && InOrder(section, view, steps, from) && k < |steps|
    requires Subject(steps[k]).Some?
    ensures var id := Subject(steps[k]).value.commandId;
            id in TrackedIds(section.entries) || exists m :: 0 <= m < |view.orders| && view.orders[m].commandId == id
  {
    hide StepOf, Tombstones, ValidEntry, Step.Valid, ValidOrder;
    assert StepFrom(section, view, steps, k, from[k]);
    StepHasFacts(section, view, steps, from, k);
  }

  lemma {:induction false} FinalOrdersHave(orders: seq<BrokerOrder>, id: string)
    requires id in FinalOrders(orders)
    ensures exists m :: 0 <= m < |orders| && orders[m].commandId == id
  {
    var earlier, last := orders[..|orders| - 1], orders[|orders| - 1];
    if id in FinalOrders(earlier) {
      FinalOrdersHave(earlier, id);
      var m :| 0 <= m < |earlier| && earlier[m].commandId == id;
      assert orders[m].commandId == id;
    } else {
      assert orders[|orders| - 1].commandId == id;
    }
  }

  /** What decisions demand of the context with respect to the steps. */
  lemma {:induction false} ComparisonIsDerived(ctx: Context, section: Section, view: BrokerView)
    requires view.Valid() && ValidSection(section.entries) && Reflects(ctx, section, view)
    ensures Compared(section, view).Some? && DerivedFor(ctx, Compared(section, view).value)
  {
    ValidSectionIsCompared(section, view);
    hide StepOf, Adopt, HeldEntries, NextEntries, ReinstatableLive, InOrder, BrokerView.Valid, ValidSection,
      SectionSteps, Subject, FinalOrders, TrackedIds;
    var n := if Fresh(section, view) then |view.orders| else 0;
    var steps := StepsWith(section, view, n);
    var from := StepsAreInOrder(section, view, n);
    forall k, id | 0 <= k < |steps| && Subject(steps[k]).Some? && NamesNone(section, view, id)
      ensures Subject(steps[k]).value.commandId != id
    {
      SubjectIsKnown(section, view, steps, from, k);
    }
    if ctx.answeredRequest.Some? && ctx.answeredRequest.value in FinalOrders(view.orders) {
      FinalOrdersHave(view.orders, ctx.answeredRequest.value);
    }
  }

  // ---------------------------------------------------------------------------------------
  // No fill is lost
  // ---------------------------------------------------------------------------------------

  /** One decision's view of an order, and how its update failed in it if it did. */
  datatype Round = Round(view: BrokerView, failure: Option<Failure>)

  function FillsOf(step: Step): nat {
    if step.update.Some? then step.update.value.newlyFilled else 0
  }

  /** Whether a step's update is over and done with: handled, or abandoned. */
  predicate Settles(step: Step, failure: Option<Failure>) {
    failure.None? || Abandoned(step, failure.value)
  }

  /** The entry of a place after a run of decisions, unless an outcome ended it or it expired. */
  function EntryAfterRun(entry: RunnerEntry, rounds: seq<Round>): Option<RunnerEntry> {
    if rounds == [] then Some(entry)
    else
      var before, last := EntryAfterRun(entry, rounds[..|rounds| - 1]), rounds[|rounds| - 1];
      if before.None? then None else EntryAfter(StepOf(last.view, before.value), last.failure)
  }

  /** Fills of it that updates told the kernel of, or that were reported as lost with abandoned ones. */
  function FillsSettled(entry: RunnerEntry, rounds: seq<Round>): nat {
    if rounds == [] then 0
    else
      var earlier, last := rounds[..|rounds| - 1], rounds[|rounds| - 1];
      var before := EntryAfterRun(entry, earlier);
      FillsSettled(entry, earlier)
        + if before.Some? && Settles(StepOf(last.view, before.value), last.failure)
          then FillsOf(StepOf(last.view, before.value)) else 0
  }

  /** What one decision settles is what the entry's fill grows by, or what the final record adds to it. */
  lemma StepSettlesFills(view: BrokerView, entry: RunnerEntry, failure: Option<Failure>)
    requires entry.kind.PlaceKind?
    ensures var step, after := StepOf(view, entry), EntryAfter(StepOf(view, entry), failure);
      && (after.Some? ==>
            && after.value.kind.PlaceKind? && after.value.commandId == entry.commandId
            && after.value.filled == entry.filled + if Settles(step, failure) then FillsOf(step) else 0)
      && (after.None? && OrderOf(view.orders, entry.commandId).Some? ==>
            && Settles(step, failure)
            && entry.filled + FillsOf(step) == Max(OrderOf(view.orders, entry.commandId).value.filled, entry.filled))
      && (after.None? && OrderOf(view.orders, entry.commandId).None? ==> FillsOf(step) == 0)
  {
    hide OrderOf, OutcomeOf, CountsAfter;
  }

  /** Whatever views a place is compared with, stale, truncated or out of order, and however its updates
      fail: as long as it has an entry, the fills settled are exactly those the entry accounts for. */
  lemma {:induction false} FillsAreAccountedFor(entry: RunnerEntry, rounds: seq<Round>)
    requires entry.kind.PlaceKind? && EntryAfterRun(entry, rounds).Some?
    ensures var after := EntryAfterRun(entry, rounds).value;
            after.kind.PlaceKind? && after.commandId == entry.commandId
                && after.filled == entry.filled + FillsSettled(entry, rounds)
  {
    hide StepOf, EntryAfter, FillsOf, Settles;
    if rounds != [] {
      var earlier, last := rounds[..|rounds| - 1], rounds[|rounds| - 1];
      FillsAreAccountedFor(entry, earlier);
      StepSettlesFills(last.view, EntryAfterRun(entry, earlier).value, last.failure);
    }
  }

  /** And when the Broker's final record ends it, they are all that record says. */
  lemma {:induction false} FinalFillsAreAccountedFor(entry: RunnerEntry, rounds: seq<Round>)
    requires entry.kind.PlaceKind? && rounds != []
    requires EntryAfterRun(entry, rounds[..|rounds| - 1]).Some? && EntryAfterRun(entry, rounds).None?
    requires OrderOf(rounds[|rounds| - 1].view.orders, entry.commandId).Some?
    ensures var known := EntryAfterRun(entry, rounds[..|rounds| - 1]).value.filled;
            entry.filled + FillsSettled(entry, rounds)
              == Max(OrderOf(rounds[|rounds| - 1].view.orders, entry.commandId).value.filled, known)
  {
    hide StepOf, EntryAfter, FillsOf, Settles, OrderOf;
    var earlier, last := rounds[..|rounds| - 1], rounds[|rounds| - 1];
    FillsAreAccountedFor(entry, earlier);
    StepSettlesFills(last.view, EntryAfterRun(entry, earlier).value, last.failure);
  }

  /** News is told once: after a handled update the same view has none, unless the Broker's record now
      says less filled than the Strategy was told before, which it repeats in every decision. */
  lemma NewsIsToldOnce(view: BrokerView, entry: RunnerEntry)
    requires ValidEntry(entry)
    requires var step := StepOf(view, entry); step.update.Some? && step.next.Some?
    ensures var again := StepOf(view, EntryAfter(StepOf(view, entry), None).value);
            again.update.Some? <==>
              var order := OrderOf(view.orders, entry.commandId); order.Some? && order.value.filled < entry.filled
  {
    hide ValidIdentifier, OutcomeOf;
  }
}
