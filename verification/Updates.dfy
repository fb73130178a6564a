/**
 Order updates of one decision: the order they are delivered in, and what the runner section keeps
 of them afterwards.
 */
module Updates {
  import opened Arithmetic
  import opened Wrappers
  import opened Fees
  import opened Wire
  import opened Admission

  /** The news of one order or command, as a kernel is told it. */
  datatype UpdateRecord = UpdateRecord(
    commandId: string,
    kind: CommandKind,
    clientId: Option<string>,
    orderId: Option<string>,
    marketId: Option<string>,
    action: Option<OrderAction>,
    side: Option<ContractSide>,
    status: SeenStatus,
    requested: nat,
    filled: nat,
    remaining: nat,
    newlyFilled: nat,
    averagePrice: Option<nat>,
    fees: nat,
    isFinal: bool,
    vanished: bool)

  /** How an entry fares against the Broker's view: as it was, as it is now or gone, and what there is to
      tell the Strategy. An adopted order has nothing before. */
  datatype Step = Step(previous: Option<RunnerEntry>, next: Option<RunnerEntry>, update: Option<UpdateRecord>) {

    /** What was before is a valid entry, and there is one to tell news of. What is now is sound, but the
        Broker may say that more of it filled than was requested; only then it is surely no tombstone. An
        adopted order is none either. */
    ghost predicate Valid() {
      && (update.Some? ==> previous.Some?)
      && (previous.Some? ==> ValidEntry(previous.value))
      && (next.Some? ==> SoundEntry(next.value))
      && (next.Some? && (previous.None? || Overfilled(next.value)) ==> !next.value.vanished)
    }

    predicate Adopted() {
      previous.None? && next.Some?
    }

    /** How often, without a break, this update has been put off. */
    function Deferrals(): nat {
      if previous.None? then 0 else previous.value.deliveryDeferrals
    }

    /** The number putting it off now would make. */
    function Deferral(): nat {
      if previous.None? then 1 else previous.value.deliveryDeferrals + 1
    }

    predicate Deferred() {
      update.Some? && Deferrals() > 0
    }

    predicate IsCancel() {
      previous.Some? && !previous.value.kind.PlaceKind?
    }
  }

  predicate ValidOptionalIdentifier(id: Option<string>) {
    id.Some? ==> ValidIdentifier(id.value)
  }

  /** What an entry of each kind must and must not carry. */
  predicate ValidEntryShape(entry: RunnerEntry) {
    match entry.kind
    case PlaceKind =>
      && entry.clientId.Some? && entry.marketId.Some? && entry.action.Some? && entry.side.Some?
      && entry.requested > 0 && (entry.lastStatus.Some? ==> !entry.lastStatus.value.Terminal())
    case CancelKind => entry.lastStatus.None?
    case CancelAllKind =>
      && entry.lastStatus.None? && entry.clientId.None? && entry.orderId.None? && entry.marketId.None?
      && entry.action.None? && entry.side.None? && entry.requested == 0 && entry.filled == 0
  }

  /** More filled than requested. */
  predicate Overfilled(entry: RunnerEntry) {
    entry.filled > entry.requested
  }

  /** What checkpoint validation demands of one entry. */
  predicate ValidEntry(entry: RunnerEntry) {
    SoundEntry(entry) && !Overfilled(entry)
  }

  /** What it demands of one entry but for the fill. */
  predicate SoundEntry(entry: RunnerEntry) {
    && entry.deliveryFailures < MAX_DELIVERY_ATTEMPTS && entry.deliveryDeferrals < MAX_DELIVERY_DEFERRALS
    && (!entry.vanished ==> entry.vanishedRevision == 0 && entry.absentViews == 0)
    && entry.absentViews < TOMBSTONE_EXPIRY_VIEWS
    && ValidIdentifier(entry.commandId) && ValidOptionalIdentifier(entry.clientId)
    && ValidOptionalIdentifier(entry.orderId) && ValidOptionalIdentifier(entry.marketId)
    && entry.requested <= I64_MAX
    && ValidEntryShape(entry)
  }

  ghost predicate ValidSteps(steps: seq<Step>) {
    forall i :: 0 <= i < |steps| ==> steps[i].Valid()
  }

  predicate HasUpdate(steps: seq<Step>, index: nat) {
    index < |steps| && steps[index].update.Some?
  }

  // ---------------------------------------------------------------------------------------
  // Targets
  // ---------------------------------------------------------------------------------------

  /** Whether the step at `other` is an update of an order the cancel at `index` targets. */
  predicate IsTarget(steps: seq<Step>, index: nat, other: nat)
    requires index < |steps| && other < |steps|
  {
    && steps[index].previous.Some? && steps[other].previous.Some? && steps[other].update.Some?
    && steps[other].previous.value.kind.PlaceKind?
    && var cancel, order := steps[index].previous.value, steps[other].previous.value;
       match cancel.kind
       case PlaceKind => false
       case CancelKind => cancel.clientId.Some? && order.clientId == cancel.clientId
       case CancelAllKind => other < index
  }

  /** The first `n` steps that are targets of the cancel at `index`, in issue order. */
  function TargetsBelow(steps: seq<Step>, index: nat, n: nat): seq<nat>
    requires index < |steps| && n <= |steps|
  {
    if n == 0 then []
    else TargetsBelow(steps, index, n - 1) + if IsTarget(steps, index, n - 1) then [n - 1] else []
  }

  function Targets(steps: seq<Step>, index: nat): seq<nat>
    requires index < |steps|
  {
    TargetsBelow(steps, index, |steps|)
  }

  lemma {:induction false} TargetsAreTargets(steps: seq<Step>, index: nat, n: nat)
    requires index < |steps| && n <= |steps|
    ensures forall t: nat :: t in TargetsBelow(steps, index, n) <==> t < n && IsTarget(steps, index, t)
    ensures Increasing(TargetsBelow(steps, index, n))
  {
    if n > 0 {
      TargetsAreTargets(steps, index, n - 1);
      var before := TargetsBelow(steps, index, n - 1);
      assert forall i :: 0 <= i < |before| ==> before[i] in before;
    }
  }

  lemma TargetsOf(steps: seq<Step>, index: nat)
    requires index < |steps|
    ensures forall t: nat :: t in Targets(steps, index) <==> t < |steps| && IsTarget(steps, index, t)
    ensures Increasing(Targets(steps, index))
  {
    TargetsAreTargets(steps, index, |steps|);
  }

  ghost predicate Increasing(s: seq<nat>) {
    forall i, j :: 0 <= i < j < |s| ==> s[i] < s[j]
  }

  // ---------------------------------------------------------------------------------------
  // Delivery order
  // ---------------------------------------------------------------------------------------

  /** Steps below `n` with an update deferred exactly `deferrals` times, in issue order. */
  function DeferredTimes(steps: seq<Step>, deferrals: nat, n: nat): seq<nat>
    requires n <= |steps|
  {
    if n == 0 then []
    else
      DeferredTimes(steps, deferrals, n - 1)
        + if steps[n - 1].update.Some? && steps[n - 1].Deferrals() == deferrals then [n - 1] else []
  }

  /** Indexes of updates put off at most `deferrals` times: by descending count, those of a count in order. */
  function ByDeferrals(steps: seq<Step>, deferrals: nat): seq<nat> {
    DeferredTimes(steps, deferrals, |steps|) + if deferrals == 0 then [] else ByDeferrals(steps, deferrals - 1)
  }

  function Unplaced(indexes: seq<nat>, placed: set<nat>): seq<nat> {
    if indexes == [] then []
    else
      var last := indexes[|indexes| - 1];
      Unplaced(indexes[..|indexes| - 1], placed) + if last in placed then [] else [last]
  }

  ghost function Members(s: seq<nat>): set<nat> {
    set i | 0 <= i < |s| :: s[i]
  }

  /** One delivery unit per candidate not yet placed: its unplaced targets, then itself. */
  ghost function Units(steps: seq<Step>, candidates: seq<nat>, placed: set<nat>): seq<seq<nat>>
    requires InRange(candidates, |steps|)
  {
    if candidates == [] then []
    else
      var c := candidates[0];
      if c in placed then Units(steps, candidates[1..], placed)
      else
        var unit := Unplaced(Targets(steps, c), placed) + [c];
        [unit] + Units(steps, candidates[1..], placed + Members(unit))
  }

  ghost function Flattened(units: seq<seq<nat>>): seq<nat> {
    if units == [] then [] else units[0] + Flattened(units[1..])
  }

  lemma {:induction false} UnplacedHas(indexes: seq<nat>, placed: set<nat>, x: nat)
    ensures x in Unplaced(indexes, placed) <==> x in indexes && x !in placed
  {
    if indexes != [] {
      var earlier, last := indexes[..|indexes| - 1], indexes[|indexes| - 1];
      UnplacedHas(earlier, placed, x);
      assert indexes == earlier + [last];
    }
  }

  lemma {:induction false} UnplacedIsIncreasing(indexes: seq<nat>, placed: set<nat>)
    requires Increasing(indexes)
    ensures Increasing(Unplaced(indexes, placed))
  {
    if indexes != [] {
      var earlier, last := indexes[..|indexes| - 1], indexes[|indexes| - 1];
      var before := Unplaced(earlier, placed);
      UnplacedIsIncreasing(earlier, placed);
      forall i | 0 <= i < |before|
        ensures before[i] < last
      {
        UnplacedHas(earlier, placed, before[i]);
        var k :| 0 <= k < |earlier| && earlier[k] == before[i];
        assert indexes[k] < indexes[|indexes| - 1];
      }
    }
  }

  lemma UnplacedMembers(indexes: seq<nat>, placed: set<nat>)
    requires Increasing(indexes)
    ensures forall x: nat :: x in Unplaced(indexes, placed) <==> x in indexes && x !in placed
    ensures Increasing(Unplaced(indexes, placed))
  {
    hide Unplaced, Increasing;
    UnplacedIsIncreasing(indexes, placed);
    forall x: nat
      ensures x in Unplaced(indexes, placed) <==> x in indexes && x !in placed
    {
      UnplacedHas(indexes, placed, x);
    }
  }

  ghost predicate InRange(s: seq<nat>, n: nat) {
    forall i :: 0 <= i < |s| ==> s[i] < n
  }

  ghost predicate Distinct(s: seq<nat>) {
    forall i, j :: 0 <= i < j < |s| ==> s[i] != s[j]
  }

  /** Whether every target of an index in `order` is placed already or comes before it. */
  ghost predicate TargetsPrecede(steps: seq<Step>, order: seq<nat>, placed: set<nat>) {
    forall p :: 0 <= p < |order| && order[p] < |steps| ==>
      forall t: nat :: t in Targets(steps, order[p]) ==> t in placed || t in order[..p]
  }

  /** Units deliver every candidate once, and never a cancel's update before its target's. */
  lemma {:induction false} UnitsDeliverTargetsFirst(steps: seq<Step>, candidates: seq<nat>, placed: set<nat>)
    requires InRange(candidates, |steps|)
    requires forall i :: 0 <= i < |candidates| ==> HasUpdate(steps, candidates[i])
    ensures var order := Flattened(Units(steps, candidates, placed));
      && Distinct(order) && Members(order) !! placed
      && (forall x: nat :: x in order ==> HasUpdate(steps, x))
      && (forall i :: 0 <= i < |candidates| ==> candidates[i] in placed || candidates[i] in order)
      && TargetsPrecede(steps, order, placed)
  {
    if candidates != [] {
      var c, rest := candidates[0], candidates[1..];
      assert candidates == [c] + rest;
      if c in placed {
        UnitsDeliverTargetsFirst(steps, rest, placed);
      } else {
        UnitDelivers(steps, c, placed);
        var unit := Unplaced(Targets(steps, c), placed) + [c];
        var later := Flattened(Units(steps, rest, placed + Members(unit)));
        UnitsDeliverTargetsFirst(steps, rest, placed + Members(unit));
        var units := Units(steps, candidates, placed);
        assert units[0] == unit && units[1..] == Units(steps, rest, placed + Members(unit));
        assert Flattened(units) == unit + later;
        ConcatenateUnits(steps, unit, later, placed);
      }
    }
  }

  /** A target is a place with an update, no cancel's own step, and has no targets itself. */
  lemma TargetIsAPlace(steps: seq<Step>, c: nat, t: nat)
    requires c < |steps| && t in Targets(steps, c)
    ensures HasUpdate(steps, t) && t != c && Targets(steps, t) == []
  {
    TargetsOf(steps, c);
    TargetsOf(steps, t);
    hide Targets;
    if Targets(steps, t) != [] {
      PlaceHasNoTarget(steps, t, Targets(steps, t)[0]);
    }
  }

  lemma PlaceHasNoTarget(steps: seq<Step>, t: nat, other: nat)
    requires t < |steps| && other in Targets(steps, t)
    ensures steps[t].previous.Some? && !steps[t].previous.value.kind.PlaceKind?
  {
    TargetsOf(steps, t);
  }

  lemma UnitHas(targets: seq<nat>, placed: set<nat>, c: nat, x: nat)
    ensures x in Unplaced(targets, placed) + [c] <==> (x in targets && x !in placed) || x == c
  {
    UnplacedHas(targets, placed, x);
  }

  lemma UnitIsDistinct(targets: seq<nat>, placed: set<nat>, c: nat)
    requires Increasing(targets) && c !in targets
    ensures Distinct(Unplaced(targets, placed) + [c])
  {
    UnplacedIsIncreasing(targets, placed);
    UnplacedHas(targets, placed, c);
    hide Unplaced;
    var unplaced := Unplaced(targets, placed);
    forall i, j | 0 <= i < j < |unplaced + [c]|
      ensures (unplaced + [c])[i] != (unplaced + [c])[j]
    {
      if j == |unplaced| {
        assert unplaced[i] in unplaced;
      }
    }
  }

  lemma UnitDelivers(steps: seq<Step>, c: nat, placed: set<nat>)
    requires HasUpdate(steps, c) && c !in placed
    ensures var unit := Unplaced(Targets(steps, c), placed) + [c];
      && Distinct(unit) && Members(unit) !! placed
      && (forall x: nat :: x in unit ==> HasUpdate(steps, x))
      && TargetsPrecede(steps, unit, placed)
  {
    var targets := Targets(steps, c);
    var unit := Unplaced(targets, placed) + [c];
    TargetsOf(steps, c);
    hide Targets, Unplaced, IsTarget;
    if c in targets {
      TargetIsAPlace(steps, c, c);
    }
    UnitIsDistinct(targets, placed, c);
    forall p | 0 <= p < |unit|
      ensures HasUpdate(steps, unit[p]) && unit[p] !in placed
      ensures forall t: nat :: t in Targets(steps, unit[p]) ==> t in placed || t in unit[..p]
    {
      UnitHas(targets, placed, c, unit[p]);
      assert unit[p] in unit;
      if unit[p] != c {
        TargetIsAPlace(steps, c, unit[p]);
      } else {
        CandidateIsLast(steps, c, placed, p);
      }
    }
  }

  lemma CandidateIsLast(steps: seq<Step>, c: nat, placed: set<nat>, p: nat)
    requires c < |steps|
    requires var unit := Unplaced(Targets(steps, c), placed) + [c]; p < |unit| && unit[p] == c && Distinct(unit)
    ensures var unit := Unplaced(Targets(steps, c), placed) + [c];
            forall t: nat :: t in Targets(steps, c) ==> t in placed || t in unit[..p]
  {
    hide Targets, Unplaced;
    var unplaced := Unplaced(Targets(steps, c), placed);
    var unit := unplaced + [c];
    assert p == |unplaced| by {
      assert unit[|unplaced|] == c;
    }
    assert unit[..p] == unplaced;
    forall t: nat | t in Targets(steps, c)
      ensures t in placed || t in unplaced
    {
      UnplacedHas(Targets(steps, c), placed, t);
    }
  }

  lemma MembersOfSum(a: seq<nat>, b: seq<nat>)
    ensures Members(a + b) == Members(a) + Members(b)
  {
    forall x | x in Members(a) + Members(b)
      ensures x in Members(a + b)
    {
      if x in Members(a) {
        var i :| 0 <= i < |a| && a[i] == x;
        assert (a + b)[i] == x;
      } else {
        var i :| 0 <= i < |b| && b[i] == x;
        assert (a + b)[|a| + i] == x;
      }
    }
  }

  lemma ConcatenateUnits(steps: seq<Step>, unit: seq<nat>, later: seq<nat>, placed: set<nat>)
    requires Distinct(unit) && Members(unit) !! placed && TargetsPrecede(steps, unit, placed)
    requires Distinct(later) && Members(later) !! (placed + Members(unit))
    requires TargetsPrecede(steps, later, placed + Members(unit))
    ensures Distinct(unit + later) && Members(unit + later) !! placed
    ensures TargetsPrecede(steps, unit + later, placed)
  {
    hide Targets;
    var order := unit + later;
    forall i, j | 0 <= i < j < |order|
      ensures order[i] != order[j]
    {
      if i < |unit| <= j {
        assert order[i] in Members(unit) && order[j] in Members(later);
      }
    }
    forall p | 0 <= p < |order| && order[p] < |steps|
      ensures forall t: nat :: t in Targets(steps, order[p]) ==> t in placed || t in order[..p]
    {
      if p < |unit| {
        assert order[..p] == unit[..p];
      } else {
        assert order[..p] == unit + later[..p - |unit|];
        assert order[p] == later[p - |unit|];
      }
    }
    MembersOfSum(unit, later);
  }

  lemma {:induction false} DeferredTimesMembers(steps: seq<Step>, deferrals: nat, n: nat)
    requires n <= |steps|
    ensures forall x: nat :: x in DeferredTimes(steps, deferrals, n) <==>
              x < n && steps[x].update.Some? && steps[x].Deferrals() == deferrals
  {
    if n > 0 {
      DeferredTimesMembers(steps, deferrals, n - 1);
    }
  }

  lemma {:induction false} ByDeferralsMembers(steps: seq<Step>, deferrals: nat)
    ensures forall x: nat :: x in ByDeferrals(steps, deferrals) <==>
        HasUpdate(steps, x) && steps[x].Deferrals() <= deferrals
  {
    hide DeferredTimes;
    DeferredTimesMembers(steps, deferrals, |steps|);
    var first := DeferredTimes(steps, deferrals, |steps|);
    if deferrals > 0 {
      ByDeferralsMembers(steps, deferrals - 1);
      var rest := ByDeferrals(steps, deferrals - 1);
      assert forall x: nat :: x in first + rest <==> x in first || x in rest;
    } else {
      assert ByDeferrals(steps, deferrals) == first;
    }
  }

  /** The candidates: every update, those deferred first by how often. */
  function Candidates(steps: seq<Step>): seq<nat> {
    ByDeferrals(steps, MAX_DELIVERY_DEFERRALS)
  }

  lemma CandidatesHaveUpdates(steps: seq<Step>)
    ensures InRange(Candidates(steps), |steps|)
    ensures forall i :: 0 <= i < |Candidates(steps)| ==> HasUpdate(steps, Candidates(steps)[i])
  {
    ByDeferralsMembers(steps, MAX_DELIVERY_DEFERRALS);
    assert forall i :: 0 <= i < |Candidates(steps)| ==> Candidates(steps)[i] in Candidates(steps);
  }

  ghost function DeliveryUnits(steps: seq<Step>): seq<seq<nat>>
  {
    CandidatesHaveUpdates(steps);
    Units(steps, Candidates(steps), {})
  }

  /** The delivery order holds each update exactly once, every target before its cancels. */
  lemma DeliveryOrderIsComplete(steps: seq<Step>)
    requires ValidSteps(steps)
    ensures var order := Flattened(DeliveryUnits(steps));
      && Distinct(order)
      && (forall x: nat :: x in order <==> HasUpdate(steps, x))
      && TargetsPrecede(steps, order, {})
  {
    ByDeferralsMembers(steps, MAX_DELIVERY_DEFERRALS);
    CandidatesHaveUpdates(steps);
    UnitsDeliverTargetsFirst(steps, Candidates(steps), {});
    forall x: nat | HasUpdate(steps, x)
      ensures x in Candidates(steps)
    {
      assert steps[x].Valid();
      var i :| 0 <= i < |Candidates(steps)| && Candidates(steps)[i] == x;
    }
  }

  lemma ByDeferralsSplits(steps: seq<Step>, deferrals: nat)
    ensures DeferredTimes(steps, deferrals, |steps|) == [] && deferrals > 0 ==>
              ByDeferrals(steps, deferrals) == ByDeferrals(steps, deferrals - 1)
    ensures DeferredTimes(steps, deferrals, |steps|) == [] && deferrals == 0 ==> ByDeferrals(steps, deferrals) == []
    ensures DeferredTimes(steps, deferrals, |steps|) != [] ==>
              ByDeferrals(steps, deferrals) != [] && ByDeferrals(steps, deferrals)[0]
                  == DeferredTimes(steps, deferrals, |steps|)[0]
  {
    hide DeferredTimes;
  }

  /** The first candidate is deferred the most. */
  lemma {:induction false} FirstIsMostDeferred(steps: seq<Step>, deferrals: nat)
    ensures var order := ByDeferrals(steps, deferrals);
            order != [] ==> order[0] < |steps| && forall x: nat :: x in order && x < |steps| ==>
              steps[x].Deferrals() <= steps[order[0]].Deferrals()
  {
    hide DeferredTimes, ByDeferrals, Step.Deferrals;
    var first := DeferredTimes(steps, deferrals, |steps|);
    ByDeferralsSplits(steps, deferrals);
    if first != [] {
      DeferredTimesMembers(steps, deferrals, |steps|);
      ByDeferralsMembers(steps, deferrals);
      assert first[0] in first;
    } else if deferrals > 0 {
      FirstIsMostDeferred(steps, deferrals - 1);
    }
  }

  /** The first unit ends with an update deferred at least as often as any other. */
  lemma {:induction false} FirstUnitIsMostDeferred(steps: seq<Step>)
    requires ValidSteps(steps) && DeliveryUnits(steps) != []
    ensures var unit := DeliveryUnits(steps)[0];
      && unit != [] && HasUpdate(steps, unit[|unit| - 1])
      && forall x: nat :: HasUpdate(steps, x) ==> steps[x].Deferrals() <= steps[unit[|unit| - 1]].Deferrals()
  {
    hide ByDeferrals, Targets, Unplaced;
    FirstIsMostDeferred(steps, MAX_DELIVERY_DEFERRALS);
    ByDeferralsMembers(steps, MAX_DELIVERY_DEFERRALS);
    CandidatesHaveUpdates(steps);
    var c := Candidates(steps)[0];
    assert DeliveryUnits(steps)[0] == Unplaced(Targets(steps, c), {}) + [c];
    forall x: nat | HasUpdate(steps, x)
      ensures x in Candidates(steps)
    {
      assert steps[x].Valid();
    }
  }

  // ---------------------------------------------------------------------------------------
  // What the delivery order is
  // ---------------------------------------------------------------------------------------

  /** Whether one update is due before another: when it was put off more often, or as often and its entry
      comes first in the section. */
  ghost predicate DueBefore(steps: seq<Step>, a: nat, b: nat) {
    && a < |steps| && b < |steps|
    && (steps[a].Deferrals() > steps[b].Deferrals() || (steps[a].Deferrals() == steps[b].Deferrals() && a < b))
  }

  ghost predicate InDueOrder(steps: seq<Step>, candidates: seq<nat>) {
    forall i, j :: 0 <= i < j < |candidates| ==> DueBefore(steps, candidates[i], candidates[j])
  }

  /** Whether a place's news must not come after a cancel's: the cancel names the place's client order id, or
      cancels all and was issued after it. */
  ghost predicate MustNotFollow(steps: seq<Step>, place: nat, cancel: nat) {
    && place < |steps| && cancel < |steps| && steps[place].previous.Some? && steps[cancel].previous.Some?
    && var (p, c) := (steps[place].previous.value, steps[cancel].previous.value);
       && p.kind.PlaceKind?
       && ((c.kind.CancelKind? && c.clientId.Some? && p.clientId == c.clientId)
           || (c.kind.CancelAllKind? && place < cancel))
  }

  lemma TargetsMustNotFollow(steps: seq<Step>, cancel: nat, place: nat)
    requires cancel < |steps|
    ensures place in Targets(steps, cancel) <==> HasUpdate(steps, place) && MustNotFollow(steps, place, cancel)
  {
    TargetsOf(steps, cancel);
    hide Targets;
  }

  /** No update of a decision comes before one it must not precede. */
  lemma CancelsComeAfterPlaces(steps: seq<Step>, p: nat, place: nat)
    requires ValidSteps(steps)
    requires p < |Flattened(DeliveryUnits(steps))| && HasUpdate(steps, place)
    requires MustNotFollow(steps, place, Flattened(DeliveryUnits(steps))[p])
    ensures place in Flattened(DeliveryUnits(steps))[..p]
  {
    DeliveryOrderIsComplete(steps);
    hide DeliveryUnits, Flattened, Targets;
    TargetsMustNotFollow(steps, Flattened(DeliveryUnits(steps))[p], place);
  }

  /** The update a unit is for, after the targets pulled forward to it. */
  function UnitEnd(unit: seq<nat>): nat
    requires unit != []
  {
    unit[|unit| - 1]
  }

  /** A unit as it should be: before the update it is for, some of the updates that must not follow it, in
      issue order, each of which would have been due later. */
  ghost predicate ProperUnit(steps: seq<Step>, unit: seq<nat>) {
    && unit != [] && HasUpdate(steps, UnitEnd(unit))
    && Increasing(unit[..|unit| - 1])
    && forall p :: 0 <= p < |unit| - 1 ==>
         && HasUpdate(steps, unit[p]) && MustNotFollow(steps, unit[p], UnitEnd(unit))
         && DueBefore(steps, UnitEnd(unit), unit[p])
  }

  lemma {:induction false} DeferredTimesIncrease(steps: seq<Step>, deferrals: nat, n: nat)
    requires n <= |steps|
    ensures Increasing(DeferredTimes(steps, deferrals, n))
  {
    if n > 0 {
      DeferredTimesIncrease(steps, deferrals, n - 1);
      DeferredTimesMembers(steps, deferrals, n - 1);
      var before := DeferredTimes(steps, deferrals, n - 1);
      assert forall i :: 0 <= i < |before| ==> before[i] in before;
    }
  }

  lemma DueInTurn(steps: seq<Step>, first: seq<nat>, rest: seq<nat>, deferrals: nat)
    requires Increasing(first) && InDueOrder(steps, rest)
    requires forall i :: 0 <= i < |first| ==> first[i] < |steps| && steps[first[i]].Deferrals() == deferrals
    requires forall i :: 0 <= i < |rest| ==> rest[i] < |steps| && steps[rest[i]].Deferrals() < deferrals
    ensures InDueOrder(steps, first + rest)
  {
    hide Step.Deferrals;
  }

  lemma {:induction false} CandidatesAreInDueOrder(steps: seq<Step>, deferrals: nat)
    ensures InDueOrder(steps, ByDeferrals(steps, deferrals))
  {
    hide DeferredTimes, Step.Deferrals, InDueOrder;
    DeferredTimesIncrease(steps, deferrals, |steps|);
    DeferredTimesMembers(steps, deferrals, |steps|);
    var first := DeferredTimes(steps, deferrals, |steps|);
    assert forall i :: 0 <= i < |first| ==> first[i] in first;
    if deferrals > 0 {
      CandidatesAreInDueOrder(steps, deferrals - 1);
      ByDeferralsMembers(steps, deferrals - 1);
      var rest := ByDeferrals(steps, deferrals - 1);
      forall i | 0 <= i < |rest|
        ensures rest[i] < |steps| && steps[rest[i]].Deferrals() < deferrals
      {
        assert rest[i] in rest;
      }
      DueInTurn(steps, first, rest, deferrals);
    } else {
      assert first == first + [];
      NoneDue(steps);
      DueInTurn(steps, first, [], deferrals);
    }
  }

  lemma NoneDue(steps: seq<Step>)
    ensures InDueOrder(steps, [])
  {
  }

  /** Every update not placed yet is among the candidates. */
  ghost predicate Awaits(steps: seq<Step>, candidates: seq<nat>, placed: set<nat>) {
    forall x: nat :: HasUpdate(steps, x) && x !in placed ==> x in candidates
  }

  lemma UnitIsProper(steps: seq<Step>, candidates: seq<nat>, placed: set<nat>)
    requires candidates != [] && HasUpdate(steps, candidates[0]) && candidates[0] !in placed
    requires InDueOrder(steps, candidates) && Awaits(steps, candidates, placed)
    ensures ProperUnit(steps, Unplaced(Targets(steps, candidates[0]), placed) + [candidates[0]])
  {
    var c := candidates[0];
    TargetsOf(steps, c);
    UnplacedMembers(Targets(steps, c), placed);
    hide Targets, Unplaced, IsTarget, DueBefore, MustNotFollow;
    var pulled := Unplaced(Targets(steps, c), placed);
    var unit := pulled + [c];
    assert unit[..|unit| - 1] == pulled;
    forall p | 0 <= p < |pulled|
      ensures HasUpdate(steps, pulled[p]) && MustNotFollow(steps, pulled[p], c) && DueBefore(steps, c, pulled[p])
    {
      assert pulled[p] in pulled;
      TargetsMustNotFollow(steps, c, pulled[p]);
      TargetIsAPlace(steps, c, pulled[p]);
      var k :| 0 <= k < |candidates| && candidates[k] == pulled[p];
    }
  }

  /** Units as they should be, for updates among the candidates and in their order. */
  ghost predicate ProperUnits(steps: seq<Step>, units: seq<seq<nat>>, candidates: seq<nat>) {
    && (forall i :: 0 <= i < |units| ==> ProperUnit(steps, units[i]) && UnitEnd(units[i]) in candidates)
    && (forall i, j :: 0 <= i < j < |units| ==> DueBefore(steps, UnitEnd(units[i]), UnitEnd(units[j])))
  }

  lemma UnitInFront(steps: seq<Step>, unit: seq<nat>, later: seq<seq<nat>>, candidates: seq<nat>)
    requires candidates != [] && ProperUnit(steps, unit) && UnitEnd(unit) == candidates[0]
    requires InDueOrder(steps, candidates) && ProperUnits(steps, later, candidates[1..])
    ensures ProperUnits(steps, [unit] + later, candidates)
  {
    hide IsTarget, DueBefore;
    forall j | 0 <= j < |later|
      ensures UnitEnd(later[j]) in candidates && DueBefore(steps, UnitEnd(unit), UnitEnd(later[j]))
    {
      var k :| 0 <= k < |candidates[1..]| && candidates[1..][k] == UnitEnd(later[j]);
      assert candidates[k + 1] == UnitEnd(later[j]);
    }
  }

  lemma {:induction false} UnitsAreProper(steps: seq<Step>, candidates: seq<nat>, placed: set<nat>)
    requires InRange(candidates, |steps|) && (forall i :: 0 <= i < |candidates| ==> HasUpdate(steps, candidates[i]))
    requires InDueOrder(steps, candidates) && Awaits(steps, candidates, placed)
    ensures ProperUnits(steps, Units(steps, candidates, placed), candidates)
  {
    hide Targets, Unplaced, DueBefore, ProperUnit;
    if candidates != [] {
      var c, rest := candidates[0], candidates[1..];
      assert candidates == [c] + rest;
      assert InDueOrder(steps, rest);
      if c in placed {
        UnitsAreProper(steps, rest, placed);
      } else {
        var unit := Unplaced(Targets(steps, c), placed) + [c];
        UnitIsProper(steps, candidates, placed);
        assert unit[|unit| - 1] == c && c in Members(unit);
        UnitsAreProper(steps, rest, placed + Members(unit));
        UnitInFront(steps, unit, Units(steps, rest, placed + Members(unit)), candidates);
      }
    }
  }

  /** The delivery order: units follow the updates they are for, the most deferred first and then in issue
      order; a unit holds before its update only targets of it, in issue order, that would have been due
      later. */
  lemma DeliveryIsInDueOrder(steps: seq<Step>)
    requires ValidSteps(steps)
    ensures var units := DeliveryUnits(steps);
      && (forall i :: 0 <= i < |units| ==> ProperUnit(steps, units[i]))
      && (forall i, j :: 0 <= i < j < |units| ==> DueBefore(steps, UnitEnd(units[i]), UnitEnd(units[j])))
  {
    CandidatesHaveUpdates(steps);
    ByDeferralsMembers(steps, MAX_DELIVERY_DEFERRALS);
    CandidatesAreInDueOrder(steps, MAX_DELIVERY_DEFERRALS);
    hide Targets, DueBefore, ProperUnit, ByDeferrals, Units;
    forall x: nat | HasUpdate(steps, x)
      ensures x in Candidates(steps)
    {
      assert steps[x].Valid();
    }
    UnitsAreProper(steps, Candidates(steps), {});
  }

  lemma UnplacedStep(targets: seq<nat>, k: nat, before: set<nat>)
    requires Increasing(targets) && k < |targets|
    ensures Unplaced(targets[..k + 1], before)
         == Unplaced(targets[..k], before) + if targets[k] in before then [] else [targets[k]]
    ensures targets[k] !in Members(Unplaced(targets[..k], before))
  {
    var upTo, earlier := targets[..k + 1], targets[..k];
    assert upTo[..|upTo| - 1] == earlier && upTo[k] == targets[k];
    UnplacedMembers(earlier, before);
    var unplaced := Unplaced(earlier, before);
    forall i | 0 <= i < |unplaced|
      ensures unplaced[i] != targets[k]
    {
      assert unplaced[i] in earlier;
    }
  }

  /** Computes the delivery units, marking what is placed as it goes. */
  method DeliveryOrder(steps: seq<Step>) returns (order: seq<seq<nat>>)
    ensures order == DeliveryUnits(steps)
  {
    CandidatesHaveUpdates(steps);
    hide Targets, Candidates;
    var candidates := Candidates(steps);
    var placed: set<nat> := {};
    order := [];
    for i := 0 to |candidates|
      invariant InRange(candidates, |steps|)
      invariant order + Units(steps, candidates[i..], placed) == DeliveryUnits(steps)
    {
      var index := candidates[i];
      assert candidates[i..][0] == index && candidates[i..][1..] == candidates[i + 1..];
      if index !in placed {
        var unit := Unit(steps, index, placed);
        placed := placed + Placed(unit);
        order := order + [unit];
      }
    }
  }

  function Placed(unit: seq<nat>): (placed: set<nat>)
    ensures placed == Members(unit)
  {
    set x: nat | x in unit
  }

  /** The unplaced targets of a candidate, then the candidate. */
  method Unit(steps: seq<Step>, index: nat, before: set<nat>) returns (unit: seq<nat>)
    requires index < |steps|
    ensures unit == Unplaced(Targets(steps, index), before) + [index]
  {
    hide Targets;
    var targets := Targets(steps, index);
    TargetsOf(steps, index);
    var placed := before;
    unit := [];
    for k := 0 to |targets|
      invariant unit == Unplaced(targets[..k], before)
      invariant placed == before + Members(unit)
    {
      UnplacedStep(targets, k, before);
      if targets[k] !in placed {
        placed := placed + {targets[k]};
        MembersOfSum(unit, [targets[k]]);
        assert [targets[k]][0] == targets[k] && Members([targets[k]]) == {targets[k]};
        unit := unit + [targets[k]];
      }
    }
    assert targets[..|targets|] == targets;
    unit := unit + [index];
  }

  // ---------------------------------------------------------------------------------------
  // The runner section after delivery
  // ---------------------------------------------------------------------------------------

  /** The delivery counts of a failed update: a counted failure ends a run of deferrals. */
  function CountsAfter(entry: RunnerEntry, failure: Failure): (nat, nat) {
    match failure
    case Counted => (entry.deliveryFailures + 1, 0)
    case Deferred => (entry.deliveryFailures, entry.deliveryDeferrals + 1)
    case Held => (entry.deliveryFailures, entry.deliveryDeferrals + 1)
    case RolledBack => (entry.deliveryFailures, entry.deliveryDeferrals)
  }

  /** Whether a failed update counts as seen from now on. */
  predicate Abandoned(step: Step, failure: Failure) {
    && step.previous.Some?
    && var (attempts, deferrals) := CountsAfter(step.previous.value, failure);
       attempts >= MAX_DELIVERY_ATTEMPTS || deferrals >= MAX_DELIVERY_DEFERRALS
  }

  /** The entry a step leaves: as it was when its update failed, else as the update left it. */
  function EntryAfter(step: Step, failure: Option<Failure>): Option<RunnerEntry> {
    if failure.Some? && step.previous.Some? && !Abandoned(step, failure.value) then
      var (attempts, deferrals) := CountsAfter(step.previous.value, failure.value);
      Some(step.previous.value.(deliveryFailures := attempts, deliveryDeferrals := deferrals))
    else if step.next.Some? && step.update.Some? then
      Some(step.next.value.(deliveryFailures := 0, deliveryDeferrals := 0))
    else step.next
  }

  function FailureOf(failed: map<nat, Failure>, index: nat): Option<Failure> {
    if index in failed then Some(failed[index]) else None
  }

  /** The entries the first `n` steps leave. */
  function EntriesAfter(steps: seq<Step>, failed: map<nat, Failure>, n: nat): seq<RunnerEntry>
    requires n <= |steps|
  {
    if n == 0 then []
    else
      var entry := EntryAfter(steps[n - 1], FailureOf(failed, n - 1));
      EntriesAfter(steps, failed, n - 1) + if entry.Some? then [entry.value] else []
  }

  function LiveOnly(entries: seq<RunnerEntry>): seq<RunnerEntry> {
    if entries == [] then []
    else
      var last := entries[|entries| - 1];
      LiveOnly(entries[..|entries| - 1]) + if last.vanished then [] else [last]
  }

  lemma {:induction false} LiveOfSum(a: seq<RunnerEntry>, b: seq<RunnerEntry>)
    ensures LiveOnly(a + b) == LiveOnly(a) + LiveOnly(b)
  {
    if b == [] {
      assert a + b == a;
    } else {
      assert (a + b)[..|a + b| - 1] == a + b[..|b| - 1];
      LiveOfSum(a, b[..|b| - 1]);
    }
  }

  lemma {:induction false} LiveWithin(entries: seq<RunnerEntry>)
    ensures |LiveOnly(entries)| <= |entries|
    ensures |LiveOnly(entries)| < |entries| ==> exists i :: 0 <= i < |entries| && entries[i].vanished
  {
    if entries != [] {
      LiveWithin(entries[..|entries| - 1]);
    }
  }

  function Tombstones(entries: seq<RunnerEntry>): nat {
    LiveWithin(entries);
    |entries| - |LiveOnly(entries)|
  }

  /** Whether tombstone `a` is to be evicted before `b`: pending ones last, then the oldest first. */
  predicate GoesFirst(a: RunnerEntry, b: RunnerEntry, pending: set<string>) {
    var pa, pb := a.commandId in pending, b.commandId in pending;
    if pa != pb then pb else a.vanishedRevision < b.vanishedRevision
  }

  /** Whether the tombstone at `a` is evicted before the one at `b`: the first of equals goes first. */
  predicate EvictedBefore(entries: seq<RunnerEntry>, pending: set<string>, a: nat, b: nat)
    requires a < |entries| && b < |entries|
  {
    GoesFirst(entries[a], entries[b], pending) || (!GoesFirst(entries[b], entries[a], pending) && a <= b)
  }

  /** The tombstone to evict next. */
  method OldestTombstone(entries: seq<RunnerEntry>, pending: set<string>) returns (oldest: nat)
    requires Tombstones(entries) > 0
    ensures oldest < |entries| && entries[oldest].vanished
    ensures forall i :: 0 <= i < |entries| && entries[i].vanished ==> EvictedBefore(entries, pending, oldest, i)
  {
    LiveWithin(entries);
    var found: Option<nat> := None;
    for i := 0 to |entries|
      invariant found.None? ==> forall j :: 0 <= j < i ==> !entries[j].vanished
      invariant found.Some? ==> found.value < i && entries[found.value].vanished
      invariant found.Some? ==>
        forall j :: 0 <= j < i && entries[j].vanished ==> EvictedBefore(entries, pending, found.value, j)
    {
      if entries[i].vanished && (found.None? || !EvictedBefore(entries, pending, found.value, i)) {
        found := Some(i);
      }
    }
    oldest := found.value;
  }

  ghost predicate DistinctCommandIds(entries: seq<RunnerEntry>) {
    forall i, j :: 0 <= i < j < |entries| ==> entries[i].commandId != entries[j].commandId
  }

  predicate SameClient(a: RunnerEntry, b: RunnerEntry) {
    a.kind.PlaceKind? && b.kind.PlaceKind? && a.clientId.Some? && a.clientId == b.clientId
  }

  ghost predicate DistinctPlaceClients(entries: seq<RunnerEntry>) {
    forall i, j :: 0 <= i < j < |entries| ==> !SameClient(entries[i], entries[j])
  }

  /** What may be evicted for what: a tombstone that no kept one should go before. */
  ghost predicate EvictedInTurn(evicted: seq<RunnerEntry>, kept: seq<RunnerEntry>, pending: set<string>) {
    && (forall i :: 0 <= i < |evicted| ==> evicted[i].vanished)
    && forall i, j :: 0 <= i < |evicted| && 0 <= j < |kept| && kept[j].vanished ==>
        !GoesFirst(kept[j], evicted[i], pending)
  }

  lemma NothingEvicted(entries: seq<RunnerEntry>, pending: set<string>)
    ensures EvictedInTurn([], entries, pending)
  {
  }

  lemma RemovingMovesOne(entries: seq<RunnerEntry>, k: nat)
    requires k < |entries|
    ensures multiset(entries) == multiset(entries[..k] + entries[k + 1..]) + multiset([entries[k]])
  {
    assert entries == entries[..k] + [entries[k]] + entries[k + 1..];
  }

  lemma RemovingKeepsDistinct(entries: seq<RunnerEntry>, k: nat)
    requires k < |entries|
    ensures DistinctCommandIds(entries) ==> DistinctCommandIds(entries[..k] + entries[k + 1..])
    ensures DistinctPlaceClients(entries) ==> DistinctPlaceClients(entries[..k] + entries[k + 1..])
  {
  }

  lemma RemovingKeepsTurn(evicted: seq<RunnerEntry>, entries: seq<RunnerEntry>, k: nat, pending: set<string>)
    requires k < |entries| && entries[k].vanished && EvictedInTurn(evicted, entries, pending)
    requires forall i :: 0 <= i < |entries| && entries[i].vanished ==> EvictedBefore(entries, pending, k, i)
    ensures EvictedInTurn(evicted + [entries[k]], entries[..k] + entries[k + 1..], pending)
  {
    var kept := entries[..k] + entries[k + 1..];
    forall j | 0 <= j < |kept|
      ensures kept[j] == entries[if j < k then j else j + 1]
    {
    }
  }

  // ---------------------------------------------------------------------------------------
  // Which tombstones survive
  // ---------------------------------------------------------------------------------------

  /** How many tombstones of `entries` outlast `entry`: those it goes before, and with `ties` also those
      that do not go before it. */
  function Outlasting(entries: seq<RunnerEntry>, entry: RunnerEntry, pending: set<string>, ties: bool): nat {
    if entries == [] then 0
    else
      var last := entries[|entries| - 1];
      Outlasting(entries[..|entries| - 1], entry, pending, ties)
        + if last.vanished && (GoesFirst(entry, last, pending) || (ties && !GoesFirst(last, entry, pending)))
          then 1 else 0
  }

  /** Whether the entry at `k` is kept: a live one always, a tombstone when fewer outlast it than the
      section may hold. */
  predicate Survives(entries: seq<RunnerEntry>, pending: set<string>, k: nat)
    requires k < |entries|
  {
    || !entries[k].vanished
    || Outlasting(entries[..k], entries[k], pending, false) + Outlasting(entries[k + 1..], entries[k], pending, true)
         < MAX_TOMBSTONES
  }

  function KeptBelow(entries: seq<RunnerEntry>, pending: set<string>, n: nat): seq<RunnerEntry>
    requires n <= |entries|
  {
    if n == 0 then []
    else KeptBelow(entries, pending, n - 1) + if Survives(entries, pending, n - 1) then [entries[n - 1]] else []
  }

  /** The entries that survive eviction, in order. */
  function Kept(entries: seq<RunnerEntry>, pending: set<string>): seq<RunnerEntry> {
    KeptBelow(entries, pending, |entries|)
  }

  lemma {:induction false} OutlastingOfSum(
      a: seq<RunnerEntry>, b: seq<RunnerEntry>, entry: RunnerEntry, pending: set<string>, ties: bool)
    ensures Outlasting(a + b, entry, pending, ties)
        == Outlasting(a, entry, pending, ties) + Outlasting(b, entry, pending, ties)
  {
    if b == [] {
      assert a + b == a;
    } else {
      assert (a + b)[..|a + b| - 1] == a + b[..|b| - 1];
      OutlastingOfSum(a, b[..|b| - 1], entry, pending, ties);
    }
  }

  lemma OutlastingOfOne(one: RunnerEntry, entry: RunnerEntry, pending: set<string>, ties: bool)
    ensures Outlasting([one], entry, pending, ties)
         == if one.vanished && (GoesFirst(entry, one, pending) || (ties && !GoesFirst(one, entry, pending)))
            then 1 else 0
  {
    assert [one][..0] == [];
  }

  /** At most every tombstone outlasts an entry, and all of them if it goes first. */
  lemma {:induction false} OutlastingIsTombstones(
      entries: seq<RunnerEntry>, entry: RunnerEntry, pending: set<string>, ties: bool)
    ensures Outlasting(entries, entry, pending, ties) <= Tombstones(entries)
    ensures (forall i :: 0 <= i < |entries| && entries[i].vanished ==>
               GoesFirst(entry, entries[i], pending) || (ties && !GoesFirst(entries[i], entry, pending))) ==>
            Outlasting(entries, entry, pending, ties) == Tombstones(entries)
  {
    hide GoesFirst;
    if entries != [] {
      OutlastingIsTombstones(entries[..|entries| - 1], entry, pending, ties);
    }
  }

  lemma TombstonesOfSum(a: seq<RunnerEntry>, b: seq<RunnerEntry>)
    ensures Tombstones(a + b) == Tombstones(a) + Tombstones(b)
  {
    LiveOfSum(a, b);
    hide LiveOnly;
  }

  lemma TombstonesOfOne(entry: RunnerEntry)
    ensures Tombstones([entry]) == if entry.vanished then 1 else 0
  {
    LiveOfOne(entry);
    hide LiveOnly;
  }

  lemma TombstonesAround(entries: seq<RunnerEntry>, k: nat)
    requires k < |entries|
    ensures Tombstones(entries)
         == Tombstones(entries[..k]) + (if entries[k].vanished then 1 else 0) + Tombstones(entries[k + 1..])
  {
    hide Tombstones;
    TombstonesOfOne(entries[k]);
    TombstonesOfSum(entries[..k], [entries[k]]);
    TombstonesOfSum(entries[..k] + [entries[k]], entries[k + 1..]);
    assert entries == entries[..k] + [entries[k]] + entries[k + 1..];
  }

  lemma {:induction false} FewAllSurvive(entries: seq<RunnerEntry>, pending: set<string>, n: nat)
    requires Tombstones(entries) <= MAX_TOMBSTONES && n <= |entries|
    ensures KeptBelow(entries, pending, n) == entries[..n]
  {
    hide Tombstones, Outlasting;
    if n > 0 {
      FewAllSurvive(entries, pending, n - 1);
      TombstonesAround(entries, n - 1);
      OutlastingIsTombstones(entries[..n - 1], entries[n - 1], pending, false);
      OutlastingIsTombstones(entries[n..], entries[n - 1], pending, true);
      assert entries[..n] == entries[..n - 1] + [entries[n - 1]];
    }
  }

  /** Past the bound, the tombstone that goes before all others does not survive. */
  lemma FirstDoesNotSurvive(entries: seq<RunnerEntry>, pending: set<string>, r: nat)
    requires r < |entries| && entries[r].vanished && Tombstones(entries) > MAX_TOMBSTONES
    requires forall i :: 0 <= i < |entries| && entries[i].vanished ==> EvictedBefore(entries, pending, r, i)
    ensures !Survives(entries, pending, r)
  {
    hide Tombstones, Outlasting, GoesFirst;
    TombstonesAround(entries, r);
    var before, after := entries[..r], entries[r + 1..];
    assert forall i :: 0 <= i < |before| ==> before[i] == entries[i];
    assert forall i :: 0 <= i < |after| ==> after[i] == entries[r + 1 + i];
    OutlastingIsTombstones(before, entries[r], pending, false);
    OutlastingIsTombstones(after, entries[r], pending, true);
  }

  lemma {:induction false} SurvivesWithoutFirst(entries: seq<RunnerEntry>, pending: set<string>, r: nat, k: nat)
    requires r < |entries| && k < |entries| && k != r
    requires forall i :: 0 <= i < |entries| && entries[i].vanished ==> EvictedBefore(entries, pending, r, i)
    ensures Survives(entries, pending, k)
       <==> Survives(entries[..r] + entries[r + 1..], pending, if k < r then k else k - 1)
  {
    hide Outlasting;
    var rest := entries[..r] + entries[r + 1..];
    var one, entry := entries[r], entries[k];
    if k < r {
      var between := entries[k + 1..r];
      assert entries[k + 1..] == between + [one] + entries[r + 1..];
      assert rest[k + 1..] == between + entries[r + 1..] && rest[..k] == entries[..k] && rest[k] == entry;
      OutlastingOfOne(one, entry, pending, true);
      OutlastingOfSum(between, [one], entry, pending, true);
      OutlastingOfSum(between + [one], entries[r + 1..], entry, pending, true);
      OutlastingOfSum(between, entries[r + 1..], entry, pending, true);
    } else {
      var between := entries[r + 1..k];
      assert entries[..k] == entries[..r] + [one] + between;
      assert rest[..k - 1] == entries[..r] + between && rest[k..] == entries[k + 1..] && rest[k - 1] == entry;
      OutlastingOfOne(one, entry, pending, false);
      OutlastingOfSum(entries[..r], [one], entry, pending, false);
      OutlastingOfSum(entries[..r] + [one], between, entry, pending, false);
      OutlastingOfSum(entries[..r], between, entry, pending, false);
    }
  }

  lemma {:induction false} KeptWithoutFirst(entries: seq<RunnerEntry>, pending: set<string>, r: nat, n: nat)
    requires r < |entries| && entries[r].vanished && Tombstones(entries) > MAX_TOMBSTONES && n <= |entries|
    requires forall i :: 0 <= i < |entries| && entries[i].vanished ==> EvictedBefore(entries, pending, r, i)
    ensures KeptBelow(entries, pending, n)
         == KeptBelow(entries[..r] + entries[r + 1..], pending, if n <= r then n else n - 1)
  {
    hide Tombstones, Survives, EvictedBefore;
    var rest := entries[..r] + entries[r + 1..];
    if n > 0 {
      KeptWithoutFirst(entries, pending, r, n - 1);
      if n - 1 == r {
        FirstDoesNotSurvive(entries, pending, r);
      } else {
        SurvivesWithoutFirst(entries, pending, r, n - 1);
        assert rest[if n - 1 < r then n - 1 else n - 2] == entries[n - 1];
      }
    }
  }

  lemma {:induction false} KeptHas(entries: seq<RunnerEntry>, pending: set<string>, n: nat, entry: RunnerEntry)
    requires n <= |entries|
    ensures entry in KeptBelow(entries, pending, n) <==>
        exists k :: 0 <= k < n && entries[k] == entry && Survives(entries, pending, k)
  {
    hide Survives;
    if n > 0 {
      KeptHas(entries, pending, n - 1, entry);
    }
  }

  /** Live entries at the end neither go nor change what goes. */
  lemma {:induction false} KeptWithLive(entries: seq<RunnerEntry>, live: seq<RunnerEntry>, pending: set<string>, n: nat)
    requires Tombstones(live) == 0 && n <= |entries + live|
    requires forall i :: 0 <= i < |live| ==> !live[i].vanished
    ensures KeptBelow(entries + live, pending, n)
         == if n <= |entries| then KeptBelow(entries, pending, n) else Kept(entries, pending) + live[..n - |entries|]
  {
    hide Outlasting, Tombstones;
    var all := entries + live;
    if n > 0 {
      KeptWithLive(entries, live, pending, n - 1);
      if n <= |entries| {
        assert all[..n - 1] == entries[..n - 1] && all[n..] == entries[n..] + live;
        OutlastingOfSum(entries[n..], live, all[n - 1], pending, true);
        OutlastingIsTombstones(live, all[n - 1], pending, true);
      } else {
        var k := n - 1 - |entries|;
        assert live[..k + 1] == live[..k] + [live[k]] && all[n - 1] == live[k];
      }
    }
  }

  /** Evicts tombstones past the bound, each the first to go of those left. */
  method EvictTombstones(all: seq<RunnerEntry>, pending: set<string>)
    returns (entries: seq<RunnerEntry>, ghost evicted: seq<RunnerEntry>)
    ensures LiveOnly(entries) == LiveOnly(all)
    ensures multiset(entries) + multiset(evicted) == multiset(all)
    ensures EvictedInTurn(evicted, entries, pending)
    ensures entries == Kept(all, pending)
    ensures Tombstones(entries) == if Tombstones(all) <= MAX_TOMBSTONES then Tombstones(all) else MAX_TOMBSTONES
    ensures Tombstones(all) <= MAX_TOMBSTONES ==> entries == all
    ensures DistinctCommandIds(all) ==> DistinctCommandIds(entries)
    ensures DistinctPlaceClients(all) ==> DistinctPlaceClients(entries)
  {
    hide LiveOnly, EvictedInTurn, DistinctCommandIds, DistinctPlaceClients, EvictedBefore, KeptBelow;
    entries, evicted := all, [];
    NothingEvicted(all, pending);
    while Tombstones(entries) > MAX_TOMBSTONES
      invariant LiveOnly(entries) == LiveOnly(all)
      invariant multiset(entries) + multiset(evicted) == multiset(all)
      invariant EvictedInTurn(evicted, entries, pending)
      invariant Kept(entries, pending) == Kept(all, pending)
      invariant Tombstones(all) <= MAX_TOMBSTONES ==> entries == all
      invariant Tombstones(all) > MAX_TOMBSTONES ==> Tombstones(entries) >= MAX_TOMBSTONES
      invariant DistinctCommandIds(all) ==> DistinctCommandIds(entries)
      invariant DistinctPlaceClients(all) ==> DistinctPlaceClients(entries)
      decreases |entries|
    {
      var oldest := OldestTombstone(entries, pending);
      RemovingTombstone(entries, oldest);
      RemovingKeepsDistinct(entries, oldest);
      RemovingKeepsTurn(evicted, entries, oldest, pending);
      RemovingMovesOne(entries, oldest);
      KeptWithoutFirst(entries, pending, oldest, |entries|);
      evicted := evicted + [entries[oldest]];
      entries := entries[..oldest] + entries[oldest + 1..];
    }
    FewAllSurvive(entries, pending, |entries|);
  }

  /** Commands of the tombstones a failed update keeps. */
  ghost function PendingIds(steps: seq<Step>, failed: map<nat, Failure>, n: nat): set<string>
    requires n <= |steps|
  {
    if n == 0 then {}
    else
      var step := steps[n - 1];
      PendingIds(steps, failed, n - 1)
        + if n - 1 in failed && step.previous.Some? && step.previous.value.vanished && !Abandoned(step, failed[n - 1])
          then {step.previous.value.commandId} else {}
  }

  /** Puts the section together: each step's entry, this decision's own, and then evictions down to the
      bound on tombstones. It loses no live entry and keeps their order. */
  method Finalize(steps: seq<Step>, failed: map<nat, Failure>, issued: seq<RunnerEntry>)
    returns (entries: seq<RunnerEntry>)
    ensures Finalized(steps, failed, issued, entries)
  {
    hide LiveOnly, EntryAfter, KeptBelow, EvictedInTurn, DistinctCommandIds, DistinctPlaceClients, Abandoned;
    entries := [];
    var pending: set<string> := {};
    for i := 0 to |steps|
      invariant entries == EntriesAfter(steps, failed, i) && pending == PendingIds(steps, failed, i)
    {
      var entry := EntryAfter(steps[i], FailureOf(failed, i));
      if i in failed && steps[i].previous.Some? && steps[i].previous.value.vanished && !Abandoned(steps[i], failed[i]) {
        pending := pending + {steps[i].previous.value.commandId};
      }
      if entry.Some? {
        entries := entries + [entry.value];
      }
    }
    LiveOfSum(entries, issued);
    ghost var evicted;
    entries, evicted := EvictTombstones(entries + issued, pending);
    assert IsRest(evicted, entries, EntriesAfter(steps, failed, |steps|) + issued, pending);
  }

  /** What was evicted of all entries, in turn, when these are left. */
  ghost predicate IsRest(
      evicted: seq<RunnerEntry>, entries: seq<RunnerEntry>, all: seq<RunnerEntry>, pending: set<string>) {
    multiset(entries) + multiset(evicted) == multiset(all) && EvictedInTurn(evicted, entries, pending)
  }

  /** Whether the section holds no more tombstones than it may. */
  ghost predicate NothingToEvict(steps: seq<Step>, failed: map<nat, Failure>, issued: seq<RunnerEntry>) {
    Tombstones(EntriesAfter(steps, failed, |steps|) + issued) <= MAX_TOMBSTONES
  }

  /** What finalizing guarantees of the section's `entries`. */
  ghost predicate Finalized(
      steps: seq<Step>, failed: map<nat, Failure>, issued: seq<RunnerEntry>, entries: seq<RunnerEntry>)
  {
    var all := EntriesAfter(steps, failed, |steps|) + issued;
    && LiveOnly(entries) == LiveOnly(EntriesAfter(steps, failed, |steps|)) + LiveOnly(issued)
    && entries == Kept(all, PendingIds(steps, failed, |steps|))
    && (exists evicted :: IsRest(evicted, entries, all, PendingIds(steps, failed, |steps|)))
    && Tombstones(entries) == (if NothingToEvict(steps, failed, issued) then Tombstones(all) else MAX_TOMBSTONES)
    && (NothingToEvict(steps, failed, issued) ==> entries == all)
    && (DistinctCommandIds(all) ==> DistinctCommandIds(entries))
    && (DistinctPlaceClients(all) ==> DistinctPlaceClients(entries))
  }

  /** Eviction is by age: of tombstones alike pending or not, one is evicted only if none kept vanished
      before it, and a pending one, whose order is back with an update to deliver, only if every kept one
      is pending too. */
  lemma {:induction false} OldestAreEvicted(
      steps: seq<Step>, failed: map<nat, Failure>, issued: seq<RunnerEntry>, entries: seq<RunnerEntry>)
    requires Finalized(steps, failed, issued, entries)
    ensures var pending := PendingIds(steps, failed, |steps|);
      exists evicted: seq<RunnerEntry> ::
        && multiset(entries) + multiset(evicted) == multiset(EntriesAfter(steps, failed, |steps|) + issued)
        && Tombstones(entries) <= 32 && (evicted != [] ==> Tombstones(entries) == 32)
        && forall i, j :: 0 <= i < |evicted| && 0 <= j < |entries| && entries[j].vanished ==>
             && evicted[i].vanished
             && (evicted[i].commandId in pending ==> entries[j].commandId in pending)
             && ((evicted[i].commandId in pending <==> entries[j].commandId in pending) ==>
                   evicted[i].vanishedRevision <= entries[j].vanishedRevision)
  {
    hide EntriesAfter, PendingIds, LiveOnly, KeptBelow, Tombstones;
    var pending := PendingIds(steps, failed, |steps|);
    var all := EntriesAfter(steps, failed, |steps|) + issued;
    var evicted :| IsRest(evicted, entries, EntriesAfter(steps, failed, |steps|) + issued, pending);
    if NothingToEvict(steps, failed, issued) {
      assert |multiset(entries) + multiset(evicted)| == |multiset(all)|;
    }
  }

  lemma {:induction false} RemovingTombstone(entries: seq<RunnerEntry>, k: nat)
    requires k < |entries| && entries[k].vanished
    ensures LiveOnly(entries[..k] + entries[k + 1..]) == LiveOnly(entries)
  {
    hide LiveOnly;
    var head, tail := entries[..k], entries[k + 1..];
    LiveOfOne(entries[k]);
    LiveOfSum(head, [entries[k]]);
    LiveOfSum(head + [entries[k]], tail);
    LiveOfSum(head, tail);
    assert entries == head + [entries[k]] + tail;
    assert LiveOnly(entries) == LiveOnly(head) + [] + LiveOnly(tail);
  }

  lemma LiveOfOne(entry: RunnerEntry)
    ensures LiveOnly([entry]) == if entry.vanished then [] else [entry]
  {
    assert [entry][..0] == [];
  }

  lemma CountsKeepSoundness(entry: RunnerEntry, failures: nat, deferrals: nat)
    requires SoundEntry(entry) && failures < MAX_DELIVERY_ATTEMPTS && deferrals < MAX_DELIVERY_DEFERRALS
    ensures SoundEntry(entry.(deliveryFailures := failures, deliveryDeferrals := deferrals))
  {
  }

  /** Whatever a step leaves is below both delivery limits and of its kind's shape, and no tombstone if
      more of it filled than was requested. */
  lemma StepLeavesSoundEntry(step: Step, failure: Option<Failure>)
    requires step.Valid() && EntryAfter(step, failure).Some?
    ensures SoundEntry(EntryAfter(step, failure).value)
    ensures Overfilled(EntryAfter(step, failure).value) ==> !EntryAfter(step, failure).value.vanished
  {
    if step.next.Some? {
      CountsKeepSoundness(step.next.value, 0, 0);
    }
    if failure.Some? && step.previous.Some? && !Abandoned(step, failure.value) {
      var (attempts, deferrals) := CountsAfter(step.previous.value, failure.value);
      CountsKeepSoundness(step.previous.value, attempts, deferrals);
    }
    hide SoundEntry;
  }

  lemma {:induction false} EntriesAfterAreSound(steps: seq<Step>, failed: map<nat, Failure>, n: nat)
    requires ValidSteps(steps) && n <= |steps|
    ensures forall i :: 0 <= i < |EntriesAfter(steps, failed, n)| ==>
              var entry := EntriesAfter(steps, failed, n)[i];
              SoundEntry(entry) && (Overfilled(entry) ==> !entry.vanished)
  {
    hide SoundEntry, EntryAfter;
    if n > 0 {
      EntriesAfterAreSound(steps, failed, n - 1);
      assert steps[n - 1].Valid();
      if EntryAfter(steps[n - 1], FailureOf(failed, n - 1)).Some? {
        StepLeavesSoundEntry(steps[n - 1], FailureOf(failed, n - 1));
      }
    }
  }
}
