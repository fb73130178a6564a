/**
 The runner section a decision leaves: within the bounds and counts its own validation demands, whatever
 failed, tracking the decision's commands, and exactly when the rest of that validation passes.
 */
module RunnerSection {
  import opened Arithmetic
  import opened Wrappers
  import opened Wire
  import opened Admission
  import opened PlanRows
  import opened Validation
  import opened Updates

  const MAX_RUNNER_SECTION_ENTRIES: nat := MAX_RUNNER_ENTRIES + MAX_TOMBSTONES

  // ---------------------------------------------------------------------------------------
  // What the comparison hands over
  // ---------------------------------------------------------------------------------------

  /** The entry a step is about: the section's, or an adopted order's. */
  function Subject(step: Step): Option<RunnerEntry> {
    if step.previous.Some? then step.previous else step.next
  }

  /** What the first `n` steps leave of the section when no update fails. */
  function NextEntries(steps: seq<Step>, n: nat): seq<RunnerEntry>
    requires n <= |steps|
  {
    if n == 0 then []
    else NextEntries(steps, n - 1) + if steps[n - 1].next.Some? then [steps[n - 1].next.value] else []
  }

  /** Whether failing on this step's update adds a live entry. */
  predicate Reinstatable(step: Step) {
    step.update.Some? && step.previous.Some? && !step.previous.value.vanished
        && !(step.next.Some? && !step.next.value.vanished)
  }

  /** The reserve is exact: failing on a step's update leaves one live entry more than handling it exactly when
      the step is reinstatable. */
  lemma ReserveIsExact(step: Step)
    requires step.Valid() && step.update.Some?
    ensures |LiveOnly(Left(EntryAfter(step, Some(RolledBack))))| == |LiveOnly(Left(step.next))| + 1
       <==> Reinstatable(step)
  {
    LeftIsLive(EntryAfter(step, Some(RolledBack)));
    LeftIsLive(step.next);
    hide LiveOnly, ValidIdentifier, ValidEntryShape, Left;
  }

  function ReinstatableLive(steps: seq<Step>, n: nat): nat
    requires n <= |steps|
  {
    if n == 0 then 0 else ReinstatableLive(steps, n - 1) + if Reinstatable(steps[n - 1]) then 1 else 0
  }

  /** How many of the first `n` steps can leave an entry, whatever fails. */
  function HeldEntries(steps: seq<Step>, n: nat): nat
    requires n <= |steps|
  {
    if n == 0 then 0
    else HeldEntries(steps, n - 1) + if steps[n - 1].next.Some? || steps[n - 1].update.Some? then 1 else 0
  }

  /** Tombstones the section held before the comparison. */
  function VanishedBefore(steps: seq<Step>, n: nat): nat
    requires n <= |steps|
  {
    if n == 0 then 0
    else
      VanishedBefore(steps, n - 1)
        + if steps[n - 1].previous.Some? && steps[n - 1].previous.value.vanished then 1 else 0
  }

  /** What the comparison of a valid section with a valid view guarantees: steps of distinct commands,
      each about one of them, no more of them, or of tombstones before, than a section holds, and client
      order ids that differ among the section's places and among the adopted orders. */
  ghost predicate Coherent(steps: seq<Step>) {
    && ValidSteps(steps)
    && HeldEntries(steps, |steps|) <= MAX_RUNNER_SECTION_ENTRIES
    && VanishedBefore(steps, |steps|) <= MAX_TOMBSTONES
    && (forall i :: 0 <= i < |steps| && steps[i].previous.Some? && steps[i].next.Some? ==>
          SameIdentity(steps[i].previous.value, steps[i].next.value))
    && (forall i, j :: 0 <= i < j < |steps| && Subject(steps[i]).Some? && Subject(steps[j]).Some? ==>
          && Subject(steps[i]).value.commandId != Subject(steps[j]).value.commandId
          && (steps[i].previous.Some? == steps[j].previous.Some? ==>
                !SameClient(Subject(steps[i]).value, Subject(steps[j]).value)))
  }

  predicate SameIdentity(a: RunnerEntry, b: RunnerEntry) {
    a.commandId == b.commandId && a.kind == b.kind && a.clientId == b.clientId
  }

  /** The context's runner section and reserve are the steps', new command ids are new to it, and the
      external request answered shares its id with no Broker command. */
  ghost predicate DerivedFor(ctx: Context, steps: seq<Step>) {
    && ctx.runner == NextEntries(steps, |steps|)
    && ctx.reinstatableLive == ReinstatableLive(steps, |steps|)
    && (forall n: nat, i :: n < MAX_STRATEGY_COMMANDS && 0 <= i < |steps| && Subject(steps[i]).Some? ==>
          ctx.commandId(n) != Subject(steps[i]).value.commandId)
    && (ctx.answeredRequest.Some? ==> NamesNoBrokerCommand(ctx, steps, ctx.answeredRequest.value))
  }

  ghost predicate NamesNoBrokerCommand(ctx: Context, steps: seq<Step>, id: string) {
    && id !in ctx.receipts && id !in FinalOrders(ctx.orders)
    && (forall n: nat :: n < MAX_STRATEGY_COMMANDS ==> ctx.commandId(n) != id)
    && (forall i :: 0 <= i < |steps| && Subject(steps[i]).Some? ==> Subject(steps[i]).value.commandId != id)
  }

  ghost predicate FailedHaveUpdates(steps: seq<Step>, failed: map<nat, Failure>) {
    forall i :: i in failed ==> HasUpdate(steps, i)
  }

  // ---------------------------------------------------------------------------------------
  // Bounds
  // ---------------------------------------------------------------------------------------

  lemma {:induction false} LiveEntriesAreLive(entries: seq<RunnerEntry>)
    ensures LiveEntries(entries) == |LiveOnly(entries)|
  {
    if entries != [] {
      LiveEntriesAreLive(entries[..|entries| - 1]);
    }
  }

  /** A step's entry, as far as it leaves one. */
  function Left(entry: Option<RunnerEntry>): seq<RunnerEntry> {
    if entry.Some? then [entry.value] else []
  }

  lemma LeftIsLive(entry: Option<RunnerEntry>)
    ensures |LiveOnly(Left(entry))| == if entry.Some? && !entry.value.vanished then 1 else 0
  {
    if entry.Some? {
      LiveOfOne(entry.value);
    } else {
      LiveOfNone();
    }
    hide LiveOnly;
  }

  lemma StepStaysWithinReserve(step: Step, failure: Option<Failure>)
    requires failure.Some? ==> step.update.Some?
    ensures var entry := EntryAfter(step, failure);
      && (entry.Some? && !entry.value.vanished ==> (step.next.Some? && !step.next.value.vanished) || Reinstatable(step))
      && (entry.Some? ==> step.next.Some? || step.update.Some?)
  {
  }

  /** Whatever failed, no more entries are live than with every update handled and all reinstated. */
  lemma {:induction false} LiveAfterFailures(steps: seq<Step>, failed: map<nat, Failure>, n: nat)
    requires n <= |steps| && FailedHaveUpdates(steps, failed)
    ensures |LiveOnly(EntriesAfter(steps, failed, n))| <= |LiveOnly(NextEntries(steps, n))| + ReinstatableLive(steps, n)
    ensures |EntriesAfter(steps, failed, n)| <= HeldEntries(steps, n)
  {
    hide LiveOnly, EntryAfter, Reinstatable;
    if n == 0 {
      LiveOfNone();
    } else {
      LiveAfterFailures(steps, failed, n - 1);
      var step, failure := steps[n - 1], FailureOf(failed, n - 1);
      StepStaysWithinReserve(step, failure);
      LiveOfSum(EntriesAfter(steps, failed, n - 1), Left(EntryAfter(step, failure)));
      LiveOfSum(NextEntries(steps, n - 1), Left(step.next));
      LeftIsLive(EntryAfter(step, failure));
      LeftIsLive(step.next);
    }
  }

  lemma LiveOfNone()
    ensures LiveOnly([]) == []
  {
  }

  lemma NewEntryIsLive(ctx: Context, provisional: seq<ProvisionalOrder>, command: Command)
    requires command.IsBroker()
    ensures !EntryFor(ctx, provisional, command).vanished
  {
  }

  /** A decision's own entries are live. */
  lemma {:induction false} OwnEntriesAreLive(ctx: Context, commands: seq<Command>)
    ensures LiveOnly(OwnEntries(ctx, commands)) == OwnEntries(ctx, commands)
  {
    hide Provisional, EntryFor, LiveOnly;
    if commands == [] {
      LiveOfNone();
    } else {
      var earlier, last := commands[..|commands| - 1], commands[|commands| - 1];
      OwnEntriesAreLive(ctx, earlier);
      if last.IsBroker() {
        var entry := EntryFor(ctx, Provisional(ctx, earlier), last);
        NewEntryIsLive(ctx, Provisional(ctx, earlier), last);
        LiveOfSum(OwnEntries(ctx, earlier), [entry]);
        LiveOfOne(entry);
      } else {
        assert OwnEntries(ctx, commands) == OwnEntries(ctx, earlier);
      }
    }
  }

  lemma AdmittedLeavesRunnerRoom(ctx: Context, h: HostState, call: Call)
    requires h.Valid() && IssuesCommand(call) && Judge(ctx, h, call).Admitted? && Judge(ctx, h, call).command.IsBroker()
    ensures LiveEntries(Runner(ctx, h.commands)) + ctx.reinstatableLive < MAX_RUNNER_ENTRIES
  {
    hide OrderFor, CancelTargetFor, TimerKeyError, RequestError, RowsAfter, EntryFor, BytesWith, EarlierBytes, Requests,
      Runner, LiveEntries;
  }

  /** A decision that issued Broker commands keeps the runner section's live bound, even if every
      failed update came back. */
  lemma {:induction false} IssuedEntriesFit(ctx: Context, commands: seq<Command>)
    requires Reachable(ctx, commands) && OwnEntries(ctx, commands) != []
    ensures |LiveOnly(ctx.runner)| + |OwnEntries(ctx, commands)| + ctx.reinstatableLive <= MAX_RUNNER_ENTRIES
  {
    hide Judge, LiveOnly, EntryFor;
    var earlier, last := commands[..|commands| - 1], commands[|commands| - 1];
    if last.IsBroker() {
      assert IssuedAt(ctx, commands, |earlier|);
      var h: HostState, call :| Admits(ctx, h, call, earlier, last);
      AdmittedLeavesRunnerRoom(ctx, h, call);
      LiveEntriesAreLive(Runner(ctx, earlier));
      LiveOfSum(ctx.runner, OwnEntries(ctx, earlier));
      OwnEntriesAreLive(ctx, earlier);
    } else {
      PrefixIsReachable(ctx, commands, |earlier|);
      IssuedEntriesFit(ctx, earlier);
    }
  }

  /** The section after any decision holds at most 288 entries, 32 of them tombstones: 256 live ones
      when it issued a Broker command, and never more than the comparison held. */
  lemma {:induction false} SectionStaysWithinBounds(
      ctx: Context, steps: seq<Step>, failed: map<nat, Failure>, commands: seq<Command>, entries: seq<RunnerEntry>)
    requires Coherent(steps) && DerivedFor(ctx, steps) && FailedHaveUpdates(steps, failed) && Reachable(ctx, commands)
    requires Finalized(steps, failed, OwnEntries(ctx, commands), entries)
    ensures |entries| <= MAX_RUNNER_SECTION_ENTRIES
    ensures OwnEntries(ctx, commands) != [] ==> |LiveOnly(entries)| <= MAX_RUNNER_ENTRIES
  {
    hide LiveOnly, EntriesAfter, NextEntries, ReinstatableLive, HeldEntries, Reachable, OwnEntries, EvictedInTurn;
    var all := EntriesAfter(steps, failed, |steps|) + OwnEntries(ctx, commands);
    var evicted :| IsRest(evicted, entries, all, PendingIds(steps, failed, |steps|));
    assert |multiset(entries)| + |multiset(evicted)| == |multiset(entries) + multiset(evicted)| == |multiset(all)|;
    LiveAfterFailures(steps, failed, |steps|);
    OwnEntriesAreLive(ctx, commands);
    if OwnEntries(ctx, commands) != [] {
      IssuedEntriesFit(ctx, commands);
    }
  }

  // ---------------------------------------------------------------------------------------
  // Identities
  // ---------------------------------------------------------------------------------------

  lemma {:induction false} EntriesComeFromSteps(
      steps: seq<Step>, failed: map<nat, Failure>, n: nat, k: nat) returns (i: nat)
    requires n <= |steps| && k < |EntriesAfter(steps, failed, n)|
    ensures i < n && EntryAfter(steps[i], FailureOf(failed, i)) == Some(EntriesAfter(steps, failed, n)[k])
  {
    hide EntryAfter;
    if k < |EntriesAfter(steps, failed, n - 1)| {
      i := EntriesComeFromSteps(steps, failed, n - 1, k);
    } else {
      i := n - 1;
    }
  }

  lemma {:induction false} StepsLeaveEntries(
      steps: seq<Step>, failed: map<nat, Failure>, n: nat, i: nat) returns (k: nat)
    requires i < n <= |steps| && EntryAfter(steps[i], FailureOf(failed, i)).Some?
    ensures k < |EntriesAfter(steps, failed, n)|
    ensures EntriesAfter(steps, failed, n)[k] == EntryAfter(steps[i], FailureOf(failed, i)).value
  {
    hide EntryAfter;
    if i < n - 1 {
      k := StepsLeaveEntries(steps, failed, n - 1, i);
    } else {
      k := |EntriesAfter(steps, failed, n - 1)|;
    }
  }

  lemma {:induction false} NextIsListed(steps: seq<Step>, n: nat, i: nat) returns (k: nat)
    requires i < n <= |steps| && steps[i].next.Some?
    ensures k < |NextEntries(steps, n)| && NextEntries(steps, n)[k] == steps[i].next.value
  {
    if i < n - 1 {
      k := NextIsListed(steps, n - 1, i);
    } else {
      k := |NextEntries(steps, n - 1)|;
    }
  }

  /** Whatever became of a step, its entry is still about the same command and order. */
  lemma EntryKeepsIdentity(steps: seq<Step>, failed: map<nat, Failure>, i: nat)
    requires Coherent(steps) && i < |steps| && EntryAfter(steps[i], FailureOf(failed, i)).Some?
    ensures Subject(steps[i]).Some?
    ensures SameIdentity(EntryAfter(steps[i], FailureOf(failed, i)).value, Subject(steps[i]).value)
  {
    hide HeldEntries, ValidEntry;
  }

  lemma {:induction false} EntriesAfterAreDistinct(steps: seq<Step>, failed: map<nat, Failure>, n: nat)
    requires Coherent(steps) && n <= |steps|
    ensures DistinctCommandIds(EntriesAfter(steps, failed, n))
  {
    hide EntryAfter;
    if n > 0 && EntryAfter(steps[n - 1], FailureOf(failed, n - 1)).Some? {
      var earlier := EntriesAfter(steps, failed, n - 1);
      EntriesAfterAreDistinct(steps, failed, n - 1);
      EntryKeepsIdentity(steps, failed, n - 1);
      forall k | 0 <= k < |earlier|
        ensures earlier[k].commandId != EntryAfter(steps[n - 1], FailureOf(failed, n - 1)).value.commandId
      {
        var i := EntriesComeFromSteps(steps, failed, n - 1, k);
        EntryKeepsIdentity(steps, failed, i);
      }
    } else if n > 0 {
      EntriesAfterAreDistinct(steps, failed, n - 1);
    }
  }

  /** The Broker command an own entry tracks. */
  lemma {:induction false} OwnEntryTracks(ctx: Context, commands: seq<Command>, k: nat) returns (j: nat)
    requires k < |OwnEntries(ctx, commands)|
    ensures j < |commands| && Tracks(OwnEntries(ctx, commands)[k], commands[j])
  {
    hide Provisional;
    var earlier, last := commands[..|commands| - 1], commands[|commands| - 1];
    if k < |OwnEntries(ctx, earlier)| {
      j := OwnEntryTracks(ctx, earlier, k);
    } else {
      j := |commands| - 1;
    }
  }

  predicate Tracks(entry: RunnerEntry, command: Command) {
    && entry.commandId == command.Id()
    && (entry.kind.PlaceKind? <==> command.Place?)
    && (command.Place? ==> entry.clientId == Some(command.order.clientId))
  }

  lemma {:induction false} OwnEntriesAreDistinct(ctx: Context, commands: seq<Command>)
    requires DistinctIds(commands) && DistinctClients(commands)
    ensures DistinctCommandIds(OwnEntries(ctx, commands)) && DistinctPlaceClients(OwnEntries(ctx, commands))
  {
    hide Provisional, EntryFor;
    if commands != [] {
      var earlier, n := commands[..|commands| - 1], |commands| - 1;
      OwnEntriesAreDistinct(ctx, earlier);
      var own := OwnEntries(ctx, commands);
      forall k | 0 <= k < |OwnEntries(ctx, earlier)| && k < |own| - 1 && commands[n].IsBroker()
        ensures own[k].commandId != own[|own| - 1].commandId && !SameClient(own[k], own[|own| - 1])
      {
        var j := OwnEntryTracks(ctx, earlier, k);
        LastOwnEntryTracks(ctx, commands);
        assert earlier[j] == commands[j];
      }
      if !commands[n].IsBroker() {
        assert own == OwnEntries(ctx, earlier);
      }
    }
  }

  lemma LastOwnEntryTracks(ctx: Context, commands: seq<Command>)
    requires commands != [] && commands[|commands| - 1].IsBroker()
    ensures var own := OwnEntries(ctx, commands);
            own != [] && Tracks(own[|own| - 1], commands[|commands| - 1])
  {
    hide Provisional;
  }

  /** Every Broker command has an own entry. */
  lemma {:induction false} BrokerCommandsAreTracked(ctx: Context, commands: seq<Command>, j: nat) returns (k: nat)
    requires j < |commands| && commands[j].IsBroker()
    ensures k < |OwnEntries(ctx, commands)| && Tracks(OwnEntries(ctx, commands)[k], commands[j])
  {
    hide Provisional;
    if j < |commands| - 1 {
      k := BrokerCommandsAreTracked(ctx, commands[..|commands| - 1], j);
    } else {
      LastOwnEntryTracks(ctx, commands);
      k := |OwnEntries(ctx, commands)| - 1;
    }
  }

  // ---------------------------------------------------------------------------------------
  // Validity
  // ---------------------------------------------------------------------------------------

  /** What checkpoint validation demands of the runner section: bounds, counts and unique ids. */
  ghost predicate ValidSection(entries: seq<RunnerEntry>) {
    && |entries| <= MAX_RUNNER_SECTION_ENTRIES && Tombstones(entries) <= MAX_TOMBSTONES
    && (forall i :: 0 <= i < |entries| ==> ValidEntry(entries[i]))
    && DistinctCommandIds(entries) && DistinctPlaceClients(entries)
  }

  /** What a valid entry is, kind by kind: a place carries what it placed and no final status, a cancel no
      status, a cancel-all nothing else; no more filled than requested, fewer failures and deferrals than
      abandon an update, and tombstone counts only on a tombstone. */
  lemma EntriesAreChecked(entry: RunnerEntry)
    ensures ValidEntry(entry) <==>
      && ValidIdentifier(entry.commandId) && entry.filled <= entry.requested < 0x8000_0000_0000_0000
      && (entry.clientId.Some? ==> ValidIdentifier(entry.clientId.value))
      && (entry.orderId.Some? ==> ValidIdentifier(entry.orderId.value))
      && (entry.marketId.Some? ==> ValidIdentifier(entry.marketId.value))
      && entry.deliveryFailures <= 2 && entry.deliveryDeferrals <= 7 && entry.absentViews <= 15
      && (!entry.vanished ==> entry.vanishedRevision == 0 && entry.absentViews == 0)
      && (entry.kind.PlaceKind? ==>
            && entry.clientId.Some? && entry.marketId.Some? && entry.action.Some? && entry.side.Some?
            && entry.requested > 0
            && entry.lastStatus !in {Some(SeenFilled), Some(SeenCancelled), Some(SeenExpired)}
            && (entry.lastStatus.Some? ==> !entry.lastStatus.value.SeenRefused?))
      && (!entry.kind.PlaceKind? ==> entry.lastStatus.None?)
      && (entry.kind.CancelAllKind? ==>
            && entry.clientId.None? && entry.orderId.None? && entry.marketId.None? && entry.action.None?
            && entry.side.None? && entry.requested == 0)
  {
    hide ValidIdentifier;
  }

  method UniqueCommandIds(entries: seq<RunnerEntry>) returns (ok: bool)
    ensures ok <==> DistinctCommandIds(entries)
  {
    var seen: set<string> := {};
    for i := 0 to |entries|
      invariant seen == set j | 0 <= j < i :: entries[j].commandId
      invariant forall j, k :: 0 <= j < k < i ==> entries[j].commandId != entries[k].commandId
    {
      if entries[i].commandId in seen {
        return false;
      }
      seen := seen + {entries[i].commandId};
    }
    return true;
  }

  method UniquePlaceClients(entries: seq<RunnerEntry>) returns (ok: bool)
    ensures ok <==> DistinctPlaceClients(entries)
  {
    var seen: set<string> := {};
    for i := 0 to |entries|
      invariant seen == set j | 0 <= j < i && entries[j].kind.PlaceKind? && entries[j].clientId.Some? ::
          entries[j].clientId.value
      invariant forall j, k :: 0 <= j < k < i ==> !SameClient(entries[j], entries[k])
    {
      if entries[i].kind.PlaceKind? && entries[i].clientId.Some? {
        if entries[i].clientId.value in seen {
          return false;
        }
        seen := seen + {entries[i].clientId.value};
      }
    }
    return true;
  }

  /** Checkpoint validation of the runner section. */
  method ValidateSection(entries: seq<RunnerEntry>) returns (ok: bool)
    ensures ok <==> ValidSection(entries)
  {
    hide LiveOnly, DistinctCommandIds, DistinctPlaceClients;
    if |entries| > MAX_RUNNER_SECTION_ENTRIES || Tombstones(entries) > MAX_TOMBSTONES {
      return false;
    }
    for i := 0 to |entries|
      invariant forall j :: 0 <= j < i ==> ValidEntry(entries[j])
    {
      if !ValidEntry(entries[i]) {
        return false;
      }
    }
    ok := UniqueCommandIds(entries);
    if ok {
      ok := UniquePlaceClients(entries);
    }
  }

  /** Whether the entry of step `i` comes back because its update failed, though the comparison had
      dropped it, and place `j` of the decision uses its client order id. */
  predicate Reuses(steps: seq<Step>, failed: map<nat, Failure>, commands: seq<Command>, i: nat, j: nat) {
    && i < |steps| && i in failed && steps[i].next.None?
    && steps[i].previous.Some? && steps[i].previous.value.kind.PlaceKind? && !Abandoned(steps[i], failed[i])
    && j < |commands| && commands[j].Place?
    && steps[i].previous.value.clientId == Some(commands[j].order.clientId)
  }

  ghost predicate ReusesClient(steps: seq<Step>, failed: map<nat, Failure>, commands: seq<Command>) {
    exists i, j :: Reuses(steps, failed, commands, i, j)
  }

  /** An entry the comparison kept blocks its client order id. */
  lemma {:induction false} KeptClientIsNotReused(ctx: Context, steps: seq<Step>, commands: seq<Command>, i: nat, j: nat)
    requires DerivedFor(ctx, steps) && Reachable(ctx, commands)
    requires i < |steps| && steps[i].next.Some? && j < |commands| && commands[j].Place?
    ensures steps[i].next.value.clientId != Some(commands[j].order.clientId)
  {
    hide Reachable, NextEntries, OwnEntries, Provisional, ReinstatableLive, OpenOrders;
    ReachableFacts(ctx, commands, j);
    var k := NextIsListed(steps, |steps|, i);
    assert Runner(ctx, commands[..j])[k] == steps[i].next.value;
  }

  lemma {:induction false} OwnEntryConflictIsReuse(
      ctx: Context, steps: seq<Step>, failed: map<nat, Failure>, commands: seq<Command>, i: nat, j: nat)
    requires Coherent(steps) && DerivedFor(ctx, steps) && Reachable(ctx, commands)
    requires i < |steps| && EntryAfter(steps[i], FailureOf(failed, i)).Some? && j < |commands|
    ensures var entry := EntryAfter(steps[i], FailureOf(failed, i)).value;
            entry.kind.PlaceKind? && commands[j].Place? && entry.clientId == Some(commands[j].order.clientId) ==>
              Reuses(steps, failed, commands, i, j)
  {
    hide Reachable, NextEntries, ReinstatableLive, HeldEntries, ValidEntry;
    if steps[i].next.Some? && commands[j].Place? {
      KeptClientIsNotReused(ctx, steps, commands, i, j);
    }
  }

  /** New ids are new; client order ids of own places clash with the others' only by reuse. */
  lemma {:induction false} OwnEntriesAreNew(
      ctx: Context, steps: seq<Step>, failed: map<nat, Failure>, commands: seq<Command>, a: nat, b: nat)
    requires ctx.Valid() && Coherent(steps) && DerivedFor(ctx, steps) && Reachable(ctx, commands)
    requires a < |EntriesAfter(steps, failed, |steps|)| && b < |OwnEntries(ctx, commands)|
    ensures var after, own := EntriesAfter(steps, failed, |steps|)[a], OwnEntries(ctx, commands)[b];
            after.commandId != own.commandId && (SameClient(after, own) ==> ReusesClient(steps, failed, commands))
  {
    hide Reachable, EntriesAfter, OwnEntries, EntryAfter, Reuses, NextEntries, ReinstatableLive, HeldEntries,
      ValidEntry, Abandoned;
    var i := EntriesComeFromSteps(steps, failed, |steps|, a);
    var j := OwnEntryTracks(ctx, commands, b);
    EntryKeepsIdentity(steps, failed, i);
    AdmittedAgree(ctx, commands);
    OwnEntryConflictIsReuse(ctx, steps, failed, commands, i, j);
  }

  lemma {:induction false} AllIdsAreDistinct(
      ctx: Context, steps: seq<Step>, failed: map<nat, Failure>, commands: seq<Command>)
    requires ctx.Valid() && Coherent(steps) && DerivedFor(ctx, steps) && Reachable(ctx, commands)
    ensures DistinctCommandIds(EntriesAfter(steps, failed, |steps|) + OwnEntries(ctx, commands))
  {
    hide Reachable, EntriesAfter, OwnEntries, Coherent, DerivedFor, ReusesClient, SameClient, Context.Valid;
    var after, own := EntriesAfter(steps, failed, |steps|), OwnEntries(ctx, commands);
    EntriesAfterAreDistinct(steps, failed, |steps|);
    AdmittedAgree(ctx, commands);
    ReachableClientsAreDistinct(ctx, commands);
    OwnEntriesAreDistinct(ctx, commands);
    forall a, b | 0 <= a < |after| && 0 <= b < |own|
      ensures after[a].commandId != own[b].commandId
    {
      OwnEntriesAreNew(ctx, steps, failed, commands, a, b);
    }
  }

  // ---------------------------------------------------------------------------------------
  // Own entries are valid
  // ---------------------------------------------------------------------------------------

  predicate ValidProvisional(order: ProvisionalOrder) {
    ValidIdentifier(order.clientId) && ValidIdentifier(order.ticker) && order.quantity <= I64_MAX
  }

  lemma {:induction false} ProvisionalIsValid(ctx: Context, commands: seq<Command>)
    requires Reachable(ctx, commands)
    ensures forall i :: 0 <= i < |Provisional(ctx, commands)| ==> ValidProvisional(Provisional(ctx, commands)[i])
  {
    hide Reachable, ValidIdentifier;
    if commands != [] {
      var n := |commands| - 1;
      PrefixIsReachable(ctx, commands, n);
      ProvisionalIsValid(ctx, commands[..n]);
      ReachableFacts(ctx, commands, n);
    }
  }

  lemma EntryIsValid(ctx: Context, earlier: seq<Command>, command: Command)
    requires ctx.Valid() && command.IsBroker() && CommandFacts(ctx, earlier, command)
    requires forall i :: 0 <= i < |Provisional(ctx, earlier)| ==> ValidProvisional(Provisional(ctx, earlier)[i])
    ensures ValidEntry(EntryFor(ctx, Provisional(ctx, earlier), command))
  {
    hide Provisional, ValidIdentifier, ClientInUse, RowsAfter, CommitmentOf, OpenOrders, AgreesWithContext;
    assert ValidIdentifier(command.Id());
    if command.Cancel? && command.target.ContextOrder? {
      assert ValidOrder(FindOrder(ctx.orders, command.target.orderId).value);
    }
  }

  /** A decision's own entries are valid: their fields are those of admitted places and of context orders. */
  lemma {:induction false} OwnEntriesAreValid(ctx: Context, commands: seq<Command>)
    requires ctx.Valid() && Reachable(ctx, commands)
    ensures forall k :: 0 <= k < |OwnEntries(ctx, commands)| ==> ValidEntry(OwnEntries(ctx, commands)[k])
  {
    hide Reachable, Provisional, EntryFor, ValidEntry, Context.Valid, CommandFacts;
    if commands != [] {
      var n := |commands| - 1;
      PrefixIsReachable(ctx, commands, n);
      OwnEntriesAreValid(ctx, commands[..n]);
      if commands[n].IsBroker() {
        ReachableFacts(ctx, commands, n);
        ProvisionalIsValid(ctx, commands[..n]);
        EntryIsValid(ctx, commands[..n], commands[n]);
      }
    }
  }

  // ---------------------------------------------------------------------------------------
  // Adopted orders and overfilled ones
  // ---------------------------------------------------------------------------------------

  /** What eviction keeps of the steps' entries. */
  ghost function KeptAfter(steps: seq<Step>, failed: map<nat, Failure>): seq<RunnerEntry> {
    Kept(EntriesAfter(steps, failed, |steps|), PendingIds(steps, failed, |steps|))
  }

  /** Whether the order adopted at `j` has the client order id of an entry that stays, the one of step `i`. */
  ghost predicate AdoptsBeside(steps: seq<Step>, failed: map<nat, Failure>, i: nat, j: nat) {
    && i < |steps| && j < |steps| && steps[i].previous.Some? && steps[j].Adopted()
    && var left := EntryAfter(steps[i], FailureOf(failed, i));
       left.Some? && SameClient(left.value, steps[j].next.value) && left.value in KeptAfter(steps, failed)
  }

  ghost predicate AdoptsTracked(steps: seq<Step>, failed: map<nat, Failure>) {
    exists i, j :: AdoptsBeside(steps, failed, i, j)
  }

  /** Whether step `i` leaves an entry filled beyond its request. */
  predicate LeavesOverfilled(steps: seq<Step>, failed: map<nat, Failure>, i: nat) {
    i < |steps| && EntryAfter(steps[i], FailureOf(failed, i)).Some?
        && Overfilled(EntryAfter(steps[i], FailureOf(failed, i)).value)
  }

  ghost predicate Overfills(steps: seq<Step>, failed: map<nat, Failure>) {
    exists i :: LeavesOverfilled(steps, failed, i)
  }

  lemma {:induction false} NoneAreTombstones(entries: seq<RunnerEntry>)
    requires LiveOnly(entries) == entries
    ensures Tombstones(entries) == 0 && forall i :: 0 <= i < |entries| ==> !entries[i].vanished
  {
    hide LiveOnly;
    forall i | 0 <= i < |entries|
      ensures !entries[i].vanished
    {
      LiveOnlyHas(entries, entries[i]);
    }
  }

  /** The section left: what eviction keeps of the steps' entries, then the decision's own. */
  lemma {:induction false} SectionIsKeptAndOwn(
      ctx: Context, steps: seq<Step>, failed: map<nat, Failure>, commands: seq<Command>, entries: seq<RunnerEntry>)
    requires Finalized(steps, failed, OwnEntries(ctx, commands), entries)
    ensures entries == KeptAfter(steps, failed) + OwnEntries(ctx, commands)
  {
    hide LiveOnly, EntriesAfter, OwnEntries, PendingIds, IsRest, KeptBelow, DistinctCommandIds, DistinctPlaceClients,
      Tombstones;
    var own := OwnEntries(ctx, commands);
    OwnEntriesAreLive(ctx, commands);
    NoneAreTombstones(own);
    var after := EntriesAfter(steps, failed, |steps|);
    KeptWithLive(after, own, PendingIds(steps, failed, |steps|), |after + own|);
    assert own[..|own|] == own;
    if own == [] {
      assert after + own == after;
    }
  }

  lemma {:induction false} KeptComesFromSteps(
      steps: seq<Step>, failed: map<nat, Failure>, k: nat) returns (a: nat, i: nat)
    requires k < |KeptAfter(steps, failed)|
    ensures a < |EntriesAfter(steps, failed, |steps|)|
        && EntriesAfter(steps, failed, |steps|)[a] == KeptAfter(steps, failed)[k]
    ensures i < |steps| && EntryAfter(steps[i], FailureOf(failed, i)) == Some(KeptAfter(steps, failed)[k])
  {
    hide EntryAfter, EntriesAfter, PendingIds, Survives;
    var after := EntriesAfter(steps, failed, |steps|);
    KeptHas(after, PendingIds(steps, failed, |steps|), |after|, KeptAfter(steps, failed)[k]);
    a :| 0 <= a < |after| && after[a] == KeptAfter(steps, failed)[k];
    i := EntriesComeFromSteps(steps, failed, |steps|, a);
  }

  /** Two entries kept under one client order id: one is adopted, the other is not. */
  lemma {:induction false} KeptClashIsAdoption(steps: seq<Step>, failed: map<nat, Failure>, k: nat, l: nat)
    requires Coherent(steps) && FailedHaveUpdates(steps, failed)
    requires k < |KeptAfter(steps, failed)| && l < |KeptAfter(steps, failed)|
    requires KeptAfter(steps, failed)[k].commandId != KeptAfter(steps, failed)[l].commandId
    requires SameClient(KeptAfter(steps, failed)[k], KeptAfter(steps, failed)[l])
    ensures AdoptsTracked(steps, failed)
  {
    hide EntryAfter, KeptAfter, HeldEntries, VanishedBefore, ValidEntry, SoundEntry, AdoptsBeside;
    var a, i := KeptComesFromSteps(steps, failed, k);
    var b, j := KeptComesFromSteps(steps, failed, l);
    EntryKeepsIdentity(steps, failed, i);
    EntryKeepsIdentity(steps, failed, j);
    if steps[i].previous.Some? {
      AdoptedIsLeft(steps, failed, j);
      AdoptionIsBeside(steps, failed, i, j);
    } else {
      AdoptedIsLeft(steps, failed, i);
      AdoptionIsBeside(steps, failed, j, i);
    }
  }

  lemma AdoptionIsBeside(steps: seq<Step>, failed: map<nat, Failure>, i: nat, j: nat)
    requires i < |steps| && j < |steps| && steps[i].previous.Some? && steps[j].Adopted()
    requires EntryAfter(steps[i], FailureOf(failed, i)).Some?
    requires EntryAfter(steps[i], FailureOf(failed, i)).value in KeptAfter(steps, failed)
    requires SameClient(EntryAfter(steps[i], FailureOf(failed, i)).value, steps[j].next.value)
    ensures AdoptsTracked(steps, failed)
  {
    hide EntryAfter, KeptAfter;
    assert AdoptsBeside(steps, failed, i, j);
  }

  /** An adopted order has no update to fail, so its entry is left as it is. */
  lemma AdoptedIsLeft(steps: seq<Step>, failed: map<nat, Failure>, j: nat)
    requires ValidSteps(steps) && FailedHaveUpdates(steps, failed) && j < |steps| && steps[j].previous.None?
    ensures EntryAfter(steps[j], FailureOf(failed, j)) == steps[j].next
  {
    assert steps[j].Valid();
  }

  // ---------------------------------------------------------------------------------------
  // Eviction spares every entry whose update is due
  // ---------------------------------------------------------------------------------------

  lemma {:induction false} PendingIsBounded(steps: seq<Step>, failed: map<nat, Failure>, n: nat)
    requires n <= |steps|
    ensures |PendingIds(steps, failed, n)| <= VanishedBefore(steps, n)
  {
    hide Abandoned;
    if n > 0 {
      PendingIsBounded(steps, failed, n - 1);
    }
  }

  function TombstoneIds(entries: seq<RunnerEntry>): set<string> {
    set i | 0 <= i < |entries| && entries[i].vanished :: entries[i].commandId
  }

  lemma TombstonesOneMore(entries: seq<RunnerEntry>)
    requires entries != []
    ensures Tombstones(entries)
         == Tombstones(entries[..|entries| - 1]) + if entries[|entries| - 1].vanished then 1 else 0
  {
  }

  lemma TombstoneIdsOneMore(entries: seq<RunnerEntry>)
    requires entries != []
    ensures TombstoneIds(entries)
         == TombstoneIds(entries[..|entries| - 1])
              + if entries[|entries| - 1].vanished then {entries[|entries| - 1].commandId} else {}
  {
    var earlier := entries[..|entries| - 1];
    assert forall i :: 0 <= i < |earlier| ==> earlier[i] == entries[i];
  }

  lemma {:induction false} TombstonesHaveIds(entries: seq<RunnerEntry>)
    requires DistinctCommandIds(entries)
    ensures |TombstoneIds(entries)| == Tombstones(entries)
  {
    hide Tombstones, LiveOnly;
    if entries == [] {
      NoTombstones();
    } else {
      TombstonesHaveIds(entries[..|entries| - 1]);
      TombstonesOneMore(entries);
      TombstoneIdsOneMore(entries);
      assert entries[|entries| - 1].commandId !in TombstoneIds(entries[..|entries| - 1]);
    }
  }

  lemma NoTombstones()
    ensures Tombstones([]) == 0 && TombstoneIds([]) == {}
  {
  }

  /** With at most as many pending tombstones as the section holds, none of them is evicted. */
  lemma {:induction false} PendingSurvives(
      all: seq<RunnerEntry>, evicted: seq<RunnerEntry>, entries: seq<RunnerEntry>, pending: set<string>,
      entry: RunnerEntry)
    requires IsRest(evicted, entries, all, pending) && DistinctCommandIds(all) && DistinctCommandIds(entries)
    requires |pending| <= MAX_TOMBSTONES && Tombstones(entries) == MAX_TOMBSTONES
    requires entry in all && entry.vanished && entry.commandId in pending
    ensures entry in entries
  {
    hide Tombstones;
    if entry !in entries {
      assert entry in multiset(all) && entry in multiset(evicted);
      var e :| 0 <= e < |evicted| && evicted[e] == entry;
      forall i | 0 <= i < |entries| && entries[i].vanished
        ensures entries[i].commandId in pending - {entry.commandId}
      {
        assert !GoesFirst(entries[i], evicted[e], pending);
        assert entries[i] in multiset(entries) && entries[i] in multiset(all);
      }
      TombstonesHaveIds(entries);
      SubsetIsNoLarger(TombstoneIds(entries), pending - {entry.commandId});
    }
  }

  lemma {:induction false} SubsetIsNoLarger(a: set<string>, b: set<string>)
    requires a <= b
    ensures |a| <= |b|
  {
    assert b == a + (b - a);
  }

  lemma {:induction false} LiveOnlyHas(entries: seq<RunnerEntry>, entry: RunnerEntry)
    ensures entry in LiveOnly(entries) <==> entry in entries && !entry.vanished
  {
    if entries != [] {
      LiveOnlyHas(entries[..|entries| - 1], entry);
      assert entries == entries[..|entries| - 1] + [entries[|entries| - 1]];
    }
  }

  /** A live entry stays in the section. */
  lemma LiveSurvives(
      steps: seq<Step>, failed: map<nat, Failure>, issued: seq<RunnerEntry>, entries: seq<RunnerEntry>,
      entry: RunnerEntry)
    requires Finalized(steps, failed, issued, entries)
    requires entry in EntriesAfter(steps, failed, |steps|) + issued && !entry.vanished
    ensures entry in entries
  {
    hide LiveOnly, EntriesAfter, IsRest, DistinctCommandIds, DistinctPlaceClients;
    var after := EntriesAfter(steps, failed, |steps|);
    LiveOfSum(after, issued);
    LiveOnlyHas(after + issued, entry);
    LiveOnlyHas(entries, entry);
  }

  lemma {:induction false} FailedTombstoneIsPending(steps: seq<Step>, failed: map<nat, Failure>, n: nat, i: nat)
    requires i < n <= |steps| && i in failed && steps[i].previous.Some? && steps[i].previous.value.vanished
    requires !Abandoned(steps[i], failed[i])
    ensures steps[i].previous.value.commandId in PendingIds(steps, failed, n)
  {
    hide Abandoned;
    if i < n - 1 {
      FailedTombstoneIsPending(steps, failed, n - 1, i);
    }
  }

  /** The entry of a failed update stays in the section: live ones always do, and tombstones of orders
      that are back are the last to go. */
  lemma {:induction false} ReinstatedSurvives(
      steps: seq<Step>, failed: map<nat, Failure>, issued: seq<RunnerEntry>, entries: seq<RunnerEntry>, i: nat)
    requires Coherent(steps) && Finalized(steps, failed, issued, entries)
    requires DistinctCommandIds(EntriesAfter(steps, failed, |steps|) + issued)
    requires i < |steps| && i in failed && steps[i].previous.Some? && !Abandoned(steps[i], failed[i])
    ensures EntryAfter(steps[i], FailureOf(failed, i)).value in entries
  {
    hide LiveOnly, EntriesAfter, PendingIds, DistinctCommandIds, DistinctPlaceClients, Abandoned, VanishedBefore,
      ValidEntry, HeldEntries, EvictedInTurn, Tombstones;
    var all := EntriesAfter(steps, failed, |steps|) + issued;
    var entry := EntryAfter(steps[i], FailureOf(failed, i)).value;
    var k := StepsLeaveEntries(steps, failed, |steps|, i);
    assert all[k] == entry;
    if !entry.vanished {
      LiveSurvives(steps, failed, issued, entries, entry);
    } else if !NothingToEvict(steps, failed, issued) {
      PendingIsBounded(steps, failed, |steps|);
      FailedTombstoneIsPending(steps, failed, |steps|, i);
      var evicted :| IsRest(evicted, entries, all, PendingIds(steps, failed, |steps|));
      PendingSurvives(all, evicted, entries, PendingIds(steps, failed, |steps|), entry);
    }
  }

  /** A reuse leaves two entries of one client order id, and neither is ever evicted. */
  lemma {:induction false} ReuseIsAConflict(
      ctx: Context, steps: seq<Step>, failed: map<nat, Failure>, commands: seq<Command>, entries: seq<RunnerEntry>)
    requires Coherent(steps) && Finalized(steps, failed, OwnEntries(ctx, commands), entries)
    requires DistinctCommandIds(EntriesAfter(steps, failed, |steps|) + OwnEntries(ctx, commands))
    requires ReusesClient(steps, failed, commands)
    ensures !DistinctPlaceClients(entries)
  {
    hide EntriesAfter, OwnEntries, Finalized, Coherent, LiveOnly, Abandoned;
    var i: nat, j: nat :| Reuses(steps, failed, commands, i, j);
    var after, own := EntriesAfter(steps, failed, |steps|), OwnEntries(ctx, commands);
    var a := StepsLeaveEntries(steps, failed, |steps|, i);
    var b := BrokerCommandsAreTracked(ctx, commands, j);
    assert (after + own)[a] == after[a] && (after + own)[|after| + b] == own[b];
    ReinstatedSurvives(steps, failed, own, entries, i);
    OwnEntriesAreLive(ctx, commands);
    LiveOnlyHas(own, own[b]);
    LiveSurvives(steps, failed, own, entries, own[b]);
    var p :| 0 <= p < |entries| && entries[p] == after[a];
    var q :| 0 <= q < |entries| && entries[q] == own[b];
    assert SameClient(entries[p], entries[q]) && SameClient(entries[q], entries[p]);
  }

  /** Adopting an order under the client order id of an entry that stays leaves two of them. */
  lemma {:induction false} AdoptionIsAConflict(
      steps: seq<Step>, failed: map<nat, Failure>, own: seq<RunnerEntry>, entries: seq<RunnerEntry>)
    requires Coherent(steps) && FailedHaveUpdates(steps, failed) && Finalized(steps, failed, own, entries)
    requires entries == KeptAfter(steps, failed) + own && AdoptsTracked(steps, failed)
    ensures !DistinctPlaceClients(entries)
  {
    hide EntriesAfter, Finalized, KeptAfter, LiveOnly, HeldEntries, VanishedBefore, ValidEntry, SoundEntry, EntryAfter;
    var i: nat, j: nat :| AdoptsBeside(steps, failed, i, j);
    var left, adopted := EntryAfter(steps[i], FailureOf(failed, i)).value, steps[j].next.value;
    EntryKeepsIdentity(steps, failed, i);
    AdoptedIsLeft(steps, failed, j);
    var b := StepsLeaveEntries(steps, failed, |steps|, j);
    assert (EntriesAfter(steps, failed, |steps|) + own)[b] == adopted;
    assert steps[j].Valid();
    LiveSurvives(steps, failed, own, entries, adopted);
    var p :| 0 <= p < |KeptAfter(steps, failed)| && KeptAfter(steps, failed)[p] == left;
    assert entries[p] == left;
    var q :| 0 <= q < |entries| && entries[q] == adopted;
    assert left.commandId != adopted.commandId;
    assert SameClient(entries[p], entries[q]) && SameClient(entries[q], entries[p]);
  }

  /** Without the two causes no two entries left share a client order id. */
  lemma {:induction false} LeftClientsAreDistinct(
      ctx: Context, steps: seq<Step>, failed: map<nat, Failure>, commands: seq<Command>, entries: seq<RunnerEntry>)
    requires ctx.Valid() && Coherent(steps) && DerivedFor(ctx, steps) && FailedHaveUpdates(steps, failed)
    requires Reachable(ctx, commands) && DistinctCommandIds(entries)
    requires entries == KeptAfter(steps, failed) + OwnEntries(ctx, commands)
    requires !ReusesClient(steps, failed, commands) && !AdoptsTracked(steps, failed)
    ensures DistinctPlaceClients(entries)
  {
    hide Reachable, EntriesAfter, OwnEntries, Coherent, DerivedFor, ReusesClient, AdoptsTracked, KeptAfter,
      Context.Valid;
    var kept, own := KeptAfter(steps, failed), OwnEntries(ctx, commands);
    AdmittedAgree(ctx, commands);
    ReachableClientsAreDistinct(ctx, commands);
    OwnEntriesAreDistinct(ctx, commands);
    forall k, l | 0 <= k < l < |entries|
      ensures !SameClient(entries[k], entries[l])
    {
      if l < |kept| {
        assert entries[k] == kept[k] && entries[l] == kept[l];
        if SameClient(kept[k], kept[l]) {
          KeptClashIsAdoption(steps, failed, k, l);
        }
      } else if k < |kept| {
        var a, i := KeptComesFromSteps(steps, failed, k);
        OwnEntriesAreNew(ctx, steps, failed, commands, a, l - |kept|);
      } else {
        assert !SameClient(own[k - |kept|], own[l - |kept|]);
      }
    }
  }

  /** Every entry left is valid exactly when no step leaves one filled beyond its request. */
  lemma {:induction false} LeftEntriesAreValid(
      ctx: Context, steps: seq<Step>, failed: map<nat, Failure>, commands: seq<Command>, entries: seq<RunnerEntry>)
    requires ctx.Valid() && Coherent(steps) && Reachable(ctx, commands)
    requires Finalized(steps, failed, OwnEntries(ctx, commands), entries)
    requires entries == KeptAfter(steps, failed) + OwnEntries(ctx, commands)
    ensures (forall i :: 0 <= i < |entries| ==> ValidEntry(entries[i])) <==> !Overfills(steps, failed)
  {
    hide Reachable, EntriesAfter, OwnEntries, KeptAfter, Finalized, Context.Valid, SoundEntry, EntryAfter, Coherent;
    var kept, own := KeptAfter(steps, failed), OwnEntries(ctx, commands);
    StepsAreValid(steps);
    EntriesAfterAreSound(steps, failed, |steps|);
    OwnEntriesAreValid(ctx, commands);
    if Overfills(steps, failed) {
      var i: nat :| LeavesOverfilled(steps, failed, i);
      var a := StepsLeaveEntries(steps, failed, |steps|, i);
      var after := EntriesAfter(steps, failed, |steps|);
      assert (after + own)[a] == after[a];
      LiveSurvives(steps, failed, own, entries, after[a]);
    } else {
      forall k | 0 <= k < |kept|
        ensures ValidEntry(kept[k])
      {
        var a, i := KeptComesFromSteps(steps, failed, k);
        assert !LeavesOverfilled(steps, failed, i);
      }
    }
  }

  lemma StepsAreValid(steps: seq<Step>)
    requires Coherent(steps)
    ensures ValidSteps(steps)
  {
  }

  /** The section a decision leaves validates but for exactly three reasons: one of its places reused the
      client order id of an order whose update failed after the comparison had dropped it, an order was
      adopted under the client order id of an entry that stays, or an entry stays filled beyond its
      request. */
  lemma {:induction false} SectionValidates(
      ctx: Context, steps: seq<Step>, failed: map<nat, Failure>, commands: seq<Command>, entries: seq<RunnerEntry>)
    requires ctx.Valid() && Coherent(steps) && DerivedFor(ctx, steps) && FailedHaveUpdates(steps, failed)
    requires Reachable(ctx, commands)
    requires Finalized(steps, failed, OwnEntries(ctx, commands), entries)
    ensures ValidSection(entries)
       <==> !ReusesClient(steps, failed, commands) && !AdoptsTracked(steps, failed) && !Overfills(steps, failed)
  {
    hide Reachable, EntriesAfter, OwnEntries, DerivedFor, ReusesClient, AdoptsTracked, Overfills, KeptAfter,
      Context.Valid, ValidEntry, LiveOnly, DistinctCommandIds, DistinctPlaceClients, EvictedInTurn, PendingIds,
      Coherent, IsRest;
    SectionStaysWithinBounds(ctx, steps, failed, commands, entries);
    AllIdsAreDistinct(ctx, steps, failed, commands);
    SectionIsKeptAndOwn(ctx, steps, failed, commands, entries);
    LeftEntriesAreValid(ctx, steps, failed, commands, entries);
    if ReusesClient(steps, failed, commands) {
      ReuseIsAConflict(ctx, steps, failed, commands, entries);
    } else if AdoptsTracked(steps, failed) {
      AdoptionIsAConflict(steps, failed, OwnEntries(ctx, commands), entries);
    } else {
      LeftClientsAreDistinct(ctx, steps, failed, commands, entries);
    }
  }

  // ---------------------------------------------------------------------------------------
  // Tracking and acknowledgement
  // ---------------------------------------------------------------------------------------

  function TrackedIds(entries: seq<RunnerEntry>): set<string> {
    set i | 0 <= i < |entries| :: entries[i].commandId
  }

  function Untracked(ids: seq<string>, tracked: set<string>): seq<string> {
    if ids == [] then []
    else
      var last := ids[|ids| - 1];
      Untracked(ids[..|ids| - 1], tracked) + if last in tracked then [] else [last]
  }

  /** The ids a result acknowledges when it leaves `entries`: receipts and final orders no entry waits
      for, and the external request answered. */
  function Acknowledgements(ctx: Context, entries: seq<RunnerEntry>): seq<string> {
    Untracked(ctx.receipts, TrackedIds(entries)) + Untracked(FinalOrders(ctx.orders), TrackedIds(entries))
        + ctx.Answered()
  }

  /** What result validation demands of tracking: every Broker command has an entry, and the ids
      acknowledged are valid, unrepeated, known to the context, and have none. */
  ghost predicate ValidTracking(
      ctx: Context, commands: seq<Command>, acknowledged: seq<string>, entries: seq<RunnerEntry>) {
    && (forall i :: 0 <= i < |commands| && commands[i].IsBroker() ==> commands[i].Id() in TrackedIds(entries))
    && ValidAcknowledged(ctx, acknowledged, TrackedIds(entries))
  }

  ghost predicate ValidAcknowledged(ctx: Context, acknowledged: seq<string>, tracked: set<string>) {
    && |acknowledged| <= MAX_ACKNOWLEDGED_COMMANDS
    && Unrepeated(acknowledged)
    && forall i :: 0 <= i < |acknowledged| ==>
         ValidIdentifier(acknowledged[i]) && acknowledged[i] !in tracked && acknowledged[i] in ctx.Acknowledgeable()
  }

  method ValidateTracking(ctx: Context, commands: seq<Command>, acknowledged: seq<string>, entries: seq<RunnerEntry>)
    returns (ok: bool)
    ensures ok <==> ValidTracking(ctx, commands, acknowledged, entries)
  {
    hide ValidIdentifier;
    if |acknowledged| > MAX_ACKNOWLEDGED_COMMANDS {
      return false;
    }
    var tracked := TrackedIds(entries);
    var seen: set<string> := {};
    for i := 0 to |acknowledged|
      invariant seen == set j | 0 <= j < i :: acknowledged[j]
      invariant forall j, k :: 0 <= j < k < i ==> acknowledged[j] != acknowledged[k]
      invariant forall j :: 0 <= j < i ==>
        ValidIdentifier(acknowledged[j]) && acknowledged[j] !in tracked && acknowledged[j] in ctx.Acknowledgeable()
    {
      var id := acknowledged[i];
      if !ValidIdentifier(id) || id in seen || id in tracked || id !in ctx.Acknowledgeable() {
        return false;
      }
      seen := seen + {id};
    }
    for i := 0 to |commands|
      invariant forall j :: 0 <= j < i && commands[j].IsBroker() ==> commands[j].Id() in tracked
    {
      if commands[i].IsBroker() && commands[i].Id() !in tracked {
        return false;
      }
    }
    return true;
  }

  lemma {:induction false} UntrackedHas(ids: seq<string>, tracked: set<string>, id: string)
    ensures id in Untracked(ids, tracked) <==> id in ids && id !in tracked
    ensures |Untracked(ids, tracked)| <= |ids|
  {
    if ids != [] {
      UntrackedHas(ids[..|ids| - 1], tracked, id);
      assert ids == ids[..|ids| - 1] + [ids[|ids| - 1]];
    }
  }

  lemma {:induction false} UntrackedIsUnrepeated(ids: seq<string>, tracked: set<string>)
    requires Unrepeated(ids)
    ensures Unrepeated(Untracked(ids, tracked))
  {
    if ids != [] {
      var earlier := ids[..|ids| - 1];
      UntrackedIsUnrepeated(earlier, tracked);
      UntrackedHas(earlier, tracked, ids[|ids| - 1]);
    }
  }

  lemma AppendedIsUnrepeated(ids: seq<string>, id: string)
    requires Unrepeated(ids)
    ensures Unrepeated(ids + [id]) <==> id !in ids
  {
    var all := ids + [id];
    if id in ids {
      var p :| 0 <= p < |ids| && ids[p] == id;
      assert all[p] == all[|ids|];
    }
  }

  lemma {:induction false} UntrackedOfSum(a: seq<string>, b: seq<string>, tracked: set<string>)
    ensures Untracked(a + b, tracked) == Untracked(a, tracked) + Untracked(b, tracked)
  {
    if b == [] {
      assert a + b == a;
    } else {
      assert (a + b)[..|a + b| - 1] == a + b[..|b| - 1];
      UntrackedOfSum(a, b[..|b| - 1], tracked);
    }
  }

  lemma {:induction false} FinalOrdersAreOrders(orders: seq<BrokerOrder>)
    requires forall i :: 0 <= i < |orders| ==> ValidIdentifier(orders[i].commandId)
    ensures |FinalOrders(orders)| <= |orders|
    ensures forall id :: id in FinalOrders(orders) ==> ValidIdentifier(id)
  {
    hide ValidIdentifier;
    if orders != [] {
      FinalOrdersAreOrders(orders[..|orders| - 1]);
    }
  }

  /** A result acknowledges exactly the receipts and the orders now final that no entry waits for, and the
      external request it answers. */
  lemma {:induction false} AcknowledgedExactly(ctx: Context, entries: seq<RunnerEntry>, id: string)
    ensures id in Acknowledgements(ctx, entries) <==>
      || ctx.answeredRequest == Some(id)
      || ((forall k :: 0 <= k < |entries| ==> entries[k].commandId != id)
            && (id in ctx.receipts
                || exists i :: 0 <= i < |ctx.orders| && ctx.orders[i].commandId == id
                     && (ctx.orders[i].status.FilledStatus? || ctx.orders[i].status.CancelledStatus?
                         || ctx.orders[i].status.ExpiredStatus? || ctx.orders[i].status.RejectedStatus?)))
  {
    var tracked := TrackedIds(entries);
    UntrackedHas(ctx.receipts, tracked, id);
    UntrackedHas(FinalOrders(ctx.orders), tracked, id);
    FinalOrdersAreFinal(ctx.orders, id);
    hide Untracked, FinalOrders;
    assert id in ctx.Answered() <==> ctx.answeredRequest == Some(id);
    assert id in Acknowledgements(ctx, entries) <==>
      || id in Untracked(ctx.receipts, tracked) || id in Untracked(FinalOrders(ctx.orders), tracked)
      || id in ctx.Answered();
    assert id in tracked <==> exists k :: 0 <= k < |entries| && entries[k].commandId == id;
  }

  lemma {:induction false} FinalOrdersAreFinal(orders: seq<BrokerOrder>, id: string)
    ensures id in FinalOrders(orders) <==>
      exists i :: 0 <= i < |orders| && orders[i].commandId == id && orders[i].status.Terminal()
  {
    if orders != [] {
      FinalOrdersAreFinal(orders[..|orders| - 1], id);
      assert orders == orders[..|orders| - 1] + [orders[|orders| - 1]];
    }
  }

  /** Whether the external request answered shares its id with a receipt, a final order or an entry. */
  predicate AnswersBrokerCommand(ctx: Context, tracked: set<string>) {
    && ctx.answeredRequest.Some?
    && var id := ctx.answeredRequest.value;
       id in ctx.receipts + FinalOrders(ctx.orders) || id in tracked
  }

  /** What a result acknowledges is valid, whatever the section tracks, unless the external request
      answered has a Broker command's id. */
  lemma {:induction false} AcknowledgementsValidate(ctx: Context, entries: seq<RunnerEntry>)
    requires ctx.Valid()
    ensures ValidAcknowledged(ctx, Acknowledgements(ctx, entries), TrackedIds(entries))
       <==> !AnswersBrokerCommand(ctx, TrackedIds(entries))
    ensures Acknowledgements(ctx, entries) != [] ==> ctx.Acknowledgeable() != []
  {
    hide ValidIdentifier, TrackedIds, Untracked, FinalOrders;
    var tracked := TrackedIds(entries);
    var known := ctx.receipts + FinalOrders(ctx.orders);
    var untracked := Untracked(known, tracked);
    var ids := Acknowledgements(ctx, entries);
    UntrackedOfSum(ctx.receipts, FinalOrders(ctx.orders), tracked);
    assert ids == untracked + ctx.Answered();
    FinalOrdersAreOrders(ctx.orders);
    UntrackedIsUnrepeated(known, tracked);
    UntrackedHas(known, tracked, "");
    forall id
      ensures id in untracked <==> id in known && id !in tracked
    {
      UntrackedHas(known, tracked, id);
    }
    forall i | 0 <= i < |untracked|
      ensures ValidIdentifier(untracked[i]) && untracked[i] !in tracked && untracked[i] in known
    {
      assert untracked[i] in untracked;
    }
    if ctx.answeredRequest.Some? {
      var id := ctx.answeredRequest.value;
      assert ids == untracked + [id] && ids[|untracked|] == id && ctx.Acknowledgeable() == known + [id];
      AppendedIsUnrepeated(untracked, id);
      assert id in untracked <==> id in known && id !in tracked;
    } else {
      assert ids == untracked && ctx.Acknowledgeable() == known;
    }
  }

  /** A decision's Broker commands all have entries in the section it leaves, and what it acknowledges
      has none. */
  lemma {:induction false} DecisionIsTracked(
      ctx: Context, steps: seq<Step>, failed: map<nat, Failure>, commands: seq<Command>, entries: seq<RunnerEntry>)
    requires ctx.Valid() && Coherent(steps) && DerivedFor(ctx, steps) && Reachable(ctx, commands)
    requires Finalized(steps, failed, OwnEntries(ctx, commands), entries)
    ensures ValidTracking(ctx, commands, Acknowledgements(ctx, entries), entries)
    ensures Acknowledgements(ctx, entries) != [] ==> ctx.Acknowledgeable() != []
  {
    hide Context.Valid, Reachable, OwnEntries, EntriesAfter, Coherent, DerivedFor, Finalized, Acknowledgements,
      ValidAcknowledged, AnswersBrokerCommand, LiveOnly;
    var own, after := OwnEntries(ctx, commands), EntriesAfter(steps, failed, |steps|);
    forall i | 0 <= i < |commands| && commands[i].IsBroker()
      ensures commands[i].Id() in TrackedIds(entries)
    {
      var k := BrokerCommandsAreTracked(ctx, commands, i);
      OwnEntriesAreLive(ctx, commands);
      LiveOnlyHas(own, own[k]);
      assert (after + own)[|after| + k] == own[k];
      LiveSurvives(steps, failed, own, entries, own[k]);
    }
    AcknowledgementsValidate(ctx, entries);
    AnswerIsUntracked(ctx, steps, failed, commands, entries);
  }

  lemma {:induction false} AnswerIsUntracked(
      ctx: Context, steps: seq<Step>, failed: map<nat, Failure>, commands: seq<Command>, entries: seq<RunnerEntry>)
    requires ctx.Valid() && Coherent(steps) && DerivedFor(ctx, steps) && Reachable(ctx, commands)
    requires Finalized(steps, failed, OwnEntries(ctx, commands), entries)
    ensures !AnswersBrokerCommand(ctx, TrackedIds(entries))
  {
    hide Context.Valid, Reachable, OwnEntries, EntriesAfter, Coherent, LiveOnly, NextEntries, ReinstatableLive,
      EntryAfter, Provisional, EvictedInTurn, PendingIds, DistinctCommandIds, DistinctPlaceClients;
    var own, after := OwnEntries(ctx, commands), EntriesAfter(steps, failed, |steps|);
    var evicted :| IsRest(evicted, entries, after + own, PendingIds(steps, failed, |steps|));
    if ctx.answeredRequest.Some? {
      var id := ctx.answeredRequest.value;
      forall i | 0 <= i < |entries|
        ensures entries[i].commandId != id
      {
        assert entries[i] in multiset(entries) && entries[i] in multiset(after + own);
        var k :| 0 <= k < |after + own| && (after + own)[k] == entries[i];
        if k < |after| {
          var s := EntriesComeFromSteps(steps, failed, |steps|, k);
          EntryKeepsIdentity(steps, failed, s);
        } else {
          var j := OwnEntryTracks(ctx, commands, k - |after|);
          AdmittedAgree(ctx, commands);
        }
      }
    }
  }
}
