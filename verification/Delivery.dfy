/**
 Order updates, delivered one by one: a snapshot before each, the way back when the kernel fails, and
 the end of all delivery when there is no way back. A kernel is any deterministic program over the
 host's answers that makes a bounded number of calls for an event.
 */
module Delivery {
  import opened Wrappers
  import opened Wire
  import opened Admission
  import opened Updates

  // ---------------------------------------------------------------------------------------
  // Kernels
  // ---------------------------------------------------------------------------------------

  datatype Event = OrderUpdate(record: UpdateRecord) | Trigger

  /** What a kernel does next: another host call, or return with its state and its error if any. */
  datatype Action<K> = Invoke(call: Call) | Finish(state: K, error: Option<Message>)

  /** A kernel's next action is a function of its state, the event and the answers so far; `calls`
      bounds how many calls it makes for the event, past which it counts as failed. */
  datatype Kernel<!K> = Kernel(act: (K, Event, seq<Response>) -> Action<K>, calls: (K, Event) -> nat)

  /** The kernel's checkpoint codec, and its state restored from the context's checkpoint. */
  datatype Codec<!K> = Codec(encode: K -> Option<seq<int>>, decode: seq<int> -> Option<K>, start: K)

  datatype Environment<!K> = Environment(ctx: Context, kernel: Kernel<K>, codec: Codec<K>)

  /** A snapshot that can be taken and restored gives back the state it was taken of. */
  ghost predicate Faithful<K(!new)>(codec: Codec<K>) {
    forall k: K :: codec.encode(k).Some? && codec.decode(codec.encode(k).value).Some? ==>
      codec.decode(codec.encode(k).value) == Some(k)
  }

  /** One event handled over the host: the host, the kernel's state and its error afterwards. */
  ghost function RunEvent<K>(
      env: Environment<K>, h: HostState, state: K, event: Event, answers: seq<Response>, fuel: nat)
    : (r: (HostState, K, Option<Message>))
    requires h.Valid()
    ensures r.0.Valid() && r.0.unit == h.unit
    ensures h.commands <= r.0.commands && h.outputs <= r.0.outputs
    decreases fuel
  {
    match env.kernel.act(state, event, answers)
    case Finish(next, error) => (h, next, error)
    case Invoke(call) =>
      if fuel == 0 then (h, state, Some(DidNotReturn))
      else
        var (h', answer) := Respond(env.ctx, h, call);
        RunEvent(env, h', state, event, answers + [answer], fuel - 1)
  }

  ghost function Handled<K>(
      env: Environment<K>, h: HostState, state: K, event: Event): (r: (HostState, K, Option<Message>))
    requires h.Valid()
    ensures r.0.Valid() && r.0.unit == h.unit
    ensures h.commands <= r.0.commands && h.outputs <= r.0.outputs
  {
    RunEvent(env, h, state, event, [], env.kernel.calls(state, event))
  }

  // ---------------------------------------------------------------------------------------
  // The delivery loop
  // ---------------------------------------------------------------------------------------

  /** An update in delivery order, and whether it begins a delivery unit. */
  datatype Item = Item(first: bool, index: nat)

  datatype Loop<K> = Loop(kernel: K, host: HostState, failed: map<nat, Failure>, unitStart: Option<nat>,
      stopped: bool) {
    ghost predicate Valid() {
      && host.unit.None?
      && (unitStart.Some? ==> unitStart.value <= |host.commands|)
    }
  }

  const FRESH_HOST := HostState([], [], None, None)

  function StartLoop<K>(env: Environment<K>): Loop<K> {
    Loop(env.codec.start, FRESH_HOST, map[], None, false)
  }

  /** Whether some target's update is among the failures. */
  predicate OutOfOrder(steps: seq<Step>, index: nat, failed: map<nat, Failure>)
    requires index < |steps|
  {
    exists i :: 0 <= i < |Targets(steps, index)| && Targets(steps, index)[i] in failed
  }

  function Reported<K>(loop: Loop<K>, index: nat, failure: Failure): Loop<K> {
    loop.(failed := loop.failed[index := failure],
          host := loop.host.(outputs := loop.host.outputs + [UpdateError(index, failure)]))
  }

  /** The kind of a delivery's failure. It is a deferral if the error is the very text of a deferrable
      refusal, unless the update is a cancel's and this would be its last permitted deferral. */
  function FailureFor(step: Step, refusal: Option<Message>, error: Message): Failure {
    if !(step.IsCancel() && step.Deferral() >= MAX_DELIVERY_DEFERRALS) && refusal == Some(error) then Deferred
    else Counted
  }

  /** Every update counts as rolled back, but those already failed. */
  function AllRolledBack(steps: seq<Step>, failed: map<nat, Failure>): map<nat, Failure> {
    (map i: nat | i < |steps| && steps[i].update.Some? :: RolledBack) + failed
  }

  /** Undoes a failed delivery: from the snapshot if it decodes, else by starting over with nothing
      issued and every update due again. */
  ghost function Undone<K>(env: Environment<K>, steps: seq<Step>, index: nat, before: Loop<K>, after: HostState,
      snapshot: seq<int>, error: Message): (r: Loop<K>)
    requires index < |steps| && before.Valid() && before.host.outputs <= after.outputs
    ensures r.host.unit.None?
  {
    var host := HostState(before.host.commands, RolledBackOutputs(after.outputs, |before.host.outputs|), None, None);
    var restored := env.codec.decode(snapshot);
    if restored.Some? then
      Reported(before.(host := host, kernel := restored.value), index,
          FailureFor(steps[index], after.deferrable, error))
    else
      Loop(env.codec.start,
           HostState([], RolledBackOutputs(host.outputs, 0) + [UpdateError(index, Counted)], None, None),
           AllRolledBack(steps, before.failed[index := Counted]), None, true)
  }

  /** One update: held behind a failed target, not snapshotted, delivered, or undone. */
  ghost function DeliverOne<K>(env: Environment<K>, steps: seq<Step>, index: nat, loop: Loop<K>): (r: Loop<K>)
    requires HasUpdate(steps, index) && loop.Valid()
    ensures r.Valid()
  {
    var step := steps[index];
    var outOfOrder := OutOfOrder(steps, index, loop.failed);
    if outOfOrder && step.Deferral() < MAX_DELIVERY_DEFERRALS then Reported(loop, index, Held)
    else
      var snapshot := env.codec.encode(loop.kernel);
      if snapshot.None? then Reported(loop, index, Counted)
      else
        var start := if loop.unitStart.Some? then loop.unitStart.value else |loop.host.commands|;
        var begun := loop.host.(unit := Some(start), deferrable := None);
        var (after, kernel, error) := Handled(env, begun, loop.kernel, OrderUpdate(step.update.value));
        var delivering := loop.(unitStart := Some(start));
        if error.None? then
          var warning := if outOfOrder then [UpdateWarning(index)] else [];
          delivering.(kernel := kernel,
                      host := HostState(after.commands, after.outputs + warning, None, None))
        else Undone(env, steps, index, delivering, after, snapshot.value, error.value)
  }

  ghost function DeliverItem<K>(env: Environment<K>, steps: seq<Step>, item: Item, loop: Loop<K>): (r: Loop<K>)
    requires HasUpdate(steps, item.index) && loop.Valid()
    ensures r.Valid()
  {
    if loop.stopped then loop
    else DeliverOne(env, steps, item.index, if item.first then loop.(unitStart := None) else loop)
  }

  ghost predicate ValidItems(steps: seq<Step>, items: seq<Item>) {
    && (forall p :: 0 <= p < |items| ==> HasUpdate(steps, items[p].index))
    && (forall p, q :: 0 <= p < q < |items| ==> items[p].index != items[q].index)
  }

  /** The delivery loop over `items`. */
  ghost function Deliver<K>(env: Environment<K>, steps: seq<Step>, items: seq<Item>): (r: Loop<K>)
    requires ValidItems(steps, items)
    ensures r.Valid()
  {
    if items == [] then StartLoop(env)
    else DeliverItem(env, steps, items[|items| - 1], Deliver(env, steps, items[..|items| - 1]))
  }
}
