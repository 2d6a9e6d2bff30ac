/** Publishing the engine's outputs: the periodic tick of `FixtureRunner::Run`
    and the actuation handler `FixtureRunner::HandleActuation`.

    Both walk the engine's outputs in order, skip an output whose value is not
    valid or whose path has no resolved handle, and publish the rest; a failed
    publish is only logged, so it never stops the items after it. The handler
    publishes inline, on the thread that delivered the actuation. */
module Publisher {
  import opened DagMappings

  /** Opaque broker handle for a resolved signal path. */
  datatype Handle = Handle(id: nat)

  /** Signal quality as the engine reports it. */
  datatype Quality = Valid | Invalid | NotAvailable | Stale

  /** A signal value; the fixture runner never looks inside it. */
  datatype Value = Empty | BoolValue(b: bool) | IntValue(i: int) | TextValue(t: string)

  /** A value together with its quality (`qualified_value`). */
  datatype QualifiedValue = QualifiedValue(value: Value, quality: Quality)
  {
    predicate IsValid() { quality == Valid }
  }

  /** One engine output (`vssdag::VSSSignal`). */
  datatype VssSignal = VssSignal(path: string, qualifiedValue: QualifiedValue)

  /** One engine input (`vssdag::SignalUpdate`); `timestamp` is the reading
      of the monotonic clock the caller supplies. */
  datatype SignalUpdate = SignalUpdate(path: string, value: Value, timestamp: int, quality: Quality)

  /** One publish call and whether the broker accepted it. */
  datatype Publication = Publication(path: string, handle: Handle, value: QualifiedValue, accepted: bool)

  /** The outputs the loop gets as far as publishing. */
  predicate Publishable(s: VssSignal, handles: map<string, Handle>)
  {
    s.qualifiedValue.IsValid() && s.path in handles
  }

  /** Reference definition: the in-order subsequence of publishable outputs. */
  function Published(outputs: seq<VssSignal>, handles: map<string, Handle>): seq<VssSignal>
  {
    if |outputs| == 0 then []
    else
      var head := if Publishable(outputs[0], handles) then [outputs[0]] else [];
      head + Published(outputs[1..], handles)
  }

  /** An output is published exactly when it is among the outputs and publishable. */
  lemma {:induction false} PublishedMembers(outputs: seq<VssSignal>, handles: map<string, Handle>, s: VssSignal)
    ensures s in Published(outputs, handles) <==> s in outputs && Publishable(s, handles)
  {
    if |outputs| > 0 {
      PublishedMembers(outputs[1..], handles, s);
      assert outputs == [outputs[0]] + outputs[1..];
    }
  }

  /** Order is kept: the outputs of two consecutive batches are published as
      the first batch's, then the second's. */
  lemma {:induction false} PublishedAppend(xs: seq<VssSignal>, ys: seq<VssSignal>, handles: map<string, Handle>)
    ensures Published(xs + ys, handles) == Published(xs, handles) + Published(ys, handles)
  {
    if |xs| > 0 {
      assert (xs + ys)[1..] == xs[1..] + ys;
      PublishedAppend(xs[1..], ys, handles);
    } else {
      assert xs + ys == ys;
    }
  }

  /** Nothing is dropped or duplicated: every publishable output is published
      as many times as the engine produced it, every other one never. */
  lemma {:induction false} PublishedCounts(outputs: seq<VssSignal>, handles: map<string, Handle>)
    ensures forall s ::
              multiset(Published(outputs, handles))[s] == if Publishable(s, handles) then multiset(outputs)[s] else 0
  {
    if |outputs| > 0 {
      PublishedCounts(outputs[1..], handles);
      assert outputs == [outputs[0]] + outputs[1..];
    }
  }

  /** `log` records one publish call per item of `items`, in order, each
      with the item's resolved handle, its value and the broker's answer. */
  ghost predicate PublishLog(log: seq<Publication>, items: seq<VssSignal>, handles: map<string, Handle>,
                             publish: (Handle, QualifiedValue) -> bool)
  {
    && |log| == |items|
    && forall i :: 0 <= i < |log| ==>
         && log[i].path == items[i].path
         && items[i].path in handles
         && log[i].handle == handles[items[i].path]
         && log[i].value == items[i].qualifiedValue
         && log[i].accepted == publish(handles[items[i].path], items[i].qualifiedValue)
  }

  /** The publish loop of `Run` (and of `HandleActuation`): `publish` is the
      broker's answer to one publish call. */
  method PublishOutputs(outputs: seq<VssSignal>, handles: map<string, Handle>,
                        publish: (Handle, QualifiedValue) -> bool)
    returns (log: seq<Publication>)
    ensures PublishLog(log, Published(outputs, handles), handles, publish)
  {
    log := [];
    for k := 0 to |outputs|
      invariant PublishLog(log, Published(outputs[..k], handles), handles, publish)
    {
      var s := outputs[k];
      assert outputs[..k + 1] == outputs[..k] + [s];
      PublishedAppend(outputs[..k], [s], handles);
      assert [s][1..] == [];
      if !s.qualifiedValue.IsValid() {
        continue;
      }
      if s.path !in handles {
        continue;
      }
      var accepted := publish(handles[s.path], s.qualifiedValue);
      log := log + [Publication(s.path, handles[s.path], s.qualifiedValue, accepted)];
    }
    assert outputs[..|outputs|] == outputs;
  }

  /** A rejected publish does not stop later ones: the publish calls made
      when the broker rejects every item are those made under any other
      answers, item for item. */
  method PublishFailureDoesNotStop(outputs: seq<VssSignal>, handles: map<string, Handle>,
                                   answer: (Handle, QualifiedValue) -> bool)
    returns (answered: seq<Publication>, rejected: seq<Publication>)
    ensures |answered| == |rejected| == |Published(outputs, handles)|
    ensures forall i :: 0 <= i < |rejected| ==>
      && rejected[i].path == answered[i].path
      && rejected[i].handle == answered[i].handle
      && rejected[i].value == answered[i].value
      && !rejected[i].accepted
  {
    answered := PublishOutputs(outputs, handles, answer);
    rejected := PublishOutputs(outputs, handles, (h: Handle, v: QualifiedValue) => false);
  }

  /** One 100 ms tick of `Run`: query the engine with no updates and publish
      what it returns. `engine` stands for the engine's answer to that query. */
  method Tick(engine: seq<SignalUpdate> -> seq<VssSignal>, handles: map<string, Handle>,
              publish: (Handle, QualifiedValue) -> bool)
    returns (log: seq<Publication>)
    ensures PublishLog(log, Published(engine([]), handles), handles, publish)
  {
    log := PublishOutputs(engine([]), handles, publish);
  }

  /** `HandleActuation`: feed the commanded value to the engine under the
      actuator's target key, with VALID quality and the current time, then
      publish the engine's outputs. */
  method HandleActuation(actuator: string, target: Value, now: int,
                         engine: seq<SignalUpdate> -> seq<VssSignal>,
                         handles: map<string, Handle>,
                         publish: (Handle, QualifiedValue) -> bool)
    returns (update: SignalUpdate, log: seq<Publication>)
    ensures update.path == TargetKey(actuator)
    ensures update.value == target && update.timestamp == now && update.quality == Valid
    ensures PublishLog(log, Published(engine([update]), handles), handles, publish)
  {
    update := SignalUpdate(TargetKey(actuator), target, now, Valid);
    log := PublishOutputs(engine([update]), handles, publish);
  }

  /** An output on a path that was never resolved, such as an engine-internal
      `A.target` key, is never published. */
  lemma UnresolvedNeverPublished(outputs: seq<VssSignal>, handles: map<string, Handle>, s: VssSignal)
    requires s.path !in handles
    ensures s !in Published(outputs, handles)
  {
    PublishedMembers(outputs, handles, s);
  }
}
