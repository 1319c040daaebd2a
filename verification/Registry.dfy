/** The registry of PVs by full name, and the connections made through it. */
module Registry {
  import opened PVs

  datatype Result = Done | AlreadyDeclared | LogicError | MissingInput | MissingOutput | MissingDestination

  /** What an input itself is connected to. */
  datatype Wires = Wires(destinations: set<InputPV>, subscribers: set<OutputPV>)

  const UNWIRED := Wires({}, {})

  /** The registered PVs, and where each registered input forwards to. An input that is not registered
      any more keeps the connections it had. */
  datatype Directory = Directory(
    inputs: map<string, InputPV>,
    outputs: map<string, OutputPV>,
    destinations: map<InputPV, set<InputPV>>,
    subscribers: map<InputPV, set<OutputPV>>,
    left: map<InputPV, Wires>)
  {
    ghost predicate Filed() {
      && FiledByName(inputs, outputs)
      && destinations.Keys == inputs.Values && subscribers.Keys == inputs.Values
      && left.Keys !! inputs.Values
    }

    /** The connections with which an input would be registered. */
    function Brings(p: InputPV): Wires {
      if p in left then left[p] else UNWIRED
    }

    /** Registered inputs are connected to registered PVs only. */
    ghost predicate Closed() {
      forall p :: p in inputs.Values && p in destinations && p in subscribers ==>
        destinations[p] <= inputs.Values && subscribers[p] <= outputs.Values
    }

    predicate Free(name: string) {
      name !in inputs && name !in outputs
    }

    predicate HasInput(p: InputPV) { p.fullName in inputs && inputs[p.fullName] == p }

    predicate HasOutput(o: OutputPV) { o.fullName in outputs && outputs[o.fullName] == o }
  }

  /** PVs are filed under their names, which inputs and outputs do not share. */
  ghost predicate FiledByName(inputs: map<string, InputPV>, outputs: map<string, OutputPV>) {
    && (forall name :: name in inputs ==> inputs[name].fullName == name)
    && (forall name :: name in outputs ==> outputs[name].fullName == name)
    && inputs.Keys !! outputs.Keys
  }

  /** What the inputs are connected to. */
  ghost function DestinationsOf(inputs: set<InputPV>): (all: map<InputPV, set<InputPV>>)
    reads inputs
    ensures all.Keys == inputs
  {
    map p | p in inputs :: p.destinations
  }

  ghost function SubscribersOf(inputs: set<InputPV>): (all: map<InputPV, set<OutputPV>>)
    reads inputs
    ensures all.Keys == inputs
  {
    map p | p in inputs :: p.subscribers
  }

  ghost function WiresOf(inputs: set<InputPV>): (all: map<InputPV, Wires>)
    reads inputs
    ensures all.Keys == inputs
  {
    map p | p in inputs :: Wires(p.destinations, p.subscribers)
  }

  ghost predicate Unlocked(inputs: set<InputPV>)
    reads inputs
  {
    forall p :: p in inputs ==> !p.locked
  }

  datatype Outcome = Outcome(directory: Directory, result: Result)

  function AddInput(d: Directory, p: InputPV): Outcome {
    if d.Free(p.fullName) then
      Outcome(Directory(d.inputs[p.fullName := p], d.outputs,
                        d.destinations[p := d.Brings(p).destinations],
                        d.subscribers[p := d.Brings(p).subscribers], d.left - {p}), Done)
    else Outcome(d, AlreadyDeclared)
  }

  function AddOutput(d: Directory, o: OutputPV): Outcome {
    if d.Free(o.fullName) then Outcome(d.(outputs := d.outputs[o.fullName := o]), Done)
    else Outcome(d, AlreadyDeclared)
  }

  /** No registered input forwards to p any more. */
  function Unlink(destinations: map<InputPV, set<InputPV>>, p: InputPV): map<InputPV, set<InputPV>> {
    map q | q in destinations :: destinations[q] - {p}
  }

  function Unsubscribed(subscribers: map<InputPV, set<OutputPV>>, o: OutputPV): map<InputPV, set<OutputPV>> {
    map q | q in subscribers :: subscribers[q] - {o}
  }

  /** The connections of the inputs with other names. */
  function Without<T>(all: map<InputPV, T>, name: string): map<InputPV, T> {
    map q | q in all && q.fullName != name :: all[q]
  }

  /** Whoever is filed under the name of p is removed, with its connections, and p is no destination
      of the others any more. */
  ghost function DropInput(d: Directory, p: InputPV): Directory {
    Directory(d.inputs - {p.fullName}, d.outputs,
              Unlink(Without(d.destinations, p.fullName), p), Without(d.subscribers, p.fullName),
              Leaving(d, p.fullName))
  }

  /** The connections that are left when the input with a name is removed. */
  function Leaving(d: Directory, name: string): map<InputPV, Wires> {
    if name in d.inputs && d.inputs[name] in d.destinations && d.inputs[name] in d.subscribers then
      var p := d.inputs[name];
      d.left[p := Wires(d.destinations[p], d.subscribers[p])]
    else d.left
  }

  ghost function DropOutput(d: Directory, o: OutputPV): Directory {
    d.(outputs := d.outputs - {o.fullName}, subscribers := Unsubscribed(d.subscribers, o))
  }

  ghost function Subscribe(d: Directory, from: string, o: OutputPV): Outcome {
    if !d.HasOutput(o) then Outcome(d, LogicError)
    else if from !in d.inputs || d.inputs[from] !in d.subscribers then Outcome(d, MissingInput)
    else
      var p := d.inputs[from];
      Outcome(d.(subscribers := d.subscribers[p := d.subscribers[p] + {o}]), Done)
  }

  ghost function Replicate(d: Directory, source: string, destination: InputPV): Outcome {
    if !d.HasInput(destination) then Outcome(d, LogicError)
    else if source !in d.inputs || d.inputs[source] !in d.destinations then Outcome(d, MissingInput)
    else
      var p := d.inputs[source];
      Outcome(d.(destinations := d.destinations[p := d.destinations[p] + {destination}]), Done)
  }

  lemma AddedValues(inputs: map<string, InputPV>, p: InputPV)
    requires p.fullName !in inputs
    ensures inputs[p.fullName := p].Values == inputs.Values + {p}
  {
    var more := inputs[p.fullName := p];
    forall q | q in inputs.Values
      ensures q in more.Values
    {
      var name :| name in inputs && inputs[name] == q;
      assert more[name] == q;
    }
    assert more[p.fullName] == p;
  }

  lemma NotFiled(inputs: map<string, InputPV>, p: InputPV)
    requires p.fullName !in inputs && forall name :: name in inputs ==> inputs[name].fullName == name
    ensures p !in inputs.Values
  {
  }

  lemma DroppedValues(inputs: map<string, InputPV>, name: string)
    requires forall n :: n in inputs ==> inputs[n].fullName == n
    ensures (inputs - {name}).Values == set q | q in inputs.Values && q.fullName != name
  {
    var fewer := inputs - {name};
    forall q | q in inputs.Values && q.fullName != name
      ensures q in fewer.Values
    {
      var n :| n in inputs && inputs[n] == q;
      assert fewer[n] == q;
    }
    forall q | q in fewer.Values
      ensures q in inputs.Values && q.fullName != name
    {
      var n :| n in fewer && fewer[n] == q;
      assert inputs[n] == q;
    }
  }

  /** Every input of the set forgets the receiver. */
  method UnsubscribeAll(all: set<InputPV>, o: OutputPV)
    requires Unlocked(all)
    modifies all
    ensures Unlocked(all) && DestinationsOf(all) == old(DestinationsOf(all))
    ensures SubscribersOf(all) == Unsubscribed(old(SubscribersOf(all)), o)
  {
    var rest := all;
    while rest != {}
      invariant rest <= all && Unlocked(all)
      invariant forall p :: p in all ==> p.destinations == old(p.destinations)
      invariant forall p :: p in all ==>
          p.subscribers == if p in rest then old(p.subscribers) else old(p.subscribers) - {o}
      decreases |rest|
    {
      var scanned :| scanned in rest;
      scanned.UnsubscribeReceiver(o);
      rest := rest - {scanned};
    }
  }

  /** Every input of the set forgets the destination. */
  method StopAll(all: set<InputPV>, destination: InputPV)
    requires Unlocked(all)
    modifies all
    ensures Unlocked(all) && SubscribersOf(all) == old(SubscribersOf(all))
    ensures DestinationsOf(all) == Unlink(old(DestinationsOf(all)), destination)
  {
    var rest := all;
    while rest != {}
      invariant rest <= all && Unlocked(all)
      invariant forall p :: p in all ==> p.subscribers == old(p.subscribers)
      invariant forall p :: p in all ==>
          p.destinations == if p in rest then old(p.destinations) else old(p.destinations) - {destination}
      decreases |rest|
    {
      var scanned :| scanned in rest;
      scanned.StopReplicationTo(destination);
      rest := rest - {scanned};
    }
  }

  class NdsFactory {
    var inputs: map<string, InputPV>
    var outputs: map<string, OutputPV>
    /** The inputs that are or have been registered. Only they can have connections. */
    ghost var ever: set<InputPV>

    constructor ()
      ensures Valid() && View() == Directory(map[], map[], map[], map[], map[])
    {
      inputs, outputs, ever := map[], map[], {};
    }

    ghost function View(): Directory
      reads this, inputs.Values, ever
    {
      Directory(inputs, outputs, DestinationsOf(inputs.Values), SubscribersOf(inputs.Values),
                WiresOf(ever - inputs.Values))
    }

    ghost predicate Valid()
      reads this, inputs.Values, ever
    {
      FiledByName(inputs, outputs) && inputs.Values <= ever && Unlocked(ever)
    }

    /** A PV that has never been registered is not connected to anything. */
    method RegisterInput(p: InputPV) returns (result: Result)
      requires Valid()
      requires p !in ever ==> p.destinations == {} && p.subscribers == {} && !p.locked
      modifies this`inputs, this`ever
      ensures Valid() && Outcome(View(), result) == AddInput(old(View()), p)
      ensures old(ever) <= ever
    {
      if p.fullName in inputs {
        return AlreadyDeclared;
      }
      if p.fullName in outputs {
        return AlreadyDeclared;
      }
      AddedValues(inputs, p);
      NotFiled(inputs, p);
      AddedWires(inputs.Values, ever, p);
      Refile(inputs[p.fullName := p], ever + {p});
      result := Done;
    }

    /** Replace the map of inputs. Nothing that is known of the PVs changes. */
    method Refile(filed: map<string, InputPV>, ghost known: set<InputPV>)
      requires filed.Values <= known && Unlocked(known) && FiledByName(filed, outputs)
      modifies this`inputs, this`ever
      ensures inputs == filed && ever == known && Valid()
      ensures View() == old(Directory(filed, outputs, DestinationsOf(filed.Values), SubscribersOf(filed.Values),
                                      WiresOf(known - filed.Values)))
    {
      ghost var all: set<object> := known;
      assert this !in all;
      hide DestinationsOf, SubscribersOf, WiresOf, FiledByName;
      inputs, ever := filed, known;
    }

    method RefileOutputs(filed: map<string, OutputPV>)
      requires Valid() && FiledByName(inputs, filed)
      modifies this`outputs
      ensures outputs == filed && Valid() && View() == old(View()).(outputs := filed)
    {
      ghost var all: set<object> := ever;
      assert this !in all;
      hide DestinationsOf, SubscribersOf, WiresOf, FiledByName;
      outputs := filed;
    }

    method RegisterOutput(o: OutputPV) returns (result: Result)
      requires Valid()
      modifies this`outputs
      ensures Valid() && Outcome(View(), result) == AddOutput(old(View()), o)
    {
      if o.fullName in outputs {
        return AlreadyDeclared;
      }
      if o.fullName in inputs {
        return AlreadyDeclared;
      }
      RefileOutputs(outputs[o.fullName := o]);
      result := Done;
    }

    method DeregisterInput(p: InputPV)
      requires Valid()
      modifies this`inputs, this`ever, inputs.Values
      ensures Valid() && ever == old(ever) && View() == DropInput(old(View()), p)
    {
      DroppedValues(inputs, p.fullName);
      RemovedWires(this, p.fullName);
      Refile(inputs - {p.fullName}, ever);
      assert View().destinations == Without(old(View()).destinations, p.fullName);
      assert View().subscribers == Without(old(View()).subscribers, p.fullName);
      hide Without, Leaving;
      StopReplicationTo(p);
    }

    method DeregisterOutput(o: OutputPV)
      requires Valid()
      modifies this`outputs, inputs.Values
      ensures Valid() && View() == DropOutput(old(View()), o)
    {
      RefileOutputs(outputs - {o.fullName});
      Unsubscribe(o);
    }

    /** Connect an output to the input with the given name. */
    method SubscribeTo(from: string, o: OutputPV) returns (result: Result)
      requires Valid()
      modifies inputs.Values
      ensures Valid() && Outcome(View(), result) == Subscribe(old(View()), from, o)
    {
      if o.fullName !in outputs {
        return LogicError;
      }
      if outputs[o.fullName] != o {
        return LogicError;
      }
      if from !in inputs {
        return MissingInput;
      }
      inputs[from].SubscribeReceiver(o);
      result := Done;
    }

    method SubscribeByName(from: string, to: string) returns (result: Result)
      requires Valid()
      modifies inputs.Values
      ensures Valid()
      ensures to !in outputs ==> result == MissingOutput && View() == old(View())
      ensures to in outputs ==> Outcome(View(), result) == Subscribe(old(View()), from, outputs[to])
    {
      if to !in outputs {
        return MissingOutput;
      }
      result := SubscribeTo(from, outputs[to]);
    }

    method Unsubscribe(o: OutputPV)
      requires Valid()
      modifies inputs.Values
      ensures Valid() && View() == old(View()).(subscribers := Unsubscribed(old(View()).subscribers, o))
    {
      UnsubscribeAll(inputs.Values, o);
    }

    method UnsubscribeByName(to: string) returns (result: Result)
      requires Valid()
      modifies inputs.Values
      ensures Valid()
      ensures to !in outputs ==> result == MissingOutput && View() == old(View())
      ensures to in outputs ==>
          result == Done && View() == old(View()).(subscribers := Unsubscribed(old(View()).subscribers, outputs[to]))
    {
      if to !in outputs {
        return MissingOutput;
      }
      Unsubscribe(outputs[to]);
      result := Done;
    }

    method ReplicateTo(source: string, destination: InputPV) returns (result: Result)
      requires Valid()
      modifies inputs.Values
      ensures Valid() && Outcome(View(), result) == Replicate(old(View()), source, destination)
    {
      if destination.fullName !in inputs {
        return LogicError;
      }
      if inputs[destination.fullName] != destination {
        return LogicError;
      }
      if source !in inputs {
        return MissingInput;
      }
      inputs[source].ReplicateTo(destination);
      result := Done;
    }

    method ReplicateByName(source: string, destination: string) returns (result: Result)
      requires Valid()
      modifies inputs.Values
      ensures Valid()
      ensures destination !in inputs ==> result == MissingDestination && View() == old(View())
      ensures destination in inputs ==>
          Outcome(View(), result) == Replicate(old(View()), source, inputs[destination])
    {
      if destination !in inputs {
        return MissingDestination;
      }
      result := ReplicateTo(source, inputs[destination]);
    }

    method StopReplicationTo(destination: InputPV)
      requires Valid()
      modifies inputs.Values
      ensures Valid() && View() == old(View()).(destinations := Unlink(old(View()).destinations, destination))
    {
      StopAll(inputs.Values, destination);
    }

    method StopReplicationByName(destination: string) returns (result: Result)
      requires Valid()
      modifies inputs.Values
      ensures Valid()
      ensures destination !in inputs ==> result == MissingInput && View() == old(View())
      ensures destination in inputs ==>
          result == Done
          && View() == old(View()).(destinations := Unlink(old(View()).destinations, inputs[destination]))
    {
      if destination !in inputs {
        return MissingInput;
      }
      StopReplicationTo(inputs[destination]);
      result := Done;
    }
  }

  /** What is known of the connections when one more input is registered. */
  lemma AddedWires(inputs: set<InputPV>, ever: set<InputPV>, p: InputPV)
    requires p !in inputs && inputs <= ever
    ensures DestinationsOf(inputs + {p}) == DestinationsOf(inputs)[p := p.destinations]
    ensures SubscribersOf(inputs + {p}) == SubscribersOf(inputs)[p := p.subscribers]
    ensures WiresOf(ever + {p} - (inputs + {p})) == WiresOf(ever - inputs) - {p}
    ensures p in ever ==> WiresOf(ever - inputs)[p] == Wires(p.destinations, p.subscribers)
  {
  }

  /** Removing a name leaves the connections of whoever was filed under it. */
  lemma RemovedWires(factory: NdsFactory, name: string)
    requires factory.Valid()
    ensures WiresOf(factory.ever - (factory.inputs - {name}).Values) == Leaving(factory.View(), name)
  {
    DroppedValues(factory.inputs, name);
    var inputs := factory.inputs.Values;
    var kept := (factory.inputs - {name}).Values;
    if name in factory.inputs {
      var p := factory.inputs[name];
      assert p in inputs;
      assert forall q :: q in inputs && q.fullName == name ==> q == p;
      assert factory.ever - kept == (factory.ever - inputs) + {p};
    } else {
      assert kept == inputs;
    }
  }
}
