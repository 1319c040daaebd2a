/** What the registry keeps over every sequence of its operations. */
module RegistryTheorems {
  import opened Graphs
  import opened Decimation
  import opened PVs
  import opened Registry

  datatype Op =
    | RegisterInput(input: InputPV)
    | RegisterOutput(output: OutputPV)
    | DeregisterInput(input: InputPV)
    | DeregisterOutput(output: OutputPV)
    | SubscribeTo(from: string, output: OutputPV)
    | SubscribeByName(from: string, to: string)
    | Unsubscribe(output: OutputPV)
    | UnsubscribeByName(to: string)
    | ReplicateTo(from: string, input: InputPV)
    | ReplicateByName(from: string, to: string)
    | StopReplicationTo(input: InputPV)
    | StopReplicationByName(to: string)

  /** When the registry can take the operation: what an input brings back is still registered, and what
      goes is the PV that is passed, or one that nobody is connected to. */
  ghost predicate Legal(d: Directory, op: Op) {
    match op
    case RegisterInput(p) =>
      d.Free(p.fullName) ==>
        d.Brings(p).destinations <= d.inputs.Values + {p} && d.Brings(p).subscribers <= d.outputs.Values
    case DeregisterInput(p) => p.fullName in d.inputs ==> d.HasInput(p) || Unforwarded(d, p.fullName)
    case DeregisterOutput(o) => o.fullName in d.outputs ==> d.HasOutput(o) || Unheard(d, o.fullName)
    case _ => true
  }

  /** No other input forwards to the one with the name. */
  ghost predicate Unforwarded(d: Directory, name: string)
    requires name in d.inputs
  {
    forall q :: q in d.destinations && q.fullName != name ==> d.inputs[name] !in d.destinations[q]
  }

  ghost predicate Unheard(d: Directory, name: string)
    requires name in d.outputs
  {
    forall q :: q in d.subscribers ==> d.outputs[name] !in d.subscribers[q]
  }

  /** Callers that register each input once, and deregister the PV that is filed, need not look at the
      connections. */
  predicate Careful(d: Directory, op: Op) {
    match op
    case RegisterInput(p) => p !in d.left
    case DeregisterInput(p) => p.fullName in d.inputs ==> d.HasInput(p)
    case DeregisterOutput(o) => o.fullName in d.outputs ==> d.HasOutput(o)
    case _ => true
  }

  lemma CarefulIsLegal(d: Directory, op: Op)
    requires Careful(d, op)
    ensures Legal(d, op)
  {
  }

  /** The directory after an operation, whether it succeeds or throws. */
  ghost function Perform(d: Directory, op: Op): Directory {
    match op
    case RegisterInput(p) => AddInput(d, p).directory
    case RegisterOutput(o) => AddOutput(d, o).directory
    case DeregisterInput(p) => DropInput(d, p)
    case DeregisterOutput(o) => DropOutput(d, o)
    case SubscribeTo(from, o) => Subscribe(d, from, o).directory
    case SubscribeByName(from, to) => if to in d.outputs then Subscribe(d, from, d.outputs[to]).directory else d
    case Unsubscribe(o) => d.(subscribers := Unsubscribed(d.subscribers, o))
    case UnsubscribeByName(to) =>
      if to in d.outputs then d.(subscribers := Unsubscribed(d.subscribers, d.outputs[to])) else d
    case ReplicateTo(from, p) => Replicate(d, from, p).directory
    case ReplicateByName(from, to) => if to in d.inputs then Replicate(d, from, d.inputs[to]).directory else d
    case StopReplicationTo(p) => d.(destinations := Unlink(d.destinations, p))
    case StopReplicationByName(to) =>
      if to in d.inputs then d.(destinations := Unlink(d.destinations, d.inputs[to])) else d
  }

  ghost predicate Sound(d: Directory) {
    d.Filed() && d.Closed()
  }

  lemma FiledValues(d: Directory, p: InputPV)
    requires d.Filed()
    ensures p in d.inputs.Values <==> d.HasInput(p)
  {
  }

  lemma FiledOutputs(d: Directory, o: OutputPV)
    requires d.Filed()
    ensures o in d.outputs.Values <==> d.HasOutput(o)
  {
  }

  /** Closed, element by element. */
  ghost predicate Linked(d: Directory) {
    && (forall p, q :: p in d.destinations && q in d.destinations[p] ==>
          q.fullName in d.inputs && d.inputs[q.fullName] == q)
    && (forall p, o :: p in d.subscribers && o in d.subscribers[p] ==>
          o.fullName in d.outputs && d.outputs[o.fullName] == o)
  }

  lemma ClosedIsLinked(d: Directory)
    requires d.Filed()
    ensures d.Closed() <==> Linked(d)
  {
    forall p
      ensures p in d.inputs.Values <==> d.HasInput(p)
    {
      FiledValues(d, p);
    }
    forall o
      ensures o in d.outputs.Values <==> d.HasOutput(o)
    {
      FiledOutputs(d, o);
    }
  }

  lemma AddInputKeepsIff(d: Directory, p: InputPV)
    requires d.Filed() && d.Closed()
    ensures var after := AddInput(d, p).directory;
        after.Filed() && (after.Closed() <==> Legal(d, RegisterInput(p)))
  {
    var after := AddInput(d, p).directory;
    if d.Free(p.fullName) {
      AddedValues(d.inputs, p);
      NotFiled(d.inputs, p);
      assert p in after.inputs.Values && after.destinations[p] == d.Brings(p).destinations;
      assert forall q :: q in d.inputs.Values ==> after.destinations[q] == d.destinations[q];
    }
  }

  lemma AddOutputKeeps(d: Directory, o: OutputPV)
    requires d.Filed() && Linked(d)
    ensures AddOutput(d, o).directory.Filed() && Linked(AddOutput(d, o).directory)
  {
  }

  lemma DropInputFiled(d: Directory, p: InputPV)
    requires d.Filed()
    ensures DropInput(d, p).Filed()
  {
    DroppedValues(d.inputs, p.fullName);
  }

  lemma DropInputKeepsIff(d: Directory, p: InputPV)
    requires d.Filed() && Linked(d)
    ensures Linked(DropInput(d, p)) <==> Legal(d, DeregisterInput(p))
  {
    var after := DropInput(d, p);
    if p.fullName in d.inputs && !d.HasInput(p) {
      var removed := d.inputs[p.fullName];
      forall q | q in d.destinations && q.fullName != p.fullName && removed in d.destinations[q]
        ensures !Linked(after)
      {
        assert removed in after.destinations[q];
      }
    }
  }

  lemma DropOutputKeepsIff(d: Directory, o: OutputPV)
    requires d.Filed() && Linked(d)
    ensures DropOutput(d, o).Filed() && (Linked(DropOutput(d, o)) <==> Legal(d, DeregisterOutput(o)))
  {
    var after := DropOutput(d, o);
    if o.fullName in d.outputs && !d.HasOutput(o) {
      var removed := d.outputs[o.fullName];
      forall q | q in d.subscribers && removed in d.subscribers[q]
        ensures !Linked(after)
      {
        assert removed in after.subscribers[q];
      }
    }
  }

  lemma SubscribeKeeps(d: Directory, from: string, o: OutputPV)
    requires d.Filed() && Linked(d)
    ensures Subscribe(d, from, o).directory.Filed() && Linked(Subscribe(d, from, o).directory)
  {
  }

  lemma ReplicateKeeps(d: Directory, from: string, q: InputPV)
    requires d.Filed() && Linked(d)
    ensures Replicate(d, from, q).directory.Filed() && Linked(Replicate(d, from, q).directory)
  {
  }

  /** Fewer connections are still closed. */
  lemma InputCutsKeep(d: Directory, p: InputPV)
    requires d.Filed() && Linked(d)
    ensures var after := d.(destinations := Unlink(d.destinations, p)); after.Filed() && Linked(after)
  {
  }

  lemma OutputCutsKeep(d: Directory, o: OutputPV)
    requires d.Filed() && Linked(d)
    ensures var after := d.(subscribers := Unsubscribed(d.subscribers, o)); after.Filed() && Linked(after)
  {
  }

  /** A sound registry stays sound if and only if the operation is legal. */
  lemma KeepsIff(d: Directory, op: Op)
    requires Sound(d)
    ensures Perform(d, op).Filed() && (Sound(Perform(d, op)) <==> Legal(d, op))
  {
    if op.RegisterInput? {
      AddInputKeepsIff(d, op.input);
    } else {
      OthersKeepIff(d, op);
    }
  }

  lemma OthersKeepIff(d: Directory, op: Op)
    requires Sound(d) && !op.RegisterInput?
    ensures Perform(d, op).Filed() && (Sound(Perform(d, op)) <==> Legal(d, op))
  {
    ClosedIsLinked(d);
    match op {
      case RegisterOutput(o) => AddOutputKeeps(d, o);
      case DeregisterInput(p) =>
        DropInputFiled(d, p);
        DropInputKeepsIff(d, p);
      case DeregisterOutput(o) => DropOutputKeepsIff(d, o);
      case SubscribeTo(from, o) => SubscribeKeeps(d, from, o);
      case SubscribeByName(from, to) => if to in d.outputs { SubscribeKeeps(d, from, d.outputs[to]); }
      case Unsubscribe(o) => OutputCutsKeep(d, o);
      case UnsubscribeByName(to) => if to in d.outputs { OutputCutsKeep(d, d.outputs[to]); }
      case ReplicateTo(from, p) => ReplicateKeeps(d, from, p);
      case ReplicateByName(from, to) => if to in d.inputs { ReplicateKeeps(d, from, d.inputs[to]); }
      case StopReplicationTo(p) => InputCutsKeep(d, p);
      case StopReplicationByName(to) => if to in d.inputs { InputCutsKeep(d, d.inputs[to]); }
    }
    ClosedIsLinked(Perform(d, op));
  }

  /** Deregistration goes by name: what it takes to stay closed, for inputs and for outputs. */
  lemma DropKeepsClosedIff(d: Directory, p: InputPV)
    requires Sound(d)
    ensures DropInput(d, p).Closed() <==>
        p.fullName !in d.inputs || d.HasInput(p) || Unforwarded(d, p.fullName)
  {
    KeepsIff(d, DeregisterInput(p));
  }

  lemma DropOutputKeepsClosedIff(d: Directory, o: OutputPV)
    requires Sound(d)
    ensures DropOutput(d, o).Closed() <==>
        o.fullName !in d.outputs || d.HasOutput(o) || Unheard(d, o.fullName)
  {
    KeepsIff(d, DeregisterOutput(o));
  }

  ghost predicate LegalRun(d: Directory, ops: seq<Op>)
    decreases |ops|
  {
    ops == [] || (Legal(d, ops[0]) && LegalRun(Perform(d, ops[0]), ops[1..]))
  }

  ghost function After(d: Directory, ops: seq<Op>): Directory
    decreases |ops|
  {
    if ops == [] then d else After(Perform(d, ops[0]), ops[1..])
  }

  const NOTHING := Directory(map[], map[], map[], map[], map[])

  /** The registry is sound at every point of the run. */
  ghost predicate SoundThroughout(d: Directory, ops: seq<Op>)
    decreases |ops|
  {
    Sound(d) && (ops == [] || SoundThroughout(Perform(d, ops[0]), ops[1..]))
  }

  /** It is so if and only if every operation is legal where it stands. */
  lemma {:induction false} SoundThroughoutIff(d: Directory, ops: seq<Op>)
    requires Sound(d)
    ensures SoundThroughout(d, ops) <==> LegalRun(d, ops)
    decreases |ops|
  {
    if ops == [] {
    } else {
      KeepsIff(d, ops[0]);
      if Legal(d, ops[0]) {
        SoundThroughoutIff(Perform(d, ops[0]), ops[1..]);
      }
    }
  }

  lemma {:induction false} RunKeeps(d: Directory, ops: seq<Op>)
    requires Sound(d) && LegalRun(d, ops)
    ensures Sound(After(d, ops))
    decreases |ops|
  {
    if ops == [] {
    } else {
      KeepsIff(d, ops[0]);
      RunKeeps(Perform(d, ops[0]), ops[1..]);
    }
  }

  /** Whatever the operations, a push that starts at a registered input comes to registered inputs
      only, and their subscribers are registered outputs. */
  lemma PushStaysRegistered(ops: seq<Op>, u: InputPV, v: InputPV)
    requires LegalRun(NOTHING, ops) && After(NOTHING, ops).HasInput(u)
    ensures var d := After(NOTHING, ops);
        && WellFormed<InputPV>(d.destinations) && u in d.destinations
        && (v in Reach<InputPV>(d.destinations, u) ==>
              d.HasInput(v) && v in d.subscribers && forall o :: o in d.subscribers[v] ==> d.HasOutput(o))
  {
    var d := After(NOTHING, ops);
    RunKeeps(NOTHING, ops);
    FiledValues(d, u);
    ClosedIsLinked(d);
    if v in Reach<InputPV>(d.destinations, u) {
      FiledValues(d, v);
    }
  }

  /** The net that pushes of registered inputs go through. */
  ghost function NetOf(d: Directory): Net {
    Net(d.destinations, map o | o in d.outputs.Values :: set v | v in d.subscribers && o in d.subscribers[v])
  }

  /** The registered inputs are wired as the net of the registry says. */
  lemma IsWired(factory: NdsFactory)
    requires factory.Valid() && Sound(factory.View())
    ensures WellFormed<InputPV>(NetOf(factory.View()).destinations)
    ensures Wired(NetOf(factory.View())) && HeldAlong(NetOf(factory.View()), [])
  {
  }

  /** A push that keeps the wiring has not changed the registry. */
  lemma StillViewed(factory: NdsFactory, d: Directory)
    requires Sound(d) && factory.inputs == d.inputs && factory.outputs == d.outputs
    requires d.inputs.Values <= factory.ever && Unlocked(factory.ever - d.inputs.Values)
    requires WiresOf(factory.ever - d.inputs.Values) == d.left
    requires Wired(NetOf(d)) && HeldAlong(NetOf(d), [])
    ensures factory.Valid() && factory.View() == d
  {
    forall v | v in d.inputs.Values
      ensures v.subscribers == d.subscribers[v]
    {
      assert d.subscribers[v] <= d.outputs.Values;
      assert v.subscribers == NetOf(d).SubscribersOf(v);
    }
    assert DestinationsOf(factory.inputs.Values) == d.destinations;
    assert SubscribersOf(factory.inputs.Values) == d.subscribers;
  }

  /** A device pushes: no lock is held yet. */
  method PushFirst(u: InputPV, sample: Sample, ghost net: Net)
    requires Dag(net.destinations) && Wired(net) && u in net.destinations && HeldAlong(net, [])
    modifies net.destinations.Keys, net.subscriptions.Keys
    ensures Wired(net) && HeldAlong(net, [])
    ensures Streams(net) == Advance(old(Streams(net)), net.Receipts(u), sample)
    ensures Cells(net) == WriteOut(old(Cells(net)), net.Writes(u), sample)
  {
    LeadsFromItself(net.destinations, u);
    hide Dag, Leads, Wired, HeldAlong, Streams, Cells, Advance, WriteOut, Net.Receipts, Net.Writes;
    u.Push(sample, net, []);
  }

  /** A push does not touch other inputs. */
  method PushAside(u: InputPV, sample: Sample, ghost net: Net, ghost others: set<InputPV>)
    requires Dag(net.destinations) && Wired(net) && u in net.destinations && HeldAlong(net, [])
    requires others !! net.destinations.Keys
    modifies net.destinations.Keys, net.subscriptions.Keys
    ensures Wired(net) && HeldAlong(net, [])
    ensures Streams(net) == Advance(old(Streams(net)), net.Receipts(u), sample)
    ensures Cells(net) == WriteOut(old(Cells(net)), net.Writes(u), sample)
    ensures unchanged(others)
  {
    ghost var touched: set<object> := net.destinations.Keys + net.subscriptions.Keys;
    ghost var untouched: set<object> := others;
    assert untouched !! touched;
    hide Dag, Wired, HeldAlong, Streams, Cells, Advance, WriteOut, Net.Receipts, Net.Writes;
    PushFirst(u, sample, net);
  }

  twostate lemma StayWired(others: set<InputPV>)
    requires unchanged(others)
    ensures Unlocked(others) == old(Unlocked(others)) && WiresOf(others) == old(WiresOf(others))
  {
  }

  /** A device pushes into a registered input. Only registered PVs are touched. */
  method PushRegistered(factory: NdsFactory, u: InputPV, sample: Sample)
    requires factory.Valid() && Sound(factory.View()) && factory.View().HasInput(u)
    requires Dag<InputPV>(factory.View().destinations)
    modifies factory.inputs.Values, factory.outputs.Values
    ensures factory.Valid() && factory.View() == old(factory.View())
    ensures var net := NetOf(old(factory.View()));
        && u in net.destinations && Dag(net.destinations)
        && Streams(net) == Advance(old(Streams(NetOf(factory.View()))), net.Receipts(u), sample)
        && Cells(net) == WriteOut(old(Cells(NetOf(factory.View()))), net.Writes(u), sample)
  {
    ghost var d := factory.View();
    FiledValues(d, u);
    IsWired(factory);
    ghost var net, others := NetOf(d), factory.ever - factory.inputs.Values;
    assert net.destinations == d.destinations && u in net.destinations;
    assert net.destinations.Keys == factory.inputs.Values && net.subscriptions.Keys == factory.outputs.Values;
    ghost var touched: set<object> := factory.inputs.Values + factory.outputs.Values;
    assert factory !in touched;
    hide Advance, WriteOut, Dag, Sound, Wired, HeldAlong, WiresOf;
    PushAside(u, sample, net, others);
    StayWired(others);
    StillViewed(factory, d);
  }
}
