/** Input and output PVs, and the recursive forwarding of a pushed sample. */
module PVs {
  import opened States
  import opened Graphs
  import opened Decimation

  /** What an output PV stores, and how often it has been written. */
  datatype Cell = Cell(sample: Sample, writes: nat)

  /** The same sample written n times. */
  function Written(cell: Cell, n: nat, sample: Sample): Cell {
    if n == 0 then cell else Cell(sample, cell.writes + n)
  }

  /** The same sample written to each output as often as `counts` says. */
  ghost function WriteOut(cells: map<OutputPV, Cell>, counts: map<OutputPV, nat>, sample: Sample)
    : (after: map<OutputPV, Cell>)
    requires counts.Keys == cells.Keys
    ensures after.Keys == cells.Keys
  {
    map o | o in cells :: Written(cells[o], counts[o], sample)
  }

  /** The same sample received by each input as often as `counts` says. */
  ghost function Advance(streams: map<InputPV, Stream>, counts: map<InputPV, nat>, sample: Sample)
    : (after: map<InputPV, Stream>)
    requires counts.Keys == streams.Keys
    ensures after.Keys == streams.Keys
  {
    map v | v in streams :: Ticks(streams[v], counts[v], sample)
  }

  lemma AdvanceTwice(streams: map<InputPV, Stream>, a: map<InputPV, nat>, b: map<InputPV, nat>, sample: Sample)
    requires a.Keys == b.Keys == streams.Keys
    ensures Advance(Advance(streams, a, sample), b, sample) == Advance(streams, Plus(a, b), sample)
  {
    forall v | v in streams
      ensures Advance(Advance(streams, a, sample), b, sample)[v] == Advance(streams, Plus(a, b), sample)[v]
    {
      TicksAdd(streams[v], a[v], b[v], sample);
    }
  }

  lemma WriteTwice(cells: map<OutputPV, Cell>, a: map<OutputPV, nat>, b: map<OutputPV, nat>, sample: Sample)
    requires a.Keys == b.Keys == cells.Keys
    ensures WriteOut(WriteOut(cells, a, sample), b, sample) == WriteOut(cells, Plus(a, b), sample)
  {
  }

  lemma OneTick(stream: Stream, sample: Sample)
    ensures Ticks(stream, 0, sample) == stream && Ticks(stream, 1, sample) == Tick(stream, sample)
  {
  }

  class OutputPV {
    const fullName: string
    var value: Value
    var timestamp: Timestamp
    ghost var writes: nat

    constructor (fullName: string, initial: Value)
      ensures this.fullName == fullName && Content() == Cell(Sample(Timestamp(0, 0), initial), 0)
    {
      this.fullName := fullName;
      value, timestamp, writes := initial, Timestamp(0, 0), 0;
    }

    ghost function Content(): Cell
      reads this
    {
      Cell(Sample(timestamp, value), writes)
    }

    method Write(sample: Sample)
      modifies this
      ensures Content() == Written(old(Content()), 1, sample)
    {
      value := sample.value;
      timestamp := sample.timestamp;
      writes := writes + 1;
    }

    method Read() returns (sample: Sample)
      ensures sample == Content().sample
    {
      sample := Sample(timestamp, value);
    }
  }

  /** How the inputs of a closed set are connected: where each forwards to, and to which of them
      each output subscribes. */
  datatype Net = Net(destinations: Graph<InputPV>, subscriptions: map<OutputPV, set<InputPV>>) {
    ghost function SubscribersOf(v: InputPV): set<OutputPV> {
      set o | o in subscriptions && v in subscriptions[o]
    }

    /** How often each input receives a sample pushed into u: the number of paths to it. */
    ghost function Receipts(u: InputPV): (counts: map<InputPV, nat>)
      requires Dag(destinations) && u in destinations
      ensures counts.Keys == destinations.Keys
    {
      Arrive<InputPV, InputPV>(destinations, Selves(destinations.Keys), u)
    }

    /** How often a sample pushed into u is written to each output. */
    ghost function Writes(u: InputPV): (counts: map<OutputPV, nat>)
      requires Dag(destinations) && u in destinations
      ensures counts.Keys == subscriptions.Keys
    {
      Arrive<InputPV, OutputPV>(destinations, subscriptions, u)
    }
  }

  function Selves<T(==)>(nodes: set<T>): (ends: map<T, set<T>>)
    ensures ends.Keys == nodes
  {
    map v | v in nodes :: {v}
  }

  class InputPV {
    const fullName: string
    var decimationFactor: UInt32
    var decimationCount: UInt32
    var subscribers: set<OutputPV>
    var destinations: set<InputPV>
    /** Whether m_lockSubscribersList is held; it cannot be taken twice. */
    var locked: bool
    /** What has been handed to the port. */
    var delivered: seq<Sample>
    ghost var received: nat

    constructor (fullName: string)
      ensures this.fullName == fullName && State() == Stream(1, 1, [], 0)
      ensures subscribers == {} && destinations == {} && !locked
    {
      this.fullName := fullName;
      decimationFactor, decimationCount := 1, 1;
      subscribers, destinations, locked := {}, {}, false;
      delivered, received := [], 0;
    }

    ghost function State(): Stream
      reads this
    {
      Stream(decimationFactor, decimationCount, delivered, received)
    }

    method SetDecimation(factor: UInt32)
      modifies this`decimationFactor, this`decimationCount
      ensures State() == SetFactor(old(State()), factor)
    {
      decimationFactor := factor;
      decimationCount := factor;
    }

    method Lock()
      requires !locked
      modifies this`locked
      ensures locked
    {
      locked := true;
    }

    method Unlock()
      requires locked
      modifies this`locked
      ensures !locked
    {
      locked := false;
    }

    method SubscribeReceiver(receiver: OutputPV)
      requires !locked
      modifies this`subscribers, this`locked
      ensures subscribers == old(subscribers) + {receiver} && !locked
    {
      Lock();
      subscribers := subscribers + {receiver};
      Unlock();
    }

    method UnsubscribeReceiver(receiver: OutputPV)
      requires !locked
      modifies this`subscribers, this`locked
      ensures subscribers == old(subscribers) - {receiver} && !locked
    {
      Lock();
      if receiver in subscribers {
        subscribers := subscribers - {receiver};
      }
      Unlock();
    }

    method ReplicateTo(destination: InputPV)
      requires !locked
      modifies this`destinations, this`locked
      ensures destinations == old(destinations) + {destination} && !locked
    {
      Lock();
      destinations := destinations + {destination};
      Unlock();
    }

    method StopReplicationTo(destination: InputPV)
      requires !locked
      modifies this`destinations, this`locked
      ensures destinations == old(destinations) - {destination} && !locked
    {
      Lock();
      if destination in destinations {
        destinations := destinations - {destination};
      }
      Unlock();
    }

    /** Count the push, and hand the sample to the port when the countdown ends. */
    method PushToPort(sample: Sample)
      modifies this`decimationCount, this`delivered, this`received
      ensures State() == Tick(old(State()), sample)
    {
      received := received + 1;
      decimationCount := if decimationCount == 0 then WRAP - 1 else decimationCount - 1;
      if decimationCount == 0 {
        decimationCount := decimationFactor;
        delivered := delivered + [sample];
      }
    }

    /** Push a sample. `path` lists the inputs it has come through: those whose locks are held. */
    method Push(sample: Sample, ghost net: Net, ghost path: seq<InputPV>)
      requires Dag(net.destinations) && Wired(net) && this in net.destinations
      requires Leads(net.destinations, path, this) && HeldAlong(net, path)
      modifies net.destinations.Keys, net.subscriptions.Keys
      ensures Wired(net) && HeldAlong(net, path)
      ensures Streams(net) == Advance(old(Streams(net)), net.Receipts(this), sample)
      ensures Cells(net) == WriteOut(old(Cells(net)), net.Writes(this), sample)
      decreases Depth<InputPV>(net.destinations, this), 2
    {
      hide Dag, Advance, WriteOut, StreamsAfter, CellsAfter, Holding, Tick, Net.SubscribersOf;
      NotOnThePath(net.destinations, path, this);
      Enter(sample, net, path);
      PushToSubscribers(sample, net, path + [this]);
      PushToDestinations(sample, net, path);
      Leave(net, path);
      ForwardedStreams(net, old(Streams(net)), this, sample);
      ForwardedCells(net, old(Cells(net)), this, sample);
    }

    /** The part of a push before the lock is held. */
    method Enter(sample: Sample, ghost net: Net, ghost path: seq<InputPV>)
      requires Wired(net) && this in net.destinations && HeldAlong(net, path) && this !in path
      modifies this
      ensures Wired(net) && HeldAlong(net, path + [this])
      ensures Streams(net) == old(Streams(net))[this := Tick(old(State()), sample)]
      ensures Cells(net) == old(Cells(net))
    {
      hide Tick, Net.SubscribersOf;
      PushToPort(sample);
      Lock();
    }

    method Leave(ghost net: Net, ghost path: seq<InputPV>)
      requires Wired(net) && this in net.destinations && HeldAlong(net, path + [this]) && this !in path
      modifies this`locked
      ensures Wired(net) && HeldAlong(net, path)
      ensures Streams(net) == old(Streams(net)) && Cells(net) == old(Cells(net))
    {
      hide Net.SubscribersOf;
      Unlock();
    }

    method PushToDestinations(sample: Sample, ghost net: Net, ghost path: seq<InputPV>)
      requires Dag(net.destinations) && Wired(net) && this in net.destinations
      requires Leads(net.destinations, path, this) && HeldAlong(net, path + [this])
      modifies net.destinations.Keys, net.subscriptions.Keys
      ensures Wired(net) && HeldAlong(net, path + [this])
      ensures Streams(net) == StreamsAfter(net, old(Streams(net)), net.destinations[this], sample)
      ensures Cells(net) == CellsAfter(net, old(Cells(net)), net.destinations[this], sample)
      decreases Depth<InputPV>(net.destinations, this), 1
    {
      hide Depth, Acyclic, Leads, HeldAlong, Streams, Cells, StreamsAfter, CellsAfter, Net.SubscribersOf;
      AfterNone(net, old(Streams(net)), old(Cells(net)), sample);
      ghost var done := {};
      var rest := destinations;
      while rest != {}
        invariant Wired(net) && HeldAlong(net, path + [this])
        invariant done !! rest && done + rest == net.destinations[this]
        invariant Served(net, old(Streams(net)), old(Cells(net)), done, sample)
        decreases |rest|
      {
        var destination :| destination in rest;
        Forward(destination, sample, net, path, old(Streams(net)), old(Cells(net)), done);
        rest := rest - {destination};
        done := done + {destination};
      }
    }

    /** One destination: `done` are those that have been served since the given states. */
    method Forward(destination: InputPV, sample: Sample, ghost net: Net, ghost path: seq<InputPV>,
                   ghost streams: map<InputPV, Stream>, ghost cells: map<OutputPV, Cell>, ghost done: set<InputPV>)
      requires Dag(net.destinations) && Wired(net) && this in net.destinations
      requires Leads(net.destinations, path, this) && HeldAlong(net, path + [this])
      requires destination in net.destinations[this] && destination !in done
      requires Served(net, streams, cells, done, sample)
      modifies net.destinations.Keys, net.subscriptions.Keys
      ensures Wired(net) && HeldAlong(net, path + [this])
      ensures Served(net, streams, cells, done + {destination}, sample)
      decreases Depth<InputPV>(net.destinations, this), 0
    {
      DepthShrinks<InputPV>(net.destinations, this);
      LeadsOn(net.destinations, path, this, destination);
      AfterOneMore(net, streams, cells, done, destination, sample);
      hide Depth, Acyclic, Leads, HeldAlong, Streams, Cells, StreamsAfter, CellsAfter, Net.SubscribersOf;
      destination.Push(sample, net, path + [this]);
    }

    method PushToSubscribers(sample: Sample, ghost net: Net, ghost path: seq<InputPV>)
      requires Wired(net) && this in net.destinations && HeldAlong(net, path)
      modifies net.subscriptions.Keys
      ensures Wired(net) && HeldAlong(net, path) && Streams(net) == old(Streams(net))
      ensures Cells(net) == WriteOut(old(Cells(net)), Holding<InputPV, OutputPV>(net.subscriptions, this), sample)
    {
      var rest := subscribers;
      while rest != {}
        invariant rest <= subscribers
        invariant forall o :: o in net.subscriptions ==>
            o.Content() == Written(old(o.Content()), if o in subscribers - rest then 1 else 0, sample)
        decreases |rest|
      {
        var output :| output in rest;
        output.Write(sample);
        rest := rest - {output};
      }
    }
  }

  /** The inputs and outputs after a sample has been pushed into each of some inputs. */
  ghost function StreamsAfter(net: Net, streams: map<InputPV, Stream>, origins: set<InputPV>, sample: Sample)
    : map<InputPV, Stream>
    requires Dag(net.destinations) && origins <= net.destinations.Keys && streams.Keys == net.destinations.Keys
  {
    Advance(streams, ArriveFrom<InputPV, InputPV>(net.destinations, Selves(net.destinations.Keys), origins), sample)
  }

  ghost function CellsAfter(net: Net, cells: map<OutputPV, Cell>, origins: set<InputPV>, sample: Sample)
    : map<OutputPV, Cell>
    requires Dag(net.destinations) && origins <= net.destinations.Keys && cells.Keys == net.subscriptions.Keys
  {
    WriteOut(cells, ArriveFrom<InputPV, OutputPV>(net.destinations, net.subscriptions, origins), sample)
  }

  /** The sample has been pushed into each of some inputs since the given states. */
  ghost predicate Served(net: Net, streams: map<InputPV, Stream>, cells: map<OutputPV, Cell>, origins: set<InputPV>,
                         sample: Sample)
    reads net.destinations.Keys, net.subscriptions.Keys
  {
    && Dag(net.destinations) && origins <= net.destinations.Keys
    && streams.Keys == net.destinations.Keys && cells.Keys == net.subscriptions.Keys
    && Streams(net) == StreamsAfter(net, streams, origins, sample)
    && Cells(net) == CellsAfter(net, cells, origins, sample)
  }

  lemma AfterNone(net: Net, streams: map<InputPV, Stream>, cells: map<OutputPV, Cell>, sample: Sample)
    requires Dag(net.destinations) && streams.Keys == net.destinations.Keys && cells.Keys == net.subscriptions.Keys
    ensures StreamsAfter(net, streams, {}, sample) == streams && CellsAfter(net, cells, {}, sample) == cells
  {
  }

  lemma AfterOneMore(net: Net, streams: map<InputPV, Stream>, cells: map<OutputPV, Cell>, origins: set<InputPV>,
                     u: InputPV, sample: Sample)
    requires Dag(net.destinations) && streams.Keys == net.destinations.Keys && cells.Keys == net.subscriptions.Keys
    requires origins <= net.destinations.Keys && u in net.destinations && u !in origins
    ensures StreamsAfter(net, streams, origins + {u}, sample)
         == Advance(StreamsAfter(net, streams, origins, sample), net.Receipts(u), sample)
    ensures CellsAfter(net, cells, origins + {u}, sample)
         == WriteOut(CellsAfter(net, cells, origins, sample), net.Writes(u), sample)
  {
    var g, selves := net.destinations, Selves(net.destinations.Keys);
    ArriveFromGrows<InputPV, InputPV>(g, selves, origins, u);
    AdvanceTwice(streams, ArriveFrom<InputPV, InputPV>(g, selves, origins), Arrive<InputPV, InputPV>(g, selves, u),
                 sample);
    ArriveFromGrows<InputPV, OutputPV>(g, net.subscriptions, origins, u);
    WriteTwice(cells, ArriveFrom<InputPV, OutputPV>(g, net.subscriptions, origins),
               Arrive<InputPV, OutputPV>(g, net.subscriptions, u), sample);
  }

  /** A push steps u itself, then goes on to its destinations. */
  lemma ForwardedStreams(net: Net, streams: map<InputPV, Stream>, u: InputPV, sample: Sample)
    requires Dag(net.destinations) && u in net.destinations && streams.Keys == net.destinations.Keys
    ensures Advance(streams, net.Receipts(u), sample)
         == StreamsAfter(net, streams[u := Tick(streams[u], sample)], net.destinations[u], sample)
  {
    var g, selves := net.destinations, Selves(net.destinations.Keys);
    ArriveUnfolds<InputPV, InputPV>(g, selves, u);
    var onward := ArriveFrom<InputPV, InputPV>(g, selves, g[u]);
    AdvanceTwice(streams, Holding<InputPV, InputPV>(selves, u), onward, sample);
    AdvanceOne(streams, u, sample);
  }

  lemma AdvanceOne(streams: map<InputPV, Stream>, u: InputPV, sample: Sample)
    requires u in streams
    ensures Advance(streams, Holding<InputPV, InputPV>(Selves(streams.Keys), u), sample)
         == streams[u := Tick(streams[u], sample)]
  {
    forall v | v in streams
      ensures Advance(streams, Holding<InputPV, InputPV>(Selves(streams.Keys), u), sample)[v]
           == streams[u := Tick(streams[u], sample)][v]
    {
      OneTick(streams[v], sample);
    }
  }

  /** A push writes the subscribers of u, then goes on to its destinations. */
  lemma ForwardedCells(net: Net, cells: map<OutputPV, Cell>, u: InputPV, sample: Sample)
    requires Dag(net.destinations) && u in net.destinations && cells.Keys == net.subscriptions.Keys
    ensures WriteOut(cells, net.Writes(u), sample)
         == CellsAfter(net, WriteOut(cells, Holding<InputPV, OutputPV>(net.subscriptions, u), sample),
                       net.destinations[u], sample)
  {
    var g, ends := net.destinations, net.subscriptions;
    ArriveUnfolds<InputPV, OutputPV>(g, ends, u);
    WriteTwice(cells, Holding<InputPV, OutputPV>(ends, u), ArriveFrom<InputPV, OutputPV>(g, ends, g[u]), sample);
  }

  /** The objects are connected as the net says. */
  ghost predicate Wired(net: Net)
    reads net.destinations.Keys
  {
    forall v :: v in net.destinations ==>
      v.destinations == net.destinations[v] && v.subscribers == net.SubscribersOf(v)
  }

  /** The state of every input, and what every output holds. */
  ghost function Streams(net: Net): (streams: map<InputPV, Stream>)
    reads net.destinations.Keys
    ensures streams.Keys == net.destinations.Keys
  {
    map v | v in net.destinations :: v.State()
  }

  ghost function Cells(net: Net): (cells: map<OutputPV, Cell>)
    reads net.subscriptions.Keys
    ensures cells.Keys == net.subscriptions.Keys
  {
    map o | o in net.subscriptions :: o.Content()
  }

  /** The held locks are those of the inputs on the path. */
  ghost predicate HeldAlong(net: Net, path: seq<InputPV>)
    reads net.destinations.Keys
  {
    forall v :: v in net.destinations ==> (v.locked <==> v in path)
  }

  /** A chain of forwarding inputs that ends just before u. */
  ghost predicate Leads(g: Graph<InputPV>, path: seq<InputPV>, u: InputPV) {
    && (forall i :: 0 <= i < |path| ==> path[i] in g)
    && (forall i :: 0 <= i < |path| ==> (path + [u])[i + 1] in g[path[i]])
  }

  lemma LeadsFromItself(g: Graph<InputPV>, u: InputPV)
    ensures Leads(g, [], u)
  {
  }

  lemma LeadsOn(g: Graph<InputPV>, path: seq<InputPV>, u: InputPV, w: InputPV)
    requires Leads(g, path, u) && u in g && w in g[u]
    ensures Leads(g, path + [u], w)
  {
  }

  lemma {:induction false} PathReaches(g: Graph<InputPV>, path: seq<InputPV>, u: InputPV, i: nat)
    requires WellFormed(g) && u in g && Leads(g, path, u) && i <= |path|
    ensures u in Reach<InputPV>(g, (path + [u])[i])
    decreases |path| - i
  {
    if i == |path| {
    } else {
      var next := (path + [u])[i + 1];
      assert next in g[path[i]];
      PathReaches(g, path, u, i + 1);
      ReachIsLeast(g, next, Reach<InputPV>(g, path[i]));
    }
  }

  /** The lock that a push takes is not one of those held on the way to it. */
  lemma NotOnThePath(g: Graph<InputPV>, path: seq<InputPV>, u: InputPV)
    requires Dag(g) && u in g && Leads(g, path, u)
    ensures u !in path
  {
    forall i | 0 <= i < |path|
      ensures path[i] != u
    {
      PathReaches(g, path, u, i + 1);
      assert (path + [u])[i + 1] in g[path[i]];
      assert path[i] == u ==> ComesBack<InputPV>(g, u);
      assert u !in Looping<InputPV>(g);
    }
  }
}
